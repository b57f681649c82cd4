/**
 * The wrapper synthesis half of the tool: the `typeInfo`/`funcInfo` views of
 * a function type, the parameter and result lists handed to the code
 * builder, `simpleSignature`, the text fragments `generateWrapper` writes
 * into the wrapper's body, and `wrapperName`.
 *
 * The gowrtr builder that turns a `WrapperFunc` into source text, and
 * `types.TypeString`, are not part of this model; the latter is the
 * parameter `typeString`.
 */
module WrapperGen {
  import opened Wrappers
  import opened Text
  import opened GoTypes
  import opened Registry

  datatype TypeInfo = TypeInfo(name: string) {
    function String(): string { name }

    /** The `...T` spelling of a variadic `[]T`: the first two characters give way to "...". */
    function VariadicString(): (r: string)
      requires |name| >= 2
      ensures |r| == |name| + 1 && r[..3] == "..."
    {
      "..." + name[2..]
    }
  }

  lemma VariadicOfSlice(elem: string)
    ensures TypeInfo("[]" + elem).VariadicString() == "..." + elem
  {
    assert ("[]" + elem)[2..] == elem;
  }

  datatype FuncInfo = FuncInfo(variadic: bool, orig: TypeInfo, params: seq<TypeInfo>, results: seq<TypeInfo>)

  /** A variadic function has a last parameter, whose name is long enough to lose its "[]". */
  predicate WellFormed(fi: FuncInfo)
  {
    fi.variadic ==> |fi.params| > 0 && |fi.params[|fi.params| - 1].name| >= 2
  }

  /** `prefix + strconv.Itoa(i)` for i = 0 .. n-1. */
  function Numbered(prefix: string, n: nat): (names: seq<string>)
    ensures |names| == n
  {
    seq(n, i requires 0 <= i < n => prefix + NatToString(i))
  }

  lemma NumberedPlain(prefix: string, n: nat)
    requires prefix != "" && ',' !in prefix
    ensures PlainItems(Numbered(prefix, n))
  {
    forall i | 0 <= i < n
      ensures ',' !in Numbered(prefix, n)[i]
    {
      assert Numbered(prefix, n)[i] == prefix + NatToString(i);
    }
  }

  /** `prefix + Itoa(i)` names are pairwise distinct. */
  lemma NumberedDistinct(prefix: string, n: nat, i: nat, j: nat)
    requires i < n && j < n && i != j
    ensures Numbered(prefix, n)[i] != Numbered(prefix, n)[j]
  {
    var a, b := NatToString(i), NatToString(j);
    if prefix + a == prefix + b {
      assert a == (prefix + a)[|prefix|..];
      assert b == (prefix + b)[|prefix|..];
      NatToStringInjective(i, j);
    }
  }

  /** The type written for parameter `i`: spread syntax for the last one of a variadic function. */
  function ParamType(fi: FuncInfo, i: nat): string
    requires WellFormed(fi) && i < |fi.params|
  {
    if fi.variadic && i == |fi.params| - 1 then fi.params[i].VariadicString() else fi.params[i].String()
  }

  datatype FuncParameter = FuncParameter(name: string, typ: string)
  datatype FuncReturnType = FuncReturnType(typ: string, name: string)

  function Parameters(fi: FuncInfo): (ps: seq<FuncParameter>)
    requires WellFormed(fi)
    ensures |ps| == |fi.params|
  {
    seq(|fi.params|, i requires 0 <= i < |fi.params| =>
      FuncParameter(Numbered("p", |fi.params|)[i], ParamType(fi, i)))
  }

  function ReturnTypes(fi: FuncInfo): (rs: seq<FuncReturnType>)
    ensures |rs| == |fi.results|
  {
    seq(|fi.results|, i requires 0 <= i < |fi.results| =>
      FuncReturnType(fi.results[i].String(), Numbered("r", |fi.results|)[i]))
  }

  function ParamNames(ps: seq<FuncParameter>): (names: seq<string>)
    ensures |names| == |ps|
  {
    seq(|ps|, i requires 0 <= i < |ps| => ps[i].name)
  }

  function ResultNames(rs: seq<FuncReturnType>): (names: seq<string>)
    ensures |names| == |rs|
  {
    seq(|rs|, i requires 0 <= i < |rs| => rs[i].name)
  }

  /** `funcInfo.funcParameters`. */
  method FuncParameters(fi: FuncInfo) returns (ret: seq<FuncParameter>)
    requires WellFormed(fi)
    ensures ret == Parameters(fi)
  {
    var a := new FuncParameter[|fi.params|];
    for i := 0 to |fi.params|
      invariant forall k :: 0 <= k < i ==> a[k] == Parameters(fi)[k]
    {
      var typ := fi.params[i].String();
      if fi.variadic && i == |fi.params| - 1 {
        typ := fi.params[i].VariadicString();
      }
      a[i] := FuncParameter("p" + NatToString(i), typ);
    }
    ret := a[..];
  }

  /** `funcInfo.funcReturnTypes`. */
  method FuncReturnTypes(fi: FuncInfo) returns (ret: seq<FuncReturnType>)
    ensures ret == ReturnTypes(fi)
  {
    var a := new FuncReturnType[|fi.results|];
    for i := 0 to |fi.results|
      invariant forall k :: 0 <= k < i ==> a[k] == ReturnTypes(fi)[k]
    {
      a[i] := FuncReturnType(fi.results[i].String(), "r" + NatToString(i));
    }
    ret := a[..];
  }

  function ParamTypes(fi: FuncInfo): (ts: seq<string>)
    requires WellFormed(fi)
    ensures |ts| == |fi.params|
  {
    seq(|fi.params|, i requires 0 <= i < |fi.params| => ParamType(fi, i))
  }

  function ResultTypes(fi: FuncInfo): (ts: seq<string>)
    ensures |ts| == |fi.results|
  {
    seq(|fi.results|, i requires 0 <= i < |fi.results| => fi.results[i].String())
  }

  function SignatureText(fi: FuncInfo): string
    requires WellFormed(fi)
  {
    "func(" + Join(ParamTypes(fi)) + ") (" + Join(ResultTypes(fi)) + ")"
  }

  /** A builder's text after writing the first `i` items, each followed by ", " unless it is the last. */
  function Written(items: seq<string>, i: nat): string
    requires i <= |items|
  {
    Join(items[..i]) + (if 0 < i < |items| then ", " else "")
  }

  lemma WrittenStep(items: seq<string>, i: nat)
    requires i < |items|
    ensures Written(items, i) + items[i] + (if i < |items| - 1 then ", " else "") == Written(items, i + 1)
  {
    JoinPrefix(items, i);
  }

  lemma WrittenAll(items: seq<string>)
    ensures Written(items, |items|) == Join(items)
  {
    assert items[..|items|] == items;
  }

  /** `funcInfo.simpleSignature`. */
  method SimpleSignature(fi: FuncInfo) returns (s: string)
    requires WellFormed(fi)
    ensures s == SignatureText(fi)
  {
    ghost var pts, rts := ParamTypes(fi), ResultTypes(fi);
    var n, m := |fi.params|, |fi.results|;
    s := "func(";
    for i := 0 to n
      invariant s == "func(" + Written(pts, i)
    {
      var item := if fi.variadic && i == n - 1 then fi.params[i].VariadicString() else fi.params[i].String();
      assert item == pts[i];
      var sep := if i < n - 1 then ", " else "";
      WrittenStep(pts, i);
      s := s + item + sep;
    }
    WrittenAll(pts);
    s := s + ") (";
    ghost var head := s;
    for i := 0 to m
      invariant s == head + Written(rts, i)
    {
      var item := fi.results[i].String();
      assert item == rts[i];
      var sep := if i < m - 1 then ", " else "";
      WrittenStep(rts, i);
      s := s + item + sep;
    }
    WrittenAll(rts);
    s := s + ")";
  }

  /** The lists in the signature text are the types of the builder's parameters and results, in order. */
  lemma SignatureListsParameters(fi: FuncInfo)
    requires WellFormed(fi)
    ensures SignatureText(fi) ==
              "func(" + Join(seq(|fi.params|, i requires 0 <= i < |fi.params| => Parameters(fi)[i].typ)) +
              ") (" + Join(seq(|fi.results|, i requires 0 <= i < |fi.results| => ReturnTypes(fi)[i].typ)) + ")"
  {
    assert ParamTypes(fi) == seq(|fi.params|, i requires 0 <= i < |fi.params| => Parameters(fi)[i].typ);
    assert ResultTypes(fi) == seq(|fi.results|, i requires 0 <= i < |fi.results| => ReturnTypes(fi)[i].typ);
  }

  /** The comma-joined `prefix + Itoa(i)` list every body closure writes. */
  method NumberedList(prefix: string, n: nat) returns (s: string)
    ensures s == Join(Numbered(prefix, n))
  {
    s := "";
    for i := 0 to n
      invariant s == Join(Numbered(prefix, n)[..i])
    {
      JoinPrefix(Numbered(prefix, n), i);
      if i > 0 {
        s := s + ", ";
      }
      s := s + prefix + NatToString(i);
    }
    assert Numbered(prefix, n)[..n] == Numbered(prefix, n);
  }

  /** How many parameters go into `ps` one by one: all but a variadic tail. */
  function FixedCount(fi: FuncInfo): (k: nat)
    requires WellFormed(fi)
    ensures k <= |fi.params|
  {
    if fi.variadic then |fi.params| - 1 else |fi.params|
  }

  function PsText(fi: FuncInfo): string
    requires WellFormed(fi)
  {
    Join(Numbered("p", FixedCount(fi)))
  }

  /** The closure that fills `ps := []interface{}{...}`. */
  method PsList(fi: FuncInfo) returns (s: string)
    requires WellFormed(fi)
    ensures s == PsText(fi)
  {
    var length := |fi.params|;
    if fi.variadic {
      length := length - 1;
    }
    if length == 0 {
      return "";
    }
    s := NumberedList("p", length);
  }

  /** The statement that appends the variadic tail to `ps` element by element. */
  function SpreadLoop(fi: FuncInfo): (r: string)
    requires WellFormed(fi)
    ensures r != "" <==> fi.variadic
  {
    if !fi.variadic then ""
    else
      var last := NatToString(|fi.params| - 1);
      "for i := 0; i < len(p" + last + "); i++ { ps = append(ps, p" + last + "[i]) }"
  }

  function AssignText(fi: FuncInfo): string
  {
    if |fi.results| == 0 then "" else Join(Numbered("r", |fi.results|)) + " = "
  }

  /** The closure that writes `r0, ..., rm = ` before the forwarded call. */
  method AssignPrefix(fi: FuncInfo) returns (s: string)
    ensures s == AssignText(fi)
  {
    if |fi.results| == 0 {
      return "";
    }
    s := NumberedList("r", |fi.results|);
    s := s + " = ";
  }

  function ArgsText(fi: FuncInfo): string
  {
    if |fi.params| == 0 then ""
    else Join(Numbered("p", |fi.params|)) + (if fi.variadic then "..." else "")
  }

  /** The closure that writes the forwarded arguments `p0, ..., pn`, spread when variadic. */
  method ForwardArgs(fi: FuncInfo) returns (s: string)
    ensures s == ArgsText(fi)
  {
    if |fi.params| == 0 {
      return "";
    }
    s := NumberedList("p", |fi.params|);
    if fi.variadic {
      s := s + "...";
    }
  }

  function StopText(fi: FuncInfo): string
  {
    Join(Numbered("r", |fi.results|))
  }

  /** The closure that writes the results handed to `stopProfiling`. */
  method StopArgs(fi: FuncInfo) returns (s: string)
    ensures s == StopText(fi)
  {
    if |fi.results| == 0 {
      return "";
    }
    s := NumberedList("r", |fi.results|);
  }

  const CapturePointer: string := "pc := reflect.ValueOf(a).Pointer()"
  const CaptureName: string := "name := runtime.FuncForPC(pc).Name()"
  const StartProfiling: string := "p := _isuprofStartProfiling(name, ps...)"
  const ReturnStatement: string := "return"

  /** What the builder is given: name, parameters, named results, raw body statements. */
  datatype WrapperFunc = WrapperFunc(name: string, params: seq<FuncParameter>, results: seq<FuncReturnType>, body: seq<string>)

  function Wrapper(name: string, fi: FuncInfo): (w: WrapperFunc)
    requires WellFormed(fi)
    ensures |w.body| == 8
  {
    WrapperFunc(
      name,
      [FuncParameter("a", fi.orig.String())] + Parameters(fi),
      ReturnTypes(fi),
      [ CapturePointer,
        CaptureName,
        "ps := []interface{}{" + PsText(fi) + "}",
        SpreadLoop(fi),
        StartProfiling,
        AssignText(fi) + "a(" + ArgsText(fi) + ")",
        "p.stopProfiling(" + StopText(fi) + ")",
        ReturnStatement ])
  }

  /**
   * The wrapper's signature: `a` of the original type, then one parameter
   * per original parameter carrying that position's type, then one named
   * result per original result.
   */
  lemma WrapperSignature(name: string, fi: FuncInfo)
    requires WellFormed(fi)
    ensures var w := Wrapper(name, fi);
      && |w.params| == 1 + |fi.params|
      && w.params[0] == FuncParameter("a", fi.orig.name)
      && (forall i :: 0 <= i < |fi.params| ==> w.params[i + 1].typ == ParamType(fi, i))
      && |w.results| == |fi.results|
      && (forall i :: 0 <= i < |fi.results| ==> w.results[i].typ == fi.results[i].name)
  {
    var w := Wrapper(name, fi);
    forall i | 0 <= i < |fi.params|
      ensures w.params[i + 1].typ == ParamType(fi, i)
    {
      assert w.params[i + 1] == Parameters(fi)[i];
    }
  }

  /** No two parameters of a wrapper share a name. */
  lemma WrapperParamsDistinct(name: string, fi: FuncInfo)
    requires WellFormed(fi)
    ensures var w := Wrapper(name, fi);
      forall i, j :: 0 <= i < j < |w.params| ==> w.params[i].name != w.params[j].name
  {
    var ps := [FuncParameter("a", fi.orig.String())] + Parameters(fi);
    forall i, j | 0 <= i < j < |ps|
      ensures ps[i].name != ps[j].name
    {
      var pj := Numbered("p", |fi.params|)[j - 1];
      assert ps[j].name == pj;
      if i > 0 {
        assert ps[i].name == Numbered("p", |fi.params|)[i - 1];
        NumberedDistinct("p", |fi.params|, i - 1, j - 1);
      } else {
        assert pj[0] == 'p';
      }
    }
  }

  /** No two results of a wrapper share a name. */
  lemma WrapperResultsDistinct(name: string, fi: FuncInfo)
    requires WellFormed(fi)
    ensures var w := Wrapper(name, fi);
      forall i, j :: 0 <= i < j < |w.results| ==> w.results[i].name != w.results[j].name
  {
    var rs := ReturnTypes(fi);
    forall i, j | 0 <= i < j < |rs|
      ensures rs[i].name != rs[j].name
    {
      NumberedDistinct("r", |fi.results|, i, j);
    }
  }

  predicate IsSpread(s: string)
  {
    |s| >= 3 && s[..3] == "..."
  }

  /** Only the last parameter of a variadic function is written with "...". */
  lemma SpreadOnlyLast(fi: FuncInfo, i: nat)
    requires WellFormed(fi) && i < |fi.params|
    requires forall k :: 0 <= k < |fi.params| ==> !IsSpread(fi.params[k].name)
    ensures IsSpread(ParamType(fi, i)) <==> fi.variadic && i == |fi.params| - 1
  {
  }

  /** `ps` names exactly the parameters before a variadic tail, in order. */
  lemma PsNamesFixedParameters(fi: FuncInfo)
    requires WellFormed(fi)
    ensures SplitList(PsText(fi)) == ParamNames(Parameters(fi))[..FixedCount(fi)]
  {
    NumberedPlain("p", FixedCount(fi));
    SplitJoin(Numbered("p", FixedCount(fi)));
    assert Numbered("p", FixedCount(fi)) == ParamNames(Parameters(fi))[..FixedCount(fi)];
  }

  /** The tail loop walks the last parameter, the one written `...T`. */
  lemma SpreadLoopWalksTail(fi: FuncInfo)
    requires WellFormed(fi)
    ensures !fi.variadic ==> SpreadLoop(fi) == ""
    ensures fi.variadic ==>
      var last := Parameters(fi)[|fi.params| - 1];
      && IsSpread(last.typ)
      && SpreadLoop(fi) == "for i := 0; i < len(" + last.name + "); i++ { ps = append(ps, " + last.name + "[i]) }"
  {
  }

  /**
   * The forwarded call passes every wrapper parameter after `a`, once each,
   * in order, and spreads the last one exactly when the function is variadic.
   */
  lemma ForwardsEveryParameter(fi: FuncInfo)
    requires WellFormed(fi)
    ensures var names := ParamNames(Parameters(fi));
      && ArgsText(fi) == Join(names) + (if fi.variadic then "..." else "")
      && SplitList(Join(names)) == names
  {
    var names := ParamNames(Parameters(fi));
    assert names == Numbered("p", |fi.params|);
    NumberedPlain("p", |fi.params|);
    SplitJoin(names);
  }

  /**
   * The forwarded call assigns exactly the named results, in order, and the
   * same names are handed to `stopProfiling`; with no results nothing is assigned.
   */
  lemma ResultsFlowThrough(fi: FuncInfo)
    ensures var names := ResultNames(ReturnTypes(fi));
      && SplitList(StopText(fi)) == names
      && AssignText(fi) == (if names == [] then "" else StopText(fi) + " = ")
  {
    var names := ResultNames(ReturnTypes(fi));
    assert names == Numbered("r", |fi.results|);
    NumberedPlain("r", |fi.results|);
    SplitJoin(names);
  }

  /** `log.Fatalln("Unexpected non-function")`. */
  datatype GenError = UnexpectedNonFunction

  /** An arbitrary `types.TypeString`: renders a type under a qualifier. */
  type TypeString = (TypeExpr, Package -> string) -> string

  /** The one thing assumed of `types.TypeString`: a slice `[]T` is written "[]" then `T`. */
  ghost predicate SliceRendering(typeString: TypeString)
  {
    forall e, q :: typeString(Slice(e), q) == "[]" + typeString(e, q)
  }

  function FuncInfoOf(typeString: TypeString, qualifier: Package -> string, t: TypeExpr): Result<FuncInfo, GenError>
  {
    var sig := Underlying(t);
    if !sig.Signature? then Err(UnexpectedNonFunction)
    else
      var ps := Params(sig);
      Ok(FuncInfo(
        sig.tail.Some?,
        TypeInfo(typeString(t, qualifier)),
        seq(|ps|, i requires 0 <= i < |ps| => TypeInfo(typeString(ps[i], qualifier))),
        seq(|sig.results|, i requires 0 <= i < |sig.results| => TypeInfo(typeString(sig.results[i], qualifier)))))
  }

  /** `infoResolver.resolveFuncInfo`. */
  method ResolveFuncInfo(typeString: TypeString, qualifier: Package -> string, t: TypeExpr)
    returns (r: Result<FuncInfo, GenError>)
    ensures r == FuncInfoOf(typeString, qualifier, t)
  {
    var sig := Underlying(t);
    if !sig.Signature? {
      return Err(UnexpectedNonFunction);
    }
    var ps := Params(sig);
    var params := new TypeInfo[|ps|];
    var results := new TypeInfo[|sig.results|];
    for i := 0 to |ps|
      invariant forall k :: 0 <= k < i ==> params[k] == TypeInfo(typeString(ps[k], qualifier))
    {
      params[i] := TypeInfo(typeString(ps[i], qualifier));
    }
    var paramInfos := params[..];
    assert paramInfos == seq(|ps|, i requires 0 <= i < |ps| => TypeInfo(typeString(ps[i], qualifier)));
    for i := 0 to |sig.results|
      invariant forall k :: 0 <= k < i ==> results[k] == TypeInfo(typeString(sig.results[k], qualifier))
    {
      results[i] := TypeInfo(typeString(sig.results[i], qualifier));
    }
    assert results[..] ==
      seq(|sig.results|, i requires 0 <= i < |sig.results| => TypeInfo(typeString(sig.results[i], qualifier)));
    r := Ok(FuncInfo(sig.tail.Some?, TypeInfo(typeString(t, qualifier)), paramInfos, results[..]));
  }

  /**
   * A resolved function type is well formed, and its wrapper parameters carry
   * the rendered parameter types, the variadic tail as "..." and its element type.
   */
  lemma ResolvedParameters(typeString: TypeString, qualifier: Package -> string, t: TypeExpr)
    requires SliceRendering(typeString)
    requires FuncInfoOf(typeString, qualifier, t).Ok?
    ensures var fi := FuncInfoOf(typeString, qualifier, t).value;
      var sig := Underlying(t);
      && WellFormed(fi)
      && fi.variadic == sig.tail.Some?
      && |fi.params| == |sig.fixed| + (if fi.variadic then 1 else 0)
      && (forall i :: 0 <= i < |sig.fixed| ==> Parameters(fi)[i].typ == typeString(sig.fixed[i], qualifier))
      && (fi.variadic ==>
            Parameters(fi)[|sig.fixed|].typ == "..." + typeString(sig.tail.value, qualifier))
  {
    var fi := FuncInfoOf(typeString, qualifier, t).value;
    var sig := Underlying(t);
    if sig.tail.Some? {
      var last := fi.params[|fi.params| - 1].name;
      assert last == typeString(Slice(sig.tail.value), qualifier);
      assert last == "[]" + typeString(sig.tail.value, qualifier);
      VariadicOfSlice(typeString(sig.tail.value, qualifier));
    }
  }

  function Generated(typeString: TypeString, qualifier: Package -> string, name: string, t: TypeExpr)
    : Result<WrapperFunc, GenError>
    requires SliceRendering(typeString)
  {
    match FuncInfoOf(typeString, qualifier, t)
    case Err(e) => Err(e)
    case Ok(fi) =>
      ResolvedParameters(typeString, qualifier, t);
      Ok(Wrapper(name, fi))
  }

  /** `infoResolver.generateWrapper`, up to handing the function to the builder. */
  method GenerateWrapper(typeString: TypeString, qualifier: Package -> string, name: string, t: TypeExpr)
    returns (r: Result<WrapperFunc, GenError>)
    requires SliceRendering(typeString)
    ensures r == Generated(typeString, qualifier, name, t)
  {
    var info := ResolveFuncInfo(typeString, qualifier, t);
    if info.Err? {
      return Err(info.error);
    }
    var fi := info.value;
    ResolvedParameters(typeString, qualifier, t);
    var params := FuncParameters(fi);
    var results := FuncReturnTypes(fi);
    var ps := PsList(fi);
    var assign := AssignPrefix(fi);
    var args := ForwardArgs(fi);
    var stop := StopArgs(fi);
    r := Ok(WrapperFunc(
      name,
      [FuncParameter("a", fi.orig.String())] + params,
      results,
      [ CapturePointer,
        CaptureName,
        "ps := []interface{}{" + ps + "}",
        SpreadLoop(fi),
        StartProfiling,
        assign + "a(" + args + ")",
        "p.stopProfiling(" + stop + ")",
        ReturnStatement ]));
  }

  const WrapperPrefix: string := "_isuprofWrapper"

  /** `wrapperName`. */
  function WrapperName(hash: Id): (r: string)
    ensures |r| > |WrapperPrefix| && r[..|WrapperPrefix|] == WrapperPrefix
  {
    WrapperPrefix + NatToString(hash)
  }

  /** Reads an id back from a wrapper name. */
  function ParseWrapperName(s: string): Option<Id>
  {
    if |s| < |WrapperPrefix| || s[..|WrapperPrefix|] != WrapperPrefix then None
    else
      match ParseNat(s[|WrapperPrefix|..])
      case Some(v) => if v < HashSpace then Some(v) else None
      case None => None
  }

  lemma WrapperNameRoundTrip(hash: Id)
    ensures ParseWrapperName(WrapperName(hash)) == Some(hash)
  {
    var s := WrapperName(hash);
    assert s[..|WrapperPrefix|] == WrapperPrefix;
    assert s[|WrapperPrefix|..] == NatToString(hash);
    ParseNatToString(hash);
  }

  /** Different ids never share a wrapper name. */
  lemma WrapperNameInjective(a: Id, b: Id)
    ensures WrapperName(a) == WrapperName(b) <==> a == b
  {
    WrapperNameRoundTrip(a);
    WrapperNameRoundTrip(b);
  }
}
