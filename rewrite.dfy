/**
 * The rewriting pass: every call whose callee is a function value is turned
 * into a call of the wrapper generated for the callee's type, the callee
 * itself becoming the wrapper's first argument.
 */
module Rewrite {
  import opened Wrappers
  import opened Text
  import opened GoTypes
  import opened Registry
  import opened WrapperGen

  /**
   * The part of a Go syntax tree the pass looks at. `pos` is the node's
   * position in the file; 0 is `token.NoPos`, the position of every node the
   * pass builds. `Node` stands for every other kind of node, with its
   * children in walking order (a file, a declaration, a block, a binary
   * expression, ...). A call's `spread` says whether its last argument is
   * followed by `...` (its `Ellipsis` position is valid).
   */
  datatype Expr =
    | Ident(pos: nat, name: string)
    | BasicLit(pos: nat, value: string)
    | Call(pos: nat, fun: Expr, args: seq<Expr>, spread: bool)
    | Node(pos: nat, kind: string, children: seq<Expr>)

  /**
   * What the pass reads: `info.Types` (keyed by callee expression), the
   * hasher's hash function, `types.TypeString` and the resolver's qualifier.
   */
  datatype Env = Env(
    types: map<Expr, TypeAndValue>,
    hashOf: TypeExpr -> Id,
    typeString: TypeString,
    qualifier: Package -> string)

  /** What the pass updates: the hasher's maps and `funcDecls`. */
  datatype St = St(tab: Table, decls: map<Id, WrapperFunc>)

  /** The program stops: the hasher panics, or `generateWrapper` fails and `log.Fatal` is called. */
  datatype Fatal = Collisions(panic: Panic) | Generation(error: GenError)

  /**
   * How a call is replaced. `AsWritten` is what the pass does: the
   * replacement carries no `...`, and `astutil.Apply` walks the children of
   * the node that was replaced, not of the replacement. `Corrected` copies
   * the call's `...` into the replacement and walks the children as they
   * sit in the replacement.
   */
  datatype Mode = AsWritten | Corrected

  /** The callback rewrites a call exactly when its callee has a type entry that is a value. */
  predicate Eligible(types: map<Expr, TypeAndValue>, e: Expr)
  {
    e.Call? && e.fun in types && types[e.fun].isValue
  }

  /** The call the callback puts in place of a call: `_isuprofWrapperN(callee, args...)`. */
  function WrapperCall(id: Id, callee: Expr, args: seq<Expr>, spread: bool): Expr
  {
    Call(0, Ident(0, WrapperName(id)), [callee] + args, spread)
  }

  datatype Step = Step(st: St, wrap: Option<Id>)

  /**
   * The callback's bookkeeping at one node: for an eligible call, hash the
   * callee's type and generate its wrapper if none exists for that id.
   */
  function Callback(env: Env, st: St, e: Expr): (r: Result<Step, Fatal>)
    requires SliceRendering(env.typeString)
    ensures r.Ok? ==> (r.value.wrap.Some? <==> Eligible(env.types, e))
    ensures r.Err? ==> Eligible(env.types, e)
  {
    if !Eligible(env.types, e) then Ok(Step(st, None))
    else
      var t := env.types[e.fun].typ;
      var h := GetOrCreate(env.hashOf, st.tab, t);
      match h.result
      case Err(p) => Err(Collisions(p))
      case Ok(id) =>
        if id in st.decls then Ok(Step(St(h.tab, st.decls), Some(id)))
        else
          match Generated(env.typeString, env.qualifier, WrapperName(id), t.expr)
          case Err(g) => Err(Generation(g))
          case Ok(w) => Ok(Step(St(h.tab, st.decls[id := w]), Some(id)))
  }

  /**
   * A walked subtree: the state after it, what its parent's slot holds
   * afterwards (`placed`), and the subtree's own node with its child slots
   * rewritten (`node`).
   */
  datatype Walked = Walked(st: St, placed: Expr, node: Expr)
  datatype WalkedList = WalkedList(st: St, placed: seq<Expr>, nodes: seq<Expr>)

  /** `astutil.Apply` with the callback as its pre-order function: the node first, then its children in order. */
  function Walk(env: Env, mode: Mode, st: St, e: Expr): (r: Result<Walked, Fatal>)
    requires SliceRendering(env.typeString)
    ensures r.Ok? ==> r.value.node.pos == e.pos
    ensures r.Ok? && !Eligible(env.types, e) ==> r.value.placed == r.value.node
    decreases e
  {
    var step :- Callback(env, st, e);
    match e
    case Ident(_, _) => Ok(Walked(step.st, e, e))
    case BasicLit(_, _) => Ok(Walked(step.st, e, e))
    case Node(pos, kind, children) =>
      var cs :- WalkList(env, mode, step.st, children);
      Ok(Walked(cs.st, Node(pos, kind, cs.placed), Node(pos, kind, cs.placed)))
    case Call(pos, fun, args, spread) =>
      var fw :- Walk(env, mode, step.st, fun);
      var aw :- WalkList(env, mode, fw.st, args);
      var node := Call(pos, fw.placed, aw.placed, spread);
      var placed :=
        if step.wrap.None? then node
        else if mode == Corrected then WrapperCall(step.wrap.value, fw.placed, aw.placed, spread)
        else WrapperCall(step.wrap.value, fw.node, aw.nodes, false);
      Ok(Walked(aw.st, placed, node))
  }

  function WalkList(env: Env, mode: Mode, st: St, es: seq<Expr>): (r: Result<WalkedList, Fatal>)
    requires SliceRendering(env.typeString)
    ensures r.Ok? ==> |r.value.placed| == |es| && |r.value.nodes| == |es|
    decreases es
  {
    if es == [] then Ok(WalkedList(st, [], []))
    else
      var w :- Walk(env, mode, st, es[0]);
      var ws :- WalkList(env, mode, w.st, es[1..]);
      Ok(WalkedList(ws.st, [w.placed] + ws.placed, [w.node] + ws.nodes))
  }

  // ----- the invariant: one wrapper per registered id -----

  /**
   * The hasher is consistent, `funcDecls` holds exactly the registered ids,
   * and each holds the wrapper generated for its slot's type under its name.
   */
  ghost predicate Registered(env: Env, st: St)
  {
    && SliceRendering(env.typeString)
    && Consistent(env.hashOf, st.tab)
    && st.decls.Keys == st.tab.backward.Keys
    && forall id :: id in st.decls ==>
         Generated(env.typeString, env.qualifier, WrapperName(id), st.tab.backward[id].expr) == Ok(st.decls[id])
  }

  /** Declarations and cached ids are only ever added, never changed. */
  ghost predicate Grows(st: St, st': St)
  {
    && st.decls.Keys <= st'.decls.Keys
    && (forall id :: id in st.decls ==> st'.decls[id] == st.decls[id])
    && (forall t :: t in st.tab.forward ==> t in st'.tab.forward && st'.tab.forward[t] == st.tab.forward[t])
  }

  lemma EmptyRegistered(env: Env)
    requires SliceRendering(env.typeString)
    ensures Registered(env, St(Empty(), map[]))
  {
    EmptyValid(env.hashOf);
  }

  /** A slot's id whose hash call added no slot keeps its declaration valid. */
  lemma SameSlotsRegistered(env: Env, st: St, tab: Table)
    requires Registered(env, st)
    requires Consistent(env.hashOf, tab) && tab.backward == st.tab.backward
    ensures Registered(env, St(tab, st.decls))
  {
  }

  /** Declaring the wrapper of the type just written into a new slot keeps the invariant. */
  lemma NewSlotRegistered(env: Env, st: St, tab: Table, id: Id, t: TypeValue, w: WrapperFunc)
    requires Registered(env, st)
    requires Consistent(env.hashOf, tab) && id !in st.tab.backward && tab.backward == st.tab.backward[id := t]
    requires Generated(env.typeString, env.qualifier, WrapperName(id), t.expr) == Ok(w)
    ensures Registered(env, St(tab, st.decls[id := w]))
  {
    var decls := st.decls[id := w];
    forall i | i in decls
      ensures Generated(env.typeString, env.qualifier, WrapperName(i), tab.backward[i].expr) == Ok(decls[i])
    {
      if i != id {
        assert tab.backward[i] == st.tab.backward[i];
      }
    }
  }

  /** Whatever the invariant, the callback only adds declarations and cached ids, and the id it returns is declared. */
  lemma CallbackRecords(env: Env, st: St, e: Expr)
    requires SliceRendering(env.typeString)
    ensures Callback(env, st, e).Ok? ==>
      var step := Callback(env, st, e).value;
      && Grows(st, step.st)
      && step.st.decls.Keys == st.decls.Keys + (if step.wrap.Some? then {step.wrap.value} else {})
  {
    if Eligible(env.types, e) {
      HashKeepsCache(env.hashOf, st.tab, env.types[e.fun].typ);
    }
  }

  /**
   * The callback keeps the invariant; it rewrites exactly the eligible calls;
   * a skipped node changes nothing; a rewritten call's id is the one cached
   * for the callee's type, its slot holds a type identical to the callee's,
   * and its declaration is the wrapper generated for that slot's type (the
   * first type to get the id, whose parameter names the wrapper's `a` shows).
   * It fails only on an eligible call, with a panic exactly when hashing panics.
   */
  lemma CallbackSound(env: Env, st: St, e: Expr)
    requires Registered(env, st)
    ensures match Callback(env, st, e)
      case Ok(step) =>
        && Registered(env, step.st)
        && (step.wrap.Some? <==> Eligible(env.types, e))
        && (!Eligible(env.types, e) ==> step.st == st)
        && (step.wrap.Some? ==>
              var id := step.wrap.value;
              var t := env.types[e.fun].typ;
              && id in step.st.decls
              && t in step.st.tab.forward && step.st.tab.forward[t] == id
              && Identical(step.st.tab.backward[id], t)
              && Generated(env.typeString, env.qualifier, WrapperName(id), step.st.tab.backward[id].expr)
                 == Ok(step.st.decls[id]))
      case Err(f) =>
        && Eligible(env.types, e)
        && (f.Collisions? <==> GetOrCreate(env.hashOf, st.tab, env.types[e.fun].typ).result.Err?)
  {
    if Eligible(env.types, e) {
      var t := env.types[e.fun].typ;
      HashSound(env.hashOf, st.tab, t);
      var h := GetOrCreate(env.hashOf, st.tab, t);
      if h.result.Ok? {
        var id := h.result.value;
        if id in st.decls {
          assert h.tab.backward == st.tab.backward;
          SameSlotsRegistered(env, st, h.tab);
        } else {
          assert h.tab.backward == st.tab.backward[id := t];
          var g := Generated(env.typeString, env.qualifier, WrapperName(id), t.expr);
          if g.Ok? {
            NewSlotRegistered(env, st, h.tab, id, t, g.value);
          }
        }
      }
    }
  }

  /** The whole walk keeps the invariant and only adds declarations. */
  lemma {:induction false} WalkKeepsRegistered(env: Env, mode: Mode, st: St, e: Expr)
    requires Registered(env, st)
    ensures Walk(env, mode, st, e).Ok? ==> Registered(env, Walk(env, mode, st, e).value.st)
    decreases e
  {
    CallbackSound(env, st, e);
    match Callback(env, st, e)
    case Err(_) =>
    case Ok(step) =>
      match e
      case Ident(_, _) =>
      case BasicLit(_, _) =>
      case Node(_, _, children) =>
        WalkListKeepsRegistered(env, mode, step.st, children);
      case Call(_, fun, args, _) =>
        WalkKeepsRegistered(env, mode, step.st, fun);
        if Walk(env, mode, step.st, fun).Ok? {
          WalkListKeepsRegistered(env, mode, Walk(env, mode, step.st, fun).value.st, args);
        }
  }

  lemma {:induction false} WalkListKeepsRegistered(env: Env, mode: Mode, st: St, es: seq<Expr>)
    requires Registered(env, st)
    ensures WalkList(env, mode, st, es).Ok? ==> Registered(env, WalkList(env, mode, st, es).value.st)
    decreases es
  {
    if es != [] {
      WalkKeepsRegistered(env, mode, st, es[0]);
      if Walk(env, mode, st, es[0]).Ok? {
        WalkListKeepsRegistered(env, mode, Walk(env, mode, st, es[0]).value.st, es[1..]);
      }
    }
  }

  /** A walk only adds declarations and cached ids. */
  lemma {:induction false} WalkGrows(env: Env, mode: Mode, st: St, e: Expr)
    requires SliceRendering(env.typeString)
    ensures Walk(env, mode, st, e).Ok? ==> Grows(st, Walk(env, mode, st, e).value.st)
    decreases e
  {
    CallbackRecords(env, st, e);
    match Callback(env, st, e)
    case Err(_) =>
    case Ok(step) =>
      match e
      case Ident(_, _) =>
      case BasicLit(_, _) =>
      case Node(_, _, children) =>
        WalkListGrows(env, mode, step.st, children);
      case Call(_, fun, args, _) =>
        WalkGrows(env, mode, step.st, fun);
        if Walk(env, mode, step.st, fun).Ok? {
          WalkListGrows(env, mode, Walk(env, mode, step.st, fun).value.st, args);
        }
  }

  lemma {:induction false} WalkListGrows(env: Env, mode: Mode, st: St, es: seq<Expr>)
    requires SliceRendering(env.typeString)
    ensures WalkList(env, mode, st, es).Ok? ==> Grows(st, WalkList(env, mode, st, es).value.st)
    decreases es
  {
    if es != [] {
      WalkGrows(env, mode, st, es[0]);
      if Walk(env, mode, st, es[0]).Ok? {
        WalkListGrows(env, mode, Walk(env, mode, st, es[0]).value.st, es[1..]);
      }
    }
  }

  // ----- the two modes number and declare alike -----

  function StateOf(r: Result<Walked, Fatal>): Result<St, Fatal>
  {
    match r
    case Ok(w) => Ok(w.st)
    case Err(f) => Err(f)
  }

  function StatesOf(r: Result<WalkedList, Fatal>): Result<St, Fatal>
  {
    match r
    case Ok(w) => Ok(w.st)
    case Err(f) => Err(f)
  }

  /** Which tree is walked after a replacement changes neither the ids, the declarations nor the failures. */
  lemma {:induction false} ModesAgree(env: Env, st: St, e: Expr)
    requires SliceRendering(env.typeString)
    ensures StateOf(Walk(env, AsWritten, st, e)) == StateOf(Walk(env, Corrected, st, e))
    decreases e
  {
    match Callback(env, st, e)
    case Err(_) =>
    case Ok(step) =>
      match e
      case Ident(_, _) =>
      case BasicLit(_, _) =>
      case Node(_, _, children) =>
        ModesAgreeList(env, step.st, children);
      case Call(_, fun, args, _) =>
        ModesAgree(env, step.st, fun);
        if Walk(env, Corrected, step.st, fun).Ok? {
          ModesAgreeList(env, Walk(env, Corrected, step.st, fun).value.st, args);
        }
  }

  lemma {:induction false} ModesAgreeList(env: Env, st: St, es: seq<Expr>)
    requires SliceRendering(env.typeString)
    ensures StatesOf(WalkList(env, AsWritten, st, es)) == StatesOf(WalkList(env, Corrected, st, es))
    decreases es
  {
    if es != [] {
      ModesAgree(env, st, es[0]);
      if Walk(env, Corrected, st, es[0]).Ok? {
        ModesAgreeList(env, Walk(env, Corrected, st, es[0]).value.st, es[1..]);
      }
    }
  }

  // ----- nothing but wrapping: erasing the wrappers gives the program back -----

  /** Every node of a parsed file has a real position. */
  predicate Positioned(e: Expr)
    decreases e
  {
    match e
    case Ident(pos, _) => pos > 0
    case BasicLit(pos, _) => pos > 0
    case Call(pos, fun, args, _) => pos > 0 && Positioned(fun) && PositionedList(args)
    case Node(pos, _, children) => pos > 0 && PositionedList(children)
  }

  predicate PositionedList(es: seq<Expr>)
    decreases es
  {
    es == [] || (Positioned(es[0]) && PositionedList(es[1..]))
  }

  /** No call in the tree spreads its last argument. */
  predicate SpreadFree(e: Expr)
    decreases e
  {
    match e
    case Ident(_, _) => true
    case BasicLit(_, _) => true
    case Call(_, fun, args, spread) => !spread && SpreadFree(fun) && SpreadFreeList(args)
    case Node(_, _, children) => SpreadFreeList(children)
  }

  predicate SpreadFreeList(es: seq<Expr>)
    decreases es
  {
    es == [] || (SpreadFree(es[0]) && SpreadFreeList(es[1..]))
  }

  /** A call the pass built: no position, a wrapper name as callee, the original callee first. */
  predicate IsWrapperCall(e: Expr)
  {
    && e.Call? && e.pos == 0 && e.fun.Ident? && e.fun.pos == 0
    && ParseWrapperName(e.fun.name).Some? && |e.args| >= 1
  }

  /** The tree with every position dropped. */
  function Strip(e: Expr): Expr
    decreases e
  {
    match e
    case Ident(_, n) => Ident(0, n)
    case BasicLit(_, v) => BasicLit(0, v)
    case Call(_, fun, args, spread) => Call(0, Strip(fun), StripList(args), spread)
    case Node(_, k, children) => Node(0, k, StripList(children))
  }

  function StripList(es: seq<Expr>): seq<Expr>
    decreases es
  {
    if es == [] then [] else [Strip(es[0])] + StripList(es[1..])
  }

  /** The tree with positions dropped and every wrapper call turned back into a call of its first argument. */
  function Erase(e: Expr): Expr
    decreases e
  {
    match e
    case Ident(_, n) => Ident(0, n)
    case BasicLit(_, v) => BasicLit(0, v)
    case Call(_, fun, args, spread) =>
      if IsWrapperCall(e) then Call(0, Erase(args[0]), EraseList(args[1..]), spread)
      else Call(0, Erase(fun), EraseList(args), spread)
    case Node(_, k, children) => Node(0, k, EraseList(children))
  }

  function EraseList(es: seq<Expr>): seq<Expr>
    decreases es
  {
    if es == [] then [] else [Erase(es[0])] + EraseList(es[1..])
  }

  lemma EraseWrapperCall(id: Id, callee: Expr, args: seq<Expr>, spread: bool)
    ensures Erase(WrapperCall(id, callee, args, spread)) == Call(0, Erase(callee), EraseList(args), spread)
  {
    WrapperNameRoundTrip(id);
    var w := WrapperCall(id, callee, args, spread);
    assert IsWrapperCall(w);
    assert w.args[0] == callee && w.args[1..] == args;
  }

  /**
   * Round trip: removing the wrappers from the rewritten tree gives the
   * original tree back, up to positions, when the walk goes into the
   * replacement and copies `...`; as written, when the tree has no `...`.
   */
  lemma {:induction false} EraseWalk(env: Env, mode: Mode, st: St, e: Expr)
    requires SliceRendering(env.typeString)
    requires Positioned(e)
    requires mode == Corrected || SpreadFree(e)
    requires Walk(env, mode, st, e).Ok?
    ensures Erase(Walk(env, mode, st, e).value.placed) == Strip(e)
    ensures Erase(Walk(env, mode, st, e).value.node) == Strip(e)
    decreases e
  {
    var step := Callback(env, st, e).value;
    match e
    case Ident(_, _) =>
    case BasicLit(_, _) =>
    case Node(_, _, children) =>
      EraseWalkList(env, mode, step.st, children);
    case Call(_, fun, args, _) =>
      var fw := Walk(env, mode, step.st, fun).value;
      var aw := WalkList(env, mode, fw.st, args).value;
      EraseWalk(env, mode, step.st, fun);
      EraseWalkList(env, mode, fw.st, args);
      if step.wrap.Some? {
        EraseWrapperCall(step.wrap.value, fw.placed, aw.placed, e.spread);
        EraseWrapperCall(step.wrap.value, fw.node, aw.nodes, false);
      }
  }

  lemma {:induction false} EraseWalkList(env: Env, mode: Mode, st: St, es: seq<Expr>)
    requires SliceRendering(env.typeString)
    requires PositionedList(es)
    requires mode == Corrected || SpreadFreeList(es)
    requires WalkList(env, mode, st, es).Ok?
    ensures EraseList(WalkList(env, mode, st, es).value.placed) == StripList(es)
    ensures EraseList(WalkList(env, mode, st, es).value.nodes) == StripList(es)
    decreases es
  {
    if es != [] {
      var w := Walk(env, mode, st, es[0]).value;
      var ws := WalkList(env, mode, w.st, es[1..]).value;
      EraseWalk(env, mode, st, es[0]);
      EraseWalkList(env, mode, w.st, es[1..]);
      assert ([w.placed] + ws.placed)[0] == w.placed && ([w.placed] + ws.placed)[1..] == ws.placed;
      assert ([w.node] + ws.nodes)[0] == w.node && ([w.node] + ws.nodes)[1..] == ws.nodes;
    }
  }

  // ----- every eligible call is wrapped -----

  /** Number of wrapper calls in a tree. */
  function Wrapped(e: Expr): nat
    decreases e
  {
    match e
    case Ident(_, _) => 0
    case BasicLit(_, _) => 0
    case Call(_, fun, args, _) => (if IsWrapperCall(e) then 1 else 0) + Wrapped(fun) + WrappedList(args)
    case Node(_, _, children) => WrappedList(children)
  }

  function WrappedList(es: seq<Expr>): nat
    decreases es
  {
    if es == [] then 0 else Wrapped(es[0]) + WrappedList(es[1..])
  }

  /** Number of calls in a tree that the callback rewrites. */
  function EligibleCount(types: map<Expr, TypeAndValue>, e: Expr): nat
    decreases e
  {
    match e
    case Ident(_, _) => 0
    case BasicLit(_, _) => 0
    case Call(_, fun, args, _) =>
      (if Eligible(types, e) then 1 else 0) + EligibleCount(types, fun) + EligibleCountList(types, args)
    case Node(_, _, children) => EligibleCountList(types, children)
  }

  function EligibleCountList(types: map<Expr, TypeAndValue>, es: seq<Expr>): nat
    decreases es
  {
    if es == [] then 0 else EligibleCount(types, es[0]) + EligibleCountList(types, es[1..])
  }

  lemma WrappedWrapperCall(id: Id, callee: Expr, args: seq<Expr>, spread: bool)
    ensures Wrapped(WrapperCall(id, callee, args, spread)) == 1 + Wrapped(callee) + WrappedList(args)
  {
    WrapperNameRoundTrip(id);
    var w := WrapperCall(id, callee, args, spread);
    assert IsWrapperCall(w);
    assert w.args[0] == callee && w.args[1..] == args;
  }

  /**
   * With the walk going into the replacement, the rewritten tree holds one
   * wrapper call per eligible call of the original (its own node holds one
   * fewer when it was itself rewritten).
   */
  lemma {:induction false} WrapsEveryEligibleCall(env: Env, st: St, e: Expr)
    requires SliceRendering(env.typeString)
    requires Positioned(e)
    requires Walk(env, Corrected, st, e).Ok?
    ensures Wrapped(Walk(env, Corrected, st, e).value.placed) == EligibleCount(env.types, e)
    ensures Wrapped(Walk(env, Corrected, st, e).value.node) + (if Eligible(env.types, e) then 1 else 0)
            == EligibleCount(env.types, e)
    decreases e
  {
    var step := Callback(env, st, e).value;
    match e
    case Ident(_, _) =>
    case BasicLit(_, _) =>
    case Node(_, _, children) =>
      WrapsEveryEligibleCallList(env, step.st, children);
    case Call(_, fun, args, _) =>
      var fw := Walk(env, Corrected, step.st, fun).value;
      var aw := WalkList(env, Corrected, fw.st, args).value;
      WrapsEveryEligibleCall(env, step.st, fun);
      WrapsEveryEligibleCallList(env, fw.st, args);
      if step.wrap.Some? {
        WrappedWrapperCall(step.wrap.value, fw.placed, aw.placed, e.spread);
      }
  }

  lemma {:induction false} WrapsEveryEligibleCallList(env: Env, st: St, es: seq<Expr>)
    requires SliceRendering(env.typeString)
    requires PositionedList(es)
    requires WalkList(env, Corrected, st, es).Ok?
    ensures WrappedList(WalkList(env, Corrected, st, es).value.placed) == EligibleCountList(env.types, es)
    decreases es
  {
    if es != [] {
      var w := Walk(env, Corrected, st, es[0]).value;
      var ws := WalkList(env, Corrected, w.st, es[1..]).value;
      WrapsEveryEligibleCall(env, st, es[0]);
      WrapsEveryEligibleCallList(env, w.st, es[1..]);
      assert ([w.placed] + ws.placed)[0] == w.placed && ([w.placed] + ws.placed)[1..] == ws.placed;
    }
  }

  // ----- every wrapper called is declared -----

  /** Ids of the wrappers a tree calls. */
  function Called(e: Expr): set<Id>
    decreases e
  {
    match e
    case Ident(_, _) => {}
    case BasicLit(_, _) => {}
    case Call(_, fun, args, _) =>
      (if IsWrapperCall(e) then {ParseWrapperName(e.fun.name).value} else {}) + Called(fun) + CalledList(args)
    case Node(_, _, children) => CalledList(children)
  }

  function CalledList(es: seq<Expr>): set<Id>
    decreases es
  {
    if es == [] then {} else Called(es[0]) + CalledList(es[1..])
  }

  lemma CalledWrapperCall(id: Id, callee: Expr, args: seq<Expr>, spread: bool)
    ensures Called(WrapperCall(id, callee, args, spread)) == {id} + Called(callee) + CalledList(args)
  {
    WrapperNameRoundTrip(id);
    var w := WrapperCall(id, callee, args, spread);
    assert IsWrapperCall(w);
    assert w.args[0] == callee && w.args[1..] == args;
  }

  /** In either mode, every wrapper the rewritten tree calls has a declaration once the walk is done. */
  lemma {:induction false} CalledAreDeclared(env: Env, mode: Mode, st: St, e: Expr)
    requires SliceRendering(env.typeString)
    requires Positioned(e)
    requires Walk(env, mode, st, e).Ok?
    ensures Called(Walk(env, mode, st, e).value.placed) <= Walk(env, mode, st, e).value.st.decls.Keys
    ensures Called(Walk(env, mode, st, e).value.node) <= Walk(env, mode, st, e).value.st.decls.Keys
    decreases e
  {
    CallbackRecords(env, st, e);
    var step := Callback(env, st, e).value;
    match e
    case Ident(_, _) =>
    case BasicLit(_, _) =>
    case Node(_, _, children) =>
      CalledAreDeclaredList(env, mode, step.st, children);
    case Call(_, fun, args, _) =>
      var fw := Walk(env, mode, step.st, fun).value;
      var aw := WalkList(env, mode, fw.st, args).value;
      var keys := aw.st.decls.Keys;
      CalledAreDeclared(env, mode, step.st, fun);
      WalkGrows(env, mode, step.st, fun);
      CalledAreDeclaredList(env, mode, fw.st, args);
      WalkListGrows(env, mode, fw.st, args);
      assert Called(fw.placed) <= keys && Called(fw.node) <= keys;
      var node := Call(e.pos, fw.placed, aw.placed, e.spread);
      assert Walk(env, mode, st, e).value.node == node && Walk(env, mode, st, e).value.st == aw.st;
      assert Called(node) <= keys;
      if step.wrap.Some? {
        var id := step.wrap.value;
        assert id in keys;
        if mode == Corrected {
          CalledWrapperCall(id, fw.placed, aw.placed, e.spread);
          assert Walk(env, mode, st, e).value.placed == WrapperCall(id, fw.placed, aw.placed, e.spread);
        } else {
          CalledWrapperCall(id, fw.node, aw.nodes, false);
          assert Walk(env, mode, st, e).value.placed == WrapperCall(id, fw.node, aw.nodes, false);
        }
      }
  }

  lemma {:induction false} CalledAreDeclaredList(env: Env, mode: Mode, st: St, es: seq<Expr>)
    requires SliceRendering(env.typeString)
    requires PositionedList(es)
    requires WalkList(env, mode, st, es).Ok?
    ensures CalledList(WalkList(env, mode, st, es).value.placed) <= WalkList(env, mode, st, es).value.st.decls.Keys
    ensures CalledList(WalkList(env, mode, st, es).value.nodes) <= WalkList(env, mode, st, es).value.st.decls.Keys
    decreases es
  {
    if es != [] {
      var w := Walk(env, mode, st, es[0]).value;
      var ws := WalkList(env, mode, w.st, es[1..]).value;
      CalledAreDeclared(env, mode, st, es[0]);
      CalledAreDeclaredList(env, mode, w.st, es[1..]);
      WalkListGrows(env, mode, w.st, es[1..]);
      assert ([w.placed] + ws.placed)[0] == w.placed && ([w.placed] + ws.placed)[1..] == ws.placed;
      assert ([w.node] + ws.nodes)[0] == w.node && ([w.node] + ws.nodes)[1..] == ws.nodes;
    }
  }

  /**
   * One wrapper per id: walking the replacement, the walk declares exactly
   * the ids the rewritten tree calls that were not declared before.
   */
  lemma {:induction false} DeclaredExactlyCalled(env: Env, st: St, e: Expr)
    requires SliceRendering(env.typeString)
    requires Positioned(e)
    requires Walk(env, Corrected, st, e).Ok?
    ensures Walk(env, Corrected, st, e).value.st.decls.Keys
            == st.decls.Keys + Called(Walk(env, Corrected, st, e).value.placed)
    decreases e
  {
    CallbackRecords(env, st, e);
    var step := Callback(env, st, e).value;
    match e
    case Ident(_, _) =>
    case BasicLit(_, _) =>
    case Node(_, _, children) =>
      DeclaredExactlyCalledList(env, step.st, children);
    case Call(_, fun, args, _) =>
      var fw := Walk(env, Corrected, step.st, fun).value;
      var aw := WalkList(env, Corrected, fw.st, args).value;
      DeclaredExactlyCalled(env, step.st, fun);
      DeclaredExactlyCalledList(env, fw.st, args);
      if step.wrap.Some? {
        CalledWrapperCall(step.wrap.value, fw.placed, aw.placed, e.spread);
      }
  }

  lemma {:induction false} DeclaredExactlyCalledList(env: Env, st: St, es: seq<Expr>)
    requires SliceRendering(env.typeString)
    requires PositionedList(es)
    requires WalkList(env, Corrected, st, es).Ok?
    ensures WalkList(env, Corrected, st, es).value.st.decls.Keys
            == st.decls.Keys + CalledList(WalkList(env, Corrected, st, es).value.placed)
    decreases es
  {
    if es != [] {
      var w := Walk(env, Corrected, st, es[0]).value;
      var ws := WalkList(env, Corrected, w.st, es[1..]).value;
      DeclaredExactlyCalled(env, st, es[0]);
      DeclaredExactlyCalledList(env, w.st, es[1..]);
      assert ([w.placed] + ws.placed)[0] == w.placed && ([w.placed] + ws.placed)[1..] == ws.placed;
    }
  }

  /** What the callback recorded for a call survives the rest of a walk that keeps the invariant. */
  lemma CachedWrapperKept(env: Env, st: St, mid: St, st': St, t: TypeValue, id: Id)
    requires Grows(st, mid) && Grows(mid, st') && Registered(env, st')
    requires id in st.decls && t in st.tab.forward && st.tab.forward[t] == id
    ensures id in st'.decls && t in st'.tab.forward && st'.tab.forward[t] == id
    ensures Identical(st'.tab.backward[id], t)
    ensures Generated(env.typeString, env.qualifier, WrapperName(id), st'.tab.backward[id].expr) == Ok(st'.decls[id])
  {
  }

  /**
   * Rewrite shape: an eligible call becomes a call of the wrapper named after
   * its id, whose arguments erase to the callee followed by the original
   * arguments in order, with `...` where the call had it; the id is the one
   * cached for the callee's type, its slot holds a type identical to the
   * callee's, and the wrapper declared under it is the one generated for
   * that slot's type.
   */
  lemma RewriteShape(env: Env, mode: Mode, st: St, e: Expr)
    requires Registered(env, st)
    requires Positioned(e) && Eligible(env.types, e)
    requires mode == Corrected || SpreadFree(e)
    requires Walk(env, mode, st, e).Ok?
    ensures var w := Walk(env, mode, st, e).value;
      var t := env.types[e.fun].typ;
      exists id: Id ::
        && w.placed.Call? && w.placed.fun == Ident(0, WrapperName(id))
        && |w.placed.args| == 1 + |e.args|
        && EraseList(w.placed.args) == [Strip(e.fun)] + StripList(e.args)
        && w.placed.spread == e.spread
        && id in w.st.decls && id in w.st.tab.backward
        && t in w.st.tab.forward && w.st.tab.forward[t] == id
        && Identical(w.st.tab.backward[id], t)
        && Generated(env.typeString, env.qualifier, WrapperName(id), w.st.tab.backward[id].expr) == Ok(w.st.decls[id])
  {
    CallbackSound(env, st, e);
    var id := Callback(env, st, e).value.wrap.value;
    RewriteCallShape(env, mode, st, e);
    RewriteCallState(env, mode, st, e);
  }

  /** The syntax half of `RewriteShape`, for the id the callback returned. */
  lemma RewriteCallShape(env: Env, mode: Mode, st: St, e: Expr)
    requires SliceRendering(env.typeString)
    requires Positioned(e) && e.Call?
    requires mode == Corrected || SpreadFree(e)
    requires Walk(env, mode, st, e).Ok? && Callback(env, st, e).value.wrap.Some?
    ensures var w := Walk(env, mode, st, e).value;
      var id := Callback(env, st, e).value.wrap.value;
      && w.placed.Call? && w.placed.fun == Ident(0, WrapperName(id))
      && |w.placed.args| == 1 + |e.args|
      && EraseList(w.placed.args) == [Strip(e.fun)] + StripList(e.args)
      && w.placed.spread == e.spread
  {
    var step := Callback(env, st, e).value;
    var id := step.wrap.value;
    var fw := Walk(env, mode, step.st, e.fun).value;
    var aw := WalkList(env, mode, fw.st, e.args).value;
    var w := Walk(env, mode, st, e).value;
    EraseWalk(env, mode, step.st, e.fun);
    EraseWalkList(env, mode, fw.st, e.args);
    var callee := if mode == Corrected then fw.placed else fw.node;
    var rest := if mode == Corrected then aw.placed else aw.nodes;
    assert w.placed == WrapperCall(id, callee, rest, mode == Corrected && e.spread);
    assert ([callee] + rest)[0] == callee && ([callee] + rest)[1..] == rest;
  }

  /** The state half of `RewriteShape`, for the id the callback returned. */
  lemma RewriteCallState(env: Env, mode: Mode, st: St, e: Expr)
    requires Registered(env, st) && Eligible(env.types, e)
    requires Walk(env, mode, st, e).Ok?
    ensures var w := Walk(env, mode, st, e).value;
      var t := env.types[e.fun].typ;
      Callback(env, st, e).Ok? && Callback(env, st, e).value.wrap.Some? &&
      var id := Callback(env, st, e).value.wrap.value;
      && id in w.st.decls && id in w.st.tab.backward
      && t in w.st.tab.forward && w.st.tab.forward[t] == id
      && Identical(w.st.tab.backward[id], t)
      && Generated(env.typeString, env.qualifier, WrapperName(id), w.st.tab.backward[id].expr) == Ok(w.st.decls[id])
  {
    CallbackSound(env, st, e);
    var step := Callback(env, st, e).value;
    var fw := Walk(env, mode, step.st, e.fun).value;
    WalkGrows(env, mode, step.st, e.fun);
    WalkListGrows(env, mode, fw.st, e.args);
    WalkKeepsRegistered(env, mode, st, e);
    CachedWrapperKept(env, step.st, fw.st, Walk(env, mode, st, e).value.st, env.types[e.fun].typ, step.wrap.value);
  }

  // ----- the pass as written misses calls nested in a rewritten call, and drops `...` -----

  /** A rendering of types used for the examples below. */
  function Render(t: TypeExpr): string
  {
    match t
    case Basic(kind) => kind
    case Slice(elem) => "[]" + Render(elem)
    case Signature(_, _, _, _) => "func"
    case _ => "T"
  }

  const RenderString: TypeString := (t: TypeExpr, q: Package -> string) => Render(t)

  lemma RenderSlices()
    ensures SliceRendering(RenderString)
  {
  }

  /** `func()`. */
  const FuncType: TypeExpr := Signature([], None, [], [])
  /** `func(b bool) func()`. */
  const EitherType: TypeExpr := Signature([Basic("bool")], None, [FuncType], ["b"])
  const OuterType: TypeValue := TypeValue(1, FuncType)
  const InnerType: TypeValue := TypeValue(2, EitherType)
  const Either: Expr := Ident(3, "either")
  const True: Expr := Ident(4, "true")
  /** `either(true)`. */
  const InnerCall: Expr := Call(2, Either, [True], false)
  /** `either(true)()`: the callee is itself an eligible call. */
  const Nested: Expr := Call(1, InnerCall, [], false)

  /** Types of `either(true)()`; a signature with results hashes to 1, any other type to 2. */
  function NestedEnv(): Env
  {
    Env(
      map[InnerCall := TypeAndValue(OuterType, true), Either := TypeAndValue(InnerType, true)],
      (t: TypeExpr) => if t.Signature? && t.results != [] then 1 else 2,
      RenderString,
      (p: Package) => "")
  }

  /** The wrapper generated for `func()`. */
  function OuterDecl(): WrapperFunc
  {
    Wrapper(WrapperName(2), FuncInfo(false, TypeInfo("func"), [], []))
  }

  /** The wrapper generated for `func(b bool) func()`. */
  function InnerDecl(): WrapperFunc
  {
    Wrapper(WrapperName(1), FuncInfo(false, TypeInfo("func"), [TypeInfo("bool")], [TypeInfo("func")]))
  }

  /** After the outer call: `func()` in slot 2 and its wrapper declared. */
  function NestedAfterOuter(): St
  {
    St(Table(map[OuterType := 2], map[2 := OuterType]), map[2 := OuterDecl()])
  }

  /** After the inner call: `either`'s type in slot 1 and its wrapper declared too. */
  function NestedAfterInner(): St
  {
    St(Table(map[OuterType := 2, InnerType := 1], map[2 := OuterType, 1 := InnerType]),
       map[2 := OuterDecl(), 1 := InnerDecl()])
  }

  lemma NestedOuterStep()
    requires SliceRendering(RenderString)
    ensures Callback(NestedEnv(), St(Empty(), map[]), Nested) == Ok(Step(NestedAfterOuter(), Some(2)))
  {
    var env := NestedEnv();
    assert HashOf(env.hashOf, OuterType) == 2;
    var fi := FuncInfoOf(env.typeString, env.qualifier, FuncType);
    assert fi.Ok? && fi.value.orig == TypeInfo("func") && fi.value.params == [] && fi.value.results == [];
    assert ProbeFrom(map[], OuterType, 2, 0) == Free(2);
  }

  lemma NestedInnerStep()
    requires SliceRendering(RenderString)
    ensures Callback(NestedEnv(), NestedAfterOuter(), InnerCall) == Ok(Step(NestedAfterInner(), Some(1)))
  {
    var env := NestedEnv();
    assert ShapeList([FuncType]) == [FuncType];
    assert Shape(EitherType).results == [FuncType];
    assert HashOf(env.hashOf, InnerType) == 1;
    assert ProbeFrom(map[2 := OuterType], InnerType, 1, 0) == Free(1);
    var fi := FuncInfoOf(env.typeString, env.qualifier, EitherType);
    assert fi.Ok? && fi.value.orig == TypeInfo("func");
    assert |fi.value.params| == 1 && fi.value.params[0] == TypeInfo("bool");
    assert |fi.value.results| == 1 && fi.value.results[0] == TypeInfo("func");
    assert fi.value.params == [TypeInfo("bool")] && fi.value.results == [TypeInfo("func")];
  }

  /** Both modes wrap `either(true)` when they get to it. */
  lemma NestedInnerWalk(mode: Mode)
    requires SliceRendering(RenderString)
    ensures Walk(NestedEnv(), mode, NestedAfterOuter(), InnerCall)
            == Ok(Walked(NestedAfterInner(), WrapperCall(1, Either, [True], false), InnerCall))
  {
    var env := NestedEnv();
    var st := NestedAfterInner();
    NestedInnerStep();
    assert Walk(env, mode, st, Either) == Ok(Walked(st, Either, Either));
    assert Walk(env, mode, st, True) == Ok(Walked(st, True, True));
    assert [True][0] == True && [True][1..] == [];
    assert WalkList(env, mode, st, []) == Ok(WalkedList(st, [], []));
    assert [True] + [] == [True];
    assert WalkList(env, mode, st, [True]) == Ok(WalkedList(st, [True], [True]));
  }

  lemma NestedEligible()
    ensures EligibleCount(NestedEnv().types, Nested) == 2
  {
    var types := NestedEnv().types;
    assert Eligible(types, Nested) && Eligible(types, InnerCall);
    assert EligibleCount(types, Either) == 0 && EligibleCount(types, True) == 0;
    assert [True][0] == True && [True][1..] == [];
    assert EligibleCountList(types, [True]) == 0;
    assert EligibleCount(types, InnerCall) == 1;
  }

  /** The whole walk of `either(true)()` in either mode. */
  lemma NestedWalk(mode: Mode)
    requires SliceRendering(RenderString)
    ensures Walk(NestedEnv(), mode, St(Empty(), map[]), Nested) == Ok(Walked(
      NestedAfterInner(),
      if mode == AsWritten then WrapperCall(2, InnerCall, [], false)
      else WrapperCall(2, WrapperCall(1, Either, [True], false), [], false),
      Call(1, WrapperCall(1, Either, [True], false), [], false)))
  {
    var env := NestedEnv();
    NestedOuterStep();
    NestedInnerWalk(mode);
    assert WalkList(env, mode, NestedAfterInner(), []) == Ok(WalkedList(NestedAfterInner(), [], []));
  }

  /**
   * `either(true)()` has two eligible calls, of types `func()` and
   * `func(bool) func()`. As written, the pass produces
   * `_isuprofWrapper2(either(true))`: the inner call keeps its place
   * unwrapped, although wrapper 1 was generated for its type and is never
   * called. Walking the replacement wraps both.
   */
  lemma AsWrittenMissesNested()
    ensures SliceRendering(NestedEnv().typeString)
    ensures EligibleCount(NestedEnv().types, Nested) == 2
    ensures var r := Walk(NestedEnv(), AsWritten, St(Empty(), map[]), Nested);
      && r.Ok?
      && r.value.placed == WrapperCall(2, InnerCall, [], false)
      && Wrapped(r.value.placed) == 1
      && 1 in r.value.st.decls && 1 !in Called(r.value.placed)
    ensures var r := Walk(NestedEnv(), Corrected, St(Empty(), map[]), Nested);
      && r.Ok?
      && r.value.placed == WrapperCall(2, WrapperCall(1, Either, [True], false), [], false)
  {
    RenderSlices();
    NestedEligible();
    NestedWalk(AsWritten);
    NestedWalk(Corrected);
    WrappedWrapperCall(2, InnerCall, [], false);
    CalledWrapperCall(2, InnerCall, [], false);
    InnerCallPlain();
  }

  /** `either(true)` calls no wrapper. */
  lemma InnerCallPlain()
    ensures Wrapped(InnerCall) == 0 && Called(InnerCall) == {}
  {
    assert [True][0] == True && [True][1..] == [];
    assert !IsWrapperCall(InnerCall);
    assert WrappedList([True]) == 0 && CalledList([True]) == {};
  }

  /** `func(xs ...int)`. */
  const VariadicType: TypeExpr := Signature([], Some(Basic("int")), [], ["xs"])
  const G: Expr := Ident(2, "g")
  const Ys: Expr := Ident(3, "ys")
  /** `g(ys...)`. */
  const SpreadCall: Expr := Call(1, G, [Ys], true)

  /** Types of `g(ys...)`; every type hashes to 7. */
  function SpreadEnv(): Env
  {
    Env(map[G := TypeAndValue(TypeValue(1, VariadicType), true)], (t: TypeExpr) => 7, RenderString, (p: Package) => "")
  }

  /** The wrapper generated for `func(xs ...int)`: its parameter after `a` is `p0 ...int`. */
  function SpreadDecl(): WrapperFunc
  {
    Wrapper(WrapperName(7), FuncInfo(true, TypeInfo("func"), [TypeInfo("[]int")], []))
  }

  function SpreadAfter(): St
  {
    St(Table(map[TypeValue(1, VariadicType) := 7], map[7 := TypeValue(1, VariadicType)]), map[7 := SpreadDecl()])
  }

  lemma SpreadStep()
    requires SliceRendering(RenderString)
    ensures Callback(SpreadEnv(), St(Empty(), map[]), SpreadCall) == Ok(Step(SpreadAfter(), Some(7)))
  {
    var env := SpreadEnv();
    assert Params(VariadicType) == [Slice(Basic("int"))];
    var fi := FuncInfoOf(env.typeString, env.qualifier, VariadicType);
    assert fi.Ok? && fi.value.variadic && fi.value.orig == TypeInfo("func") && fi.value.results == [];
    assert |fi.value.params| == 1 && fi.value.params[0] == TypeInfo("[]int");
    assert fi.value.params == [TypeInfo("[]int")];
    assert ProbeFrom(map[], TypeValue(1, VariadicType), 7, 0) == Free(7);
  }

  /** The walk of `g(ys...)`: only the corrected replacement keeps the `...`. */
  lemma SpreadWalk(mode: Mode)
    requires SliceRendering(RenderString)
    ensures Walk(SpreadEnv(), mode, St(Empty(), map[]), SpreadCall)
            == Ok(Walked(SpreadAfter(), WrapperCall(7, G, [Ys], mode == Corrected), SpreadCall))
  {
    var env := SpreadEnv();
    var st := SpreadAfter();
    SpreadStep();
    assert Walk(env, mode, st, G) == Ok(Walked(st, G, G));
    assert Walk(env, mode, st, Ys) == Ok(Walked(st, Ys, Ys));
    assert [Ys][0] == Ys && [Ys][1..] == [];
    assert WalkList(env, mode, st, []) == Ok(WalkedList(st, [], []));
    assert [Ys] + [] == [Ys];
    assert WalkList(env, mode, st, [Ys]) == Ok(WalkedList(st, [Ys], [Ys]));
  }

  /**
   * `g(ys...)` with `g` of type `func(xs ...int)`. As written, the pass
   * produces `_isuprofWrapper7(g, ys)`: the slice `ys` is handed, without
   * `...`, to the wrapper's parameter `p0 ...int`, and erasing the wrapper
   * gives `g(ys)`, not the original call. Copying the `...` gives
   * `_isuprofWrapper7(g, ys...)`, which erases back to `g(ys...)`.
   */
  lemma AsWrittenDropsSpread()
    ensures SliceRendering(SpreadEnv().typeString)
    ensures var r := Walk(SpreadEnv(), AsWritten, St(Empty(), map[]), SpreadCall);
      && r.Ok?
      && r.value.placed == WrapperCall(7, G, [Ys], false)
      && 7 in r.value.st.decls && |r.value.st.decls[7].params| == 2
      && r.value.st.decls[7].params[1] == FuncParameter("p0", "...int")
      && Erase(r.value.placed) != Strip(SpreadCall)
    ensures var r := Walk(SpreadEnv(), Corrected, St(Empty(), map[]), SpreadCall);
      && r.Ok?
      && r.value.placed == WrapperCall(7, G, [Ys], true)
      && Erase(r.value.placed) == Strip(SpreadCall)
  {
    RenderSlices();
    SpreadWalk(AsWritten);
    SpreadWalk(Corrected);
    EraseWrapperCall(7, G, [Ys], false);
    EraseWrapperCall(7, G, [Ys], true);
    var fi := FuncInfo(true, TypeInfo("func"), [TypeInfo("[]int")], []);
    assert Parameters(fi)[0] == FuncParameter(Numbered("p", 1)[0], ParamType(fi, 0));
    assert NatToString(0) == "0";
    assert SpreadDecl().params[1] == Parameters(fi)[0];
    assert [Ys][0] == Ys && [Ys][1..] == [];
    assert EraseList([Ys]) == [Ident(0, "ys")] && StripList([Ys]) == [Ident(0, "ys")];
  }

  // ----- the pass as a program -----

  datatype Placement = Placement(placed: Expr, node: Expr)
  datatype PlacementList = PlacementList(placed: seq<Expr>, nodes: seq<Expr>)

  datatype Rewritten = Rewritten(st: St, files: seq<Expr>)

  /** The rewritten files of a walk over a list of files, behind those already rewritten. */
  function Behind(done: seq<Expr>, r: Result<WalkedList, Fatal>): Result<Rewritten, Fatal>
  {
    match r
    case Ok(w) => Ok(Rewritten(w.st, done + w.placed))
    case Err(f) => Err(f)
  }

  /** One step of the loop over files. */
  lemma BehindStep(env: Env, mode: Mode, st: St, done: seq<Expr>, es: seq<Expr>)
    requires SliceRendering(env.typeString)
    requires es != []
    ensures Behind(done, WalkList(env, mode, st, es)) ==
      match Walk(env, mode, st, es[0])
      case Err(f) => Err(f)
      case Ok(w) => Behind(done + [w.placed], WalkList(env, mode, w.st, es[1..]))
  {
    match Walk(env, mode, st, es[0])
    case Err(_) =>
    case Ok(w) =>
      match WalkList(env, mode, w.st, es[1..])
      case Err(_) =>
      case Ok(ws) =>
        assert done + ([w.placed] + ws.placed) == done + [w.placed] + ws.placed;
  }

  /** The pass's state in `main`: the hasher, `funcDecls`, and what the callback reads. */
  class Instrumenter {
    const types: map<Expr, TypeAndValue>
    const typeString: TypeString
    const qualifier: Package -> string
    const hasher: Hasher
    var funcDecls: map<Id, WrapperFunc>

    function Context(): Env
    {
      Env(types, hasher.hashOf, typeString, qualifier)
    }

    function State(): St
      reads this, hasher
    {
      St(hasher.State(), funcDecls)
    }

    ghost predicate Valid()
      reads this, hasher
    {
      Registered(Context(), State())
    }

    /** `hasher := newHasher()` and `funcDecls := make(map[uint32]string)`. */
    constructor (types: map<Expr, TypeAndValue>, hashOf: TypeExpr -> Id, typeString: TypeString,
                 qualifier: Package -> string)
      requires SliceRendering(typeString)
      ensures Valid()
      ensures Context() == Env(types, hashOf, typeString, qualifier)
      ensures State() == St(Empty(), map[])
      ensures fresh(hasher)
    {
      this.types := types;
      this.typeString := typeString;
      this.qualifier := qualifier;
      hasher := new Hasher(hashOf);
      funcDecls := map[];
      new;
      EmptyRegistered(Context());
    }

    /** The callback given to `astutil.Apply`, up to the replacement it asks for. */
    method Pre(e: Expr) returns (r: Result<Option<Id>, Fatal>)
      requires Valid()
      modifies this, hasher
      ensures r.Ok? ==> Valid()
      ensures match Callback(Context(), old(State()), e)
        case Ok(step) => r == Ok(step.wrap) && State() == step.st
        case Err(f) => r == Err(f)
    {
      CallbackSound(Context(), State(), e);
      if !e.Call? || e.fun !in types || !types[e.fun].isValue {
        return Ok(None);
      }
      var t := types[e.fun].typ;
      var hash := hasher.Hash(t);
      if hash.Err? {
        return Err(Collisions(hash.error));
      }
      var id := hash.value;
      if id !in funcDecls {
        var generated := GenerateWrapper(typeString, qualifier, WrapperName(id), t.expr);
        if generated.Err? {
          return Err(Generation(generated.error));
        }
        funcDecls := funcDecls[id := generated.value];
      }
      return Ok(Some(id));
    }

    /** `astutil.Apply` on one subtree with `Pre` as its pre-order function. */
    method Visit(mode: Mode, e: Expr) returns (r: Result<Placement, Fatal>)
      requires Valid()
      modifies this, hasher
      ensures r.Ok? ==> Valid()
      ensures match Walk(Context(), mode, old(State()), e)
        case Ok(w) => r == Ok(Placement(w.placed, w.node)) && State() == w.st
        case Err(f) => r == Err(f)
      decreases e
    {
      var wrap :- Pre(e);
      match e
      case Ident(_, _) =>
        return Ok(Placement(e, e));
      case BasicLit(_, _) =>
        return Ok(Placement(e, e));
      case Node(pos, kind, children) =>
        var cs :- VisitList(mode, children);
        return Ok(Placement(Node(pos, kind, cs.placed), Node(pos, kind, cs.placed)));
      case Call(pos, fun, args, spread) =>
        var fw :- Visit(mode, fun);
        var aw :- VisitList(mode, args);
        var node := Call(pos, fw.placed, aw.placed, spread);
        if wrap.None? {
          return Ok(Placement(node, node));
        } else if mode == Corrected {
          return Ok(Placement(WrapperCall(wrap.value, fw.placed, aw.placed, spread), node));
        } else {
          return Ok(Placement(WrapperCall(wrap.value, fw.node, aw.nodes, false), node));
        }
    }

    method VisitList(mode: Mode, es: seq<Expr>) returns (r: Result<PlacementList, Fatal>)
      requires Valid()
      modifies this, hasher
      ensures r.Ok? ==> Valid()
      ensures match WalkList(Context(), mode, old(State()), es)
        case Ok(w) => r == Ok(PlacementList(w.placed, w.nodes)) && State() == w.st
        case Err(f) => r == Err(f)
      decreases es
    {
      if es == [] {
        return Ok(PlacementList([], []));
      }
      var head :- Visit(mode, es[0]);
      var tail :- VisitList(mode, es[1..]);
      return Ok(PlacementList([head.placed] + tail.placed, [head.node] + tail.nodes));
    }

    /** The loop over the package's files: each file is rewritten in turn, and the first fatal error stops the program. */
    method Run(mode: Mode, files: seq<Expr>) returns (r: Result<seq<Expr>, Fatal>)
      requires Valid()
      modifies this, hasher
      ensures r.Ok? ==> Valid()
      ensures match Behind([], WalkList(Context(), mode, old(State()), files))
        case Ok(w) => r == Ok(w.files) && State() == w.st
        case Err(f) => r == Err(f)
    {
      var out: seq<Expr> := [];
      for i := 0 to |files|
        invariant Valid()
        invariant Behind([], WalkList(Context(), mode, old(State()), files))
                  == Behind(out, WalkList(Context(), mode, State(), files[i..]))
      {
        assert files[i..][0] == files[i] && files[i..][1..] == files[i + 1..];
        BehindStep(Context(), mode, State(), out, files[i..]);
        var file :- Visit(mode, files[i]);
        out := out + [file.placed];
      }
      assert files[|files|..] == [] && out + [] == out;
      return Ok(out);
    }
  }
}
