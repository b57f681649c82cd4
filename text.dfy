/**
 * The string fragments the generator builds by hand: `strconv.Itoa` on
 * non-negative numbers, the ", "-separated lists written into a
 * `strings.Builder`, and a reader for such lists that lets the lemmas say
 * which names a rendered list mentions, in which order.
 */
module Text {
  import opened Wrappers

  predicate IsDigit(c: char) { '0' <= c <= '9' }

  function DigitChar(d: nat): (c: char)
    requires d < 10
    ensures IsDigit(c) && c as int - '0' as int == d
  {
    "0123456789"[d]
  }

  function DigitValue(c: char): (d: nat)
    requires IsDigit(c)
    ensures d < 10 && DigitChar(d) == c
  {
    c as int - '0' as int
  }

  /** `strconv.Itoa(n)` for n >= 0: the shortest decimal rendering. */
  function NatToString(n: nat): (s: string)
    ensures |s| >= 1
    ensures forall i :: 0 <= i < |s| ==> IsDigit(s[i])
    ensures s[0] == '0' ==> n == 0
  {
    if n < 10 then [DigitChar(n)] else NatToString(n / 10) + [DigitChar(n % 10)]
  }

  /** Reads a decimal numeral; None when `s` is empty or holds a non-digit. */
  function ParseNat(s: string): (r: Option<nat>)
    ensures r.Some? ==> s != [] && forall i :: 0 <= i < |s| ==> IsDigit(s[i])
  {
    if s == [] || !IsDigit(s[|s| - 1]) then None
    else if |s| == 1 then Some(DigitValue(s[0]))
    else
      match ParseNat(s[..|s| - 1])
      case None => None
      case Some(hi) => Some(hi * 10 + DigitValue(s[|s| - 1]))
  }

  lemma {:induction false} ParseNatToString(n: nat)
    ensures ParseNat(NatToString(n)) == Some(n)
  {
    if n >= 10 {
      var s := NatToString(n);
      ParseNatToString(n / 10);
      assert s[..|s| - 1] == NatToString(n / 10);
    }
  }

  /** Distinct numbers never render alike. */
  lemma NatToStringInjective(a: nat, b: nat)
    ensures NatToString(a) == NatToString(b) ==> a == b
  {
    ParseNatToString(a);
    ParseNatToString(b);
  }

  /** The text a `strings.Builder` holds after writing `xs` with ", " before every item but the first. */
  function Join(xs: seq<string>): string
  {
    if |xs| == 0 then ""
    else if |xs| == 1 then xs[0]
    else Join(xs[..|xs| - 1]) + ", " + xs[|xs| - 1]
  }

  /** Adding one more item to a joined prefix. */
  lemma JoinPrefix(xs: seq<string>, k: nat)
    requires k < |xs|
    ensures Join(xs[..k + 1]) == if k == 0 then xs[0] else Join(xs[..k]) + ", " + xs[k]
  {
    if k > 0 {
      assert xs[..k + 1][..k] == xs[..k];
    }
  }

  lemma {:induction false} JoinCons(x: string, ys: seq<string>)
    requires ys != []
    ensures Join([x] + ys) == x + ", " + Join(ys)
  {
    if |ys| > 1 {
      var y := ys[|ys| - 1];
      assert ([x] + ys)[..|ys|] == [x] + ys[..|ys| - 1];
      JoinCons(x, ys[..|ys| - 1]);
    }
  }

  /** Splits a ", "-separated list into its items (the empty string is one empty item). */
  function Fields(s: string): (r: seq<string>)
    ensures |r| >= 1
    decreases |s|
  {
    if |s| < 2 then [s]
    else if s[0] == ',' && s[1] == ' ' then [""] + Fields(s[2..])
    else
      var rest := Fields(s[1..]);
      [[s[0]] + rest[0]] + rest[1..]
  }

  /** The items of a rendered list; the empty text is the empty list. */
  function SplitList(s: string): seq<string>
  {
    if s == "" then [] else Fields(s)
  }

  /** Items that a reader of the list gets back unchanged. */
  predicate PlainItems(xs: seq<string>)
  {
    forall i :: 0 <= i < |xs| ==> xs[i] != "" && ',' !in xs[i]
  }

  lemma {:induction false} FieldsPlain(x: string)
    requires ',' !in x
    ensures Fields(x) == [x]
    decreases |x|
  {
    if |x| >= 2 {
      FieldsPlain(x[1..]);
      assert [x[0]] + x[1..] == x;
    }
  }

  lemma {:induction false} FieldsSeparated(x: string, y: string)
    requires ',' !in x
    ensures Fields(x + ", " + y) == [x] + Fields(y)
    decreases |x|
  {
    var s := x + ", " + y;
    if x == "" {
      assert s[2..] == y;
    } else {
      assert s[1..] == x[1..] + ", " + y;
      FieldsSeparated(x[1..], y);
      assert [x[0]] + x[1..] == x;
    }
  }

  /** Reading a joined list back gives the items, in order, and no others. */
  lemma {:induction false} SplitJoin(xs: seq<string>)
    requires PlainItems(xs)
    ensures SplitList(Join(xs)) == xs
    decreases |xs|
  {
    if |xs| == 1 {
      FieldsPlain(xs[0]);
    } else if |xs| > 1 {
      JoinCons(xs[0], xs[1..]);
      assert [xs[0]] + xs[1..] == xs;
      SplitJoin(xs[1..]);
      FieldsSeparated(xs[0], Join(xs[1..]));
    }
  }
}
