/**
 * `Hasher.Hash`: the identity registry that gives every distinct function
 * type a uint32 id. `forward` caches the id of each type value already seen;
 * `backward` is an open-addressing table from id to the type occupying it,
 * probed linearly from the structural hash, giving up after 10000 collisions.
 */
module Registry {
  import opened Wrappers
  import opened GoTypes

  const HashSpace: nat := 0x1_0000_0000
  const MaxCollisions: nat := 10000

  /** A uint32. */
  type Id = x: int | 0 <= x < 0x1_0000_0000

  /** `hash++` on a uint32, which wraps around. */
  function Succ(h: Id): (r: Id)
    ensures h < HashSpace - 1 ==> r == h + 1
    ensures h == HashSpace - 1 ==> r == 0
  {
    (h + 1) % HashSpace
  }

  /** The slot reached from `h` after `k` increments. */
  function Advance(h: Id, k: nat): Id
  {
    (h + k) % HashSpace
  }

  /** How many increments lead from `from` to `to`. */
  function Dist(from: Id, to: Id): (d: nat)
    ensures d < HashSpace
  {
    (to - from) % HashSpace
  }

  lemma AdvanceSucc(h: Id, k: nat)
    ensures Succ(Advance(h, k)) == Advance(h, k + 1)
  {
  }

  lemma DistAdvance(h: Id, d: nat)
    requires d < HashSpace
    ensures Dist(h, Advance(h, d)) == d
  {
    if h + d >= HashSpace {
      assert Advance(h, d) == h + d - HashSpace;
    }
  }

  lemma AdvanceDist(h: Id, s: Id)
    ensures Advance(h, Dist(h, s)) == s
  {
    if s < h {
      assert Dist(h, s) == s - h + HashSpace;
    }
  }

  /**
   * The slot probing starts from: `typeutil.Hasher` hashes a type's
   * structure, parameter and result names aside, so identical types hash alike.
   */
  function HashOf(hashOf: TypeExpr -> Id, t: TypeValue): Id
  {
    hashOf(Shape(t.expr))
  }

  /** Slot `s` holds a type that is not identical to `t`: a collision for `t`. */
  predicate Collision(backward: map<Id, TypeValue>, t: TypeValue, s: Id)
  {
    s in backward && !Identical(t, backward[s])
  }

  /** The first `d` slots probed from `h0` are all collisions. */
  ghost predicate CollisionsBefore(backward: map<Id, TypeValue>, t: TypeValue, h0: Id, d: nat)
  {
    forall j :: 0 <= j < d ==> Collision(backward, t, Advance(h0, j))
  }

  datatype Probe = Match(slot: Id) | Free(slot: Id) | Exhausted

  /**
   * The probing loop, entered at slot `hash` after `i` collisions: stop at an
   * identical occupant or an empty slot; after the 10001st collision, give up.
   */
  function ProbeFrom(backward: map<Id, TypeValue>, t: TypeValue, hash: Id, i: nat): (r: Probe)
    requires i <= MaxCollisions
    ensures r.Match? ==> r.slot in backward && Identical(t, backward[r.slot])
    ensures r.Free? ==> r.slot !in backward
    decreases MaxCollisions - i
  {
    if hash !in backward then Free(hash)
    else if Identical(t, backward[hash]) then Match(hash)
    else if i + 1 > MaxCollisions then Exhausted
    else ProbeFrom(backward, t, Succ(hash), i + 1)
  }

  /**
   * What a probe from `h0` finds: the first slot, at most 10000 increments on,
   * that is not a collision (an identical occupant or a free slot); or, when
   * all 10001 slots it may look at are collisions, nothing.
   */
  lemma {:induction false} ProbeFacts(backward: map<Id, TypeValue>, t: TypeValue, h0: Id, i: nat)
    requires i <= MaxCollisions
    requires CollisionsBefore(backward, t, h0, i)
    ensures var r := ProbeFrom(backward, t, Advance(h0, i), i);
      && (r.Match? ==> r.slot in backward && Identical(t, backward[r.slot]))
      && (r.Free? ==> r.slot !in backward)
      && (!r.Exhausted? ==>
            i <= Dist(h0, r.slot) <= MaxCollisions &&
            CollisionsBefore(backward, t, h0, Dist(h0, r.slot)))
      && (r.Exhausted? ==> CollisionsBefore(backward, t, h0, MaxCollisions + 1))
    decreases MaxCollisions - i
  {
    var s := Advance(h0, i);
    DistAdvance(h0, i);
    if s in backward && !Identical(t, backward[s]) && i + 1 <= MaxCollisions {
      AdvanceSucc(h0, i);
      ProbeFacts(backward, t, h0, i + 1);
    }
  }

  /** A probe stops at the first slot that is not a collision. */
  lemma {:induction false} ProbeStopsAt(backward: map<Id, TypeValue>, t: TypeValue, h0: Id, i: nat, d: nat)
    requires i <= d <= MaxCollisions
    requires CollisionsBefore(backward, t, h0, d)
    requires !Collision(backward, t, Advance(h0, d))
    ensures ProbeFrom(backward, t, Advance(h0, i), i) ==
              if Advance(h0, d) in backward then Match(Advance(h0, d)) else Free(Advance(h0, d))
    decreases d - i
  {
    if i < d {
      AdvanceSucc(h0, i);
      ProbeStopsAt(backward, t, h0, i + 1, d);
    }
  }

  /** The two maps of a `Hasher`. */
  datatype Table = Table(forward: map<TypeValue, Id>, backward: map<Id, TypeValue>)

  /** Occupant of slot `s` sits at most 10000 slots past its hash, with every slot in between taken. */
  ghost predicate Chained(hashOf: TypeExpr -> Id, backward: map<Id, TypeValue>, s: Id)
    requires s in backward
  {
    var h := HashOf(hashOf, backward[s]);
    Dist(h, s) <= MaxCollisions &&
    forall j :: 0 <= j < Dist(h, s) ==> Advance(h, j) in backward
  }

  /** The registry's invariant. */
  ghost predicate Consistent(hashOf: TypeExpr -> Id, tab: Table)
  {
    // every cached id names a slot whose occupant is identical to the cached type
    && (forall t :: t in tab.forward ==>
          tab.forward[t] in tab.backward && Identical(tab.backward[tab.forward[t]], t))
    // no two slots hold identical types
    && (forall s1, s2 ::
          s1 in tab.backward && s2 in tab.backward && Identical(tab.backward[s1], tab.backward[s2])
          ==> s1 == s2)
    // linear probing never left a gap on the way to an occupant
    && (forall s :: s in tab.backward ==> Chained(hashOf, tab.backward, s))
  }

  /** `panic("too many hash collisions!")`. */
  datatype Panic = TooManyCollisions

  datatype Hashing = Hashing(result: Result<Id, Panic>, tab: Table)

  /** `Hasher.Hash` on an explicit table; a panic leaves the table as it was. */
  function GetOrCreate(hashOf: TypeExpr -> Id, tab: Table, t: TypeValue): (h: Hashing)
    ensures h.result.Ok? ==> t in h.tab.forward && h.tab.forward[t] == h.result.value
    ensures h.result.Err? ==> h.tab == tab
  {
    if t in tab.forward then Hashing(Ok(tab.forward[t]), tab)
    else
      match ProbeFrom(tab.backward, t, HashOf(hashOf, t), 0)
      case Match(s) => Hashing(Ok(s), Table(tab.forward[t := s], tab.backward))
      case Free(s) => Hashing(Ok(s), Table(tab.forward[t := s], tab.backward[s := t]))
      case Exhausted => Hashing(Err(TooManyCollisions), tab)
  }

  function Empty(): (tab: Table)
    ensures tab.forward == map[] && tab.backward == map[]
  {
    Table(map[], map[])
  }

  lemma EmptyValid(hashOf: TypeExpr -> Id)
    ensures Consistent(hashOf, Empty())
  {
  }

  /** A probe for `t` stops at the occupant identical to `t`, if there is one. */
  lemma {:induction false} ProbeFindsIdentical(hashOf: TypeExpr -> Id, tab: Table, t: TypeValue, s: Id)
    requires Consistent(hashOf, tab)
    requires s in tab.backward && Identical(tab.backward[s], t)
    ensures ProbeFrom(tab.backward, t, HashOf(hashOf, t), 0) == Match(s)
  {
    var b := tab.backward;
    var h0 := HashOf(hashOf, t);
    assert h0 == HashOf(hashOf, b[s]);
    var d := Dist(h0, s);
    assert Chained(hashOf, b, s);
    AdvanceDist(h0, s);
    forall j | 0 <= j < d
      ensures Collision(b, t, Advance(h0, j))
    {
      assert Advance(h0, j) in b;
      DistAdvance(h0, j);
      if Identical(t, b[Advance(h0, j)]) {
        assert Identical(b[Advance(h0, j)], b[s]);
      }
    }
    assert Advance(h0, 0) == h0;
    ProbeStopsAt(b, t, h0, 0, d);
  }

  /**
   * Dedup: a type identical to an occupant gets the occupant's id, whatever
   * its type value, and no slot is added.
   */
  lemma HashFindsIdentical(hashOf: TypeExpr -> Id, tab: Table, t: TypeValue, s: Id)
    requires Consistent(hashOf, tab)
    requires s in tab.backward && Identical(tab.backward[s], t)
    ensures GetOrCreate(hashOf, tab, t).result == Ok(s)
    ensures GetOrCreate(hashOf, tab, t).tab == Table(tab.forward[t := s], tab.backward)
  {
    if t in tab.forward {
      assert Identical(tab.backward[tab.forward[t]], tab.backward[s]);
    } else {
      ProbeFindsIdentical(hashOf, tab, t, s);
    }
  }

  /** Every successful `Hash` leaves an occupant identical to `t` at the returned id. */
  lemma {:induction false} HashSound(hashOf: TypeExpr -> Id, tab: Table, t: TypeValue)
    requires Consistent(hashOf, tab)
    ensures var h := GetOrCreate(hashOf, tab, t);
      && Consistent(hashOf, h.tab)
      && (h.result.Ok? ==>
            && h.result.value in h.tab.backward
            && Identical(h.tab.backward[h.result.value], t)
            && h.tab.forward == tab.forward[t := h.result.value])
      // a slot is written only when it was empty, and never overwritten
      && (h.tab.backward == tab.backward ||
            (h.result.Ok? && h.result.value !in tab.backward &&
             h.tab.backward == tab.backward[h.result.value := t]))
      && (h.result.Err? ==> h.tab == tab)
  {
    if t !in tab.forward {
      var b := tab.backward;
      var h0 := HashOf(hashOf, t);
      assert Advance(h0, 0) == h0;
      ProbeFacts(b, t, h0, 0);
      var p := ProbeFrom(b, t, h0, 0);
      if p.Free? {
        FreeMeansNew(hashOf, tab, t, p.slot);
        InsertKeepsConsistent(hashOf, tab, t, p.slot);
      }
    }
  }

  /** A probe that ends at a free slot has passed no occupant identical to `t`, and there is none elsewhere. */
  lemma FreeMeansNew(hashOf: TypeExpr -> Id, tab: Table, t: TypeValue, s: Id)
    requires Consistent(hashOf, tab) && t !in tab.forward
    requires ProbeFrom(tab.backward, t, HashOf(hashOf, t), 0) == Free(s)
    ensures forall s1 :: s1 in tab.backward ==> !Identical(tab.backward[s1], t)
  {
    forall s1 | s1 in tab.backward
      ensures !Identical(tab.backward[s1], t)
    {
      if Identical(tab.backward[s1], t) {
        ProbeFindsIdentical(hashOf, tab, t, s1);
      }
    }
  }

  /**
   * Writing a type identical to no occupant into a free slot at most 10000
   * slots past its hash, with all slots in between taken, keeps the invariant.
   */
  lemma InsertKeepsConsistent(hashOf: TypeExpr -> Id, tab: Table, t: TypeValue, s: Id)
    requires Consistent(hashOf, tab)
    requires s !in tab.backward
    requires forall s1 :: s1 in tab.backward ==> !Identical(tab.backward[s1], t)
    requires Dist(HashOf(hashOf, t), s) <= MaxCollisions
    requires forall j :: 0 <= j < Dist(HashOf(hashOf, t), s) ==> Advance(HashOf(hashOf, t), j) in tab.backward
    ensures Consistent(hashOf, Table(tab.forward[t := s], tab.backward[s := t]))
  {
    var b := tab.backward;
    var f' := tab.forward[t := s];
    var b' := b[s := t];
    forall u | u in f'
      ensures f'[u] in b' && Identical(b'[f'[u]], u)
    {
      if u != t {
        assert f'[u] == tab.forward[u] && tab.forward[u] in b;
      }
    }
    forall s1, s2 | s1 in b' && s2 in b' && Identical(b'[s1], b'[s2])
      ensures s1 == s2
    {
      if s1 != s && s2 != s {
        assert b'[s1] == b[s1] && b'[s2] == b[s2];
      }
    }
    forall s2 | s2 in b'
      ensures Chained(hashOf, b', s2)
    {
      if s2 != s {
        assert Chained(hashOf, b, s2);
      }
    }
  }

  /** A cached id is never changed: hashing only adds to `forward`. */
  lemma HashKeepsCache(hashOf: TypeExpr -> Id, tab: Table, t: TypeValue)
    ensures var f := GetOrCreate(hashOf, tab, t).tab.forward;
      forall u :: u in tab.forward ==> u in f && f[u] == tab.forward[u]
  {
  }

  /**
   * Dedup across the whole table: two cached type values share an id
   * exactly when they are identical.
   */
  lemma ForwardAgreesIff(hashOf: TypeExpr -> Id, tab: Table, t1: TypeValue, t2: TypeValue)
    requires Consistent(hashOf, tab)
    requires t1 in tab.forward && t2 in tab.forward
    ensures tab.forward[t1] == tab.forward[t2] <==> Identical(t1, t2)
  {
    var s1, s2 := tab.forward[t1], tab.forward[t2];
    assert Identical(tab.backward[s1], t1) && Identical(tab.backward[s2], t2);
    if Identical(t1, t2) {
      assert Identical(tab.backward[s1], tab.backward[s2]);
    }
  }

  /** Memoisation: hashing the same type value again returns the same id and changes nothing. */
  lemma HashMemo(hashOf: TypeExpr -> Id, tab: Table, t: TypeValue)
    requires Consistent(hashOf, tab)
    requires GetOrCreate(hashOf, tab, t).result.Ok?
    ensures var h := GetOrCreate(hashOf, tab, t);
      GetOrCreate(hashOf, h.tab, t) == Hashing(h.result, h.tab)
  {
    HashSound(hashOf, tab, t);
  }

  /**
   * Two types hashed one after the other get the same id exactly when they
   * are identical; the second adds no slot when they are.
   */
  lemma HashTwo(hashOf: TypeExpr -> Id, tab: Table, t1: TypeValue, t2: TypeValue)
    requires Consistent(hashOf, tab)
    requires GetOrCreate(hashOf, tab, t1).result.Ok?
    requires GetOrCreate(hashOf, GetOrCreate(hashOf, tab, t1).tab, t2).result.Ok?
    ensures var h1 := GetOrCreate(hashOf, tab, t1);
      var h2 := GetOrCreate(hashOf, h1.tab, t2);
      && (h1.result == h2.result <==> Identical(t1, t2))
      && (Identical(t1, t2) ==> h2.tab.backward == h1.tab.backward)
  {
    var h1 := GetOrCreate(hashOf, tab, t1);
    HashSound(hashOf, tab, t1);
    HashSound(hashOf, h1.tab, t2);
    var h2 := GetOrCreate(hashOf, h1.tab, t2);
    if Identical(t1, t2) {
      HashFindsIdentical(hashOf, h1.tab, t2, h1.result.value);
    }
  }

  /**
   * Bounded probing: a panic happens exactly when `t` is new and all 10001
   * slots from its hash on hold types not identical to it.
   */
  lemma HashPanicsIff(hashOf: TypeExpr -> Id, tab: Table, t: TypeValue)
    ensures GetOrCreate(hashOf, tab, t).result.Err? <==>
              t !in tab.forward && CollisionsBefore(tab.backward, t, HashOf(hashOf, t), MaxCollisions + 1)
  {
    var h0 := HashOf(hashOf, t);
    assert Advance(h0, 0) == h0;
    ProbeFacts(tab.backward, t, h0, 0);
    var p := ProbeFrom(tab.backward, t, h0, 0);
    if !p.Exhausted? {
      AdvanceDist(h0, p.slot);
    }
  }

  /** A `Hasher`: the hash function it was made with and its two maps. */
  class Hasher {
    /** `typeutil.Hasher.Hash`, applied to the shape of a type (see `HashOf`). */
    const hashOf: TypeExpr -> Id
    var forward: map<TypeValue, Id>
    var backward: map<Id, TypeValue>

    function State(): Table
      reads this
    {
      Table(forward, backward)
    }

    ghost predicate Valid()
      reads this
    {
      Consistent(hashOf, State())
    }

    /** `newHasher()`. */
    constructor (hashOf: TypeExpr -> Id)
      ensures Valid() && this.hashOf == hashOf && State() == Empty()
    {
      this.hashOf := hashOf;
      forward := map[];
      backward := map[];
    }

    /** The probing loop of `Hash`, entered at the type's hash: looks at slots until one is not a collision. */
    method ProbeSlots(t: TypeValue, start: Id) returns (p: Probe)
      ensures p == ProbeFrom(backward, t, start, 0)
    {
      var hash := start;
      var i := 0;
      while hash in backward
        invariant 0 <= i <= MaxCollisions
        invariant ProbeFrom(backward, t, hash, i) == ProbeFrom(backward, t, start, 0)
        decreases MaxCollisions - i
      {
        if Identical(t, backward[hash]) {
          return Match(hash);
        }
        i := i + 1;
        if i > MaxCollisions {
          return Exhausted;
        }
        hash := Succ(hash);
      }
      return Free(hash);
    }

    method Hash(t: TypeValue) returns (r: Result<Id, Panic>)
      requires Valid()
      modifies this
      ensures Valid()
      ensures Hashing(r, State()) == GetOrCreate(hashOf, old(State()), t)
    {
      HashSound(hashOf, State(), t);
      if t in forward {
        return Ok(forward[t]);
      }
      var p := ProbeSlots(t, HashOf(hashOf, t));
      match p
      case Match(hash) =>
        forward := forward[t := hash];
        r := Ok(hash);
      case Free(hash) =>
        forward := forward[t := hash];
        backward := backward[hash := t];
        r := Ok(hash);
      case Exhausted =>
        r := Err(TooManyCollisions);
    }
  }
}
