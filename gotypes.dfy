/**
 * The types of go/types the tool meets. A `types.Type` is an interface
 * value: two of them can be different keys of a Go map and still be
 * `types.Identical`. `TypeValue` keeps both views: `node` stands for the
 * identity Go's map compares, `expr` for the structure Identical compares.
 */
module GoTypes {
  import opened Wrappers

  /** A `*types.Package`: its import path and its declared name. */
  datatype Package = Package(path: string, name: string)

  datatype TypeExpr =
    | Basic(kind: string)
      /** A defined type, `obj` standing for its type name object: identical only to itself. */
    | Named(obj: nat, pkg: Package, name: string, underlying: TypeExpr)
    | Pointer(elem: TypeExpr)
    | Slice(elem: TypeExpr)
      /**
       * `func(fixed..., ...tail) (results...)`; the last parameter of a
       * variadic signature is `[]tail`. `names` are the parameter names and
       * then the result names as declared (none when the declaration names
       * none): `types.TypeString` prints them, `types.Identical` ignores them.
       */
    | Signature(fixed: seq<TypeExpr>, tail: Option<TypeExpr>, results: seq<TypeExpr>, names: seq<string>)
      /**
       * Any other type (array, map, channel, struct, interface): `kind` holds
       * all of it but its element types (array length, channel direction,
       * field names and tags, method names), `elems` the element types.
       */
    | Composite(kind: string, elems: seq<TypeExpr>)

  datatype TypeValue = TypeValue(node: nat, expr: TypeExpr)

  /** The structure `types.Identical` compares: the type with every parameter and result name dropped. */
  function Shape(t: TypeExpr): TypeExpr
    decreases t
  {
    match t
    case Basic(_) => t
    case Named(_, _, _, _) => t
    case Pointer(e) => Pointer(Shape(e))
    case Slice(e) => Slice(Shape(e))
    case Signature(fixed, tail, results, _) =>
      Signature(ShapeList(fixed), match tail case Some(x) => Some(Shape(x)) case None => None, ShapeList(results), [])
    case Composite(kind, elems) => Composite(kind, ShapeList(elems))
  }

  function ShapeList(ts: seq<TypeExpr>): (r: seq<TypeExpr>)
    ensures |r| == |ts|
    decreases ts
  {
    if ts == [] then [] else [Shape(ts[0])] + ShapeList(ts[1..])
  }

  /** `types.Identical`. */
  predicate Identical(t: TypeValue, u: TypeValue)
  {
    Shape(t.expr) == Shape(u.expr)
  }

  /** Two signatures that differ only in their parameter and result names are identical. */
  lemma IdenticalIgnoresNames(t: TypeValue, u: TypeValue)
    requires t.expr.Signature? && u.expr.Signature?
    requires t.expr.fixed == u.expr.fixed && t.expr.tail == u.expr.tail && t.expr.results == u.expr.results
    ensures Identical(t, u)
  {
  }

  /** A type is identical to its shape, whatever the two type values: names never affect identity. */
  lemma IdenticalToShape(n: nat, m: nat, e: TypeExpr)
    ensures Identical(TypeValue(n, Shape(e)), TypeValue(m, e))
  {
    ShapeIdempotent(e);
  }

  /** Dropping names twice drops nothing more: a shape is its own shape. */
  lemma {:induction false} ShapeIdempotent(t: TypeExpr)
    ensures Shape(Shape(t)) == Shape(t)
    decreases t
  {
    match t
    case Basic(_) =>
    case Named(_, _, _, _) =>
    case Pointer(e) => ShapeIdempotent(e);
    case Slice(e) => ShapeIdempotent(e);
    case Signature(fixed, tail, results, _) =>
      ShapeListIdempotent(fixed);
      ShapeListIdempotent(results);
      if tail.Some? {
        ShapeIdempotent(tail.value);
      }
    case Composite(_, elems) => ShapeListIdempotent(elems);
  }

  lemma {:induction false} ShapeListIdempotent(ts: seq<TypeExpr>)
    ensures ShapeList(ShapeList(ts)) == ShapeList(ts)
    decreases ts
  {
    if ts != [] {
      ShapeIdempotent(ts[0]);
      ShapeListIdempotent(ts[1..]);
      var r := ShapeList(ts);
      assert r[0] == Shape(ts[0]) && r[1..] == ShapeList(ts[1..]);
    }
  }

  /**
   * `Type.Underlying()`: a defined type's underlying type, any other type
   * itself. go/types never gives a defined type as an underlying type
   * (`type L M` has `M`'s underlying type as its own), so `underlying` is
   * never `Named` in a type go/types builds.
   */
  function Underlying(t: TypeExpr): TypeExpr
  {
    if t.Named? then t.underlying else t
  }

  /** `Signature.Params()`: the fixed parameters, then the slice that receives a variadic tail. */
  function Params(sig: TypeExpr): (ps: seq<TypeExpr>)
    requires sig.Signature?
    ensures |ps| == |sig.fixed| + (if sig.tail.Some? then 1 else 0)
  {
    sig.fixed + (if sig.tail.Some? then [Slice(sig.tail.value)] else [])
  }

  /** `types.TypeAndValue` as far as the rewrite reads it. */
  datatype TypeAndValue = TypeAndValue(typ: TypeValue, isValue: bool)
}
