/** The two value types of the library: a point with float coordinates and a triangle of point indices. */
module DataTypes {
  import opened Errors
  import opened Float32

  /** An immutable point; `x` and `y` are exactly the coordinates it was built from. */
  datatype Point = Point(x: Coord, y: Coord)

  /** What may stand on the right of `Point.__eq__`: a Point, a tuple or list of coordinates, or anything else. */
  datatype PointOperand =
    | PointValue(p: Point)
    | TupleValue(items: seq<Coord>)
    | ListValue(items: seq<Coord>)
    | OtherValue

  /** The point an operand stands for, when it is a Point or a pair of coordinates. */
  function AsPoint(other: PointOperand): Option<Point>
  {
    match other
    case PointValue(q) => Some(q)
    case TupleValue(items) => if |items| == 2 then Some(Point(items[0], items[1])) else None
    case ListValue(items) => if |items| == 2 then Some(Point(items[0], items[1])) else None
    case OtherValue => None
  }

  /** The numeric values of two points agree coordinate by coordinate. */
  predicate SameValue(p: Point, q: Point) {
    CoordValue(p.x) == CoordValue(q.x) && CoordValue(p.y) == CoordValue(q.y)
  }

  /**
   * `Point.__eq__`: equal exactly when both coordinates are numerically equal; comparing with
   * anything that is not a point or a coordinate pair raises TypeError.
   */
  function PointEquals(p: Point, other: PointOperand): (r: Result<bool>)
    ensures r.Err? <==> AsPoint(other).None?
    ensures r.Err? ==> r.error == TypeError
    ensures r.Ok? ==> (r.value <==> SameValue(p, AsPoint(other).value))
  {
    match AsPoint(other)
    case None => Err(TypeError)
    case Some(q) =>
      if p == q then Ok(true)
      else
        SameValueIsEquality(p, q);
        Ok(false)
  }

  /** Equal numeric coordinates mean the same point. */
  lemma SameValueIsEquality(p: Point, q: Point)
    ensures SameValue(p, q) <==> p == q
  {
    if SameValue(p, q) {
      CoordValueInjective(p.x, q.x);
      CoordValueInjective(p.y, q.y);
    }
  }

  /** `Point.__hash__`: both coordinate patterns packed into one integer. */
  function PointHash(p: Point): int {
    p.x * 0x1_0000_0000 + p.y
  }

  /** Points that compare equal hash alike. */
  lemma HashConsistent(p: Point, q: Point)
    requires PointEquals(p, PointValue(q)) == Ok(true)
    ensures PointHash(p) == PointHash(q)
  {
    SameValueIsEquality(p, q);
  }

  /** A triangle: three point indices, kept in construction order. */
  datatype Triangle = Triangle(a: int, b: int, c: int)

  /** `Triangle.indices`: the set of the three vertex indices. */
  function Indices(t: Triangle): set<int> {
    {t.a, t.b, t.c}
  }

  /** Triangle equality: same vertex set, whatever the order. */
  predicate SameTriangle(t: Triangle, u: Triangle) {
    Indices(t) == Indices(u)
  }

  /** The three vertices are pairwise different. */
  predicate Distinct(t: Triangle) {
    t.a != t.b && t.b != t.c && t.a != t.c
  }

  /** Every vertex of `t` is a vertex of `u`. */
  predicate VerticesWithin(t: Triangle, u: Triangle) {
    (t.a == u.a || t.a == u.b || t.a == u.c) &&
    (t.b == u.a || t.b == u.b || t.b == u.c) &&
    (t.c == u.a || t.c == u.b || t.c == u.c)
  }

  /** What may stand on the right of `Triangle.__eq__`: a Triangle, or any other value (a tuple included). */
  datatype TriangleOperand = TriangleValue(t: Triangle) | NotATriangle

  /** `Triangle.__eq__`: set equality of indices; anything but a Triangle raises TypeError. */
  function TriangleEquals(t: Triangle, other: TriangleOperand): (r: Result<bool>)
    ensures other.NotATriangle? ==> r == Err(TypeError)
    ensures other.TriangleValue? ==>
              r.Ok? && (r.value <==> VerticesWithin(t, other.t) && VerticesWithin(other.t, t))
  {
    match other
    case NotATriangle => Err(TypeError)
    case TriangleValue(u) =>
      assert SameTriangle(t, u) ==> t.a in Indices(u) && t.b in Indices(u) && t.c in Indices(u);
      Ok(SameTriangle(t, u))
  }

  /** `indices` contains exactly the constructor arguments, independent of their order. */
  lemma IndicesOfAnyOrder(a: int, b: int, c: int)
    ensures Indices(Triangle(a, b, c)) == Indices(Triangle(b, c, a)) == Indices(Triangle(c, a, b))
         == Indices(Triangle(a, c, b)) == Indices(Triangle(b, a, c)) == Indices(Triangle(c, b, a))
    ensures forall i :: i in Indices(Triangle(a, b, c)) <==> i == a || i == b || i == c
  {
  }

  /**
   * For a triangle with distinct vertices, another triangle is equal to it exactly when it is one of
   * the six orderings of the same three indices.
   */
  lemma SameTriangleIsPermutation(t: Triangle, u: Triangle)
    requires Distinct(t)
    ensures SameTriangle(t, u) <==>
      u in {Triangle(t.a, t.b, t.c), Triangle(t.b, t.c, t.a), Triangle(t.c, t.a, t.b),
            Triangle(t.a, t.c, t.b), Triangle(t.b, t.a, t.c), Triangle(t.c, t.b, t.a)}
  {
    if SameTriangle(t, u) {
      assert u.a in Indices(t) && u.b in Indices(t) && u.c in Indices(t);
      assert t.a in Indices(u) && t.b in Indices(u) && t.c in Indices(u);
    }
  }

  /** Three distinct indices make a set of three; a repeated one makes a smaller set. */
  lemma DistinctIffThreeIndices(t: Triangle)
    ensures Distinct(t) <==> |Indices(t)| == 3
  {
    if t.a == t.b {
      assert Indices(t) == {t.a, t.c};
    } else if t.b == t.c {
      assert Indices(t) == {t.a, t.b};
    } else if t.a == t.c {
      assert Indices(t) == {t.a, t.b};
    }
  }

  /** Triangle equality is an equivalence relation. */
  lemma SameTriangleEquivalence(t: Triangle, u: Triangle, v: Triangle)
    ensures SameTriangle(t, t)
    ensures SameTriangle(t, u) ==> SameTriangle(u, t)
    ensures SameTriangle(t, u) && SameTriangle(u, v) ==> SameTriangle(t, v)
  {
  }

  /** The examples of the tests: (0,1,2) equals (2,1,0) and differs from (0,2,3). */
  lemma TriangleEqualityExamples()
    ensures TriangleEquals(Triangle(0, 1, 2), TriangleValue(Triangle(2, 1, 0))) == Ok(true)
    ensures TriangleEquals(Triangle(0, 1, 2), TriangleValue(Triangle(0, 2, 3))) == Ok(false)
  {
    assert 3 !in Indices(Triangle(0, 1, 2));
  }
}
