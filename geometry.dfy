/**
 * The geometric side of the Bowyer–Watson walk-through, over exact reals: the bounding box of the
 * input, the three super-triangle vertices, the orientation of a triangle and the in-circle
 * determinant that decides whether a triangle is "bad" for the point being inserted.
 */
module Geometry {
  import opened Errors

  datatype Vec = Vec(x: real, y: real)

  /** The running extremes of the bounding-box loop. */
  datatype Box = Box(minX: real, maxX: real, minY: real, maxY: real)

  function Min(a: real, b: real): real { if a <= b then a else b }
  function Max(a: real, b: real): real { if a >= b then a else b }

  predicate Within(b: Box, p: Vec) {
    b.minX <= p.x <= b.maxX && b.minY <= p.y <= b.maxY
  }

  /** Every point lies in the box. */
  predicate Encloses(b: Box, pts: seq<Vec>) {
    forall k :: 0 <= k < |pts| ==> Within(b, pts[k])
  }

  /** Each of the four bounds is a coordinate of some point. */
  predicate Attained(b: Box, pts: seq<Vec>) {
    (exists k :: 0 <= k < |pts| && pts[k].x == b.minX) &&
    (exists k :: 0 <= k < |pts| && pts[k].x == b.maxX) &&
    (exists k :: 0 <= k < |pts| && pts[k].y == b.minY) &&
    (exists k :: 0 <= k < |pts| && pts[k].y == b.maxY)
  }

  /**
   * One iteration of the bounding-box loop. `None` stands for the initial state in which the
   * minima are +infinity and the maxima -infinity, so the first point becomes the whole box.
   */
  function Extend(box: Option<Box>, p: Vec): Box {
    match box
    case None => Box(p.x, p.x, p.y, p.y)
    case Some(b) => Box(Min(b.minX, p.x), Max(b.maxX, p.x), Min(b.minY, p.y), Max(b.maxY, p.y))
  }

  /** The state of the bounding-box loop after the given points. */
  function Bounds(pts: seq<Vec>): Option<Box> {
    if pts == [] then None else Some(Extend(Bounds(pts[..|pts| - 1]), pts[|pts| - 1]))
  }

  /** The bounding box of a non-empty list encloses every point and each bound is attained. */
  lemma {:induction false} BoundsTight(pts: seq<Vec>)
    ensures Bounds(pts).Some? <==> |pts| > 0
    ensures Bounds(pts).Some? ==> Encloses(Bounds(pts).value, pts) && Attained(Bounds(pts).value, pts)
  {
    if pts != [] {
      var init := pts[..|pts| - 1];
      var p := pts[|pts| - 1];
      BoundsTight(init);
      var b := Bounds(pts).value;
      assert forall k :: 0 <= k < |init| ==> pts[k] == init[k];
      if init == [] {
        assert pts[0] == p;
      } else {
        var b0 := Bounds(init).value;
        assert b == Box(Min(b0.minX, p.x), Max(b0.maxX, p.x), Min(b0.minY, p.y), Max(b0.maxY, p.y));
        assert Encloses(b, pts) by {
          forall k | 0 <= k < |pts|
            ensures Within(b, pts[k])
          {
            if k < |init| {
              assert Within(b0, init[k]);
            }
          }
        }
        assert Attained(b, pts) by {
          var k1 :| 0 <= k1 < |init| && init[k1].x == b0.minX;
          var k2 :| 0 <= k2 < |init| && init[k2].x == b0.maxX;
          var k3 :| 0 <= k3 < |init| && init[k3].y == b0.minY;
          var k4 :| 0 <= k4 < |init| && init[k4].y == b0.maxY;
          var last := |pts| - 1;
          assert pts[if b.minX == p.x then last else k1].x == b.minX;
          assert pts[if b.maxX == p.x then last else k2].x == b.maxX;
          assert pts[if b.minY == p.y then last else k3].y == b.minY;
          assert pts[if b.maxY == p.y then last else k4].y == b.maxY;
        }
      }
    }
  }

  /** `delta_max`: the larger side of the box. */
  function DeltaMax(b: Box): real {
    Max(b.maxX - b.minX, b.maxY - b.minY)
  }

  /** A box holding two different points has a positive larger side. */
  lemma BoxSpread(b: Box, u: Vec, w: Vec)
    requires Within(b, u) && Within(b, w) && u != w
    ensures DeltaMax(b) > 0.0
  {
  }

  function MidX(b: Box): real { (b.minX + b.maxX) / 2.0 }
  function MidY(b: Box): real { (b.minY + b.maxY) / 2.0 }

  /** The three super-triangle vertices, appended after the real points at indices n, n+1, n+2. */
  function SuperVertices(b: Box): (s: seq<Vec>)
    ensures |s| == 3
  {
    var d := DeltaMax(b);
    [Vec(MidX(b) - 20.0 * d, MidY(b) - d),
     Vec(MidX(b), MidY(b) + 20.0 * d),
     Vec(MidX(b) + 20.0 * d, MidY(b) - d)]
  }

  /** Twice the signed area of (p0, p1, p2): negative when the vertices run clockwise. */
  function Orientation(p0: Vec, p1: Vec, p2: Vec): real {
    (p1.x - p0.x) * (p2.y - p0.y) - (p1.y - p0.y) * (p2.x - p0.x)
  }

  /** The vector from p to q. */
  function Sub(q: Vec, p: Vec): Vec { Vec(q.x - p.x, q.y - p.y) }

  /** `a.x * b.y - b.x * a.y`, the cross product of two vectors. */
  function Cross(a: Vec, b: Vec): real { a.x * b.y - b.x * a.y }

  /** The squared length of a vector. */
  function Norm2(a: Vec): real { a.x * a.x + a.y * a.y }

  /**
   * The in-circle determinant of (p0, p1, p2) seen from p: with a, b, c the vertices moved so that
   * p is the origin, |a|^2 (b x c) - |b|^2 (a x c) + |c|^2 (a x b).
   */
  function InCircleDet(p: Vec, p0: Vec, p1: Vec, p2: Vec): real {
    Cofactors(Sub(p0, p), Sub(p1, p), Sub(p2, p))
  }

  /** A triangle is bad for p when its determinant, negated for a clockwise triangle, is positive. */
  predicate IsBad(p: Vec, p0: Vec, p1: Vec, p2: Vec) {
    var det := InCircleDet(p, p0, p1, p2);
    (if Orientation(p0, p1, p2) < 0.0 then -det else det) > 0.0
  }

  // ---------------------------------------------------------------------------------------------
  // Vertex order
  // ---------------------------------------------------------------------------------------------

  /** Rotating the vertices keeps the orientation; exchanging two of them negates it. */
  lemma OrientationSymmetry(p0: Vec, p1: Vec, p2: Vec)
    ensures Orientation(p1, p2, p0) == Orientation(p0, p1, p2)
    ensures Orientation(p1, p0, p2) == -Orientation(p0, p1, p2)
  {
  }

  /** Rotating the vertices keeps the in-circle determinant; exchanging the first two negates it. */
  lemma InCircleSymmetry(p: Vec, p0: Vec, p1: Vec, p2: Vec)
    ensures InCircleDet(p, p1, p2, p0) == InCircleDet(p, p0, p1, p2)
    ensures InCircleDet(p, p1, p0, p2) == -InCircleDet(p, p0, p1, p2)
  {
    var a, b, c := Sub(p0, p), Sub(p1, p), Sub(p2, p);
    CofactorsRotate(a, b, c);
    CofactorsSwap(a, b, c);
  }

  /** The determinant of (a, b, c) in cofactor form, for vertices already moved relative to p. */
  function Cofactors(a: Vec, b: Vec, c: Vec): real {
    Norm2(a) * Cross(b, c) - Norm2(b) * Cross(a, c) + Norm2(c) * Cross(a, b)
  }

  lemma CofactorsRotate(a: Vec, b: Vec, c: Vec)
    ensures Cofactors(b, c, a) == Cofactors(a, b, c)
  {
    RotateTerms(Norm2(a), Norm2(b), Norm2(c), Cross(a, b), Cross(b, c), Cross(a, c), Cross(c, a), Cross(b, a));
  }

  lemma CofactorsSwap(a: Vec, b: Vec, c: Vec)
    ensures Cofactors(b, a, c) == -Cofactors(a, b, c)
  {
    SwapTerms(Norm2(a), Norm2(b), Norm2(c), Cross(a, b), Cross(b, c), Cross(a, c), Cross(b, a));
  }

  /** The cofactor sum after a rotation, with the two reversed cross products written as negations. */
  lemma RotateTerms(na: real, nb: real, nc: real, ab: real, bc: real, ac: real, ca: real, ba: real)
    requires ca == -ac && ba == -ab
    ensures nb * ca - nc * ba + na * bc == na * bc - nb * ac + nc * ab
  {
    NegateRight(nb, ac);
    NegateRight(nc, ab);
  }

  /** The cofactor sum after exchanging the first two vertices. */
  lemma SwapTerms(na: real, nb: real, nc: real, ab: real, bc: real, ac: real, ba: real)
    requires ba == -ab
    ensures nb * ac - na * bc + nc * ba == -(na * bc - nb * ac + nc * ab)
  {
    NegateRight(nc, ab);
  }

  lemma NegateRight(x: real, y: real)
    ensures x * -y == -(x * y)
  {
  }

  /** The badness test does not depend on which vertex comes first. */
  lemma IsBadRotation(p: Vec, p0: Vec, p1: Vec, p2: Vec)
    ensures IsBad(p, p1, p2, p0) <==> IsBad(p, p0, p1, p2)
  {
    OrientationSymmetry(p0, p1, p2);
    InCircleSymmetry(p, p0, p1, p2);
  }

  /**
   * For a proper (non-degenerate) triangle, the badness test does not depend on the direction in
   * which the vertices are listed either; together with IsBadRotation, on no vertex order at all.
   */
  lemma IsBadReflection(p: Vec, p0: Vec, p1: Vec, p2: Vec)
    requires Orientation(p0, p1, p2) != 0.0
    ensures IsBad(p, p1, p0, p2) <==> IsBad(p, p0, p1, p2)
  {
    OrientationSymmetry(p0, p1, p2);
    InCircleSymmetry(p, p0, p1, p2);
  }

  /**
   * For three collinear vertices the sign flip never happens, so whenever the determinant is not
   * zero, listing the vertices in the other direction reverses the verdict.
   */
  lemma CollinearOrderMatters(p: Vec, p0: Vec, p1: Vec, p2: Vec)
    requires Orientation(p0, p1, p2) == 0.0 && InCircleDet(p, p0, p1, p2) != 0.0
    ensures IsBad(p, p0, p1, p2) != IsBad(p, p1, p0, p2)
  {
    OrientationSymmetry(p0, p1, p2);
    InCircleSymmetry(p, p0, p1, p2);
  }

  // ---------------------------------------------------------------------------------------------
  // The super triangle
  // ---------------------------------------------------------------------------------------------

  /** p lies strictly inside the clockwise triangle (a, b, c). */
  predicate StrictlyInsideClockwise(a: Vec, b: Vec, c: Vec, p: Vec) {
    Orientation(a, b, p) < 0.0 && Orientation(b, c, p) < 0.0 && Orientation(c, a, p) < 0.0
  }

  lemma NegativeProduct(d: real, k: real)
    requires d > 0.0 && k < 0.0
    ensures d * k < 0.0
  {
  }

  /**
   * The super triangle is clockwise and every point of a box that is not a single point lies
   * strictly inside it: this is what makes it a valid starting mesh for the insertions.
   */
  lemma SuperTriangleEncloses(b: Box, p: Vec)
    requires b.minX <= b.maxX && b.minY <= b.maxY && DeltaMax(b) > 0.0
    requires Within(b, p)
    ensures var s := SuperVertices(b);
            Orientation(s[0], s[1], s[2]) < 0.0 && StrictlyInsideClockwise(s[0], s[1], s[2], p)
  {
    var s := SuperVertices(b);
    var d := DeltaMax(b);
    var u, v := p.x - MidX(b), p.y - MidY(b);
    assert -d / 2.0 <= u <= d / 2.0 && -d / 2.0 <= v <= d / 2.0;
    var k0, k1, k2, k3 := -840.0 * d, 20.0 * v - 21.0 * u - 400.0 * d, 20.0 * v + 21.0 * u - 400.0 * d, -40.0 * (v + d);
    assert Orientation(s[0], s[1], s[2]) == d * k0;
    assert Orientation(s[0], s[1], p) == d * k1;
    assert Orientation(s[1], s[2], p) == d * k2;
    assert Orientation(s[2], s[0], p) == d * k3;
    NegativeProduct(d, k0);
    NegativeProduct(d, k1);
    NegativeProduct(d, k2);
    NegativeProduct(d, k3);
  }
}
