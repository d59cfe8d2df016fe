/**
 * The Bowyer–Watson walk-through as the script runs it: running bounding-box variables, lists
 * built by appending inside nested loops, and a triangle list changed in place by `pop` and
 * `append`. Each loop is a method proved equal to the corresponding function of module Mesh or
 * Geometry, so the properties proved there carry over to what the loops compute.
 */
module BowyerWatson {
  import opened Errors
  import opened Float32
  import opened DataTypes
  import opened PointSets
  import opened TriangleSets
  import opened Geometry
  import opened Mesh

  // ---------------------------------------------------------------------------------------------
  // The extended point list
  // ---------------------------------------------------------------------------------------------

  /** A point's coordinates as the exact numbers its float32 patterns denote. */
  function ToVec(p: Point): Vec {
    Vec(CoordValue(p.x), CoordValue(p.y))
  }

  function Coordinates(ps: seq<Point>): (vs: seq<Vec>)
    ensures |vs| == |ps|
    ensures forall k :: 0 <= k < |ps| ==> vs[k] == ToVec(ps[k])
  {
    seq(|ps|, k requires 0 <= k < |ps| => ToVec(ps[k]))
  }

  /**
   * `all_points`: the n input points followed by the three super vertices built from their
   * bounding box, so the super vertices have indices n, n+1 and n+2.
   */
  function ExtendedPoints(ps: seq<Point>): (all: seq<Vec>)
    requires |ps| > 0
    ensures |all| == |ps| + 3
    ensures forall k :: 0 <= k < |ps| ==> all[k] == ToVec(ps[k])
    ensures Bounds(Coordinates(ps)).Some? && all[|ps|..] == SuperVertices(Bounds(Coordinates(ps)).value)
  {
    var vs := Coordinates(ps);
    BoundsTight(vs);
    vs + SuperVertices(Bounds(vs).value)
  }

  /** Two different points have different coordinates, so their bounding box is not a single point. */
  lemma DistinctPointsSpreadBox(ps: seq<Point>)
    requires NoDuplicates(ps) && |ps| >= 2
    ensures Bounds(Coordinates(ps)).Some? && DeltaMax(Bounds(Coordinates(ps)).value) > 0.0
  {
    var vs := Coordinates(ps);
    BoundsTight(vs);
    var b := Bounds(vs).value;
    assert Within(b, vs[0]) && Within(b, vs[1]);
    if vs[0].x == vs[1].x && vs[0].y == vs[1].y {
      CoordValueInjective(ps[0].x, ps[1].x);
      CoordValueInjective(ps[0].y, ps[1].y);
      assert false;
    }
    BoxSpread(b, vs[0], vs[1]);
  }

  /**
   * With at least two distinct input points, every input point lies strictly inside the
   * super triangle (n, n+1, n+2), which is clockwise.
   */
  lemma SuperTriangleContainsInput(ps: seq<Point>)
    requires NoDuplicates(ps) && |ps| >= 2
    ensures var all, n := ExtendedPoints(ps), |ps|;
            Orientation(all[n], all[n + 1], all[n + 2]) < 0.0 &&
            forall k :: 0 <= k < n ==> StrictlyInsideClockwise(all[n], all[n + 1], all[n + 2], all[k])
  {
    var all, n := ExtendedPoints(ps), |ps|;
    var vs := Coordinates(ps);
    BoundsTight(vs);
    DistinctPointsSpreadBox(ps);
    var b := Bounds(vs).value;
    assert all[n..] == SuperVertices(b);
    assert all[n] == SuperVertices(b)[0] && all[n + 1] == SuperVertices(b)[1] && all[n + 2] == SuperVertices(b)[2];
    assert b.minX <= b.maxX && b.minY <= b.maxY by {
      assert Within(b, vs[0]);
    }
    SuperTriangleEncloses(b, vs[0]);
    forall k | 0 <= k < n
      ensures StrictlyInsideClockwise(all[n], all[n + 1], all[n + 2], all[k])
    {
      assert Within(b, vs[k]);
      SuperTriangleEncloses(b, vs[k]);
    }
  }

  /** The triangles the walk-through ends with, for a non-empty point list. */
  function Triangulation(ps: seq<Point>): (ts: seq<Triangle>)
    requires |ps| > 0
    ensures WellFormed(|ps|, ts)
  {
    var all := ExtendedPoints(ps);
    TriangulationWellFormed(all, |ps|);
    RealOnly(MeshAfter(all, |ps|, |ps|), |ps|)
  }

  // ---------------------------------------------------------------------------------------------
  // The loops
  // ---------------------------------------------------------------------------------------------

  /** The bounding-box loop: the running minima and maxima over all points. */
  method BoundingBox(pts: seq<Vec>) returns (box: Option<Box>)
    ensures box == Bounds(pts)
    ensures |pts| > 0 ==> box.Some? && Encloses(box.value, pts) && Attained(box.value, pts)
  {
    box := None;
    for i := 0 to |pts|
      invariant box == Bounds(pts[..i])
    {
      assert pts[..i + 1][..i] == pts[..i];
      box := Some(Extend(box, pts[i]));
    }
    assert pts[..|pts|] == pts;
    BoundsTight(pts);
  }

  /** The bad-triangle loop: the slots, in increasing order, whose triangle is bad for p. */
  method FindBadTriangles(pts: seq<Vec>, mesh: seq<Triangle>, p: Vec) returns (bad: seq<int>)
    requires MeshInRange(pts, mesh)
    ensures bad == BadIndices(pts, mesh, p)
  {
    bad := [];
    for k := 0 to |mesh|
      invariant MeshInRange(pts, mesh[..k])
      invariant bad == BadIndices(pts, mesh[..k], p)
    {
      assert mesh[..k + 1][..k] == mesh[..k];
      var t := mesh[k];
      if IsBad(p, pts[t.a], pts[t.b], pts[t.c]) {
        bad := bad + [k];
      }
    }
    assert mesh[..|mesh|] == mesh;
  }

  /** The inner search: does another bad triangle have edge e in either direction? */
  method IsShared(mesh: seq<Triangle>, bad: seq<int>, k: int, e: Edge) returns (shared: bool)
    requires ValidBad(mesh, bad)
    ensures shared == Shared(mesh, bad, k, e)
  {
    shared := false;
    var j := 0;
    while j < |bad|
      invariant 0 <= j <= |bad|
      invariant forall x :: 0 <= x < j ==> !(bad[x] != k && HasEdge(mesh[bad[x]], e))
    {
      if bad[j] != k {
        var other := Edges(mesh[bad[j]]);
        if e in other || Edge(e.v, e.u) in other {
          shared := true;
          break;
        }
      }
      j := j + 1;
    }
  }

  /** The polygon loop: for each bad triangle in turn, its edges that no other bad triangle has. */
  method PolygonBoundary(mesh: seq<Triangle>, bad: seq<int>) returns (polygon: seq<Edge>)
    requires ValidBad(mesh, bad)
    ensures polygon == Boundary(mesh, bad)
  {
    polygon := [];
    for m := 0 to |bad|
      invariant polygon == BoundaryPrefix(mesh, bad, m)
    {
      var k := bad[m];
      var edges := Edges(mesh[k]);
      ghost var before := polygon;
      for q := 0 to 3
        invariant polygon == before + Unshared(mesh, bad, k, edges[..q])
      {
        assert edges[..q + 1][..q] == edges[..q];
        var shared := IsShared(mesh, bad, k, edges[q]);
        if !shared {
          polygon := polygon + [edges[q]];
        }
      }
      assert edges[..3] == edges;
    }
  }

  /**
   * The deletion loop: the bad slots are popped from the largest down (`sorted(bad, reverse=True)`
   * is the ascending list read backwards), so each pop leaves the slots still to be popped in place.
   */
  method RemoveBad(mesh: seq<Triangle>, bad: seq<int>) returns (kept: seq<Triangle>)
    requires ValidBad(mesh, bad)
    ensures kept == Kept(mesh, bad)
    ensures |kept| == |mesh| - |bad|
  {
    kept := mesh;
    ghost var cut := |mesh|;
    var j := |bad|;
    while j > 0
      invariant 0 <= j <= |bad| && cut <= |mesh|
      invariant j < |bad| ==> cut == bad[j]
      invariant j == |bad| ==> cut == |mesh|
      invariant kept == mesh[..cut] + KeptFrom(mesh, bad, cut)
      invariant |kept| == |mesh| - (|bad| - j)
    {
      var k := bad[j - 1];
      assert k < cut;
      assert forall x :: k < x < cut ==> x !in bad;
      PopBadSlot(mesh, bad, kept, k, cut);
      kept := kept[..k] + kept[k + 1..];
      cut := k;
      j := j - 1;
    }
    assert forall x :: 0 <= x < cut ==> x !in bad;
    KeptFromSkip(mesh, bad, 0, cut);
    assert mesh[..cut] == mesh[0..cut];
  }

  /** The re-fan loop: one triangle (u, v, i) appended per polygon edge (u, v), in polygon order. */
  method AddFan(mesh: seq<Triangle>, polygon: seq<Edge>, i: int) returns (result: seq<Triangle>)
    ensures result == mesh + Fan(polygon, i)
  {
    result := mesh;
    for q := 0 to |polygon|
      invariant result == mesh + Fan(polygon[..q], i)
    {
      var e := polygon[q];
      result := result + [Triangle(e.u, e.v, i)];
      assert Fan(polygon[..q + 1], i) == Fan(polygon[..q], i) + [Triangle(e.u, e.v, i)];
    }
    assert polygon[..|polygon|] == polygon;
  }

  /** One pass of the per-point loop: find the bad triangles, the polygon, delete, re-fan. */
  method InsertPoint(pts: seq<Vec>, mesh: seq<Triangle>, i: nat) returns (next: seq<Triangle>)
    requires i < |pts| && MeshInRange(pts, mesh)
    ensures next == Step(pts, mesh, i)
  {
    var bad := FindBadTriangles(pts, mesh, pts[i]);
    var polygon := PolygonBoundary(mesh, bad);
    var kept := RemoveBad(mesh, bad);
    next := AddFan(kept, polygon, i);
  }

  /** The per-point loop, starting from the super triangle (n, n+1, n+2). */
  method BuildMesh(pts: seq<Vec>, n: nat) returns (mesh: seq<Triangle>)
    requires |pts| == n + 3
    ensures mesh == MeshAfter(pts, n, n)
  {
    mesh := [Triangle(n, n + 1, n + 2)];
    for i := 0 to n
      invariant mesh == MeshAfter(pts, n, i)
    {
      MeshAfterStep(pts, n, i);
      mesh := InsertPoint(pts, mesh, i);
    }
  }

  /** The final filter: the triangles with all three indices below n, in mesh order. */
  method FilterSuper(mesh: seq<Triangle>, n: int) returns (final: seq<Triangle>)
    ensures final == RealOnly(mesh, n)
  {
    final := [];
    for k := 0 to |mesh|
      invariant final == RealOnly(mesh[..k], n)
    {
      assert mesh[..k + 1][..k] == mesh[..k];
      var t := mesh[k];
      if t.a < n && t.b < n && t.c < n {
        final := final + [t];
      }
    }
    assert mesh[..|mesh|] == mesh;
  }

  /**
   * The whole walk-through for a non-empty point list: bounding box, super vertices, n insertions
   * and the final filter. The result is a valid triangle list over the input points.
   */
  method Run(points: seq<Point>) returns (final: seq<Triangle>)
    requires |points| > 0
    ensures final == Triangulation(points)
    ensures WellFormed(|points|, final)
  {
    var n := |points|;
    var coords := Coordinates(points);
    var box := BoundingBox(coords);
    var all := coords + SuperVertices(box.value);
    assert all == ExtendedPoints(points);
    var mesh := BuildMesh(all, n);
    final := FilterSuper(mesh, n);
  }
}
