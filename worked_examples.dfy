/**
 * The two successful triangulations that the repository's tests expect, worked out insertion by
 * insertion: at each insertion the bad slots, the cavity boundary and the surviving triangles.
 */
module WorkedExamples {
  import opened Errors
  import opened Float32
  import opened DataTypes
  import opened TriangleSets
  import opened Geometry
  import opened Mesh
  import opened BowyerWatson

  /** The positions of the true entries, in increasing order. */
  function TrueSlots(vs: seq<bool>): seq<int> {
    if vs == [] then [] else TrueSlots(vs[..|vs| - 1]) + (if vs[|vs| - 1] then [|vs| - 1] else [])
  }

  /** BadIndices lists the slots whose verdict is true. */
  lemma {:induction false} BadIndicesAre(pts: seq<Vec>, mesh: seq<Triangle>, p: Vec, verdicts: seq<bool>)
    requires MeshInRange(pts, mesh) && |verdicts| == |mesh|
    requires forall k :: 0 <= k < |mesh| ==> BadTriangle(pts, p, mesh[k]) == verdicts[k]
    ensures BadIndices(pts, mesh, p) == TrueSlots(verdicts)
  {
    if mesh != [] {
      var m := |mesh| - 1;
      assert MeshInRange(pts, mesh[..m]);
      assert forall k :: 0 <= k < m ==> BadTriangle(pts, p, mesh[..m][k]) == verdicts[..m][k];
      BadIndicesAre(pts, mesh[..m], p, verdicts[..m]);
      assert BadTriangle(pts, p, mesh[m]) == verdicts[m];
    }
  }

  /** A step, from its bad slots, its boundary, the triangles it keeps and its fan. */
  lemma StepIs(pts: seq<Vec>, mesh: seq<Triangle>, i: nat, bad: seq<int>, polygon: seq<Edge>,
               kept: seq<Triangle>, fan: seq<Triangle>)
    requires i < |pts| && MeshInRange(pts, mesh) && BadIndices(pts, mesh, pts[i]) == bad
    requires ValidBad(mesh, bad) && Boundary(mesh, bad) == polygon
    requires Kept(mesh, bad) == kept && Fan(polygon, i) == fan
    ensures Step(pts, mesh, i) == kept + fan
  {
  }

  /** Taking the whole of a sequence. */
  lemma WholePrefix<T>(s: seq<T>)
    ensures s[..|s|] == s
  {
  }

  /** BadIndices on the first m slots extends BadIndices on the first m - 1. */
  lemma BadIndicesPrefix(pts: seq<Vec>, mesh: seq<Triangle>, p: Vec, m: nat)
    requires MeshInRange(pts, mesh) && 0 < m <= |mesh|
    ensures MeshInRange(pts, mesh[..m]) && MeshInRange(pts, mesh[..m - 1])
    ensures BadIndices(pts, mesh[..m], p) ==
            BadIndices(pts, mesh[..m - 1], p) + (if BadTriangle(pts, p, mesh[m - 1]) then [m - 1] else [])
  {
    assert mesh[..m][..m - 1] == mesh[..m - 1];
  }

  /** Unshared on the three edges of a triangle, one edge at a time. */
  lemma UnsharedEdges(mesh: seq<Triangle>, bad: seq<int>, k: int, t: Triangle)
    requires ValidBad(mesh, bad)
    ensures var es := Edges(t);
            Unshared(mesh, bad, k, es) ==
              (if Shared(mesh, bad, k, es[0]) then [] else [es[0]]) +
              (if Shared(mesh, bad, k, es[1]) then [] else [es[1]]) +
              (if Shared(mesh, bad, k, es[2]) then [] else [es[2]])
  {
    var es := Edges(t);
    var x0 := if Shared(mesh, bad, k, es[0]) then [] else [es[0]];
    var x1 := if Shared(mesh, bad, k, es[1]) then [] else [es[1]];
    var x2 := if Shared(mesh, bad, k, es[2]) then [] else [es[2]];
    assert es[..1][..0] == [];
    assert Unshared(mesh, bad, k, es[..1]) == x0;
    assert es[..2][..1] == es[..1];
    assert Unshared(mesh, bad, k, es[..2]) == x0 + x1;
    assert es[..3][..2] == es[..2];
    assert Unshared(mesh, bad, k, es[..3]) == x0 + x1 + x2;
    WholePrefix(es);
  }

  /** The fan of a polygon is the triangle list that closes each edge at vertex i. */
  lemma FanIs(polygon: seq<Edge>, i: int, ts: seq<Triangle>)
    requires |ts| == |polygon|
    requires forall k :: 0 <= k < |ts| ==> ts[k] == Triangle(polygon[k].u, polygon[k].v, i)
    ensures Fan(polygon, i) == ts
  {
  }

  /** RealOnly on the first m slots extends RealOnly on the first m - 1. */
  lemma RealOnlyPrefix(mesh: seq<Triangle>, n: int, m: nat)
    requires 0 < m <= |mesh|
    ensures RealOnly(mesh[..m], n) == RealOnly(mesh[..m - 1], n) + (if IsReal(mesh[m - 1], n) then [mesh[m - 1]] else [])
  {
    assert mesh[..m][..m - 1] == mesh[..m - 1];
  }

  /** A pattern whose exponent field is e + 1 and whose fraction is 0 counts 2^(23 + e) units. */
  lemma PowerPattern(c: nat, e: nat)
    requires c == (e + 1) * FractionRange && c < InfinityBits
    ensures Units(c) == Pow2(23 + e)
  {
    assert c / FractionRange == e + 1 && c % FractionRange == 0;
    Pow2Of23();
    Pow2Add(23, e);
  }

  /** A quotient of naturals, where the numerator is a multiple of the denominator. */
  lemma WholeQuotient(x: nat, y: nat, q: nat)
    requires x == q * y && y > 0
    ensures x as real / y as real == q as real
  {
  }

  /** The float32 pattern 0x3F800000 denotes 1: exponent field 127, fraction 0. */
  lemma CoordOne(c: Coord)
    requires c == 0x3F80_0000
    ensures CoordValue(c) == 1.0
  {
    PowerPattern(c, 126);
    WholeQuotient(Units(c), Pow2(149), 1);
  }

  /** The float32 pattern 0x40000000 denotes 2: exponent field 128, fraction 0. */
  lemma CoordTwo(c: Coord)
    requires c == 0x4000_0000
    ensures CoordValue(c) == 2.0
  {
    PowerPattern(c, 127);
    assert Pow2(150) == 2 * Pow2(149);
    WholeQuotient(Units(c), Pow2(149), 2);
  }

  // ---------------------------------------------------------------------------------------------
  // Three points: (0, 0), (1, 0), (0, 1)
  // ---------------------------------------------------------------------------------------------

  const CornerPoints: seq<Point> :=
    [Point(0, 0), Point(0x3F80_0000, 0), Point(0, 0x3F80_0000)]

  /** The input coordinates followed by the three super vertices. */
  const CornerAll: seq<Vec> :=
    [Vec(0.0, 0.0), Vec(1.0, 0.0), Vec(0.0, 1.0), Vec(-19.5, -0.5),
     Vec(0.5, 20.5), Vec(20.5, -0.5)]

  /** The mesh before the first insertion: the super triangle. */
  const CornerMesh0: seq<Triangle> :=
    [Triangle(3, 4, 5)]
  /** The mesh after inserting point 0: the triangles kept from mesh 0, then the new fan. */
  const CornerMesh1: seq<Triangle> :=
    [Triangle(3, 4, 0), Triangle(4, 5, 0), Triangle(5, 3, 0)]
  /** The mesh after inserting point 1: the triangles kept from mesh 1, then the new fan. */
  const CornerMesh2: seq<Triangle> :=
    [Triangle(3, 4, 0), Triangle(5, 3, 0)] +
    [Triangle(4, 5, 1), Triangle(5, 0, 1), Triangle(0, 4, 1)]
  /** The mesh after inserting point 2: the triangles kept from mesh 2, then the new fan. */
  const CornerMesh3: seq<Triangle> :=
    [Triangle(5, 3, 0), Triangle(4, 5, 1), Triangle(5, 0, 1)] +
    [Triangle(3, 4, 2), Triangle(0, 3, 2), Triangle(4, 1, 2), Triangle(1, 0, 2)]

  /** The input coordinates, decoded from their float32 patterns. */
  lemma CornerCoordinates()
    ensures Coordinates(CornerPoints) == [Vec(0.0, 0.0), Vec(1.0, 0.0), Vec(0.0, 1.0)]
  {
    CoordOne(0x3F80_0000);
    CoordTwo(0x4000_0000);
  }

  /** The bounding box of the input coordinates. */
  lemma CornerBounds()
    ensures Bounds([Vec(0.0, 0.0), Vec(1.0, 0.0), Vec(0.0, 1.0)]) == Some(Box(0.0, 1.0, 0.0, 1.0))
  {
    var vs := [Vec(0.0, 0.0), Vec(1.0, 0.0), Vec(0.0, 1.0)];
    assert Bounds(vs[..1]) == Some(Box(0.0, 0.0, 0.0, 0.0)) by {
      assert vs[..1][..0] == vs[..0];
    }
    assert Bounds(vs[..2]) == Some(Box(0.0, 1.0, 0.0, 0.0)) by {
      assert vs[..2][..1] == vs[..1];
    }
    assert Bounds(vs[..3]) == Some(Box(0.0, 1.0, 0.0, 1.0)) by {
      assert vs[..3][..2] == vs[..2];
    }
    WholePrefix(vs);
  }

  /** The coordinates of the input points, and the super vertices of their bounding box. */
  lemma CornerExtendedPoints()
    ensures ExtendedPoints(CornerPoints) == CornerAll
  {
    CornerCoordinates();
    CornerBounds();
  }

  /** The coordinates of the points and super vertices, one by one. */
  predicate CornerCoords(pts: seq<Vec>) {
    |pts| == 6 &&
    pts[0] == Vec(0.0, 0.0) &&
    pts[1] == Vec(1.0, 0.0) &&
    pts[2] == Vec(0.0, 1.0) &&
    pts[3] == Vec(-19.5, -0.5) &&
    pts[4] == Vec(0.5, 20.5) &&
    pts[5] == Vec(20.5, -0.5)
  }

  /** Point 0 against slot 0 of mesh 0, Triangle(3, 4, 5): bad. */
  lemma CornerVerdict0At0(p: Vec, p0: Vec, p1: Vec, p2: Vec)
    requires p == Vec(0.0, 0.0) && p0 == Vec(-19.5, -0.5) && p1 == Vec(0.5, 20.5) && p2 == Vec(20.5, -0.5)
    ensures IsBad(p, p0, p1, p2)
  {
  }

  /** The verdict of the badness test on each triangle of mesh 0, for point 0. */
  predicate CornerVerdicts0(pts: seq<Vec>)
    requires |pts| == 6
  {
    BadTriangle(pts, pts[0], Triangle(3, 4, 5))
  }

  /** On these coordinates, each verdict of step 0 is the one the slot lemmas establish. */
  lemma CornerVerdictsHold0(pts: seq<Vec>)
    requires CornerCoords(pts)
    ensures CornerVerdicts0(pts)
  {
    CornerVerdict0At0(pts[0], pts[3], pts[4], pts[5]);
  }

  /** The slots of the true verdicts of step 0. */
  lemma CornerSlots0()
    ensures TrueSlots([true]) == [0]
  {
    var verdicts := [true];
    assert TrueSlots(verdicts[..0]) == [];
    assert TrueSlots(verdicts[..1]) == [0] by {
      assert verdicts[..1][..0] == verdicts[..0];
    }
    WholePrefix(verdicts);
  }

  /** The bad slots of mesh 0 for point 0, in increasing order. */
  lemma CornerBad0(pts: seq<Vec>)
    requires |pts| == 6 && CornerVerdicts0(pts)
    ensures MeshInRange(pts, CornerMesh0)
    ensures BadIndices(pts, CornerMesh0, pts[0]) == [0]
  {
    var mesh, verdicts := CornerMesh0, [true];
    assert MeshInRange(pts, mesh);
    forall k | 0 <= k < |mesh|
      ensures BadTriangle(pts, pts[0], mesh[k]) == verdicts[k]
    {
      assert mesh[0] == Triangle(3, 4, 5);
    }
    BadIndicesAre(pts, mesh, pts[0], verdicts);
    CornerSlots0();
  }

  /** The triangles in the bad slots of mesh 0. */
  predicate CornerBadSlots0(mesh: seq<Triangle>) {
    |mesh| == 1 && mesh[0] == Triangle(3, 4, 5)
  }

  /** With slots [0] of mesh 0 bad: the edges of slot 0 that no other bad triangle has. */
  lemma CornerUnshared0At0(mesh: seq<Triangle>)
    requires CornerBadSlots0(mesh)
    ensures ValidBad(mesh, [0])
    ensures Unshared(mesh, [0], 0, Edges(mesh[0])) == [Edge(3, 4), Edge(4, 5), Edge(5, 3)]
  {
    var bad := [0];
    assert ValidBad(mesh, bad);
    UnsharedEdges(mesh, bad, 0, mesh[0]);
  }

  /** With slots [0] of mesh 0 bad: the cavity boundary. */
  lemma CornerBoundary0(mesh: seq<Triangle>)
    requires CornerBadSlots0(mesh)
    ensures ValidBad(mesh, [0])
    ensures Boundary(mesh, [0]) == [Edge(3, 4), Edge(4, 5), Edge(5, 3)]
  {
    var bad := [0];
    CornerUnshared0At0(mesh);
    assert BoundaryPrefix(mesh, bad, 1) == [Edge(3, 4), Edge(4, 5), Edge(5, 3)];
  }

  /** With slots [0] of mesh 0 bad: the surviving triangles, in mesh order. */
  lemma CornerKept0()
    ensures Kept(CornerMesh0, [0]) == []
  {
    var mesh, bad := CornerMesh0, [0];
    assert |mesh| == 1;
  }

  /** The fan closing the cavity of step 0 at point 0. */
  lemma CornerFan0()
    ensures Fan([Edge(3, 4), Edge(4, 5), Edge(5, 3)], 0) ==
            [Triangle(3, 4, 0), Triangle(4, 5, 0), Triangle(5, 3, 0)]
  {
    FanIs([Edge(3, 4), Edge(4, 5), Edge(5, 3)], 0,
          [Triangle(3, 4, 0), Triangle(4, 5, 0), Triangle(5, 3, 0)]);
  }

  /** Inserting point 0 turns mesh 0 into mesh 1. */
  lemma CornerStep0(pts: seq<Vec>)
    requires |pts| == 6 && CornerVerdicts0(pts)
    ensures MeshInRange(pts, CornerMesh0)
    ensures Step(pts, CornerMesh0, 0) == CornerMesh1
  {
    CornerBad0(pts);
    CornerBoundary0(CornerMesh0);
    CornerKept0();
    CornerFan0();
    StepIs(pts, CornerMesh0, 0, [0], [Edge(3, 4), Edge(4, 5), Edge(5, 3)],
           [],
           [Triangle(3, 4, 0), Triangle(4, 5, 0), Triangle(5, 3, 0)]);
  }

  /** Point 1 against slot 0 of mesh 1, Triangle(3, 4, 0): not bad. */
  lemma CornerVerdict1At0(p: Vec, p0: Vec, p1: Vec, p2: Vec)
    requires p == Vec(1.0, 0.0) && p0 == Vec(-19.5, -0.5) && p1 == Vec(0.5, 20.5) && p2 == Vec(0.0, 0.0)
    ensures !IsBad(p, p0, p1, p2)
  {
  }

  /** Point 1 against slot 1 of mesh 1, Triangle(4, 5, 0): bad. */
  lemma CornerVerdict1At1(p: Vec, p0: Vec, p1: Vec, p2: Vec)
    requires p == Vec(1.0, 0.0) && p0 == Vec(0.5, 20.5) && p1 == Vec(20.5, -0.5) && p2 == Vec(0.0, 0.0)
    ensures IsBad(p, p0, p1, p2)
  {
  }

  /** Point 1 against slot 2 of mesh 1, Triangle(5, 3, 0): not bad. */
  lemma CornerVerdict1At2(p: Vec, p0: Vec, p1: Vec, p2: Vec)
    requires p == Vec(1.0, 0.0) && p0 == Vec(20.5, -0.5) && p1 == Vec(-19.5, -0.5) && p2 == Vec(0.0, 0.0)
    ensures !IsBad(p, p0, p1, p2)
  {
  }

  /** The verdict of the badness test on each triangle of mesh 1, for point 1. */
  predicate CornerVerdicts1(pts: seq<Vec>)
    requires |pts| == 6
  {
    !BadTriangle(pts, pts[1], Triangle(3, 4, 0)) &&
    BadTriangle(pts, pts[1], Triangle(4, 5, 0)) &&
    !BadTriangle(pts, pts[1], Triangle(5, 3, 0))
  }

  /** On these coordinates, each verdict of step 1 is the one the slot lemmas establish. */
  lemma CornerVerdictsHold1(pts: seq<Vec>)
    requires CornerCoords(pts)
    ensures CornerVerdicts1(pts)
  {
    CornerVerdict1At0(pts[1], pts[3], pts[4], pts[0]);
    CornerVerdict1At1(pts[1], pts[4], pts[5], pts[0]);
    CornerVerdict1At2(pts[1], pts[5], pts[3], pts[0]);
  }

  /** The slots of the true verdicts of step 1. */
  lemma CornerSlots1()
    ensures TrueSlots([false, true, false]) == [1]
  {
    var verdicts := [false, true, false];
    assert TrueSlots(verdicts[..0]) == [];
    assert TrueSlots(verdicts[..1]) == [] by {
      assert verdicts[..1][..0] == verdicts[..0];
    }
    assert TrueSlots(verdicts[..2]) == [1] by {
      assert verdicts[..2][..1] == verdicts[..1];
    }
    assert TrueSlots(verdicts[..3]) == [1] by {
      assert verdicts[..3][..2] == verdicts[..2];
    }
    WholePrefix(verdicts);
  }

  /** The bad slots of mesh 1 for point 1, in increasing order. */
  lemma CornerBad1(pts: seq<Vec>)
    requires |pts| == 6 && CornerVerdicts1(pts)
    ensures MeshInRange(pts, CornerMesh1)
    ensures BadIndices(pts, CornerMesh1, pts[1]) == [1]
  {
    var mesh, verdicts := CornerMesh1, [false, true, false];
    assert MeshInRange(pts, mesh);
    forall k | 0 <= k < |mesh|
      ensures BadTriangle(pts, pts[1], mesh[k]) == verdicts[k]
    {
      if k == 0 {
        assert mesh[0] == Triangle(3, 4, 0);
      } else if k == 1 {
        assert mesh[1] == Triangle(4, 5, 0);
      } else {
        assert mesh[2] == Triangle(5, 3, 0);
      }
    }
    BadIndicesAre(pts, mesh, pts[1], verdicts);
    CornerSlots1();
  }

  /** The triangles in the bad slots of mesh 1. */
  predicate CornerBadSlots1(mesh: seq<Triangle>) {
    |mesh| == 3 && mesh[1] == Triangle(4, 5, 0)
  }

  /** With slots [1] of mesh 1 bad: the edges of slot 1 that no other bad triangle has. */
  lemma CornerUnshared1At1(mesh: seq<Triangle>)
    requires CornerBadSlots1(mesh)
    ensures ValidBad(mesh, [1])
    ensures Unshared(mesh, [1], 1, Edges(mesh[1])) == [Edge(4, 5), Edge(5, 0), Edge(0, 4)]
  {
    var bad := [1];
    assert ValidBad(mesh, bad);
    UnsharedEdges(mesh, bad, 1, mesh[1]);
  }

  /** With slots [1] of mesh 1 bad: the cavity boundary. */
  lemma CornerBoundary1(mesh: seq<Triangle>)
    requires CornerBadSlots1(mesh)
    ensures ValidBad(mesh, [1])
    ensures Boundary(mesh, [1]) == [Edge(4, 5), Edge(5, 0), Edge(0, 4)]
  {
    var bad := [1];
    CornerUnshared1At1(mesh);
    assert BoundaryPrefix(mesh, bad, 1) == [Edge(4, 5), Edge(5, 0), Edge(0, 4)];
  }

  /** With slots [1] of mesh 1 bad: the surviving triangles, in mesh order. */
  lemma CornerKept1()
    ensures Kept(CornerMesh1, [1]) == [Triangle(3, 4, 0), Triangle(5, 3, 0)]
  {
    var mesh, bad := CornerMesh1, [1];
    assert |mesh| == 3;
    assert mesh[2] == Triangle(5, 3, 0);
    assert KeptFrom(mesh, bad, 2) == [Triangle(5, 3, 0)];
    assert KeptFrom(mesh, bad, 1) == [Triangle(5, 3, 0)];
    assert mesh[0] == Triangle(3, 4, 0);
  }

  /** The fan closing the cavity of step 1 at point 1. */
  lemma CornerFan1()
    ensures Fan([Edge(4, 5), Edge(5, 0), Edge(0, 4)], 1) ==
            [Triangle(4, 5, 1), Triangle(5, 0, 1), Triangle(0, 4, 1)]
  {
    FanIs([Edge(4, 5), Edge(5, 0), Edge(0, 4)], 1,
          [Triangle(4, 5, 1), Triangle(5, 0, 1), Triangle(0, 4, 1)]);
  }

  /** Inserting point 1 turns mesh 1 into mesh 2. */
  lemma CornerStep1(pts: seq<Vec>)
    requires |pts| == 6 && CornerVerdicts1(pts)
    ensures MeshInRange(pts, CornerMesh1)
    ensures Step(pts, CornerMesh1, 1) == CornerMesh2
  {
    CornerBad1(pts);
    CornerBoundary1(CornerMesh1);
    CornerKept1();
    CornerFan1();
    StepIs(pts, CornerMesh1, 1, [1], [Edge(4, 5), Edge(5, 0), Edge(0, 4)],
           [Triangle(3, 4, 0), Triangle(5, 3, 0)],
           [Triangle(4, 5, 1), Triangle(5, 0, 1), Triangle(0, 4, 1)]);
  }

  /** Point 2 against slot 0 of mesh 2, Triangle(3, 4, 0): bad. */
  lemma CornerVerdict2At0(p: Vec, p0: Vec, p1: Vec, p2: Vec)
    requires p == Vec(0.0, 1.0) && p0 == Vec(-19.5, -0.5) && p1 == Vec(0.5, 20.5) && p2 == Vec(0.0, 0.0)
    ensures IsBad(p, p0, p1, p2)
  {
  }

  /** Point 2 against slot 1 of mesh 2, Triangle(5, 3, 0): not bad. */
  lemma CornerVerdict2At1(p: Vec, p0: Vec, p1: Vec, p2: Vec)
    requires p == Vec(0.0, 1.0) && p0 == Vec(20.5, -0.5) && p1 == Vec(-19.5, -0.5) && p2 == Vec(0.0, 0.0)
    ensures !IsBad(p, p0, p1, p2)
  {
  }

  /** Point 2 against slot 2 of mesh 2, Triangle(4, 5, 1): not bad. */
  lemma CornerVerdict2At2(p: Vec, p0: Vec, p1: Vec, p2: Vec)
    requires p == Vec(0.0, 1.0) && p0 == Vec(0.5, 20.5) && p1 == Vec(20.5, -0.5) && p2 == Vec(1.0, 0.0)
    ensures !IsBad(p, p0, p1, p2)
  {
  }

  /** Point 2 against slot 3 of mesh 2, Triangle(5, 0, 1): not bad. */
  lemma CornerVerdict2At3(p: Vec, p0: Vec, p1: Vec, p2: Vec)
    requires p == Vec(0.0, 1.0) && p0 == Vec(20.5, -0.5) && p1 == Vec(0.0, 0.0) && p2 == Vec(1.0, 0.0)
    ensures !IsBad(p, p0, p1, p2)
  {
  }

  /** Point 2 against slot 4 of mesh 2, Triangle(0, 4, 1): bad. */
  lemma CornerVerdict2At4(p: Vec, p0: Vec, p1: Vec, p2: Vec)
    requires p == Vec(0.0, 1.0) && p0 == Vec(0.0, 0.0) && p1 == Vec(0.5, 20.5) && p2 == Vec(1.0, 0.0)
    ensures IsBad(p, p0, p1, p2)
  {
  }

  /** The verdict of the badness test on each triangle of mesh 2, for point 2. */
  predicate CornerVerdicts2(pts: seq<Vec>)
    requires |pts| == 6
  {
    BadTriangle(pts, pts[2], Triangle(3, 4, 0)) &&
    !BadTriangle(pts, pts[2], Triangle(5, 3, 0)) &&
    !BadTriangle(pts, pts[2], Triangle(4, 5, 1)) &&
    !BadTriangle(pts, pts[2], Triangle(5, 0, 1)) &&
    BadTriangle(pts, pts[2], Triangle(0, 4, 1))
  }

  /** On these coordinates, each verdict of step 2 is the one the slot lemmas establish. */
  lemma CornerVerdictsHold2(pts: seq<Vec>)
    requires CornerCoords(pts)
    ensures CornerVerdicts2(pts)
  {
    CornerVerdict2At0(pts[2], pts[3], pts[4], pts[0]);
    CornerVerdict2At1(pts[2], pts[5], pts[3], pts[0]);
    CornerVerdict2At2(pts[2], pts[4], pts[5], pts[1]);
    CornerVerdict2At3(pts[2], pts[5], pts[0], pts[1]);
    CornerVerdict2At4(pts[2], pts[0], pts[4], pts[1]);
  }

  /** The slots of the true verdicts of step 2. */
  lemma CornerSlots2()
    ensures TrueSlots([true, false, false, false, true]) == [0, 4]
  {
    var verdicts := [true, false, false, false, true];
    assert TrueSlots(verdicts[..0]) == [];
    assert TrueSlots(verdicts[..1]) == [0] by {
      assert verdicts[..1][..0] == verdicts[..0];
    }
    assert TrueSlots(verdicts[..2]) == [0] by {
      assert verdicts[..2][..1] == verdicts[..1];
    }
    assert TrueSlots(verdicts[..3]) == [0] by {
      assert verdicts[..3][..2] == verdicts[..2];
    }
    assert TrueSlots(verdicts[..4]) == [0] by {
      assert verdicts[..4][..3] == verdicts[..3];
    }
    assert TrueSlots(verdicts[..5]) == [0, 4] by {
      assert verdicts[..5][..4] == verdicts[..4];
    }
    WholePrefix(verdicts);
  }

  /** The bad slots of mesh 2 for point 2, in increasing order. */
  lemma CornerBad2(pts: seq<Vec>)
    requires |pts| == 6 && CornerVerdicts2(pts)
    ensures MeshInRange(pts, CornerMesh2)
    ensures BadIndices(pts, CornerMesh2, pts[2]) == [0, 4]
  {
    var mesh, verdicts := CornerMesh2, [true, false, false, false, true];
    assert MeshInRange(pts, mesh);
    forall k | 0 <= k < |mesh|
      ensures BadTriangle(pts, pts[2], mesh[k]) == verdicts[k]
    {
      if k == 0 {
        assert mesh[0] == Triangle(3, 4, 0);
      } else if k == 1 {
        assert mesh[1] == Triangle(5, 3, 0);
      } else if k == 2 {
        assert mesh[2] == Triangle(4, 5, 1);
      } else if k == 3 {
        assert mesh[3] == Triangle(5, 0, 1);
      } else {
        assert mesh[4] == Triangle(0, 4, 1);
      }
    }
    BadIndicesAre(pts, mesh, pts[2], verdicts);
    CornerSlots2();
  }

  /** The triangles in the bad slots of mesh 2. */
  predicate CornerBadSlots2(mesh: seq<Triangle>) {
    |mesh| == 5 && mesh[0] == Triangle(3, 4, 0) && mesh[4] == Triangle(0, 4, 1)
  }

  /** With slots [0, 4] of mesh 2 bad: the edges of slot 0 that no other bad triangle has. */
  lemma CornerUnshared2At0(mesh: seq<Triangle>)
    requires CornerBadSlots2(mesh)
    ensures ValidBad(mesh, [0, 4])
    ensures Unshared(mesh, [0, 4], 0, Edges(mesh[0])) == [Edge(3, 4), Edge(0, 3)]
  {
    var bad := [0, 4];
    assert ValidBad(mesh, bad);
    assert !Shared(mesh, bad, 0, Edge(3, 4));
    assert Shared(mesh, bad, 0, Edge(4, 0)) by { assert HasEdge(mesh[bad[1]], Edge(4, 0)); }
    assert !Shared(mesh, bad, 0, Edge(0, 3));
    UnsharedEdges(mesh, bad, 0, mesh[0]);
  }

  /** With slots [0, 4] of mesh 2 bad: the edges of slot 4 that no other bad triangle has. */
  lemma CornerUnshared2At4(mesh: seq<Triangle>)
    requires CornerBadSlots2(mesh)
    ensures ValidBad(mesh, [0, 4])
    ensures Unshared(mesh, [0, 4], 4, Edges(mesh[4])) == [Edge(4, 1), Edge(1, 0)]
  {
    var bad := [0, 4];
    assert ValidBad(mesh, bad);
    assert Shared(mesh, bad, 4, Edge(0, 4)) by { assert HasEdge(mesh[bad[0]], Edge(0, 4)); }
    assert !Shared(mesh, bad, 4, Edge(4, 1));
    assert !Shared(mesh, bad, 4, Edge(1, 0));
    UnsharedEdges(mesh, bad, 4, mesh[4]);
  }

  /** With slots [0, 4] of mesh 2 bad: the cavity boundary. */
  lemma CornerBoundary2(mesh: seq<Triangle>)
    requires CornerBadSlots2(mesh)
    ensures ValidBad(mesh, [0, 4])
    ensures Boundary(mesh, [0, 4]) == [Edge(3, 4), Edge(0, 3), Edge(4, 1), Edge(1, 0)]
  {
    var bad := [0, 4];
    CornerUnshared2At0(mesh);
    CornerUnshared2At4(mesh);
    assert BoundaryPrefix(mesh, bad, 1) == [Edge(3, 4), Edge(0, 3)];
    assert BoundaryPrefix(mesh, bad, 2) == [Edge(3, 4), Edge(0, 3), Edge(4, 1), Edge(1, 0)];
  }

  /** With slots [0, 4] of mesh 2 bad: the surviving triangles from slot 3 on. */
  lemma CornerKept2From3()
    ensures KeptFrom(CornerMesh2, [0, 4], 3) == [Triangle(5, 0, 1)]
  {
    var mesh, bad := CornerMesh2, [0, 4];
    assert |mesh| == 5;
    assert KeptFrom(mesh, bad, 4) == [];
    assert mesh[3] == Triangle(5, 0, 1);
  }

  /** With slots [0, 4] of mesh 2 bad: the surviving triangles, in mesh order. */
  lemma CornerKept2()
    ensures Kept(CornerMesh2, [0, 4]) == [Triangle(5, 3, 0), Triangle(4, 5, 1), Triangle(5, 0, 1)]
  {
    var mesh, bad := CornerMesh2, [0, 4];
    assert |mesh| == 5;
    CornerKept2From3();
    assert mesh[2] == Triangle(4, 5, 1);
    assert KeptFrom(mesh, bad, 2) == [Triangle(4, 5, 1), Triangle(5, 0, 1)];
    assert mesh[1] == Triangle(5, 3, 0);
    assert KeptFrom(mesh, bad, 1) == [Triangle(5, 3, 0), Triangle(4, 5, 1), Triangle(5, 0, 1)];
  }

  /** The fan closing the cavity of step 2 at point 2. */
  lemma CornerFan2()
    ensures Fan([Edge(3, 4), Edge(0, 3), Edge(4, 1), Edge(1, 0)], 2) ==
            [Triangle(3, 4, 2), Triangle(0, 3, 2), Triangle(4, 1, 2), Triangle(1, 0, 2)]
  {
    FanIs([Edge(3, 4), Edge(0, 3), Edge(4, 1), Edge(1, 0)], 2,
          [Triangle(3, 4, 2), Triangle(0, 3, 2), Triangle(4, 1, 2), Triangle(1, 0, 2)]);
  }

  /** Inserting point 2 turns mesh 2 into mesh 3. */
  lemma CornerStep2(pts: seq<Vec>)
    requires |pts| == 6 && CornerVerdicts2(pts)
    ensures MeshInRange(pts, CornerMesh2)
    ensures Step(pts, CornerMesh2, 2) == CornerMesh3
  {
    CornerBad2(pts);
    CornerBoundary2(CornerMesh2);
    CornerKept2();
    CornerFan2();
    StepIs(pts, CornerMesh2, 2, [0, 4], [Edge(3, 4), Edge(0, 3), Edge(4, 1), Edge(1, 0)],
           [Triangle(5, 3, 0), Triangle(4, 5, 1), Triangle(5, 0, 1)],
           [Triangle(3, 4, 2), Triangle(0, 3, 2), Triangle(4, 1, 2), Triangle(1, 0, 2)]);
  }

  /** The walk-through inserts the 3 points one after the other and ends with mesh 3. */
  lemma CornerMeshAfter(pts: seq<Vec>)
    requires CornerCoords(pts)
    ensures MeshAfter(pts, 3, 3) == CornerMesh3
  {
    CornerVerdictsHold0(pts);
    CornerVerdictsHold1(pts);
    CornerVerdictsHold2(pts);
    CornerStep0(pts);
    MeshAfterStep(pts, 3, 0);
    CornerStep1(pts);
    MeshAfterStep(pts, 3, 1);
    CornerStep2(pts);
    MeshAfterStep(pts, 3, 2);
  }

  /** Dropping the triangles with a super vertex from the first 3 slots of mesh 3. */
  lemma CornerRealOnlyUpTo3()
    ensures RealOnly(CornerMesh3[..3], 3) == []
  {
    var mesh := CornerMesh3;
    RealOnlyPrefix(mesh, 3, 1);
    assert RealOnly(mesh[..1], 3) == [];
    RealOnlyPrefix(mesh, 3, 2);
    assert RealOnly(mesh[..2], 3) == [];
    RealOnlyPrefix(mesh, 3, 3);
  }

  /** Dropping the triangles with a super vertex from the first 6 slots of mesh 3. */
  lemma CornerRealOnlyUpTo6()
    ensures RealOnly(CornerMesh3[..6], 3) == []
  {
    var mesh := CornerMesh3;
    CornerRealOnlyUpTo3();
    RealOnlyPrefix(mesh, 3, 4);
    assert RealOnly(mesh[..4], 3) == [];
    RealOnlyPrefix(mesh, 3, 5);
    assert RealOnly(mesh[..5], 3) == [];
    RealOnlyPrefix(mesh, 3, 6);
  }

  /** Dropping the triangles with a super vertex from the first 7 slots of mesh 3. */
  lemma CornerRealOnlyUpTo7()
    ensures RealOnly(CornerMesh3[..7], 3) == [Triangle(1, 0, 2)]
  {
    var mesh := CornerMesh3;
    CornerRealOnlyUpTo6();
    RealOnlyPrefix(mesh, 3, 7);
  }

  /** Dropping the triangles with a super vertex from mesh 3. */
  lemma CornerRealOnly()
    ensures RealOnly(CornerMesh3, 3) == [Triangle(1, 0, 2)]
  {
    CornerRealOnlyUpTo7();
    WholePrefix(CornerMesh3);
  }

  /** The triangulation of the points: the walk-through's final mesh without super vertices. */
  lemma CornerWalk(ps: seq<Point>)
    requires ps == CornerPoints
    ensures Triangulation(ps) == [Triangle(1, 0, 2)]
  {
    CornerExtendedPoints();
    var pts := ExtendedPoints(ps);
    assert CornerCoords(pts);
    CornerMeshAfter(pts);
    CornerRealOnly();
  }

  /** Each triangle of the walk-through has the vertices of the expected triangle in its slot. */
  lemma CornerSameTriangles()
    ensures SameTriangle(Triangle(1, 0, 2), Triangle(0, 1, 2))
  {
    assert Indices(Triangle(1, 0, 2)) == Indices(Triangle(0, 1, 2));
  }

  /**
   * `tests/tests_triangulator.py:8-9`: the triangulation equals the expected triangle set, which lists the
   * same triangles in the same order with their vertices in another order.
   */
  lemma CornerTriangulation(ps: seq<Point>)
    requires ps == CornerPoints
    ensures SameContents(Contents(ps, Triangulation(ps)), Contents(ps, [Triangle(0, 1, 2)]))
  {
    CornerWalk(ps);
    CornerSameTriangles();
  }

  // ---------------------------------------------------------------------------------------------
  // Five points: the corners of a 2 by 2 square and its centre
  // ---------------------------------------------------------------------------------------------

  const SquarePoints: seq<Point> :=
    [Point(0, 0), Point(0x4000_0000, 0), Point(0x3F80_0000, 0x3F80_0000),
     Point(0, 0x4000_0000), Point(0x4000_0000, 0x4000_0000)]

  /** The input coordinates followed by the three super vertices. */
  const SquareAll: seq<Vec> :=
    [Vec(0.0, 0.0), Vec(2.0, 0.0), Vec(1.0, 1.0), Vec(0.0, 2.0),
     Vec(2.0, 2.0), Vec(-39.0, -1.0), Vec(1.0, 41.0), Vec(41.0, -1.0)]

  /** The mesh before the first insertion: the super triangle. */
  const SquareMesh0: seq<Triangle> :=
    [Triangle(5, 6, 7)]
  /** The mesh after inserting point 0: the triangles kept from mesh 0, then the new fan. */
  const SquareMesh1: seq<Triangle> :=
    [Triangle(5, 6, 0), Triangle(6, 7, 0), Triangle(7, 5, 0)]
  /** The mesh after inserting point 1: the triangles kept from mesh 1, then the new fan. */
  const SquareMesh2: seq<Triangle> :=
    [Triangle(5, 6, 0), Triangle(7, 5, 0)] +
    [Triangle(6, 7, 1), Triangle(7, 0, 1), Triangle(0, 6, 1)]
  /** The mesh after inserting point 2: the triangles kept from mesh 2, then the new fan. */
  const SquareMesh3: seq<Triangle> :=
    [Triangle(5, 6, 0), Triangle(7, 5, 0), Triangle(6, 7, 1), Triangle(7, 0, 1)] +
    [Triangle(0, 6, 2), Triangle(6, 1, 2), Triangle(1, 0, 2)]
  /** The mesh after inserting point 3: the triangles kept from mesh 3, then the new fan. */
  const SquareMesh4: seq<Triangle> :=
    [Triangle(7, 5, 0), Triangle(6, 7, 1), Triangle(7, 0, 1), Triangle(6, 1, 2),
     Triangle(1, 0, 2)] +
    [Triangle(5, 6, 3), Triangle(0, 5, 3), Triangle(6, 2, 3), Triangle(2, 0, 3)]
  /** The mesh after inserting point 4: the triangles kept from mesh 4, then the new fan. */
  const SquareMesh5: seq<Triangle> :=
    [Triangle(7, 5, 0), Triangle(7, 0, 1), Triangle(1, 0, 2), Triangle(5, 6, 3),
     Triangle(0, 5, 3), Triangle(2, 0, 3)] +
    [Triangle(6, 7, 4), Triangle(7, 1, 4), Triangle(1, 2, 4), Triangle(2, 3, 4),
     Triangle(3, 6, 4)]

  /** The input coordinates, decoded from their float32 patterns. */
  lemma SquareCoordinates()
    ensures Coordinates(SquarePoints) == [Vec(0.0, 0.0), Vec(2.0, 0.0), Vec(1.0, 1.0), Vec(0.0, 2.0),
             Vec(2.0, 2.0)]
  {
    CoordOne(0x3F80_0000);
    CoordTwo(0x4000_0000);
  }

  /** The bounding box of the input coordinates. */
  lemma SquareBounds()
    ensures Bounds([Vec(0.0, 0.0), Vec(2.0, 0.0), Vec(1.0, 1.0), Vec(0.0, 2.0),
             Vec(2.0, 2.0)]) == Some(Box(0.0, 2.0, 0.0, 2.0))
  {
    var vs := [Vec(0.0, 0.0), Vec(2.0, 0.0), Vec(1.0, 1.0), Vec(0.0, 2.0),
             Vec(2.0, 2.0)];
    assert Bounds(vs[..1]) == Some(Box(0.0, 0.0, 0.0, 0.0)) by {
      assert vs[..1][..0] == vs[..0];
    }
    assert Bounds(vs[..2]) == Some(Box(0.0, 2.0, 0.0, 0.0)) by {
      assert vs[..2][..1] == vs[..1];
    }
    assert Bounds(vs[..3]) == Some(Box(0.0, 2.0, 0.0, 1.0)) by {
      assert vs[..3][..2] == vs[..2];
    }
    assert Bounds(vs[..4]) == Some(Box(0.0, 2.0, 0.0, 2.0)) by {
      assert vs[..4][..3] == vs[..3];
    }
    assert Bounds(vs[..5]) == Some(Box(0.0, 2.0, 0.0, 2.0)) by {
      assert vs[..5][..4] == vs[..4];
    }
    WholePrefix(vs);
  }

  /** The coordinates of the input points, and the super vertices of their bounding box. */
  lemma SquareExtendedPoints()
    ensures ExtendedPoints(SquarePoints) == SquareAll
  {
    SquareCoordinates();
    SquareBounds();
  }

  /** The coordinates of the points and super vertices, one by one. */
  predicate SquareCoords(pts: seq<Vec>) {
    |pts| == 8 &&
    pts[0] == Vec(0.0, 0.0) &&
    pts[1] == Vec(2.0, 0.0) &&
    pts[2] == Vec(1.0, 1.0) &&
    pts[3] == Vec(0.0, 2.0) &&
    pts[4] == Vec(2.0, 2.0) &&
    pts[5] == Vec(-39.0, -1.0) &&
    pts[6] == Vec(1.0, 41.0) &&
    pts[7] == Vec(41.0, -1.0)
  }

  /** Point 0 against slot 0 of mesh 0, Triangle(5, 6, 7): bad. */
  lemma SquareVerdict0At0(p: Vec, p0: Vec, p1: Vec, p2: Vec)
    requires p == Vec(0.0, 0.0) && p0 == Vec(-39.0, -1.0) && p1 == Vec(1.0, 41.0) && p2 == Vec(41.0, -1.0)
    ensures IsBad(p, p0, p1, p2)
  {
  }

  /** The verdict of the badness test on each triangle of mesh 0, for point 0. */
  predicate SquareVerdicts0(pts: seq<Vec>)
    requires |pts| == 8
  {
    BadTriangle(pts, pts[0], Triangle(5, 6, 7))
  }

  /** On these coordinates, each verdict of step 0 is the one the slot lemmas establish. */
  lemma SquareVerdictsHold0(pts: seq<Vec>)
    requires SquareCoords(pts)
    ensures SquareVerdicts0(pts)
  {
    SquareVerdict0At0(pts[0], pts[5], pts[6], pts[7]);
  }

  /** The slots of the true verdicts of step 0. */
  lemma SquareSlots0()
    ensures TrueSlots([true]) == [0]
  {
    var verdicts := [true];
    assert TrueSlots(verdicts[..0]) == [];
    assert TrueSlots(verdicts[..1]) == [0] by {
      assert verdicts[..1][..0] == verdicts[..0];
    }
    WholePrefix(verdicts);
  }

  /** The bad slots of mesh 0 for point 0, in increasing order. */
  lemma SquareBad0(pts: seq<Vec>)
    requires |pts| == 8 && SquareVerdicts0(pts)
    ensures MeshInRange(pts, SquareMesh0)
    ensures BadIndices(pts, SquareMesh0, pts[0]) == [0]
  {
    var mesh, verdicts := SquareMesh0, [true];
    assert MeshInRange(pts, mesh);
    forall k | 0 <= k < |mesh|
      ensures BadTriangle(pts, pts[0], mesh[k]) == verdicts[k]
    {
      assert mesh[0] == Triangle(5, 6, 7);
    }
    BadIndicesAre(pts, mesh, pts[0], verdicts);
    SquareSlots0();
  }

  /** The triangles in the bad slots of mesh 0. */
  predicate SquareBadSlots0(mesh: seq<Triangle>) {
    |mesh| == 1 && mesh[0] == Triangle(5, 6, 7)
  }

  /** With slots [0] of mesh 0 bad: the edges of slot 0 that no other bad triangle has. */
  lemma SquareUnshared0At0(mesh: seq<Triangle>)
    requires SquareBadSlots0(mesh)
    ensures ValidBad(mesh, [0])
    ensures Unshared(mesh, [0], 0, Edges(mesh[0])) == [Edge(5, 6), Edge(6, 7), Edge(7, 5)]
  {
    var bad := [0];
    assert ValidBad(mesh, bad);
    UnsharedEdges(mesh, bad, 0, mesh[0]);
  }

  /** With slots [0] of mesh 0 bad: the cavity boundary. */
  lemma SquareBoundary0(mesh: seq<Triangle>)
    requires SquareBadSlots0(mesh)
    ensures ValidBad(mesh, [0])
    ensures Boundary(mesh, [0]) == [Edge(5, 6), Edge(6, 7), Edge(7, 5)]
  {
    var bad := [0];
    SquareUnshared0At0(mesh);
    assert BoundaryPrefix(mesh, bad, 1) == [Edge(5, 6), Edge(6, 7), Edge(7, 5)];
  }

  /** With slots [0] of mesh 0 bad: the surviving triangles, in mesh order. */
  lemma SquareKept0()
    ensures Kept(SquareMesh0, [0]) == []
  {
    var mesh, bad := SquareMesh0, [0];
    assert |mesh| == 1;
  }

  /** The fan closing the cavity of step 0 at point 0. */
  lemma SquareFan0()
    ensures Fan([Edge(5, 6), Edge(6, 7), Edge(7, 5)], 0) ==
            [Triangle(5, 6, 0), Triangle(6, 7, 0), Triangle(7, 5, 0)]
  {
    FanIs([Edge(5, 6), Edge(6, 7), Edge(7, 5)], 0,
          [Triangle(5, 6, 0), Triangle(6, 7, 0), Triangle(7, 5, 0)]);
  }

  /** Inserting point 0 turns mesh 0 into mesh 1. */
  lemma SquareStep0(pts: seq<Vec>)
    requires |pts| == 8 && SquareVerdicts0(pts)
    ensures MeshInRange(pts, SquareMesh0)
    ensures Step(pts, SquareMesh0, 0) == SquareMesh1
  {
    SquareBad0(pts);
    SquareBoundary0(SquareMesh0);
    SquareKept0();
    SquareFan0();
    StepIs(pts, SquareMesh0, 0, [0], [Edge(5, 6), Edge(6, 7), Edge(7, 5)],
           [],
           [Triangle(5, 6, 0), Triangle(6, 7, 0), Triangle(7, 5, 0)]);
  }

  /** Point 1 against slot 0 of mesh 1, Triangle(5, 6, 0): not bad. */
  lemma SquareVerdict1At0(p: Vec, p0: Vec, p1: Vec, p2: Vec)
    requires p == Vec(2.0, 0.0) && p0 == Vec(-39.0, -1.0) && p1 == Vec(1.0, 41.0) && p2 == Vec(0.0, 0.0)
    ensures !IsBad(p, p0, p1, p2)
  {
  }

  /** Point 1 against slot 1 of mesh 1, Triangle(6, 7, 0): bad. */
  lemma SquareVerdict1At1(p: Vec, p0: Vec, p1: Vec, p2: Vec)
    requires p == Vec(2.0, 0.0) && p0 == Vec(1.0, 41.0) && p1 == Vec(41.0, -1.0) && p2 == Vec(0.0, 0.0)
    ensures IsBad(p, p0, p1, p2)
  {
  }

  /** Point 1 against slot 2 of mesh 1, Triangle(7, 5, 0): not bad. */
  lemma SquareVerdict1At2(p: Vec, p0: Vec, p1: Vec, p2: Vec)
    requires p == Vec(2.0, 0.0) && p0 == Vec(41.0, -1.0) && p1 == Vec(-39.0, -1.0) && p2 == Vec(0.0, 0.0)
    ensures !IsBad(p, p0, p1, p2)
  {
  }

  /** The verdict of the badness test on each triangle of mesh 1, for point 1. */
  predicate SquareVerdicts1(pts: seq<Vec>)
    requires |pts| == 8
  {
    !BadTriangle(pts, pts[1], Triangle(5, 6, 0)) &&
    BadTriangle(pts, pts[1], Triangle(6, 7, 0)) &&
    !BadTriangle(pts, pts[1], Triangle(7, 5, 0))
  }

  /** On these coordinates, each verdict of step 1 is the one the slot lemmas establish. */
  lemma SquareVerdictsHold1(pts: seq<Vec>)
    requires SquareCoords(pts)
    ensures SquareVerdicts1(pts)
  {
    SquareVerdict1At0(pts[1], pts[5], pts[6], pts[0]);
    SquareVerdict1At1(pts[1], pts[6], pts[7], pts[0]);
    SquareVerdict1At2(pts[1], pts[7], pts[5], pts[0]);
  }

  /** The slots of the true verdicts of step 1. */
  lemma SquareSlots1()
    ensures TrueSlots([false, true, false]) == [1]
  {
    var verdicts := [false, true, false];
    assert TrueSlots(verdicts[..0]) == [];
    assert TrueSlots(verdicts[..1]) == [] by {
      assert verdicts[..1][..0] == verdicts[..0];
    }
    assert TrueSlots(verdicts[..2]) == [1] by {
      assert verdicts[..2][..1] == verdicts[..1];
    }
    assert TrueSlots(verdicts[..3]) == [1] by {
      assert verdicts[..3][..2] == verdicts[..2];
    }
    WholePrefix(verdicts);
  }

  /** The bad slots of mesh 1 for point 1, in increasing order. */
  lemma SquareBad1(pts: seq<Vec>)
    requires |pts| == 8 && SquareVerdicts1(pts)
    ensures MeshInRange(pts, SquareMesh1)
    ensures BadIndices(pts, SquareMesh1, pts[1]) == [1]
  {
    var mesh, verdicts := SquareMesh1, [false, true, false];
    assert MeshInRange(pts, mesh);
    forall k | 0 <= k < |mesh|
      ensures BadTriangle(pts, pts[1], mesh[k]) == verdicts[k]
    {
      if k == 0 {
        assert mesh[0] == Triangle(5, 6, 0);
      } else if k == 1 {
        assert mesh[1] == Triangle(6, 7, 0);
      } else {
        assert mesh[2] == Triangle(7, 5, 0);
      }
    }
    BadIndicesAre(pts, mesh, pts[1], verdicts);
    SquareSlots1();
  }

  /** The triangles in the bad slots of mesh 1. */
  predicate SquareBadSlots1(mesh: seq<Triangle>) {
    |mesh| == 3 && mesh[1] == Triangle(6, 7, 0)
  }

  /** With slots [1] of mesh 1 bad: the edges of slot 1 that no other bad triangle has. */
  lemma SquareUnshared1At1(mesh: seq<Triangle>)
    requires SquareBadSlots1(mesh)
    ensures ValidBad(mesh, [1])
    ensures Unshared(mesh, [1], 1, Edges(mesh[1])) == [Edge(6, 7), Edge(7, 0), Edge(0, 6)]
  {
    var bad := [1];
    assert ValidBad(mesh, bad);
    UnsharedEdges(mesh, bad, 1, mesh[1]);
  }

  /** With slots [1] of mesh 1 bad: the cavity boundary. */
  lemma SquareBoundary1(mesh: seq<Triangle>)
    requires SquareBadSlots1(mesh)
    ensures ValidBad(mesh, [1])
    ensures Boundary(mesh, [1]) == [Edge(6, 7), Edge(7, 0), Edge(0, 6)]
  {
    var bad := [1];
    SquareUnshared1At1(mesh);
    assert BoundaryPrefix(mesh, bad, 1) == [Edge(6, 7), Edge(7, 0), Edge(0, 6)];
  }

  /** With slots [1] of mesh 1 bad: the surviving triangles, in mesh order. */
  lemma SquareKept1()
    ensures Kept(SquareMesh1, [1]) == [Triangle(5, 6, 0), Triangle(7, 5, 0)]
  {
    var mesh, bad := SquareMesh1, [1];
    assert |mesh| == 3;
    assert mesh[2] == Triangle(7, 5, 0);
    assert KeptFrom(mesh, bad, 2) == [Triangle(7, 5, 0)];
    assert KeptFrom(mesh, bad, 1) == [Triangle(7, 5, 0)];
    assert mesh[0] == Triangle(5, 6, 0);
  }

  /** The fan closing the cavity of step 1 at point 1. */
  lemma SquareFan1()
    ensures Fan([Edge(6, 7), Edge(7, 0), Edge(0, 6)], 1) ==
            [Triangle(6, 7, 1), Triangle(7, 0, 1), Triangle(0, 6, 1)]
  {
    FanIs([Edge(6, 7), Edge(7, 0), Edge(0, 6)], 1,
          [Triangle(6, 7, 1), Triangle(7, 0, 1), Triangle(0, 6, 1)]);
  }

  /** Inserting point 1 turns mesh 1 into mesh 2. */
  lemma SquareStep1(pts: seq<Vec>)
    requires |pts| == 8 && SquareVerdicts1(pts)
    ensures MeshInRange(pts, SquareMesh1)
    ensures Step(pts, SquareMesh1, 1) == SquareMesh2
  {
    SquareBad1(pts);
    SquareBoundary1(SquareMesh1);
    SquareKept1();
    SquareFan1();
    StepIs(pts, SquareMesh1, 1, [1], [Edge(6, 7), Edge(7, 0), Edge(0, 6)],
           [Triangle(5, 6, 0), Triangle(7, 5, 0)],
           [Triangle(6, 7, 1), Triangle(7, 0, 1), Triangle(0, 6, 1)]);
  }

  /** Point 2 against slot 0 of mesh 2, Triangle(5, 6, 0): not bad. */
  lemma SquareVerdict2At0(p: Vec, p0: Vec, p1: Vec, p2: Vec)
    requires p == Vec(1.0, 1.0) && p0 == Vec(-39.0, -1.0) && p1 == Vec(1.0, 41.0) && p2 == Vec(0.0, 0.0)
    ensures !IsBad(p, p0, p1, p2)
  {
  }

  /** Point 2 against slot 1 of mesh 2, Triangle(7, 5, 0): not bad. */
  lemma SquareVerdict2At1(p: Vec, p0: Vec, p1: Vec, p2: Vec)
    requires p == Vec(1.0, 1.0) && p0 == Vec(41.0, -1.0) && p1 == Vec(-39.0, -1.0) && p2 == Vec(0.0, 0.0)
    ensures !IsBad(p, p0, p1, p2)
  {
  }

  /** Point 2 against slot 2 of mesh 2, Triangle(6, 7, 1): not bad. */
  lemma SquareVerdict2At2(p: Vec, p0: Vec, p1: Vec, p2: Vec)
    requires p == Vec(1.0, 1.0) && p0 == Vec(1.0, 41.0) && p1 == Vec(41.0, -1.0) && p2 == Vec(2.0, 0.0)
    ensures !IsBad(p, p0, p1, p2)
  {
  }

  /** Point 2 against slot 3 of mesh 2, Triangle(7, 0, 1): not bad. */
  lemma SquareVerdict2At3(p: Vec, p0: Vec, p1: Vec, p2: Vec)
    requires p == Vec(1.0, 1.0) && p0 == Vec(41.0, -1.0) && p1 == Vec(0.0, 0.0) && p2 == Vec(2.0, 0.0)
    ensures !IsBad(p, p0, p1, p2)
  {
  }

  /** Point 2 against slot 4 of mesh 2, Triangle(0, 6, 1): bad. */
  lemma SquareVerdict2At4(p: Vec, p0: Vec, p1: Vec, p2: Vec)
    requires p == Vec(1.0, 1.0) && p0 == Vec(0.0, 0.0) && p1 == Vec(1.0, 41.0) && p2 == Vec(2.0, 0.0)
    ensures IsBad(p, p0, p1, p2)
  {
  }

  /** The verdict of the badness test on each triangle of mesh 2, for point 2. */
  predicate SquareVerdicts2(pts: seq<Vec>)
    requires |pts| == 8
  {
    !BadTriangle(pts, pts[2], Triangle(5, 6, 0)) &&
    !BadTriangle(pts, pts[2], Triangle(7, 5, 0)) &&
    !BadTriangle(pts, pts[2], Triangle(6, 7, 1)) &&
    !BadTriangle(pts, pts[2], Triangle(7, 0, 1)) &&
    BadTriangle(pts, pts[2], Triangle(0, 6, 1))
  }

  /** On these coordinates, each verdict of step 2 is the one the slot lemmas establish. */
  lemma SquareVerdictsHold2(pts: seq<Vec>)
    requires SquareCoords(pts)
    ensures SquareVerdicts2(pts)
  {
    SquareVerdict2At0(pts[2], pts[5], pts[6], pts[0]);
    SquareVerdict2At1(pts[2], pts[7], pts[5], pts[0]);
    SquareVerdict2At2(pts[2], pts[6], pts[7], pts[1]);
    SquareVerdict2At3(pts[2], pts[7], pts[0], pts[1]);
    SquareVerdict2At4(pts[2], pts[0], pts[6], pts[1]);
  }

  /** The slots of the true verdicts of step 2. */
  lemma SquareSlots2()
    ensures TrueSlots([false, false, false, false, true]) == [4]
  {
    var verdicts := [false, false, false, false, true];
    assert TrueSlots(verdicts[..0]) == [];
    assert TrueSlots(verdicts[..1]) == [] by {
      assert verdicts[..1][..0] == verdicts[..0];
    }
    assert TrueSlots(verdicts[..2]) == [] by {
      assert verdicts[..2][..1] == verdicts[..1];
    }
    assert TrueSlots(verdicts[..3]) == [] by {
      assert verdicts[..3][..2] == verdicts[..2];
    }
    assert TrueSlots(verdicts[..4]) == [] by {
      assert verdicts[..4][..3] == verdicts[..3];
    }
    assert TrueSlots(verdicts[..5]) == [4] by {
      assert verdicts[..5][..4] == verdicts[..4];
    }
    WholePrefix(verdicts);
  }

  /** The bad slots of mesh 2 for point 2, in increasing order. */
  lemma SquareBad2(pts: seq<Vec>)
    requires |pts| == 8 && SquareVerdicts2(pts)
    ensures MeshInRange(pts, SquareMesh2)
    ensures BadIndices(pts, SquareMesh2, pts[2]) == [4]
  {
    var mesh, verdicts := SquareMesh2, [false, false, false, false, true];
    assert MeshInRange(pts, mesh);
    forall k | 0 <= k < |mesh|
      ensures BadTriangle(pts, pts[2], mesh[k]) == verdicts[k]
    {
      if k == 0 {
        assert mesh[0] == Triangle(5, 6, 0);
      } else if k == 1 {
        assert mesh[1] == Triangle(7, 5, 0);
      } else if k == 2 {
        assert mesh[2] == Triangle(6, 7, 1);
      } else if k == 3 {
        assert mesh[3] == Triangle(7, 0, 1);
      } else {
        assert mesh[4] == Triangle(0, 6, 1);
      }
    }
    BadIndicesAre(pts, mesh, pts[2], verdicts);
    SquareSlots2();
  }

  /** The triangles in the bad slots of mesh 2. */
  predicate SquareBadSlots2(mesh: seq<Triangle>) {
    |mesh| == 5 && mesh[4] == Triangle(0, 6, 1)
  }

  /** With slots [4] of mesh 2 bad: the edges of slot 4 that no other bad triangle has. */
  lemma SquareUnshared2At4(mesh: seq<Triangle>)
    requires SquareBadSlots2(mesh)
    ensures ValidBad(mesh, [4])
    ensures Unshared(mesh, [4], 4, Edges(mesh[4])) == [Edge(0, 6), Edge(6, 1), Edge(1, 0)]
  {
    var bad := [4];
    assert ValidBad(mesh, bad);
    UnsharedEdges(mesh, bad, 4, mesh[4]);
  }

  /** With slots [4] of mesh 2 bad: the cavity boundary. */
  lemma SquareBoundary2(mesh: seq<Triangle>)
    requires SquareBadSlots2(mesh)
    ensures ValidBad(mesh, [4])
    ensures Boundary(mesh, [4]) == [Edge(0, 6), Edge(6, 1), Edge(1, 0)]
  {
    var bad := [4];
    SquareUnshared2At4(mesh);
    assert BoundaryPrefix(mesh, bad, 1) == [Edge(0, 6), Edge(6, 1), Edge(1, 0)];
  }

  /** With slots [4] of mesh 2 bad: the surviving triangles from slot 3 on. */
  lemma SquareKept2From3()
    ensures KeptFrom(SquareMesh2, [4], 3) == [Triangle(7, 0, 1)]
  {
    var mesh, bad := SquareMesh2, [4];
    assert |mesh| == 5;
    assert KeptFrom(mesh, bad, 4) == [];
    assert mesh[3] == Triangle(7, 0, 1);
  }

  /** With slots [4] of mesh 2 bad: the surviving triangles, in mesh order. */
  lemma SquareKept2()
    ensures Kept(SquareMesh2, [4]) == [Triangle(5, 6, 0), Triangle(7, 5, 0), Triangle(6, 7, 1), Triangle(7, 0, 1)]
  {
    var mesh, bad := SquareMesh2, [4];
    assert |mesh| == 5;
    SquareKept2From3();
    assert mesh[2] == Triangle(6, 7, 1);
    assert KeptFrom(mesh, bad, 2) == [Triangle(6, 7, 1), Triangle(7, 0, 1)];
    assert mesh[1] == Triangle(7, 5, 0);
    assert KeptFrom(mesh, bad, 1) == [Triangle(7, 5, 0), Triangle(6, 7, 1), Triangle(7, 0, 1)];
    assert mesh[0] == Triangle(5, 6, 0);
  }

  /** The fan closing the cavity of step 2 at point 2. */
  lemma SquareFan2()
    ensures Fan([Edge(0, 6), Edge(6, 1), Edge(1, 0)], 2) ==
            [Triangle(0, 6, 2), Triangle(6, 1, 2), Triangle(1, 0, 2)]
  {
    FanIs([Edge(0, 6), Edge(6, 1), Edge(1, 0)], 2,
          [Triangle(0, 6, 2), Triangle(6, 1, 2), Triangle(1, 0, 2)]);
  }

  /** Inserting point 2 turns mesh 2 into mesh 3. */
  lemma SquareStep2(pts: seq<Vec>)
    requires |pts| == 8 && SquareVerdicts2(pts)
    ensures MeshInRange(pts, SquareMesh2)
    ensures Step(pts, SquareMesh2, 2) == SquareMesh3
  {
    SquareBad2(pts);
    SquareBoundary2(SquareMesh2);
    SquareKept2();
    SquareFan2();
    StepIs(pts, SquareMesh2, 2, [4], [Edge(0, 6), Edge(6, 1), Edge(1, 0)],
           [Triangle(5, 6, 0), Triangle(7, 5, 0), Triangle(6, 7, 1), Triangle(7, 0, 1)],
           [Triangle(0, 6, 2), Triangle(6, 1, 2), Triangle(1, 0, 2)]);
  }

  /** Point 3 against slot 0 of mesh 3, Triangle(5, 6, 0): bad. */
  lemma SquareVerdict3At0(p: Vec, p0: Vec, p1: Vec, p2: Vec)
    requires p == Vec(0.0, 2.0) && p0 == Vec(-39.0, -1.0) && p1 == Vec(1.0, 41.0) && p2 == Vec(0.0, 0.0)
    ensures IsBad(p, p0, p1, p2)
  {
  }

  /** Point 3 against slot 1 of mesh 3, Triangle(7, 5, 0): not bad. */
  lemma SquareVerdict3At1(p: Vec, p0: Vec, p1: Vec, p2: Vec)
    requires p == Vec(0.0, 2.0) && p0 == Vec(41.0, -1.0) && p1 == Vec(-39.0, -1.0) && p2 == Vec(0.0, 0.0)
    ensures !IsBad(p, p0, p1, p2)
  {
  }

  /** Point 3 against slot 2 of mesh 3, Triangle(6, 7, 1): not bad. */
  lemma SquareVerdict3At2(p: Vec, p0: Vec, p1: Vec, p2: Vec)
    requires p == Vec(0.0, 2.0) && p0 == Vec(1.0, 41.0) && p1 == Vec(41.0, -1.0) && p2 == Vec(2.0, 0.0)
    ensures !IsBad(p, p0, p1, p2)
  {
  }

  /** Point 3 against slot 3 of mesh 3, Triangle(7, 0, 1): not bad. */
  lemma SquareVerdict3At3(p: Vec, p0: Vec, p1: Vec, p2: Vec)
    requires p == Vec(0.0, 2.0) && p0 == Vec(41.0, -1.0) && p1 == Vec(0.0, 0.0) && p2 == Vec(2.0, 0.0)
    ensures !IsBad(p, p0, p1, p2)
  {
  }

  /** Point 3 against slot 4 of mesh 3, Triangle(0, 6, 2): bad. */
  lemma SquareVerdict3At4(p: Vec, p0: Vec, p1: Vec, p2: Vec)
    requires p == Vec(0.0, 2.0) && p0 == Vec(0.0, 0.0) && p1 == Vec(1.0, 41.0) && p2 == Vec(1.0, 1.0)
    ensures IsBad(p, p0, p1, p2)
  {
  }

  /** Point 3 against slot 5 of mesh 3, Triangle(6, 1, 2): not bad. */
  lemma SquareVerdict3At5(p: Vec, p0: Vec, p1: Vec, p2: Vec)
    requires p == Vec(0.0, 2.0) && p0 == Vec(1.0, 41.0) && p1 == Vec(2.0, 0.0) && p2 == Vec(1.0, 1.0)
    ensures !IsBad(p, p0, p1, p2)
  {
  }

  /** Point 3 against slot 6 of mesh 3, Triangle(1, 0, 2): not bad. */
  lemma SquareVerdict3At6(p: Vec, p0: Vec, p1: Vec, p2: Vec)
    requires p == Vec(0.0, 2.0) && p0 == Vec(2.0, 0.0) && p1 == Vec(0.0, 0.0) && p2 == Vec(1.0, 1.0)
    ensures !IsBad(p, p0, p1, p2)
  {
  }

  /** The verdict of the badness test on each triangle of mesh 3, for point 3. */
  predicate SquareVerdicts3(pts: seq<Vec>)
    requires |pts| == 8
  {
    BadTriangle(pts, pts[3], Triangle(5, 6, 0)) &&
    !BadTriangle(pts, pts[3], Triangle(7, 5, 0)) &&
    !BadTriangle(pts, pts[3], Triangle(6, 7, 1)) &&
    !BadTriangle(pts, pts[3], Triangle(7, 0, 1)) &&
    BadTriangle(pts, pts[3], Triangle(0, 6, 2)) &&
    !BadTriangle(pts, pts[3], Triangle(6, 1, 2)) &&
    !BadTriangle(pts, pts[3], Triangle(1, 0, 2))
  }

  /** On these coordinates, each verdict of step 3 is the one the slot lemmas establish. */
  lemma SquareVerdictsHold3(pts: seq<Vec>)
    requires SquareCoords(pts)
    ensures SquareVerdicts3(pts)
  {
    SquareVerdict3At0(pts[3], pts[5], pts[6], pts[0]);
    SquareVerdict3At1(pts[3], pts[7], pts[5], pts[0]);
    SquareVerdict3At2(pts[3], pts[6], pts[7], pts[1]);
    SquareVerdict3At3(pts[3], pts[7], pts[0], pts[1]);
    SquareVerdict3At4(pts[3], pts[0], pts[6], pts[2]);
    SquareVerdict3At5(pts[3], pts[6], pts[1], pts[2]);
    SquareVerdict3At6(pts[3], pts[1], pts[0], pts[2]);
  }

  /** The slots of the true verdicts of step 3. */
  lemma SquareSlots3()
    ensures TrueSlots([true, false, false, false, true, false,
              false]) == [0, 4]
  {
    var verdicts := [true, false, false, false, true, false,
              false];
    assert TrueSlots(verdicts[..0]) == [];
    assert TrueSlots(verdicts[..1]) == [0] by {
      assert verdicts[..1][..0] == verdicts[..0];
    }
    assert TrueSlots(verdicts[..2]) == [0] by {
      assert verdicts[..2][..1] == verdicts[..1];
    }
    assert TrueSlots(verdicts[..3]) == [0] by {
      assert verdicts[..3][..2] == verdicts[..2];
    }
    assert TrueSlots(verdicts[..4]) == [0] by {
      assert verdicts[..4][..3] == verdicts[..3];
    }
    assert TrueSlots(verdicts[..5]) == [0, 4] by {
      assert verdicts[..5][..4] == verdicts[..4];
    }
    assert TrueSlots(verdicts[..6]) == [0, 4] by {
      assert verdicts[..6][..5] == verdicts[..5];
    }
    assert TrueSlots(verdicts[..7]) == [0, 4] by {
      assert verdicts[..7][..6] == verdicts[..6];
    }
    WholePrefix(verdicts);
  }

  /** The bad slots of mesh 3 for point 3, in increasing order. */
  lemma SquareBad3(pts: seq<Vec>)
    requires |pts| == 8 && SquareVerdicts3(pts)
    ensures MeshInRange(pts, SquareMesh3)
    ensures BadIndices(pts, SquareMesh3, pts[3]) == [0, 4]
  {
    var mesh, verdicts := SquareMesh3, [true, false, false, false, true, false,
              false];
    assert MeshInRange(pts, mesh);
    forall k | 0 <= k < |mesh|
      ensures BadTriangle(pts, pts[3], mesh[k]) == verdicts[k]
    {
      if k == 0 {
        assert mesh[0] == Triangle(5, 6, 0);
      } else if k == 1 {
        assert mesh[1] == Triangle(7, 5, 0);
      } else if k == 2 {
        assert mesh[2] == Triangle(6, 7, 1);
      } else if k == 3 {
        assert mesh[3] == Triangle(7, 0, 1);
      } else if k == 4 {
        assert mesh[4] == Triangle(0, 6, 2);
      } else if k == 5 {
        assert mesh[5] == Triangle(6, 1, 2);
      } else {
        assert mesh[6] == Triangle(1, 0, 2);
      }
    }
    BadIndicesAre(pts, mesh, pts[3], verdicts);
    SquareSlots3();
  }

  /** The triangles in the bad slots of mesh 3. */
  predicate SquareBadSlots3(mesh: seq<Triangle>) {
    |mesh| == 7 && mesh[0] == Triangle(5, 6, 0) && mesh[4] == Triangle(0, 6, 2)
  }

  /** With slots [0, 4] of mesh 3 bad: the edges of slot 0 that no other bad triangle has. */
  lemma SquareUnshared3At0(mesh: seq<Triangle>)
    requires SquareBadSlots3(mesh)
    ensures ValidBad(mesh, [0, 4])
    ensures Unshared(mesh, [0, 4], 0, Edges(mesh[0])) == [Edge(5, 6), Edge(0, 5)]
  {
    var bad := [0, 4];
    assert ValidBad(mesh, bad);
    assert !Shared(mesh, bad, 0, Edge(5, 6));
    assert Shared(mesh, bad, 0, Edge(6, 0)) by { assert HasEdge(mesh[bad[1]], Edge(6, 0)); }
    assert !Shared(mesh, bad, 0, Edge(0, 5));
    UnsharedEdges(mesh, bad, 0, mesh[0]);
  }

  /** With slots [0, 4] of mesh 3 bad: the edges of slot 4 that no other bad triangle has. */
  lemma SquareUnshared3At4(mesh: seq<Triangle>)
    requires SquareBadSlots3(mesh)
    ensures ValidBad(mesh, [0, 4])
    ensures Unshared(mesh, [0, 4], 4, Edges(mesh[4])) == [Edge(6, 2), Edge(2, 0)]
  {
    var bad := [0, 4];
    assert ValidBad(mesh, bad);
    assert Shared(mesh, bad, 4, Edge(0, 6)) by { assert HasEdge(mesh[bad[0]], Edge(0, 6)); }
    assert !Shared(mesh, bad, 4, Edge(6, 2));
    assert !Shared(mesh, bad, 4, Edge(2, 0));
    UnsharedEdges(mesh, bad, 4, mesh[4]);
  }

  /** With slots [0, 4] of mesh 3 bad: the cavity boundary. */
  lemma SquareBoundary3(mesh: seq<Triangle>)
    requires SquareBadSlots3(mesh)
    ensures ValidBad(mesh, [0, 4])
    ensures Boundary(mesh, [0, 4]) == [Edge(5, 6), Edge(0, 5), Edge(6, 2), Edge(2, 0)]
  {
    var bad := [0, 4];
    SquareUnshared3At0(mesh);
    SquareUnshared3At4(mesh);
    assert BoundaryPrefix(mesh, bad, 1) == [Edge(5, 6), Edge(0, 5)];
    assert BoundaryPrefix(mesh, bad, 2) == [Edge(5, 6), Edge(0, 5), Edge(6, 2), Edge(2, 0)];
  }

  /** With slots [0, 4] of mesh 3 bad: the surviving triangles from slot 6 on. */
  lemma SquareKept3From6()
    ensures KeptFrom(SquareMesh3, [0, 4], 6) == [Triangle(1, 0, 2)]
  {
    var mesh, bad := SquareMesh3, [0, 4];
    assert |mesh| == 7;
    assert mesh[6] == Triangle(1, 0, 2);
  }

  /** With slots [0, 4] of mesh 3 bad: the surviving triangles from slot 3 on. */
  lemma SquareKept3From3()
    ensures KeptFrom(SquareMesh3, [0, 4], 3) == [Triangle(7, 0, 1), Triangle(6, 1, 2), Triangle(1, 0, 2)]
  {
    var mesh, bad := SquareMesh3, [0, 4];
    assert |mesh| == 7;
    SquareKept3From6();
    assert mesh[5] == Triangle(6, 1, 2);
    assert KeptFrom(mesh, bad, 5) == [Triangle(6, 1, 2), Triangle(1, 0, 2)];
    assert KeptFrom(mesh, bad, 4) == [Triangle(6, 1, 2), Triangle(1, 0, 2)];
    assert mesh[3] == Triangle(7, 0, 1);
  }

  /** With slots [0, 4] of mesh 3 bad: the surviving triangles, in mesh order. */
  lemma SquareKept3()
    ensures Kept(SquareMesh3, [0, 4]) == [Triangle(7, 5, 0), Triangle(6, 7, 1), Triangle(7, 0, 1), Triangle(6, 1, 2),
             Triangle(1, 0, 2)]
  {
    var mesh, bad := SquareMesh3, [0, 4];
    assert |mesh| == 7;
    SquareKept3From3();
    assert mesh[2] == Triangle(6, 7, 1);
    assert KeptFrom(mesh, bad, 2) == [Triangle(6, 7, 1), Triangle(7, 0, 1), Triangle(6, 1, 2), Triangle(1, 0, 2)];
    assert mesh[1] == Triangle(7, 5, 0);
    assert KeptFrom(mesh, bad, 1) == [Triangle(7, 5, 0), Triangle(6, 7, 1), Triangle(7, 0, 1), Triangle(6, 1, 2),
             Triangle(1, 0, 2)];
  }

  /** The fan closing the cavity of step 3 at point 3. */
  lemma SquareFan3()
    ensures Fan([Edge(5, 6), Edge(0, 5), Edge(6, 2), Edge(2, 0)], 3) ==
            [Triangle(5, 6, 3), Triangle(0, 5, 3), Triangle(6, 2, 3), Triangle(2, 0, 3)]
  {
    FanIs([Edge(5, 6), Edge(0, 5), Edge(6, 2), Edge(2, 0)], 3,
          [Triangle(5, 6, 3), Triangle(0, 5, 3), Triangle(6, 2, 3), Triangle(2, 0, 3)]);
  }

  /** Inserting point 3 turns mesh 3 into mesh 4. */
  lemma SquareStep3(pts: seq<Vec>)
    requires |pts| == 8 && SquareVerdicts3(pts)
    ensures MeshInRange(pts, SquareMesh3)
    ensures Step(pts, SquareMesh3, 3) == SquareMesh4
  {
    SquareBad3(pts);
    SquareBoundary3(SquareMesh3);
    SquareKept3();
    SquareFan3();
    StepIs(pts, SquareMesh3, 3, [0, 4], [Edge(5, 6), Edge(0, 5), Edge(6, 2), Edge(2, 0)],
           [Triangle(7, 5, 0), Triangle(6, 7, 1), Triangle(7, 0, 1), Triangle(6, 1, 2),
            Triangle(1, 0, 2)],
           [Triangle(5, 6, 3), Triangle(0, 5, 3), Triangle(6, 2, 3), Triangle(2, 0, 3)]);
  }

  /** Point 4 against slot 0 of mesh 4, Triangle(7, 5, 0): not bad. */
  lemma SquareVerdict4At0(p: Vec, p0: Vec, p1: Vec, p2: Vec)
    requires p == Vec(2.0, 2.0) && p0 == Vec(41.0, -1.0) && p1 == Vec(-39.0, -1.0) && p2 == Vec(0.0, 0.0)
    ensures !IsBad(p, p0, p1, p2)
  {
  }

  /** Point 4 against slot 1 of mesh 4, Triangle(6, 7, 1): bad. */
  lemma SquareVerdict4At1(p: Vec, p0: Vec, p1: Vec, p2: Vec)
    requires p == Vec(2.0, 2.0) && p0 == Vec(1.0, 41.0) && p1 == Vec(41.0, -1.0) && p2 == Vec(2.0, 0.0)
    ensures IsBad(p, p0, p1, p2)
  {
  }

  /** Point 4 against slot 2 of mesh 4, Triangle(7, 0, 1): not bad. */
  lemma SquareVerdict4At2(p: Vec, p0: Vec, p1: Vec, p2: Vec)
    requires p == Vec(2.0, 2.0) && p0 == Vec(41.0, -1.0) && p1 == Vec(0.0, 0.0) && p2 == Vec(2.0, 0.0)
    ensures !IsBad(p, p0, p1, p2)
  {
  }

  /** Point 4 against slot 3 of mesh 4, Triangle(6, 1, 2): bad. */
  lemma SquareVerdict4At3(p: Vec, p0: Vec, p1: Vec, p2: Vec)
    requires p == Vec(2.0, 2.0) && p0 == Vec(1.0, 41.0) && p1 == Vec(2.0, 0.0) && p2 == Vec(1.0, 1.0)
    ensures IsBad(p, p0, p1, p2)
  {
  }

  /** Point 4 against slot 4 of mesh 4, Triangle(1, 0, 2): not bad. */
  lemma SquareVerdict4At4(p: Vec, p0: Vec, p1: Vec, p2: Vec)
    requires p == Vec(2.0, 2.0) && p0 == Vec(2.0, 0.0) && p1 == Vec(0.0, 0.0) && p2 == Vec(1.0, 1.0)
    ensures !IsBad(p, p0, p1, p2)
  {
  }

  /** Point 4 against slot 5 of mesh 4, Triangle(5, 6, 3): not bad. */
  lemma SquareVerdict4At5(p: Vec, p0: Vec, p1: Vec, p2: Vec)
    requires p == Vec(2.0, 2.0) && p0 == Vec(-39.0, -1.0) && p1 == Vec(1.0, 41.0) && p2 == Vec(0.0, 2.0)
    ensures !IsBad(p, p0, p1, p2)
  {
  }

  /** Point 4 against slot 6 of mesh 4, Triangle(0, 5, 3): not bad. */
  lemma SquareVerdict4At6(p: Vec, p0: Vec, p1: Vec, p2: Vec)
    requires p == Vec(2.0, 2.0) && p0 == Vec(0.0, 0.0) && p1 == Vec(-39.0, -1.0) && p2 == Vec(0.0, 2.0)
    ensures !IsBad(p, p0, p1, p2)
  {
  }

  /** Point 4 against slot 7 of mesh 4, Triangle(6, 2, 3): bad. */
  lemma SquareVerdict4At7(p: Vec, p0: Vec, p1: Vec, p2: Vec)
    requires p == Vec(2.0, 2.0) && p0 == Vec(1.0, 41.0) && p1 == Vec(1.0, 1.0) && p2 == Vec(0.0, 2.0)
    ensures IsBad(p, p0, p1, p2)
  {
  }

  /** Point 4 against slot 8 of mesh 4, Triangle(2, 0, 3): not bad. */
  lemma SquareVerdict4At8(p: Vec, p0: Vec, p1: Vec, p2: Vec)
    requires p == Vec(2.0, 2.0) && p0 == Vec(1.0, 1.0) && p1 == Vec(0.0, 0.0) && p2 == Vec(0.0, 2.0)
    ensures !IsBad(p, p0, p1, p2)
  {
  }

  /** The verdict of the badness test on each triangle of mesh 4, for point 4. */
  predicate SquareVerdicts4(pts: seq<Vec>)
    requires |pts| == 8
  {
    !BadTriangle(pts, pts[4], Triangle(7, 5, 0)) &&
    BadTriangle(pts, pts[4], Triangle(6, 7, 1)) &&
    !BadTriangle(pts, pts[4], Triangle(7, 0, 1)) &&
    BadTriangle(pts, pts[4], Triangle(6, 1, 2)) &&
    !BadTriangle(pts, pts[4], Triangle(1, 0, 2)) &&
    !BadTriangle(pts, pts[4], Triangle(5, 6, 3)) &&
    !BadTriangle(pts, pts[4], Triangle(0, 5, 3)) &&
    BadTriangle(pts, pts[4], Triangle(6, 2, 3)) &&
    !BadTriangle(pts, pts[4], Triangle(2, 0, 3))
  }

  /** On these coordinates, each verdict of step 4 is the one the slot lemmas establish. */
  lemma SquareVerdictsHold4(pts: seq<Vec>)
    requires SquareCoords(pts)
    ensures SquareVerdicts4(pts)
  {
    SquareVerdict4At0(pts[4], pts[7], pts[5], pts[0]);
    SquareVerdict4At1(pts[4], pts[6], pts[7], pts[1]);
    SquareVerdict4At2(pts[4], pts[7], pts[0], pts[1]);
    SquareVerdict4At3(pts[4], pts[6], pts[1], pts[2]);
    SquareVerdict4At4(pts[4], pts[1], pts[0], pts[2]);
    SquareVerdict4At5(pts[4], pts[5], pts[6], pts[3]);
    SquareVerdict4At6(pts[4], pts[0], pts[5], pts[3]);
    SquareVerdict4At7(pts[4], pts[6], pts[2], pts[3]);
    SquareVerdict4At8(pts[4], pts[2], pts[0], pts[3]);
  }

  /** The slots of the true verdicts of step 4. */
  lemma SquareSlots4()
    ensures TrueSlots([false, true, false, true, false, false,
              false, true, false]) == [1, 3, 7]
  {
    var verdicts := [false, true, false, true, false, false,
              false, true, false];
    assert TrueSlots(verdicts[..0]) == [];
    assert TrueSlots(verdicts[..1]) == [] by {
      assert verdicts[..1][..0] == verdicts[..0];
    }
    assert TrueSlots(verdicts[..2]) == [1] by {
      assert verdicts[..2][..1] == verdicts[..1];
    }
    assert TrueSlots(verdicts[..3]) == [1] by {
      assert verdicts[..3][..2] == verdicts[..2];
    }
    assert TrueSlots(verdicts[..4]) == [1, 3] by {
      assert verdicts[..4][..3] == verdicts[..3];
    }
    assert TrueSlots(verdicts[..5]) == [1, 3] by {
      assert verdicts[..5][..4] == verdicts[..4];
    }
    assert TrueSlots(verdicts[..6]) == [1, 3] by {
      assert verdicts[..6][..5] == verdicts[..5];
    }
    assert TrueSlots(verdicts[..7]) == [1, 3] by {
      assert verdicts[..7][..6] == verdicts[..6];
    }
    assert TrueSlots(verdicts[..8]) == [1, 3, 7] by {
      assert verdicts[..8][..7] == verdicts[..7];
    }
    assert TrueSlots(verdicts[..9]) == [1, 3, 7] by {
      assert verdicts[..9][..8] == verdicts[..8];
    }
    WholePrefix(verdicts);
  }

  /** The bad slots of mesh 4 for point 4, in increasing order. */
  lemma SquareBad4(pts: seq<Vec>)
    requires |pts| == 8 && SquareVerdicts4(pts)
    ensures MeshInRange(pts, SquareMesh4)
    ensures BadIndices(pts, SquareMesh4, pts[4]) == [1, 3, 7]
  {
    var mesh, verdicts := SquareMesh4, [false, true, false, true, false, false,
              false, true, false];
    assert MeshInRange(pts, mesh);
    forall k | 0 <= k < |mesh|
      ensures BadTriangle(pts, pts[4], mesh[k]) == verdicts[k]
    {
      if k == 0 {
        assert mesh[0] == Triangle(7, 5, 0);
      } else if k == 1 {
        assert mesh[1] == Triangle(6, 7, 1);
      } else if k == 2 {
        assert mesh[2] == Triangle(7, 0, 1);
      } else if k == 3 {
        assert mesh[3] == Triangle(6, 1, 2);
      } else if k == 4 {
        assert mesh[4] == Triangle(1, 0, 2);
      } else if k == 5 {
        assert mesh[5] == Triangle(5, 6, 3);
      } else if k == 6 {
        assert mesh[6] == Triangle(0, 5, 3);
      } else if k == 7 {
        assert mesh[7] == Triangle(6, 2, 3);
      } else {
        assert mesh[8] == Triangle(2, 0, 3);
      }
    }
    BadIndicesAre(pts, mesh, pts[4], verdicts);
    SquareSlots4();
  }

  /** The triangles in the bad slots of mesh 4. */
  predicate SquareBadSlots4(mesh: seq<Triangle>) {
    |mesh| == 9 && mesh[1] == Triangle(6, 7, 1) && mesh[3] == Triangle(6, 1, 2) && mesh[7] == Triangle(6, 2, 3)
  }

  /** With slots [1, 3, 7] of mesh 4 bad: the edges of slot 1 that no other bad triangle has. */
  lemma SquareUnshared4At1(mesh: seq<Triangle>)
    requires SquareBadSlots4(mesh)
    ensures ValidBad(mesh, [1, 3, 7])
    ensures Unshared(mesh, [1, 3, 7], 1, Edges(mesh[1])) == [Edge(6, 7), Edge(7, 1)]
  {
    var bad := [1, 3, 7];
    assert ValidBad(mesh, bad);
    assert !Shared(mesh, bad, 1, Edge(6, 7));
    assert !Shared(mesh, bad, 1, Edge(7, 1));
    assert Shared(mesh, bad, 1, Edge(1, 6)) by { assert HasEdge(mesh[bad[1]], Edge(1, 6)); }
    UnsharedEdges(mesh, bad, 1, mesh[1]);
  }

  /** With slots [1, 3, 7] of mesh 4 bad: the edges of slot 3 that no other bad triangle has. */
  lemma SquareUnshared4At3(mesh: seq<Triangle>)
    requires SquareBadSlots4(mesh)
    ensures ValidBad(mesh, [1, 3, 7])
    ensures Unshared(mesh, [1, 3, 7], 3, Edges(mesh[3])) == [Edge(1, 2)]
  {
    var bad := [1, 3, 7];
    assert ValidBad(mesh, bad);
    assert Shared(mesh, bad, 3, Edge(6, 1)) by { assert HasEdge(mesh[bad[0]], Edge(6, 1)); }
    assert !Shared(mesh, bad, 3, Edge(1, 2));
    assert Shared(mesh, bad, 3, Edge(2, 6)) by { assert HasEdge(mesh[bad[2]], Edge(2, 6)); }
    UnsharedEdges(mesh, bad, 3, mesh[3]);
  }

  /** With slots [1, 3, 7] of mesh 4 bad: the edges of slot 7 that no other bad triangle has. */
  lemma SquareUnshared4At7(mesh: seq<Triangle>)
    requires SquareBadSlots4(mesh)
    ensures ValidBad(mesh, [1, 3, 7])
    ensures Unshared(mesh, [1, 3, 7], 7, Edges(mesh[7])) == [Edge(2, 3), Edge(3, 6)]
  {
    var bad := [1, 3, 7];
    assert ValidBad(mesh, bad);
    assert Shared(mesh, bad, 7, Edge(6, 2)) by { assert HasEdge(mesh[bad[1]], Edge(6, 2)); }
    assert !Shared(mesh, bad, 7, Edge(2, 3));
    assert !Shared(mesh, bad, 7, Edge(3, 6));
    UnsharedEdges(mesh, bad, 7, mesh[7]);
  }

  /** With slots [1, 3, 7] of mesh 4 bad: the cavity boundary. */
  lemma SquareBoundary4(mesh: seq<Triangle>)
    requires SquareBadSlots4(mesh)
    ensures ValidBad(mesh, [1, 3, 7])
    ensures Boundary(mesh, [1, 3, 7]) == [Edge(6, 7), Edge(7, 1), Edge(1, 2), Edge(2, 3),
             Edge(3, 6)]
  {
    var bad := [1, 3, 7];
    SquareUnshared4At1(mesh);
    SquareUnshared4At3(mesh);
    SquareUnshared4At7(mesh);
    assert BoundaryPrefix(mesh, bad, 1) == [Edge(6, 7), Edge(7, 1)];
    assert BoundaryPrefix(mesh, bad, 2) == [Edge(6, 7), Edge(7, 1), Edge(1, 2)];
    assert BoundaryPrefix(mesh, bad, 3) == [Edge(6, 7), Edge(7, 1), Edge(1, 2), Edge(2, 3),
       Edge(3, 6)];
  }

  /** With slots [1, 3, 7] of mesh 4 bad: the surviving triangles from slot 6 on. */
  lemma SquareKept4From6()
    ensures KeptFrom(SquareMesh4, [1, 3, 7], 6) == [Triangle(0, 5, 3), Triangle(2, 0, 3)]
  {
    var mesh, bad := SquareMesh4, [1, 3, 7];
    assert |mesh| == 9;
    assert mesh[8] == Triangle(2, 0, 3);
    assert KeptFrom(mesh, bad, 8) == [Triangle(2, 0, 3)];
    assert KeptFrom(mesh, bad, 7) == [Triangle(2, 0, 3)];
    assert mesh[6] == Triangle(0, 5, 3);
  }

  /** With slots [1, 3, 7] of mesh 4 bad: the surviving triangles from slot 3 on. */
  lemma SquareKept4From3()
    ensures KeptFrom(SquareMesh4, [1, 3, 7], 3) == [Triangle(1, 0, 2), Triangle(5, 6, 3), Triangle(0, 5, 3), Triangle(2, 0, 3)]
  {
    var mesh, bad := SquareMesh4, [1, 3, 7];
    assert |mesh| == 9;
    SquareKept4From6();
    assert mesh[5] == Triangle(5, 6, 3);
    assert KeptFrom(mesh, bad, 5) == [Triangle(5, 6, 3), Triangle(0, 5, 3), Triangle(2, 0, 3)];
    assert mesh[4] == Triangle(1, 0, 2);
    assert KeptFrom(mesh, bad, 4) == [Triangle(1, 0, 2), Triangle(5, 6, 3), Triangle(0, 5, 3), Triangle(2, 0, 3)];
  }

  /** With slots [1, 3, 7] of mesh 4 bad: the surviving triangles, in mesh order. */
  lemma SquareKept4()
    ensures Kept(SquareMesh4, [1, 3, 7]) == [Triangle(7, 5, 0), Triangle(7, 0, 1), Triangle(1, 0, 2), Triangle(5, 6, 3),
             Triangle(0, 5, 3), Triangle(2, 0, 3)]
  {
    var mesh, bad := SquareMesh4, [1, 3, 7];
    assert |mesh| == 9;
    SquareKept4From3();
    assert mesh[2] == Triangle(7, 0, 1);
    assert KeptFrom(mesh, bad, 2) == [Triangle(7, 0, 1), Triangle(1, 0, 2), Triangle(5, 6, 3), Triangle(0, 5, 3),
             Triangle(2, 0, 3)];
    assert KeptFrom(mesh, bad, 1) == [Triangle(7, 0, 1), Triangle(1, 0, 2), Triangle(5, 6, 3), Triangle(0, 5, 3),
             Triangle(2, 0, 3)];
    assert mesh[0] == Triangle(7, 5, 0);
  }

  /** The fan closing the cavity of step 4 at point 4. */
  lemma SquareFan4()
    ensures Fan([Edge(6, 7), Edge(7, 1), Edge(1, 2), Edge(2, 3),
                 Edge(3, 6)], 4) ==
            [Triangle(6, 7, 4), Triangle(7, 1, 4), Triangle(1, 2, 4), Triangle(2, 3, 4),
              Triangle(3, 6, 4)]
  {
    FanIs([Edge(6, 7), Edge(7, 1), Edge(1, 2), Edge(2, 3),
           Edge(3, 6)], 4,
          [Triangle(6, 7, 4), Triangle(7, 1, 4), Triangle(1, 2, 4), Triangle(2, 3, 4),
            Triangle(3, 6, 4)]);
  }

  /** Inserting point 4 turns mesh 4 into mesh 5. */
  lemma SquareStep4(pts: seq<Vec>)
    requires |pts| == 8 && SquareVerdicts4(pts)
    ensures MeshInRange(pts, SquareMesh4)
    ensures Step(pts, SquareMesh4, 4) == SquareMesh5
  {
    SquareBad4(pts);
    SquareBoundary4(SquareMesh4);
    SquareKept4();
    SquareFan4();
    StepIs(pts, SquareMesh4, 4, [1, 3, 7], [Edge(6, 7), Edge(7, 1), Edge(1, 2), Edge(2, 3),
            Edge(3, 6)],
           [Triangle(7, 5, 0), Triangle(7, 0, 1), Triangle(1, 0, 2), Triangle(5, 6, 3),
            Triangle(0, 5, 3), Triangle(2, 0, 3)],
           [Triangle(6, 7, 4), Triangle(7, 1, 4), Triangle(1, 2, 4), Triangle(2, 3, 4),
            Triangle(3, 6, 4)]);
  }

  /** The walk-through inserts the 5 points one after the other and ends with mesh 5. */
  lemma SquareMeshAfter(pts: seq<Vec>)
    requires SquareCoords(pts)
    ensures MeshAfter(pts, 5, 5) == SquareMesh5
  {
    SquareVerdictsHold0(pts);
    SquareVerdictsHold1(pts);
    SquareVerdictsHold2(pts);
    SquareVerdictsHold3(pts);
    SquareVerdictsHold4(pts);
    SquareStep0(pts);
    MeshAfterStep(pts, 5, 0);
    SquareStep1(pts);
    MeshAfterStep(pts, 5, 1);
    SquareStep2(pts);
    MeshAfterStep(pts, 5, 2);
    SquareStep3(pts);
    MeshAfterStep(pts, 5, 3);
    SquareStep4(pts);
    MeshAfterStep(pts, 5, 4);
  }

  /** Dropping the triangles with a super vertex from the first 3 slots of mesh 5. */
  lemma SquareRealOnlyUpTo3()
    ensures RealOnly(SquareMesh5[..3], 5) == [Triangle(1, 0, 2)]
  {
    var mesh := SquareMesh5;
    RealOnlyPrefix(mesh, 5, 1);
    assert RealOnly(mesh[..1], 5) == [];
    RealOnlyPrefix(mesh, 5, 2);
    assert RealOnly(mesh[..2], 5) == [];
    RealOnlyPrefix(mesh, 5, 3);
  }

  /** Dropping the triangles with a super vertex from the first 6 slots of mesh 5. */
  lemma SquareRealOnlyUpTo6()
    ensures RealOnly(SquareMesh5[..6], 5) == [Triangle(1, 0, 2), Triangle(2, 0, 3)]
  {
    var mesh := SquareMesh5;
    SquareRealOnlyUpTo3();
    RealOnlyPrefix(mesh, 5, 4);
    assert RealOnly(mesh[..4], 5) == [Triangle(1, 0, 2)];
    RealOnlyPrefix(mesh, 5, 5);
    assert RealOnly(mesh[..5], 5) == [Triangle(1, 0, 2)];
    RealOnlyPrefix(mesh, 5, 6);
  }

  /** Dropping the triangles with a super vertex from the first 9 slots of mesh 5. */
  lemma SquareRealOnlyUpTo9()
    ensures RealOnly(SquareMesh5[..9], 5) == [Triangle(1, 0, 2), Triangle(2, 0, 3), Triangle(1, 2, 4)]
  {
    var mesh := SquareMesh5;
    SquareRealOnlyUpTo6();
    RealOnlyPrefix(mesh, 5, 7);
    assert RealOnly(mesh[..7], 5) == [Triangle(1, 0, 2), Triangle(2, 0, 3)];
    RealOnlyPrefix(mesh, 5, 8);
    assert RealOnly(mesh[..8], 5) == [Triangle(1, 0, 2), Triangle(2, 0, 3)];
    RealOnlyPrefix(mesh, 5, 9);
  }

  /** Dropping the triangles with a super vertex from the first 11 slots of mesh 5. */
  lemma SquareRealOnlyUpTo11()
    ensures RealOnly(SquareMesh5[..11], 5) == [Triangle(1, 0, 2), Triangle(2, 0, 3), Triangle(1, 2, 4), Triangle(2, 3, 4)]
  {
    var mesh := SquareMesh5;
    SquareRealOnlyUpTo9();
    RealOnlyPrefix(mesh, 5, 10);
    assert RealOnly(mesh[..10], 5) == [Triangle(1, 0, 2), Triangle(2, 0, 3), Triangle(1, 2, 4), Triangle(2, 3, 4)];
    RealOnlyPrefix(mesh, 5, 11);
  }

  /** Dropping the triangles with a super vertex from mesh 5. */
  lemma SquareRealOnly()
    ensures RealOnly(SquareMesh5, 5) == [Triangle(1, 0, 2), Triangle(2, 0, 3), Triangle(1, 2, 4), Triangle(2, 3, 4)]
  {
    SquareRealOnlyUpTo11();
    WholePrefix(SquareMesh5);
  }

  /** The triangulation of the points: the walk-through's final mesh without super vertices. */
  lemma SquareWalk(ps: seq<Point>)
    requires ps == SquarePoints
    ensures Triangulation(ps) == [Triangle(1, 0, 2), Triangle(2, 0, 3), Triangle(1, 2, 4), Triangle(2, 3, 4)]
  {
    SquareExtendedPoints();
    var pts := ExtendedPoints(ps);
    assert SquareCoords(pts);
    SquareMeshAfter(pts);
    SquareRealOnly();
  }

  /** Each triangle of the walk-through has the vertices of the expected triangle in its slot. */
  lemma SquareSameTriangles()
    ensures SameTriangle(Triangle(1, 0, 2), Triangle(0, 1, 2)) && SameTriangle(Triangle(2, 0, 3), Triangle(0, 2, 3)) && SameTriangle(Triangle(1, 2, 4), Triangle(1, 4, 2)) && SameTriangle(Triangle(2, 3, 4), Triangle(3, 2, 4))
  {
    assert Indices(Triangle(1, 0, 2)) == Indices(Triangle(0, 1, 2));
    assert Indices(Triangle(2, 0, 3)) == Indices(Triangle(0, 2, 3));
    assert Indices(Triangle(1, 2, 4)) == Indices(Triangle(1, 4, 2));
    assert Indices(Triangle(2, 3, 4)) == Indices(Triangle(3, 2, 4));
  }

  /**
   * `tests/tests_triangulator.py:10-11`: the triangulation equals the expected triangle set, which lists the
   * same triangles in the same order with their vertices in another order.
   */
  lemma SquareTriangulation(ps: seq<Point>)
    requires ps == SquarePoints
    ensures SameContents(Contents(ps, Triangulation(ps)), Contents(ps, [Triangle(0, 1, 2), Triangle(0, 2, 3), Triangle(1, 4, 2), Triangle(3, 2, 4)]))
  {
    SquareWalk(ps);
    SquareSameTriangles();
  }
}
