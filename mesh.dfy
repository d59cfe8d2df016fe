/**
 * The combinatorial side of the Bowyer–Watson walk-through: the mesh is an ordered list of index
 * triples over the extended point list (the n input points, then the three super-triangle
 * vertices at n, n+1, n+2). Each insertion marks the bad triangles, collects the boundary of the
 * cavity they form, deletes them and fans the boundary out to the new point; at the end the
 * triangles touching a super vertex are dropped. This module defines each step as a function and
 * proves the invariant that makes the final list a valid triangle list.
 */
module Mesh {
  import opened DataTypes
  import opened TriangleSets
  import opened Geometry

  // ---------------------------------------------------------------------------------------------
  // Edges
  // ---------------------------------------------------------------------------------------------

  /** A directed edge, the pair `(tri[k], tri[k+1])`. */
  datatype Edge = Edge(u: int, v: int)

  function Reverse(e: Edge): Edge { Edge(e.v, e.u) }

  /** The three edges of a triangle, in vertex order: (a, b), (b, c), (c, a). */
  function Edges(t: Triangle): seq<Edge> {
    [Edge(t.a, t.b), Edge(t.b, t.c), Edge(t.c, t.a)]
  }

  /** The triangle has the edge in either direction. */
  predicate HasEdge(t: Triangle, e: Edge) {
    e in Edges(t) || Reverse(e) in Edges(t)
  }

  /** The same undirected edge. */
  predicate SameEdge(e: Edge, f: Edge) {
    e == f || e == Reverse(f)
  }

  predicate NoRepeatedEdge(es: seq<Edge>) {
    forall i, j :: 0 <= i < j < |es| ==> !SameEdge(es[i], es[j])
  }

  /** For a triangle with distinct vertices, having an edge means having both of its ends. */
  lemma HasEdgeIffEnds(t: Triangle, e: Edge)
    requires Distinct(t)
    ensures HasEdge(t, e) <==> e.u != e.v && e.u in Indices(t) && e.v in Indices(t)
  {
    if e.u != e.v && e.u in Indices(t) && e.v in Indices(t) {
      if e.u == t.a {
        assert e.v == t.b || e.v == t.c;
      } else if e.u == t.b {
        assert e.v == t.a || e.v == t.c;
      } else {
        assert e.v == t.a || e.v == t.b;
      }
    }
  }

  /** The three edges of a triangle with distinct vertices are three different undirected edges. */
  lemma EdgesOfDistinct(t: Triangle)
    requires Distinct(t)
    ensures NoRepeatedEdge(Edges(t))
    ensures forall e :: e in Edges(t) ==> e.u != e.v && e.u in Indices(t) && e.v in Indices(t)
  {
  }

  // ---------------------------------------------------------------------------------------------
  // Vertex bookkeeping
  // ---------------------------------------------------------------------------------------------

  /** Before point i is inserted, a mesh vertex is an earlier point or a super vertex. */
  predicate Allowed(v: int, n: int, i: int) {
    0 <= v < i || n <= v < n + 3
  }

  predicate TriangleAllowed(t: Triangle, n: int, i: int) {
    Allowed(t.a, n, i) && Allowed(t.b, n, i) && Allowed(t.c, n, i)
  }

  /**
   * The mesh invariant before point i is inserted: every triangle has three distinct vertices,
   * each an earlier point or a super vertex, and no triangle appears twice (in any vertex order).
   */
  predicate MeshInv(mesh: seq<Triangle>, n: int, i: int) {
    (forall t :: t in mesh ==> Distinct(t) && TriangleAllowed(t, n, i)) && NoRepeatedTriangle(mesh)
  }

  /** Every index of a mesh that satisfies the invariant names one of the n + 3 extended points. */
  lemma InvInRange(mesh: seq<Triangle>, n: nat, i: nat)
    requires i <= n && MeshInv(mesh, n, i)
    ensures forall k :: 0 <= k < |mesh| ==> InRange(mesh[k], n + 3)
    ensures forall t :: t in mesh ==> InRange(t, n + 3)
  {
    forall k | 0 <= k < |mesh|
      ensures InRange(mesh[k], n + 3)
    {
      assert mesh[k] in mesh;
    }
  }

  /** Appending two triangle lists keeps them repetition-free when no triangle of one equals one of the other. */
  lemma NoRepeatedConcat(x: seq<Triangle>, y: seq<Triangle>)
    requires NoRepeatedTriangle(x) && NoRepeatedTriangle(y)
    requires forall s, t :: s in x && t in y ==> !SameTriangle(s, t)
    ensures NoRepeatedTriangle(x + y)
  {
    var z := x + y;
    forall i, j | 0 <= i < j < |z|
      ensures !SameTriangle(z[i], z[j])
    {
      if j < |x| {
        assert z[i] == x[i] && z[j] == x[j];
      } else if i >= |x| {
        assert z[i] == y[i - |x|] && z[j] == y[j - |x|];
      } else {
        assert z[i] in x && z[j] in y;
      }
    }
  }

  lemma NoRepeatedEdgeConcat(x: seq<Edge>, y: seq<Edge>)
    requires NoRepeatedEdge(x) && NoRepeatedEdge(y)
    requires forall e, f :: e in x && f in y ==> !SameEdge(e, f)
    ensures NoRepeatedEdge(x + y)
  {
    var z := x + y;
    forall i, j | 0 <= i < j < |z|
      ensures !SameEdge(z[i], z[j])
    {
      if j < |x| {
        assert z[i] == x[i] && z[j] == x[j];
      } else if i >= |x| {
        assert z[i] == y[i - |x|] && z[j] == y[j - |x|];
      } else {
        assert z[i] in x && z[j] in y;
      }
    }
  }

  // ---------------------------------------------------------------------------------------------
  // Bad triangles
  // ---------------------------------------------------------------------------------------------

  /** The badness test of a mesh triangle, on the coordinates of its vertices. */
  predicate BadTriangle(pts: seq<Vec>, p: Vec, t: Triangle)
    requires InRange(t, |pts|)
  {
    IsBad(p, pts[t.a], pts[t.b], pts[t.c])
  }

  predicate Ascending(s: seq<int>) {
    forall i, j :: 0 <= i < j < |s| ==> s[i] < s[j]
  }

  predicate MeshInRange(pts: seq<Vec>, mesh: seq<Triangle>) {
    forall k :: 0 <= k < |mesh| ==> InRange(mesh[k], |pts|)
  }

  /** The slots of the bad triangles, in increasing order: exactly the slots whose triangle is bad. */
  function BadIndices(pts: seq<Vec>, mesh: seq<Triangle>, p: Vec): (bad: seq<int>)
    requires MeshInRange(pts, mesh)
    ensures Ascending(bad)
    ensures forall j :: 0 <= j < |bad| ==> 0 <= bad[j] < |mesh|
    ensures forall k :: k in bad <==> 0 <= k < |mesh| && BadTriangle(pts, p, mesh[k])
  {
    if mesh == [] then []
    else
      var last := |mesh| - 1;
      var init := BadIndices(pts, mesh[..last], p);
      init + (if BadTriangle(pts, p, mesh[last]) then [last] else [])
  }

  /** The bad slots, as BadIndices lists them: ascending, in range. */
  predicate ValidBad(mesh: seq<Triangle>, bad: seq<int>) {
    Ascending(bad) && forall j :: 0 <= j < |bad| ==> 0 <= bad[j] < |mesh|
  }

  // ---------------------------------------------------------------------------------------------
  // Cavity boundary
  // ---------------------------------------------------------------------------------------------

  /** Some other bad triangle (a different slot) has the edge in either direction. */
  predicate Shared(mesh: seq<Triangle>, bad: seq<int>, k: int, e: Edge)
    requires ValidBad(mesh, bad)
  {
    exists j :: 0 <= j < |bad| && bad[j] != k && HasEdge(mesh[bad[j]], e)
  }

  /** The edges of `es`, in order, that no other bad triangle shares. */
  function Unshared(mesh: seq<Triangle>, bad: seq<int>, k: int, es: seq<Edge>): seq<Edge>
    requires ValidBad(mesh, bad)
  {
    if es == [] then []
    else
      var e := es[|es| - 1];
      Unshared(mesh, bad, k, es[..|es| - 1]) + (if Shared(mesh, bad, k, e) then [] else [e])
  }

  /** The boundary edges contributed by the first m bad triangles, in the order they are found. */
  function BoundaryPrefix(mesh: seq<Triangle>, bad: seq<int>, m: nat): seq<Edge>
    requires ValidBad(mesh, bad) && m <= |bad|
  {
    if m == 0 then []
    else
      var k := bad[m - 1];
      BoundaryPrefix(mesh, bad, m - 1) + Unshared(mesh, bad, k, Edges(mesh[k]))
  }

  /** The polygon: the edges of bad triangles that no other bad triangle has. */
  function Boundary(mesh: seq<Triangle>, bad: seq<int>): seq<Edge>
    requires ValidBad(mesh, bad)
  {
    BoundaryPrefix(mesh, bad, |bad|)
  }

  /** Unshared keeps exactly the unshared edges of `es`, and keeps them different. */
  lemma UnsharedFacts(mesh: seq<Triangle>, bad: seq<int>, k: int, es: seq<Edge>)
    requires ValidBad(mesh, bad)
    ensures forall e :: e in Unshared(mesh, bad, k, es) <==> e in es && !Shared(mesh, bad, k, e)
    ensures NoRepeatedEdge(es) ==> NoRepeatedEdge(Unshared(mesh, bad, k, es))
  {
    UnsharedMembers(mesh, bad, k, es);
    if NoRepeatedEdge(es) {
      UnsharedNoRepeat(mesh, bad, k, es);
    }
  }

  lemma {:induction false} UnsharedMembers(mesh: seq<Triangle>, bad: seq<int>, k: int, es: seq<Edge>)
    requires ValidBad(mesh, bad)
    ensures forall e :: e in Unshared(mesh, bad, k, es) <==> e in es && !Shared(mesh, bad, k, e)
  {
    if es != [] {
      var init := es[..|es| - 1];
      var e := es[|es| - 1];
      UnsharedMembers(mesh, bad, k, init);
      assert es == init + [e];
    }
  }

  lemma {:induction false} UnsharedNoRepeat(mesh: seq<Triangle>, bad: seq<int>, k: int, es: seq<Edge>)
    requires ValidBad(mesh, bad) && NoRepeatedEdge(es)
    ensures NoRepeatedEdge(Unshared(mesh, bad, k, es))
  {
    if es != [] {
      var init := es[..|es| - 1];
      var e := es[|es| - 1];
      assert es == init + [e];
      LastEdgeNotRepeated(init, e);
      UnsharedNoRepeat(mesh, bad, k, init);
      UnsharedMembers(mesh, bad, k, init);
      NoRepeatedEdgeConcat(Unshared(mesh, bad, k, init), if Shared(mesh, bad, k, e) then [] else [e]);
    }
  }

  /** In a repetition-free edge list, the front is repetition-free and no edge of it is the last. */
  lemma LastEdgeNotRepeated(init: seq<Edge>, e: Edge)
    requires NoRepeatedEdge(init + [e])
    ensures NoRepeatedEdge(init)
    ensures forall f :: f in init ==> !SameEdge(f, e)
  {
    var es := init + [e];
    assert NoRepeatedEdge(init) by {
      forall i, j | 0 <= i < j < |init|
        ensures !SameEdge(init[i], init[j])
      {
        assert es[i] == init[i] && es[j] == init[j];
      }
    }
    forall f | f in init
      ensures !SameEdge(f, e)
    {
      var i :| 0 <= i < |init| && init[i] == f;
      assert es[i] == f && es[|init|] == e;
    }
  }

  /** Every bad triangle has distinct vertices. */
  predicate BadDistinct(mesh: seq<Triangle>, bad: seq<int>)
    requires ValidBad(mesh, bad)
  {
    forall j :: 0 <= j < |bad| ==> Distinct(mesh[bad[j]])
  }

  /** An edge of bad triangle j, in either direction, is shared as seen from any other slot k. */
  lemma SharedByOther(mesh: seq<Triangle>, bad: seq<int>, j: int, k: int, e: Edge, f: Edge)
    requires ValidBad(mesh, bad) && 0 <= j < |bad| && bad[j] != k
    requires e in Edges(mesh[bad[j]]) && SameEdge(e, f)
    ensures Shared(mesh, bad, k, f)
  {
    assert HasEdge(mesh[bad[j]], f);
  }

  /**
   * An edge is on the boundary exactly when it is an edge of a bad triangle that no other bad
   * triangle has in either direction, and no undirected edge is on the boundary twice.
   */
  lemma {:induction false} BoundaryFacts(mesh: seq<Triangle>, bad: seq<int>, m: nat)
    requires ValidBad(mesh, bad) && BadDistinct(mesh, bad) && m <= |bad|
    ensures forall e :: e in BoundaryPrefix(mesh, bad, m) <==>
              exists j :: 0 <= j < m && e in Edges(mesh[bad[j]]) && !Shared(mesh, bad, bad[j], e)
    ensures NoRepeatedEdge(BoundaryPrefix(mesh, bad, m))
  {
    if m > 0 {
      var k := bad[m - 1];
      var prev := BoundaryPrefix(mesh, bad, m - 1);
      var own := Unshared(mesh, bad, k, Edges(mesh[k]));
      BoundaryFacts(mesh, bad, m - 1);
      UnsharedFacts(mesh, bad, k, Edges(mesh[k]));
      EdgesOfDistinct(mesh[k]);
      forall e, f | e in prev && f in own
        ensures !SameEdge(e, f)
      {
        var j :| 0 <= j < m - 1 && e in Edges(mesh[bad[j]]) && !Shared(mesh, bad, bad[j], e);
        assert bad[j] < k;
        assert !Shared(mesh, bad, k, f);
        if SameEdge(e, f) {
          SharedByOther(mesh, bad, j, k, e, f);
        }
      }
      NoRepeatedEdgeConcat(prev, own);
      forall e | e in BoundaryPrefix(mesh, bad, m)
        ensures exists j :: 0 <= j < m && e in Edges(mesh[bad[j]]) && !Shared(mesh, bad, bad[j], e)
      {
        if e !in prev {
          assert e in own;
        }
      }
      forall e, j | 0 <= j < m && e in Edges(mesh[bad[j]]) && !Shared(mesh, bad, bad[j], e)
        ensures e in BoundaryPrefix(mesh, bad, m)
      {
        if j < m - 1 {
          assert e in prev;
        } else {
          assert e in own;
        }
      }
    }
  }

  // ---------------------------------------------------------------------------------------------
  // Deleting the bad triangles
  // ---------------------------------------------------------------------------------------------

  /** The triangles from slot `lo` on whose slot is not bad, in their original order. */
  function KeptFrom(mesh: seq<Triangle>, bad: seq<int>, lo: nat): seq<Triangle>
    requires lo <= |mesh|
    decreases |mesh| - lo
  {
    if lo == |mesh| then []
    else (if lo in bad then [] else [mesh[lo]]) + KeptFrom(mesh, bad, lo + 1)
  }

  /** The mesh with the bad slots deleted and the other triangles in their original order. */
  function Kept(mesh: seq<Triangle>, bad: seq<int>): seq<Triangle> {
    KeptFrom(mesh, bad, 0)
  }

  /** How many slots in [lo, hi) are bad. */
  function CountIn(bad: seq<int>, lo: int, hi: int): nat
    decreases hi - lo
  {
    if lo >= hi then 0 else (if lo in bad then 1 else 0) + CountIn(bad, lo + 1, hi)
  }

  lemma {:induction false} CountInSameMembers(x: seq<int>, y: seq<int>, lo: int, hi: int)
    requires forall k :: lo <= k < hi ==> (k in x <==> k in y)
    ensures CountIn(x, lo, hi) == CountIn(y, lo, hi)
    decreases hi - lo
  {
    if lo < hi {
      CountInSameMembers(x, y, lo + 1, hi);
    }
  }

  lemma {:induction false} CountInNone(bad: seq<int>, lo: int, hi: int)
    requires forall k :: lo <= k < hi ==> k !in bad
    ensures CountIn(bad, lo, hi) == 0
    decreases hi - lo
  {
    if lo < hi {
      CountInNone(bad, lo + 1, hi);
    }
  }

  lemma {:induction false} CountInSplit(bad: seq<int>, lo: int, mid: int, hi: int)
    requires lo <= mid <= hi
    ensures CountIn(bad, lo, hi) == CountIn(bad, lo, mid) + CountIn(bad, mid, hi)
    decreases mid - lo
  {
    if lo < mid {
      CountInSplit(bad, lo + 1, mid, hi);
    }
  }

  /** An ascending list of slots in [lo, hi) counts every one of its entries. */
  lemma {:induction false} CountInAscending(bad: seq<int>, lo: int, hi: int)
    requires Ascending(bad) && forall j :: 0 <= j < |bad| ==> lo <= bad[j] < hi
    ensures CountIn(bad, lo, hi) == |bad|
  {
    if bad == [] {
      CountInNone(bad, lo, hi);
    } else {
      var b, rest := bad[0], bad[1..];
      assert forall j :: 0 <= j < |rest| ==> b + 1 <= rest[j] < hi by {
        forall j | 0 <= j < |rest|
          ensures b + 1 <= rest[j] < hi
        {
          assert rest[j] == bad[j + 1];
        }
      }
      CountInAscending(rest, b + 1, hi);
      forall k | b + 1 <= k < hi
        ensures k in bad <==> k in rest
      {
        if k in bad {
          var j :| 0 <= j < |bad| && bad[j] == k;
          assert rest[j - 1] == k;
        }
      }
      CountInSameMembers(bad, rest, b + 1, hi);
      forall k | lo <= k < b
        ensures k !in bad
      {
      }
      CountInNone(bad, lo, b);
      CountInSplit(bad, lo, b, hi);
    }
  }

  /**
   * KeptFrom keeps the triangles of unmarked slots and nothing else, loses exactly the marked
   * slots, and keeps a repetition-free mesh repetition-free.
   */
  lemma {:induction false} KeptFromFacts(mesh: seq<Triangle>, bad: seq<int>, lo: nat)
    requires lo <= |mesh|
    ensures |KeptFrom(mesh, bad, lo)| == |mesh| - lo - CountIn(bad, lo, |mesh|)
    ensures forall t :: t in KeptFrom(mesh, bad, lo) ==> exists k :: lo <= k < |mesh| && k !in bad && mesh[k] == t
    ensures forall k :: lo <= k < |mesh| && k !in bad ==> mesh[k] in KeptFrom(mesh, bad, lo)
    ensures NoRepeatedTriangle(mesh[lo..]) ==> NoRepeatedTriangle(KeptFrom(mesh, bad, lo))
    decreases |mesh| - lo
  {
    if lo < |mesh| {
      KeptFromFacts(mesh, bad, lo + 1);
      var head := if lo in bad then [] else [mesh[lo]];
      var rest := KeptFrom(mesh, bad, lo + 1);
      assert KeptFrom(mesh, bad, lo) == head + rest;
      if NoRepeatedTriangle(mesh[lo..]) {
        assert mesh[lo + 1..] == mesh[lo..][1..];
        assert NoRepeatedTriangle(mesh[lo + 1..]);
        forall s, t | s in head && t in rest
          ensures !SameTriangle(s, t)
        {
          var k :| lo + 1 <= k < |mesh| && k !in bad && mesh[k] == t;
          assert mesh[lo..][0] == s && mesh[lo..][k - lo] == t;
        }
        NoRepeatedConcat(head, rest);
      }
    }
  }

  /** Deleting the bad slots shortens the mesh by their number and keeps it repetition-free. */
  lemma KeptFacts(mesh: seq<Triangle>, bad: seq<int>)
    requires ValidBad(mesh, bad)
    ensures |Kept(mesh, bad)| == |mesh| - |bad|
    ensures forall t :: t in Kept(mesh, bad) <==> exists k :: 0 <= k < |mesh| && k !in bad && mesh[k] == t
    ensures NoRepeatedTriangle(mesh) ==> NoRepeatedTriangle(Kept(mesh, bad))
  {
    KeptFromFacts(mesh, bad, 0);
    CountInAscending(bad, 0, |mesh|);
    assert mesh[0..] == mesh;
  }

  /**
   * KeptFrom from the first slot of a range that has no bad slot is that range followed by what
   * is kept after it (the step the deletion loop takes when it pops a slot).
   */
  lemma {:induction false} KeptFromSkip(mesh: seq<Triangle>, bad: seq<int>, lo: nat, hi: nat)
    requires lo <= hi <= |mesh|
    requires forall k :: lo <= k < hi ==> k !in bad
    ensures KeptFrom(mesh, bad, lo) == mesh[lo..hi] + KeptFrom(mesh, bad, hi)
    decreases hi - lo
  {
    if lo < hi {
      KeptFromSkip(mesh, bad, lo + 1, hi);
      var rest := KeptFrom(mesh, bad, hi);
      assert lo !in bad;
      assert KeptFrom(mesh, bad, lo) == [mesh[lo]] + KeptFrom(mesh, bad, lo + 1);
      assert mesh[lo..hi] == [mesh[lo]] + mesh[lo + 1..hi];
      assert [mesh[lo]] + (mesh[lo + 1..hi] + rest) == ([mesh[lo]] + mesh[lo + 1..hi]) + rest;
    }
  }

  /**
   * Popping bad slot k from a list that is the mesh up to `cut` followed by the kept triangles from
   * `cut` on, when no slot between k and `cut` is bad, leaves the same shape with `cut` lowered to k.
   */
  lemma PopBadSlot(mesh: seq<Triangle>, bad: seq<int>, kept: seq<Triangle>, k: nat, cut: nat)
    requires k < cut <= |mesh| && k in bad
    requires forall x :: k < x < cut ==> x !in bad
    requires kept == mesh[..cut] + KeptFrom(mesh, bad, cut)
    ensures kept[..k] + kept[k + 1..] == mesh[..k] + KeptFrom(mesh, bad, k)
  {
    KeptFromSkip(mesh, bad, k + 1, cut);
    assert KeptFrom(mesh, bad, k) == KeptFrom(mesh, bad, k + 1);
    DeleteFromFront(mesh[..cut], KeptFrom(mesh, bad, cut), k);
    assert mesh[..cut][..k] == mesh[..k] && mesh[..cut][k + 1..] == mesh[k + 1..cut];
  }

  /** Deleting position k of x + y, where k lies in x, deletes it from x. */
  lemma DeleteFromFront(x: seq<Triangle>, y: seq<Triangle>, k: nat)
    requires k < |x|
    ensures (x + y)[..k] + (x + y)[k + 1..] == x[..k] + (x[k + 1..] + y)
  {
    assert (x + y)[..k] == x[..k];
    assert (x + y)[k + 1..] == x[k + 1..] + y;
  }

  // ---------------------------------------------------------------------------------------------
  // Re-fanning the cavity
  // ---------------------------------------------------------------------------------------------

  /** One new triangle (u, v, i) per polygon edge (u, v), in polygon order. */
  function Fan(polygon: seq<Edge>, i: int): (ts: seq<Triangle>)
    ensures |ts| == |polygon|
    ensures forall k :: 0 <= k < |ts| ==> ts[k] == Triangle(polygon[k].u, polygon[k].v, i)
  {
    seq(|polygon|, k requires 0 <= k < |polygon| => Triangle(polygon[k].u, polygon[k].v, i))
  }

  /** Three indices where the third differs from the other two and from the ends of another edge. */
  lemma SameFanTriangle(e: Edge, f: Edge, i: int)
    requires e.u != i && e.v != i && f.u != i && f.v != i && e.u != e.v
    requires SameTriangle(Triangle(e.u, e.v, i), Triangle(f.u, f.v, i))
    ensures SameEdge(e, f)
  {
    var s, t := Triangle(e.u, e.v, i), Triangle(f.u, f.v, i);
    assert e.u in Indices(t) && e.v in Indices(t);
    assert f.u in Indices(s) && f.v in Indices(s);
  }

  /**
   * Fanning a repetition-free polygon, whose edges join two distinct vertices allowed before
   * point i, to the point i gives distinct-vertex triangles allowed after point i, none repeated.
   */
  lemma FanFacts(polygon: seq<Edge>, n: int, i: int)
    requires 0 <= i < n
    requires forall e :: e in polygon ==> e.u != e.v && Allowed(e.u, n, i) && Allowed(e.v, n, i)
    requires NoRepeatedEdge(polygon)
    ensures forall t :: t in Fan(polygon, i) ==> Distinct(t) && TriangleAllowed(t, n, i + 1) && i in Indices(t)
    ensures NoRepeatedTriangle(Fan(polygon, i))
  {
    var ts := Fan(polygon, i);
    forall t | t in ts
      ensures Distinct(t) && TriangleAllowed(t, n, i + 1) && i in Indices(t)
    {
      var k :| 0 <= k < |ts| && ts[k] == t;
      assert polygon[k] in polygon;
    }
    forall x, y | 0 <= x < y < |ts|
      ensures !SameTriangle(ts[x], ts[y])
    {
      assert polygon[x] in polygon && polygon[y] in polygon;
      if SameTriangle(ts[x], ts[y]) {
        SameFanTriangle(polygon[x], polygon[y], i);
        assert false;
      }
    }
  }

  // ---------------------------------------------------------------------------------------------
  // One insertion and the whole walk
  // ---------------------------------------------------------------------------------------------

  /** Inserting point i: the bad triangles are replaced by the fan of their boundary around i. */
  function Step(pts: seq<Vec>, mesh: seq<Triangle>, i: nat): seq<Triangle>
    requires i < |pts| && MeshInRange(pts, mesh)
  {
    var bad := BadIndices(pts, mesh, pts[i]);
    Kept(mesh, bad) + Fan(Boundary(mesh, bad), i)
  }

  /**
   * Inserting point i keeps the mesh invariant (now with i among the allowed vertices) and changes
   * the number of triangles by the number of boundary edges minus the number of bad triangles.
   */
  lemma StepPreservesInv(pts: seq<Vec>, mesh: seq<Triangle>, n: nat, i: nat)
    requires |pts| == n + 3 && i < n && MeshInv(mesh, n, i)
    ensures MeshInRange(pts, mesh)
    ensures MeshInv(Step(pts, mesh, i), n, i + 1)
    ensures var bad := BadIndices(pts, mesh, pts[i]);
            |Step(pts, mesh, i)| == |mesh| - |bad| + |Boundary(mesh, bad)|
  {
    InvInRange(mesh, n, i);
    var bad := BadIndices(pts, mesh, pts[i]);
    var kept := Kept(mesh, bad);
    var polygon := Boundary(mesh, bad);
    var fan := Fan(polygon, i);
    KeptFacts(mesh, bad);
    PolygonFacts(mesh, bad, n, i);
    FanFacts(polygon, n, i);
    KeptAllowed(mesh, bad, n, i);
    NoRepeatedConcat(kept, fan);
    assert Step(pts, mesh, i) == kept + fan;
  }

  /** The polygon's edges join two distinct vertices allowed before point i, and none is there twice. */
  lemma PolygonFacts(mesh: seq<Triangle>, bad: seq<int>, n: nat, i: nat)
    requires MeshInv(mesh, n, i) && ValidBad(mesh, bad)
    ensures NoRepeatedEdge(Boundary(mesh, bad))
    ensures forall e :: e in Boundary(mesh, bad) ==> e.u != e.v && Allowed(e.u, n, i) && Allowed(e.v, n, i)
  {
    AllowedPolygon(mesh, bad, n, i);
  }

  /** PolygonFacts, from the per-triangle half of the invariant alone. */
  lemma AllowedPolygon(mesh: seq<Triangle>, bad: seq<int>, n: nat, i: nat)
    requires forall t :: t in mesh ==> Distinct(t) && TriangleAllowed(t, n, i)
    requires ValidBad(mesh, bad)
    ensures NoRepeatedEdge(Boundary(mesh, bad))
    ensures forall e :: e in Boundary(mesh, bad) ==> e.u != e.v && Allowed(e.u, n, i) && Allowed(e.v, n, i)
  {
    assert BadDistinct(mesh, bad) by {
      forall j | 0 <= j < |bad|
        ensures Distinct(mesh[bad[j]])
      {
        assert mesh[bad[j]] in mesh;
      }
    }
    BoundaryFacts(mesh, bad, |bad|);
    forall e | e in Boundary(mesh, bad)
      ensures e.u != e.v && Allowed(e.u, n, i) && Allowed(e.v, n, i)
    {
      var j :| 0 <= j < |bad| && e in Edges(mesh[bad[j]]) && !Shared(mesh, bad, bad[j], e);
      var t := mesh[bad[j]];
      assert t in mesh;
      EdgesOfDistinct(t);
    }
  }

  /** What survives the deletion is still allowed after point i and does not use point i. */
  lemma KeptAllowed(mesh: seq<Triangle>, bad: seq<int>, n: nat, i: nat)
    requires i < n && MeshInv(mesh, n, i) && ValidBad(mesh, bad)
    ensures forall t :: t in Kept(mesh, bad) ==> Distinct(t) && TriangleAllowed(t, n, i + 1) && i !in Indices(t)
  {
    KeptFacts(mesh, bad);
    forall t | t in Kept(mesh, bad)
      ensures Distinct(t) && TriangleAllowed(t, n, i + 1) && i !in Indices(t)
    {
      var k :| 0 <= k < |mesh| && k !in bad && mesh[k] == t;
      assert t in mesh;
      assert t.a != i && t.b != i && t.c != i;
    }
  }

  /** The mesh after the first k points are inserted into the super triangle (n, n+1, n+2). */
  function MeshAfter(pts: seq<Vec>, n: nat, k: nat): (mesh: seq<Triangle>)
    requires |pts| == n + 3 && k <= n
    ensures MeshInv(mesh, n, k)
  {
    if k == 0 then
      StartInv(n);
      [Triangle(n, n + 1, n + 2)]
    else
      var prev := MeshAfter(pts, n, k - 1);
      NextInv(pts, prev, n, k);
      Step(pts, prev, k - 1)
  }

  /** The super triangle alone satisfies the invariant before any insertion. */
  lemma StartInv(n: nat)
    ensures MeshInv([Triangle(n, n + 1, n + 2)], n, 0)
  {
    var t := Triangle(n, n + 1, n + 2);
    assert forall u :: u in [t] ==> u == t;
    assert Distinct(t) && TriangleAllowed(t, n, 0);
  }

  /** StepPreservesInv, stated for the k-th insertion as MeshAfter uses it. */
  lemma NextInv(pts: seq<Vec>, prev: seq<Triangle>, n: nat, k: nat)
    requires |pts| == n + 3 && 0 < k <= n && MeshInv(prev, n, k - 1)
    ensures MeshInRange(pts, prev) && MeshInv(Step(pts, prev, k - 1), n, k)
  {
    StepPreservesInv(pts, prev, n, k - 1);
  }

  /** Inserting point i into the mesh after the first i points gives the mesh after the first i + 1. */
  lemma MeshAfterStep(pts: seq<Vec>, n: nat, i: nat)
    requires |pts| == n + 3 && i < n
    ensures MeshInRange(pts, MeshAfter(pts, n, i))
    ensures MeshAfter(pts, n, i + 1) == Step(pts, MeshAfter(pts, n, i), i)
  {
    InvInRange(MeshAfter(pts, n, i), n, i);
  }

  // ---------------------------------------------------------------------------------------------
  // Dropping the super triangle
  // ---------------------------------------------------------------------------------------------

  /** All three indices are below n: the triangle uses no super vertex. */
  predicate IsReal(t: Triangle, n: int) {
    t.a < n && t.b < n && t.c < n
  }

  /** The triangles that use no super vertex, in mesh order. */
  function RealOnly(mesh: seq<Triangle>, n: int): seq<Triangle> {
    if mesh == [] then []
    else
      var t := mesh[|mesh| - 1];
      RealOnly(mesh[..|mesh| - 1], n) + (if IsReal(t, n) then [t] else [])
  }

  /** The filter keeps exactly the real triangles, and keeps a repetition-free list repetition-free. */
  lemma RealOnlyFacts(mesh: seq<Triangle>, n: int)
    ensures forall t :: t in RealOnly(mesh, n) <==> t in mesh && IsReal(t, n)
    ensures NoRepeatedTriangle(mesh) ==> NoRepeatedTriangle(RealOnly(mesh, n))
  {
    RealOnlyMembers(mesh, n);
    if NoRepeatedTriangle(mesh) {
      RealOnlyNoRepeat(mesh, n);
    }
  }

  lemma {:induction false} RealOnlyMembers(mesh: seq<Triangle>, n: int)
    ensures forall t :: t in RealOnly(mesh, n) <==> t in mesh && IsReal(t, n)
  {
    if mesh != [] {
      var init := mesh[..|mesh| - 1];
      var t := mesh[|mesh| - 1];
      RealOnlyMembers(init, n);
      assert mesh == init + [t];
    }
  }

  lemma {:induction false} RealOnlyNoRepeat(mesh: seq<Triangle>, n: int)
    requires NoRepeatedTriangle(mesh)
    ensures NoRepeatedTriangle(RealOnly(mesh, n))
  {
    if mesh != [] {
      var init := mesh[..|mesh| - 1];
      var t := mesh[|mesh| - 1];
      assert mesh == init + [t];
      LastNotRepeated(init, t);
      RealOnlyNoRepeat(init, n);
      RealOnlyMembers(init, n);
      NoRepeatedConcat(RealOnly(init, n), if IsReal(t, n) then [t] else []);
    }
  }

  /** In a repetition-free list, the front is repetition-free and no triangle of it equals the last. */
  lemma LastNotRepeated(init: seq<Triangle>, t: Triangle)
    requires NoRepeatedTriangle(init + [t])
    ensures NoRepeatedTriangle(init)
    ensures forall s :: s in init ==> !SameTriangle(s, t)
  {
    var mesh := init + [t];
    assert NoRepeatedTriangle(init) by {
      forall i, j | 0 <= i < j < |init|
        ensures !SameTriangle(init[i], init[j])
      {
        assert mesh[i] == init[i] && mesh[j] == init[j];
      }
    }
    forall s | s in init
      ensures !SameTriangle(s, t)
    {
      var k :| 0 <= k < |init| && init[k] == s;
      assert mesh[k] == s && mesh[|init|] == t;
    }
  }

  /**
   * The triangulation the walk produces: the mesh after all n insertions without the triangles
   * that touch a super vertex. It is a valid triangle list over the n input points.
   */
  lemma TriangulationWellFormed(pts: seq<Vec>, n: nat)
    requires |pts| == n + 3
    ensures WellFormed(n, RealOnly(MeshAfter(pts, n, n), n))
  {
    var mesh := MeshAfter(pts, n, n);
    var result := RealOnly(mesh, n);
    RealOnlyFacts(mesh, n);
    forall k | 0 <= k < |result|
      ensures InRange(result[k], n) && Distinct(result[k])
    {
      assert result[k] in result;
    }
  }
}
