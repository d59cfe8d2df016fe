# Delaunay triangulator core, modelled in Dafny

This project models the core of a small 2D Delaunay triangulation library:

- its two value types: a `Point` with float coordinates, and a `Triangle` of three point indices;
- the `PointSet` container: an ordered, duplicate-free list of points with index access and a binary codec;
- the `Triangles` container: a point set plus an ordered list of triangles over it, with validation and a binary codec;
- the Bowyer–Watson walk-through that computes a triangulation;
- the `triangulate` entry point.

Most library methods in the repository are stubs. Their behaviour is fixed here by their
docstrings and by the unit tests. The one complete algorithm in the repository,
`debug_triangulate.py`, is modelled step by step.

Modules, one per file:

| file | module | what it holds |
|---|---|---|
| `errors.dfy` | `Errors` | the exception kinds and the `Result`, `Option`, `Outcome` and `Operand` wrappers |
| `bytes.dfy` | `Bytes` | bytes and the unsigned 32-bit little-endian field |
| `float32.dfy` | `Float32` | IEEE 754 binary32 coordinates: bit patterns and the exact real each one denotes |
| `data_types.dfy` | `DataTypes` | `Point`, `Triangle` and their equality |
| `pointset.dfy` | `PointSets` | the point-set codec and the `PointSet` class |
| `triangles.dfy` | `TriangleSets` | the triangle-set codec and the `Triangles` class |
| `geometry.dfy` | `Geometry` | bounding box, super triangle, orientation and in-circle test, over `real` |
| `mesh.dfy` | `Mesh` | the mesh bookkeeping as functions: bad slots, cavity boundary, deletion, re-fan, filter, and the mesh invariant |
| `bowyer_watson.dfy` | `BowyerWatson` | the walk-through's loops as methods, each proved equal to its function in `Mesh` or `Geometry` |
| `triangulator.dfy` | `Triangulator` | `triangulate` |
| `worked_examples.dfy` | `WorkedExamples` | the two successful triangulations the tests expect, worked out insertion by insertion |

## Decisions

- **Coordinates.** A coordinate is the 32-bit pattern of a float32, the form it takes on the
  wire. Only finite values other than negative zero are coordinates. Under that restriction,
  equal patterns and equal numbers are the same thing (`Float32.CoordValueInjective`). So
  equality of points is exact IEEE value equality.
- **Geometry.** It runs on the exact real number each pattern denotes (`Float32.CoordValue`).
- **Byte order.** The codec is little-endian: a u32 count, then x and y of each point
  (`generate_pointsets.py:6-8`, `:37`, `:41`). The byte order lives in one place, `Bytes.PackU32` /
  `Bytes.UnpackU32`.
- **Triangles layout.** The `Triangles` wire layout is not written anywhere in the repository. The model uses:
  - the point-set block;
  - a u32 triangle count M;
  - three u32 indices per triangle, in construction order.
- **Error kinds that disagree.** The docstrings give conflicting exceptions. The model takes them
  per operation:
  - An out-of-range vertex index is a ValueError in the constructor (`triangulator/triangles.py:21`)
    and in `set_triangle` (`:130`), but an IndexError in `add_triangle` (`:57`).
  - `tests/tests_triangles.py:20` stores triangle (5, 6, 7) on a five-point set and expects
    success. This contradicts `triangulator/triangles.py:130`. The model follows the docstring:
    that call is a ValueError.
  - `tests/tests_triangulator.py:25` builds `PointSet([(0, 0), (1, 0), (0, 0)])` and expects
    `triangulate` to raise ValueError. In the model the `PointSet` constructor raises first, because
    `add_point` refuses a point that is already present (`triangulator/pointset.py:22-23`) and a
    point set therefore never holds a duplicate (`PointSets.PointSet.FromPoints`). The test's
    expectation is met, but by the constructor, not by `triangulate`.
- **Point equality.** Its docstring (`triangulator/data_types.py:12-13`) says any non-Point is a
  TypeError. The tests (`tests/tests_data_types.py:12-13`) compare a Point with a 2-tuple and a
  2-list and expect a boolean. The model accepts exactly those two forms and raises TypeError for
  anything else.
- **`set_point`.** It documents only the index check. The model also refuses a value already
  stored at another index (ValueError), so a point set never holds a duplicate.
- **Indices.** An index is out of bounds outside `[0, length)`. Python's negative indices are
  not accepted.
- **The walk-through.** It follows `debug_triangulate.py` exactly. There is no special case for
  three points and no collinearity check, because `debug_triangulate.py` has neither.
- **Vertex order and collinear triangles.** The badness test sees a clockwise triangle and flips
  the determinant. For a non-degenerate triangle the verdict therefore does not depend on vertex
  order (`Geometry.IsBadRotation`, `Geometry.IsBadReflection`). For a degenerate (collinear)
  triangle it does (`Geometry.CollinearOrderMatters`).

## Model

| member | source | states |
|---|---|---|
| Bytes.UnpackU32 | generate_pointsets.py:37 | the little-endian reading of four bytes: the low byte is the first byte, and the value is at least the last byte times 2^24 |
| Bytes.PackU32 | generate_pointsets.py:37 | four bytes that decode back to the packed integer |
| Bytes.PackUnpack | generate_pointsets.py:37 | every four-byte string is the packing of the integer it decodes to |
| Float32.CoordValue | generate_pointsets.py:41 | the exact value of a float32 pattern: zero only for +0, positive exactly for patterns without the sign bit |
| Float32.CoordValueInjective | triangulator/data_types.py:6-18 | two coordinates with the same numeric value have the same bit pattern |
| Float32.MagnitudeStrictlyIncreasing | generate_pointsets.py:41 | among non-negative finite patterns, a larger pattern denotes a strictly larger number |
| DataTypes.PointEquals | triangulator/data_types.py:6-18 | TypeError exactly when the operand is neither a Point nor a two-element tuple or list; otherwise true iff both coordinates are numerically equal |
| DataTypes.SameValueIsEquality | triangulator/data_types.py:6-18 | numeric equality of both coordinates holds iff the two points are the same, so (1, 2) and (2, 1) differ |
| DataTypes.HashConsistent | tests/tests_data_types.py:27-32 | points that compare equal have equal hashes |
| DataTypes.TriangleEquals | triangulator/data_types.py:42-54 | TypeError for anything but a Triangle (a tuple included); otherwise true iff every vertex of each triangle is a vertex of the other |
| DataTypes.IndicesOfAnyOrder | triangulator/data_types.py:56-63 | `indices` is the set of the three constructor arguments, the same for all six argument orders |
| DataTypes.SameTriangleIsPermutation | triangulator/data_types.py:42-54 | for distinct vertices, a triangle is equal to another exactly when it is one of the six orderings of the same indices |
| DataTypes.DistinctIffThreeIndices | triangulator/data_types.py:56-63 | the three vertices are distinct iff `indices` has three elements |
| DataTypes.SameTriangleEquivalence | triangulator/data_types.py:42-54 | triangle equality is reflexive, symmetric and transitive |
| DataTypes.TriangleEqualityExamples | tests/tests_data_types.py:45-51 | (0,1,2) equals (2,1,0) and differs from (0,2,3) |
| PointSets.IndexOf | triangulator/pointset.py:31-41 | the first position at which a present point occurs |
| PointSets.EncodeCoords | generate_pointsets.py:38-41 | eight bytes per point |
| PointSets.DecodeCoords | generate_pointsets.py:38-41 | on success, one point per eight bytes; a non-finite or negative-zero pattern is a ValueError |
| PointSets.EncodePointSet | triangulator/pointset.py:112-119 | 4 + 8N bytes whose leading u32 is N; fails (StructError) exactly when N does not fit 32 bits |
| PointSets.DecodePointSet | triangulator/pointset.py:121-135 | ValueError below 4 bytes and for any length other than 4 + 8N; every failure is a ValueError; a success has the declared count and no repeated point |
| PointSets.DecodeEncodeCoords | generate_pointsets.py:38-41 | decoding the coordinate block of any point list gives the list back |
| PointSets.EncodeDecodeCoords | generate_pointsets.py:38-41 | a block that decodes re-encodes to the same bytes |
| PointSets.PointSetRoundTrip | triangulator/pointset.py:112-135 | `from_bytes(to_bytes(s))` gives back the same points in the same order |
| PointSets.PointSetCanonical | triangulator/pointset.py:121-135 | every accepted byte string is the encoding of what it decodes to |
| PointSets.PointSet.constructor | triangulator/pointset.py:12-14 | a new point set is empty |
| PointSets.PointSet.FromPoints | triangulator/pointset.py:12-14 | built from a list, it holds exactly that list; a repeated point raises ValueError |
| PointSets.PointSet.NbPoints | triangulator/pointset.py:51-58 | the valid indices are exactly 0 .. n-1 |
| PointSets.PointSet.Length | triangulator/pointset.py:60-67 | `len` equals `nb_points` |
| PointSets.PointSet.GetPoint | triangulator/pointset.py:69-82 | the stored point for an index in `[0, length)`, IndexError otherwise |
| PointSets.PointSet.Iterate | triangulator/pointset.py:43-49 | one point per valid index, in index order |
| PointSets.PointSet.AddPoint | triangulator/pointset.py:16-29 | a new point is appended and its index (the old length) returned; a present point raises ValueError and changes nothing |
| PointSets.PointSet.RemovePoint | triangulator/pointset.py:31-41 | a present point is deleted, later points move down by one and the length drops by one; an absent point raises ValueError and changes nothing |
| PointSets.PointSet.SetPoint | triangulator/pointset.py:84-95 | IndexError outside `[0, length)`; otherwise only the given slot changes, to the new point, unless that point is stored at another slot (ValueError) |
| PointSets.PointSet.Equals | triangulator/pointset.py:97-110 | true iff both sets hold the same points in the same order; TypeError for a non-PointSet |
| PointSets.PointSet.ToBytes | triangulator/pointset.py:112-119 | below 2^32 points the encoding succeeds; the bytes decode back to the stored points |
| PointSets.PointSet.FromBytes | triangulator/pointset.py:121-135 | a new set holding the decoded points, or the decoder's ValueError |
| TriangleSets.FindSame | triangulator/triangles.py:67-78 | the first slot holding a triangle equal, in any order, to the one given |
| TriangleSets.SameContentsEquivalence | triangulator/triangles.py:137-150 | equality of Triangles values is reflexive, symmetric and transitive |
| TriangleSets.SameContentsCountsTriangles | triangulator/triangles.py:137-150 | the comparison is slot by slot: one triangle is not equal to that triangle followed by a rotation of it |
| TriangleSets.EncodeTriangle | triangulator/triangles.py:152-159 | twelve bytes per triangle |
| TriangleSets.EncodeTriangleList | triangulator/triangles.py:152-159 | twelve bytes per triangle in the list |
| TriangleSets.DecodeTriangleList | triangulator/triangles.py:161-175 | one triangle per twelve bytes |
| TriangleSets.DecodeTriangleListAt | triangulator/triangles.py:161-175 | triangle k of a decoded block comes from bytes 12k to 12k+12 |
| TriangleSets.EncodeTriangles | triangulator/triangles.py:152-159 | 8 + 8N + 12M bytes; StructError exactly when a count or an index does not fit 32 bits |
| TriangleSets.DecodeTriangles | triangulator/triangles.py:161-175 | ValueError below 4 bytes; every failure is a ValueError; a success is a duplicate-free point list with a valid triangle list (indices in range, distinct vertices, no repeated triangle) of the matching length |
| TriangleSets.DecodeEncodeTriangleList | triangulator/triangles.py:152-175 | decoding the block of any triangle list gives the list back |
| TriangleSets.EncodeDecodeTriangleList | triangulator/triangles.py:152-175 | a block re-encodes to the same bytes |
| TriangleSets.EncodingLayout | triangulator/triangles.py:152-159 | an encoding starts with the point-set encoding, then the triangle count, then the triangle block |
| TriangleSets.TrianglesRoundTrip | tests/tests_triangles.py:42-47 | `from_bytes(to_bytes(t))` gives back the same points and the same triangles in the same slots |
| TriangleSets.TrianglesCanonical | triangulator/triangles.py:161-175 | every accepted byte string is the encoding of what it decodes to |
| TriangleSets.DecodeKnownLayout | triangulator/triangles.py:161-175 | with a valid point block and count, decoding accepts exactly when the constructor's checks pass |
| TriangleSets.LastOutOfRange | triangulator/triangles.py:20-23 | a triangle list whose last triangle names a missing point is refused |
| TriangleSets.LastIndexOfCorruptedBlock | triangulator/triangles.py:161-175 | a block whose last byte is 0xFF ends with a third index of at least 0xFF000000 |
| TriangleSets.ReplaceLastByte | triangulator/triangles.py:161-175 | overwriting the last byte keeps the length, the point block and both counts |
| TriangleSets.CorruptedStreamRejected | triangulator/triangles.py:168-169 | a stream with a valid point block and count whose last byte is set to 0xFF is a ValueError |
| TriangleSets.CorruptedLastByteRejected | tests/tests_triangles.py:54-61 | overwriting the last byte of the encoding of any value with at least one triangle (valid or not) with 0xFF makes decoding fail with ValueError |
| TriangleSets.EncodingFacts | triangulator/triangles.py:152-159 | the encoding of a value is 8 + 8N + 12M bytes long, starts with N, carries M right after the point block, and its point block decodes back to the points |
| TriangleSets.DecodedLayout | triangulator/triangles.py:161-175 | an accepted stream has its count M right after the point block, which decodes to the points, and a triangle block that decodes to the triangles |
| TriangleSets.TooShortRejected | tests/tests_triangles.py:49-52 | the three-byte input is a ValueError for both decoders |
| TriangleSets.Triangles.constructor | triangulator/triangles.py:27-38 | wraps a valid point set and a valid triangle list |
| TriangleSets.Triangles.Create | triangulator/triangles.py:13-38 | holds exactly the given points and triangles; a repeated point, an index out of range, a repeated vertex or a repeated triangle raises ValueError |
| TriangleSets.Triangles.NbTriangles | triangulator/triangles.py:89-96 | the valid slots are exactly 0 .. n-1 |
| TriangleSets.Triangles.Length | triangulator/triangles.py:98-105 | `len` equals `nb_triangles` |
| TriangleSets.Triangles.GetTriangle | triangulator/triangles.py:107-119 | the stored triangle for a slot in `[0, length)`, IndexError otherwise |
| TriangleSets.Triangles.Iterate | triangulator/triangles.py:80-87 | one triangle per valid slot, in slot order |
| TriangleSets.Triangles.AddTriangle | triangulator/triangles.py:50-65 | IndexError for an index out of range, ValueError for a repeated vertex or a triangle already present in any order; otherwise the triangle is appended and its slot returned; the object stays valid |
| TriangleSets.Triangles.RemoveTriangle | triangulator/triangles.py:67-78 | by slot: IndexError outside `[0, length)`; by value: ValueError when absent; otherwise that slot is deleted, later triangles move down, and a removed value is no longer present |
| TriangleSets.DeleteSlot | triangulator/triangles.py:67-78 | deleting one slot of a valid list leaves a valid list in which no triangle equal to the deleted one remains |
| TriangleSets.Triangles.SetTriangle | triangulator/triangles.py:121-135 | IndexError for a bad slot; ValueError for an index out of range, a repeated vertex or a triangle present in another slot; otherwise only that slot changes |
| TriangleSets.Triangles.Equals | triangulator/triangles.py:137-150 | true iff the point sets are equal and the triangles agree slot by slot, each ignoring vertex order; TypeError otherwise |
| TriangleSets.Triangles.ToBytes | triangulator/triangles.py:152-159 | the bytes decode back to the same value; the encoding succeeds whenever both counts fit 32 bits |
| TriangleSets.Triangles.FromBytes | triangulator/triangles.py:161-175 | a new valid object holding the decoded value, or ValueError |
| Geometry.BoundsTight | debug_triangulate.py:19-27 | after the bounding-box loop over a non-empty list every point lies in the box and each bound is some point's coordinate |
| Geometry.SuperVertices | debug_triangulate.py:29-39 | three super vertices |
| Geometry.SuperTriangleEncloses | debug_triangulate.py:29-39 | the super triangle is clockwise and every point of a non-degenerate box lies strictly inside it |
| Geometry.OrientationSymmetry | debug_triangulate.py:75 | rotating the vertices keeps the orientation, swapping two negates it |
| Geometry.InCircleSymmetry | debug_triangulate.py:63-72 | rotating the vertices keeps the determinant, swapping the first two negates it |
| Geometry.IsBadRotation | debug_triangulate.py:70-84 | the bad-triangle verdict does not depend on which vertex comes first |
| Geometry.IsBadReflection | debug_triangulate.py:70-84 | for a non-degenerate triangle the verdict does not depend on the direction of the vertices either |
| Geometry.CollinearOrderMatters | debug_triangulate.py:74-84 | for a collinear triangle with a non-zero determinant, the two directions give opposite verdicts |
| Mesh.HasEdgeIffEnds | debug_triangulate.py:91-95 | a triangle with distinct vertices has an edge, in one direction or the other, iff both ends are distinct vertices of it |
| Mesh.EdgesOfDistinct | debug_triangulate.py:91-95 | the three edges of a proper triangle join distinct vertices of it and no two are the same edge |
| Mesh.InvInRange | debug_triangulate.py:122-126 | while points are inserted, every mesh index stays below n + 3 |
| Mesh.BadIndices | debug_triangulate.py:56-84 | the bad slots, ascending: a slot is listed iff its triangle is bad for the point |
| Mesh.UnsharedFacts | debug_triangulate.py:97-113 | an edge of a bad triangle is kept iff no other bad triangle has it in either direction |
| Mesh.BoundaryFacts | debug_triangulate.py:87-113 | an edge is in the polygon iff it is an edge, in its own direction, of some bad triangle that no other bad triangle shares; no edge is there twice |
| Mesh.KeptFacts | debug_triangulate.py:117-119 | the deletion leaves |mesh| - |bad| triangles, exactly the triangles of the slots that are not bad |
| Mesh.KeptFromSkip | debug_triangulate.py:117-119 | a run of slots none of which is bad is kept whole and in order |
| Mesh.Fan | debug_triangulate.py:121-126 | one triangle (u, v, i) per polygon edge (u, v), in polygon order |
| Mesh.FanFacts | debug_triangulate.py:121-126 | the new triangles have distinct vertices, contain the new point and are pairwise different |
| Mesh.StepPreservesInv | debug_triangulate.py:51-126 | one insertion keeps every triangle proper, in range and unrepeated, and the mesh size becomes old - bad + polygon |
| Mesh.PolygonFacts | debug_triangulate.py:87-113 | every polygon edge joins two distinct vertices already in use, and none is repeated |
| Mesh.KeptAllowed | debug_triangulate.py:117-119 | the triangles kept after a deletion do not use the point being inserted |
| Mesh.MeshAfter | debug_triangulate.py:46-126 | the mesh after every prefix of insertions keeps the invariant: every triangle has distinct vertices, each an inserted point or a super vertex, and none is repeated |
| Mesh.MeshAfterStep | debug_triangulate.py:51-126 | inserting point i into the mesh after i points gives the mesh after i + 1 points |
| Mesh.RealOnlyFacts | debug_triangulate.py:134-138 | the filter keeps exactly the triangles with all indices below n, and keeps them unrepeated |
| Mesh.TriangulationWellFormed | debug_triangulate.py:134-143 | the final triangles form a valid triangle list over the n input points |
| BowyerWatson.Coordinates | debug_triangulate.py:45 | the value of every input point, in index order |
| BowyerWatson.ExtendedPoints | debug_triangulate.py:35-45 | the n points followed by the three super vertices of their bounding box, at n, n+1 and n+2 |
| BowyerWatson.DistinctPointsSpreadBox | debug_triangulate.py:29-31 | two different points make a box that is not a single point |
| BowyerWatson.SuperTriangleContainsInput | debug_triangulate.py:29-46 | the starting triangle (n, n+1, n+2) is clockwise and contains every input point strictly |
| BowyerWatson.Triangulation | debug_triangulate.py:18-143 | the walk-through's result is a valid triangle list over the input points |
| BowyerWatson.BoundingBox | debug_triangulate.py:19-27 | the running minima and maxima enclose every point and are attained |
| BowyerWatson.FindBadTriangles | debug_triangulate.py:56-84 | the loop lists exactly the bad slots, ascending |
| BowyerWatson.IsShared | debug_triangulate.py:97-110 | the search with early exit answers whether another bad triangle has the edge |
| BowyerWatson.PolygonBoundary | debug_triangulate.py:87-113 | the nested loops build exactly the boundary polygon |
| BowyerWatson.RemoveBad | debug_triangulate.py:117-119 | popping the bad slots from the largest down deletes exactly them and keeps the rest in order |
| Mesh.PopBadSlot | debug_triangulate.py:117-119 | one `pop` of a bad slot, when the slots above it up to the last popped one are not bad, keeps the list equal to the untouched front followed by the kept triangles |
| BowyerWatson.AddFan | debug_triangulate.py:121-126 | the appends add the fan after the kept triangles |
| BowyerWatson.InsertPoint | debug_triangulate.py:51-129 | one pass of the per-point loop is one insertion step |
| BowyerWatson.BuildMesh | debug_triangulate.py:45-129 | the per-point loop, started from the super triangle, ends with the mesh after all insertions |
| BowyerWatson.FilterSuper | debug_triangulate.py:134-141 | the filter loop keeps exactly the real triangles, in order |
| BowyerWatson.Run | debug_triangulate.py:18-143 | the whole walk-through computes the triangulation, a valid triangle list over the input points |
| Triangulator.Triangulate | tests/tests_triangulator.py:13-29 | ValueError for fewer than three points; otherwise a new triangle set over a copy of the input points, holding the walk-through's triangles |
| WorkedExamples.CornerMeshAfter | debug_triangulate.py:45-129 | on (0, 0), (1, 0), (0, 1) and their super vertices, the three insertions end with the mesh listed in `CornerMesh3` |
| WorkedExamples.CornerWalk | tests/tests_triangulator.py:8-9 | the triangulation of (0, 0), (1, 0), (0, 1) is exactly [(1, 0, 2)] |
| WorkedExamples.CornerTriangulation | tests/tests_triangulator.py:8-9 | that triangulation equals the expected triangle set [(0, 1, 2)] under triangle-set equality |
| WorkedExamples.SquareMeshAfter | debug_triangulate.py:45-129 | on the corners and centre of the 2 by 2 square and their super vertices, the five insertions end with the mesh listed in `SquareMesh5` |
| WorkedExamples.SquareWalk | tests/tests_triangulator.py:10-11 | the triangulation of the square's corners and centre is exactly [(1, 0, 2), (2, 0, 3), (1, 2, 4), (2, 3, 4)] |
| WorkedExamples.SquareTriangulation | tests/tests_triangulator.py:10-11 | that triangulation equals the expected set [(0, 1, 2), (0, 2, 3), (1, 4, 2), (3, 2, 4)] under triangle-set equality |

## Left out

- The HTTP service (`triangulator/http_server.py`), the point-set manager client
  (`triangulator/PSM.py`) and `get_and_compute`: these are network access and an environment
  lookup.
- `generate_pointsets.py`: random generation and file writing. Only its byte layout is used.
- `tests/tests_performance.py`: wall-clock timing.
- Floating-point rounding: the orientation, determinant, midpoint and super-vertex arithmetic use
  exact reals, not double-precision rounding.
- Narrowing a Python float to float32 when encoding: a coordinate already is a float32 pattern.
- Global Delaunay correctness: the empty-circumcircle property and coverage of the convex hull are not stated.
- The meaning of the determinant's sign as "inside the circumcircle" is not proved; only its symmetries are.
- Geometry.CollinearOrderMatters: no concrete collinear input is exhibited, only the general statement.
- The `print` output of the walk-through, and hash values beyond their consistency with equality.
- The two expected triangulations (`tests/tests_triangulator.py:8-11`) hold only under the
  triangle-set equality, which ignores vertex order inside a triangle: the walk-through yields
  [(1, 0, 2)] and [(1, 0, 2), (2, 0, 3), (1, 2, 4), (2, 3, 4)], the tests list [(0, 1, 2)] and
  [(0, 1, 2), (0, 2, 3), (1, 4, 2), (3, 2, 4)]. `WorkedExamples.CornerTriangulation` and
  `WorkedExamples.SquareTriangulation` state that equality, not equality of the lists.
- Triangulator.Triangulate: the result's point set is a copy of the input one; aliasing between the two is not modelled.
- A duplicate-point input to `triangulate` (`tests/tests_triangulator.py:25`) is not a case of
  `Triangulator.Triangulate`: it fails earlier, in the `PointSet` constructor (see Decisions).
- PointSets.DecodeCoords: it rejects the NaN, infinity and negative-zero patterns, which Python's
  `struct.unpack` would accept as floats, because a coordinate is a finite value other than
  negative zero (see Decisions).
- The bounding-box loop on an empty list: its infinite initial bounds are `None`. The walk-through
  is only modelled on non-empty lists.
- Geometry.SuperVertices: its contract gives only the number of vertices. Their position is stated by
  `Geometry.SuperTriangleEncloses`.
