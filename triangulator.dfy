/**
 * The library entry point `triangulate`: a point set of at least three points becomes a triangle
 * set over a copy of those points, computed by the Bowyer–Watson walk-through; fewer points is
 * a ValueError.
 */
module Triangulator {
  import opened Errors
  import opened PointSets
  import opened TriangleSets
  import opened BowyerWatson

  /**
   * `triangulate`: ValueError below three points; otherwise a new triangle set whose points equal
   * the input's and whose triangles are the walk-through's, which form a valid triangle list.
   */
  method Triangulate(points: PointSet) returns (r: Result<Triangles>)
    requires points.Valid()
    ensures |points.points| < 3 ==> r == Err(ValueError)
    ensures |points.points| >= 3 ==>
              r.Ok? && fresh(r.value) && fresh(r.value.points) && r.value.Valid() &&
              r.value.points.points == points.points &&
              r.value.triangles == Triangulation(points.points) &&
              WellFormed(|points.points|, r.value.triangles)
  {
    if points.NbPoints() < 3 {
      return Err(ValueError);
    }
    var final := Run(points.points);
    r := Triangles.Create(points.points, final);
  }
}
