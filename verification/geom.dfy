/**
 * Points in the plane and the distance function every module is parameterised by.
 * The distance primitive (Euclidean, lat/lon, ...) lives in a file that is not part
 * of this model, so it is passed in as a function value; `IsDist` states the two
 * facts of it the proofs rely on.
 */
module Geom {
  datatype Point = Point(x: real, y: real)

  type DistFn = (Point, Point) -> real

  /** A distance is non-negative and symmetric. */
  ghost predicate IsDist(dist: DistFn)
  {
    forall p: Point, q: Point :: dist(p, q) >= 0.0 && dist(p, q) == dist(q, p)
  }

  /** The midpoint written the way the refinement loops write it: a + (b - a) / 2. */
  function Mid(a: Point, b: Point): Point
  {
    Point(a.x + (b.x - a.x) / 2.0, a.y + (b.y - a.y) / 2.0)
  }

  /** The point at parameter t of the segment from a to b. */
  function Lerp(a: Point, b: Point, t: real): Point
  {
    Point(a.x + t * (b.x - a.x), a.y + t * (b.y - a.y))
  }

  /** Halving a segment between two of its own points lands on it again, halfway. */
  lemma MidOfLerps(a: Point, b: Point, s: real, t: real)
    ensures Mid(Lerp(a, b, s), Lerp(a, b, t)) == Lerp(a, b, (s + t) / 2.0)
  {
    var p, q := Lerp(a, b, s), Lerp(a, b, t);
    assert q.x - p.x == (t - s) * (b.x - a.x);
    assert q.y - p.y == (t - s) * (b.y - a.y);
  }

  /** Length of the polyline through pts, under dist. */
  function PathLength(dist: DistFn, pts: seq<Point>): real
  {
    if |pts| < 2 then 0.0
    else PathLength(dist, pts[..|pts| - 1]) + dist(pts[|pts| - 2], pts[|pts| - 1])
  }

  lemma {:induction false} PathLengthNonNeg(dist: DistFn, pts: seq<Point>)
    requires IsDist(dist)
    ensures PathLength(dist, pts) >= 0.0
  {
    if |pts| >= 2 {
      PathLengthNonNeg(dist, pts[..|pts| - 1]);
      assert dist(pts[|pts| - 2], pts[|pts| - 1]) >= 0.0;
    }
  }

  /** Length of a polyline is the length of its first leg plus the length of the rest. */
  lemma {:induction false} PathLengthCons(dist: DistFn, p: Point, pts: seq<Point>)
    requires |pts| >= 1
    ensures PathLength(dist, [p] + pts) == dist(p, pts[0]) + PathLength(dist, pts)
  {
    if |pts| == 1 {
      assert [p] + pts == [p, pts[0]];
    } else {
      var s := [p] + pts;
      assert s[..|s| - 1] == [p] + pts[..|pts| - 1];
      PathLengthCons(dist, p, pts[..|pts| - 1]);
    }
  }

  /** Appending a point adds one leg to the polyline. */
  lemma PathLengthSnoc(dist: DistFn, pts: seq<Point>, q: Point)
    requires |pts| >= 1
    ensures PathLength(dist, pts + [q]) == PathLength(dist, pts) + dist(pts[|pts| - 1], q)
  {
    var s := pts + [q];
    assert s[..|s| - 1] == pts;
  }

  /** The sum of the legs of a polyline, first to last, as the loops summing a route's
      distance add them up. */
  method LegSum(dist: DistFn, pts: seq<Point>) returns (d: real)
    ensures d == PathLength(dist, pts)
  {
    d := 0.0;
    if |pts| < 2 {
      return;
    }
    var i := 0;
    while i + 1 < |pts|
      invariant i < |pts| && d == PathLength(dist, pts[..i + 1])
    {
      PathLengthSnoc(dist, pts[..i + 1], pts[i + 1]);
      assert pts[..i + 1] + [pts[i + 1]] == pts[..i + 2];
      d := d + dist(pts[i], pts[i + 1]);
      i := i + 1;
    }
    assert pts[..i + 1] == pts;
  }
}
