/**
 * polyTour.py, ptSetPath2Poly: walk a polyline leg by leg and list, for every polygon, the
 * points where the path touches, enters or leaves it, each with its mileage (the distance
 * travelled along the path), sorted by mileage.
 *
 * The intersection of a leg with a polygon (intSeg2Poly) and the interior test (isPtInPoly)
 * come from the geometry file and are passed in as function values.
 */
module PolyTourActions {
  import opened Wrappers
  import opened Geom
  import opened Common
  import opened PolyTour
  import Sorting

  /** One part of intSeg2Poly's detailed answer for a leg and a polygon. */
  datatype IntPart = NoCross | CrossPoint(pt: Point) | CrossSeg(pt1: Point, pt2: Point)

  /** intSeg2Poly(seg, poly, detailFlag = True); a single answer is a list of one part. */
  type IntSegPolyFn = (Point, Point, seq<Point>) -> seq<IntPart>
  /** isPtInPoly(pt, poly, interiorOnly = True) */
  type InPolyFn = (Point, seq<Point>) -> bool

  /** The primitives and the ERRTOL['distPt2Pt'] tolerance in force. */
  datatype PolyGeom = PolyGeom(dist: DistFn, intSeg: IntSegPolyFn, inPoly: InPolyFn, ptTol: real)

  datatype ActionKind = Touch | Enter | Leave

  datatype Action = Action(pt: Point, action: ActionKind, polyID: int, mileage: real)

  /** The actions one intersection part yields on the leg starting at seg0, acc being the
      mileage at seg0. The two ends of a crossing segment are ordered by their distance
      from seg0; ends closer than ptTol are one touch; otherwise the end that is not inside
      the polygon is where the path enters (the nearer end) or leaves (the farther end). */
  function PartActions(seg0: Point, pID: int, poly: seq<Point>, part: IntPart, acc: real, g: PolyGeom): (acts: seq<Action>)
    ensures |acts| <= 2
    ensures forall k :: 0 <= k < |acts| ==> acts[k].polyID == pID && acts[k].mileage == acc + g.dist(seg0, acts[k].pt)
    ensures part.NoCross? ==> acts == []
    ensures part.CrossPoint? ==> |acts| == 1 && acts[0].action == Touch && acts[0].pt == part.pt
    ensures part.CrossSeg? ==> forall k :: 0 <= k < |acts| ==> (
      var mA, mB := g.dist(seg0, part.pt1), g.dist(seg0, part.pt2);
      (acts[k].pt == part.pt1 || acts[k].pt == part.pt2) &&
      (acts[k].action == Touch <==> Abs(mA - mB) <= g.ptTol) &&
      (acts[k].action == Enter ==> acts[k].mileage == acc + Min(mA, mB) && !g.inPoly(acts[k].pt, poly)) &&
      (acts[k].action == Leave ==> acts[k].mileage == acc + Max(mA, mB) && !g.inPoly(acts[k].pt, poly)))
    ensures |acts| == 2 ==> acts[0].action == Enter && acts[1].action == Leave && acts[0].mileage <= acts[1].mileage
  {
    match part
    case NoCross => []
    case CrossPoint(p) => [Action(p, Touch, pID, acc + g.dist(seg0, p))]
    case CrossSeg(a, b) =>
      var inA, inB := g.inPoly(a, poly), g.inPoly(b, poly);
      var mA, mB := g.dist(seg0, a), g.dist(seg0, b);
      var swap := mA > mB;
      var p1, p2 := if swap then b else a, if swap then a else b;
      var m1, m2 := if swap then mB else mA, if swap then mA else mB;
      var in1, in2 := if swap then inB else inA, if swap then inA else inB;
      if Abs(m1 - m2) <= g.ptTol then [Action(p1, Touch, pID, acc + m1)]
      else if in1 && !in2 then [Action(p2, Leave, pID, acc + m2)]
      else if !in1 && in2 then [Action(p1, Enter, pID, acc + m1)]
      else if in1 && in2 then []
      else [Action(p1, Enter, pID, acc + m1), Action(p2, Leave, pID, acc + m2)]
  }

  /** The actions of the first n parts, in order. */
  function PartsActions(seg0: Point, pID: int, poly: seq<Point>, parts: seq<IntPart>, n: nat, acc: real, g: PolyGeom): (acts: seq<Action>)
    requires n <= |parts|
    ensures forall k :: 0 <= k < |acts| ==> acts[k].polyID == pID && acts[k].mileage == acc + g.dist(seg0, acts[k].pt)
  {
    if n == 0 then []
    else PartsActions(seg0, pID, poly, parts, n - 1, acc, g) + PartActions(seg0, pID, poly, parts[n - 1], acc, g)
  }

  /** The polygon ids of a polygon table given in dictionary order. */
  predicate HasID(polys: seq<(int, seq<Point>)>, id: int)
  {
    exists j :: 0 <= j < |polys| && polys[j].0 == id
  }

  /** The actions of the leg seg0-seg1 against the first n polygons. */
  function LegActions(seg0: Point, seg1: Point, polys: seq<(int, seq<Point>)>, n: nat, acc: real, g: PolyGeom): (acts: seq<Action>)
    requires n <= |polys|
    ensures forall k :: 0 <= k < |acts| ==> HasID(polys, acts[k].polyID) && acts[k].mileage == acc + g.dist(seg0, acts[k].pt)
  {
    if n == 0 then []
    else
      var prev := LegActions(seg0, seg1, polys, n - 1, acc, g);
      var (pID, poly) := polys[n - 1];
      var here := PartsActions(seg0, pID, poly, g.intSeg(seg0, seg1, poly), |g.intSeg(seg0, seg1, poly)|, acc, g);
      assert forall k :: 0 <= k < |here| ==> HasID(polys, here[k].polyID) by {
        assert polys[n - 1].0 == pID;
      }
      prev + here
  }

  /** The mileage at path[i]: the length of the legs before it. */
  function MileageAt(path: seq<Point>, dist: DistFn, i: nat): real
    requires i < |path|
  {
    PathLength(dist, path[..i + 1])
  }

  /** The mileage grows leg by leg. */
  lemma MileageStep(path: seq<Point>, dist: DistFn, i: nat)
    requires i + 1 < |path|
    ensures MileageAt(path, dist, i + 1) == MileageAt(path, dist, i) + dist(path[i], path[i + 1])
  {
    assert path[..i + 2] == path[..i + 1] + [path[i + 1]];
    PathLengthSnoc(dist, path[..i + 1], path[i + 1]);
  }

  /** An action lies on leg i when its mileage is the mileage at path[i] plus its distance
      from path[i]. */
  predicate OnLeg(path: seq<Point>, dist: DistFn, a: Action, i: nat)
    requires i + 1 < |path|
  {
    a.mileage == MileageAt(path, dist, i) + dist(path[i], a.pt)
  }

  ghost predicate OnSomeLeg(path: seq<Point>, dist: DistFn, a: Action, n: nat)
    requires n < |path|
  {
    exists i :: 0 <= i < n && OnLeg(path, dist, a, i)
  }

  /** The number of legs. */
  function Legs(path: seq<Point>): nat
  {
    if |path| == 0 then 0 else |path| - 1
  }

  /** The unsorted actions of the first n legs. */
  function PathActions(path: seq<Point>, polys: seq<(int, seq<Point>)>, n: nat, g: PolyGeom): seq<Action>
    requires n <= Legs(path)
  {
    if n == 0 then []
    else PathActions(path, polys, n - 1, g) + LegActions(path[n - 1], path[n], polys, |polys|, MileageAt(path, g.dist, n - 1), g)
  }

  /** Every action carries the id of one of the polygons and the mileage of its point on
      one of the legs. */
  lemma {:induction false} PathActionsOnLegs(path: seq<Point>, polys: seq<(int, seq<Point>)>, n: nat, g: PolyGeom)
    requires n < |path|
    ensures forall a :: a in PathActions(path, polys, n, g) ==> HasID(polys, a.polyID) && OnSomeLeg(path, g.dist, a, n)
  {
    if n > 0 {
      var prev := PathActions(path, polys, n - 1, g);
      var here := LegActions(path[n - 1], path[n], polys, |polys|, MileageAt(path, g.dist, n - 1), g);
      assert PathActions(path, polys, n, g) == prev + here;
      PathActionsOnLegs(path, polys, n - 1, g);
      LastLegActions(path, polys, n, g);
      forall a: Action | a in prev + here
        ensures HasID(polys, a.polyID) && OnSomeLeg(path, g.dist, a, n)
      {
        if a in prev {
          OnSomeLegGrows(path, g.dist, a, n);
        }
      }
    }
  }

  /** An action on one of the first n - 1 legs is on one of the first n. */
  lemma OnSomeLegGrows(path: seq<Point>, dist: DistFn, a: Action, n: nat)
    requires 0 < n < |path| && OnSomeLeg(path, dist, a, n - 1)
    ensures OnSomeLeg(path, dist, a, n)
  {
    var i :| 0 <= i < n - 1 && OnLeg(path, dist, a, i);
  }

  /** The actions of leg n - 1 carry a polygon id and lie on that leg. */
  lemma LastLegActions(path: seq<Point>, polys: seq<(int, seq<Point>)>, n: nat, g: PolyGeom)
    requires 0 < n < |path|
    ensures forall a :: a in LegActions(path[n - 1], path[n], polys, |polys|, MileageAt(path, g.dist, n - 1), g) ==>
      HasID(polys, a.polyID) && OnSomeLeg(path, g.dist, a, n)
  {
    var here := LegActions(path[n - 1], path[n], polys, |polys|, MileageAt(path, g.dist, n - 1), g);
    forall a | a in here
      ensures HasID(polys, a.polyID) && OnSomeLeg(path, g.dist, a, n)
    {
      var k :| 0 <= k < |here| && here[k] == a;
      assert OnLeg(path, g.dist, a, n - 1);
    }
  }

  function ByMileage(a: Action, b: Action): bool
  {
    a.mileage <= b.mileage
  }

  lemma ByMileageOrders()
    ensures Sorting.IsTotalPreorder(ByMileage)
  {
  }

  /** The path the actions are computed on: as given, or reduced to its turning points. */
  function TourPath(path: seq<Point>, pathDegened: bool, same: SameFn, dist: DistFn, dev: DevFn, segTol: real): seq<Point>
    requires pathDegened || |path| > 0
  {
    if pathDegened then path else DegenOf(path, same, dist, dev, segTol).newPath
  }

  /** The innermost loop of ptSetPath2Poly: the parts of one polygon's intersection with
      the leg, in order. */
  method ScanParts(seg0: Point, pID: int, poly: seq<Point>, parts: seq<IntPart>, acc: real, g: PolyGeom)
    returns (actions: seq<Action>)
    ensures actions == PartsActions(seg0, pID, poly, parts, |parts|, acc, g)
  {
    actions := [];
    for k := 0 to |parts|
      invariant actions == PartsActions(seg0, pID, poly, parts, k, acc, g)
    {
      actions := actions + PartActions(seg0, pID, poly, parts[k], acc, g);
    }
  }

  /** The inner loops of ptSetPath2Poly for one leg: every polygon, every part of its
      intersection with the leg. */
  method ScanLeg(seg0: Point, seg1: Point, polys: seq<(int, seq<Point>)>, acc: real, g: PolyGeom)
    returns (actions: seq<Action>)
    ensures actions == LegActions(seg0, seg1, polys, |polys|, acc, g)
  {
    actions := [];
    for j := 0 to |polys|
      invariant actions == LegActions(seg0, seg1, polys, j, acc, g)
    {
      var (pID, poly) := polys[j];
      var parts := g.intSeg(seg0, seg1, poly);
      var polyActions := ScanParts(seg0, pID, poly, parts, acc, g);
      actions := actions + polyActions;
    }
  }

  /** The outer loop of ptSetPath2Poly: the legs in order, with the mileage accumulated
      leg by leg. */
  method ScanPath(p: seq<Point>, polys: seq<(int, seq<Point>)>, g: PolyGeom) returns (actions: seq<Action>)
    ensures actions == PathActions(p, polys, Legs(p), g)
  {
    actions := [];
    var accMileage := 0.0;
    for i := 0 to Legs(p)
      invariant i < |p| ==> accMileage == MileageAt(p, g.dist, i)
      invariant actions == PathActions(p, polys, i, g)
    {
      var seg0, seg1 := p[i], p[i + 1];
      var legActions := ScanLeg(seg0, seg1, polys, accMileage, g);
      actions := actions + legActions;
      MileageStep(p, g.dist, i);
      accMileage := accMileage + g.dist(seg0, seg1);
    }
  }

  /** ptSetPath2Poly. The polygons are the dictionary's (id, polygon) entries in its
      iteration order; None stands for the missing argument. pathDegened = false reduces
      the path first, which fails on an empty path. */
  method PtSetPath2Poly(path: seq<Point>, polygons: Option<seq<(int, seq<Point>)>>, pathDegened: bool,
                        g: PolyGeom, same: SameFn, dev: DevFn, segTol: real)
    returns (r: Result<seq<Action>>)
    ensures polygons.None? ==> r == Err(MissingParameterError("ERROR: Missing required field 'polygons'."))
    ensures polygons.Some? && !pathDegened && path == [] ==> r == Err(IndexError)
    ensures r.Ok? <==> polygons.Some? && (pathDegened || path != [])
    ensures r.Ok? ==> (
      var p := TourPath(path, pathDegened, same, g.dist, dev, segTol);
      var acts := PathActions(p, polygons.value, Legs(p), g);
      Sorting.SortedBy(r.value, ByMileage) && multiset(r.value) == multiset(acts) &&
      r.value == Sorting.SortBy(acts, ByMileage))
  {
    if polygons.None? {
      return Err(MissingParameterError("ERROR: Missing required field 'polygons'."));
    }
    var polys := polygons.value;
    var p := path;
    if !pathDegened {
      var degen := PathRemoveDegen(path, same, g.dist, dev, segTol);
      if degen.Err? {
        return Err(degen.error);
      }
      p := degen.value.newPath;
    }
    var actions := ScanPath(p, polys, g);
    ByMileageOrders();
    actions := Sorting.SortBy(actions, ByMileage);
    r := Ok(actions);
  }
}
