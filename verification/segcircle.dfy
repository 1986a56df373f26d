/**
 * polyTour.py, segSetPath2Circle: cut a polyline into point and segment pieces, each with
 * the circles it lies on or in, and with the index of its leg.
 *
 * The same three steps as segSetPath2Poly, with circles: a turning point is on a circle
 * when its distance to the centre is within the tolerance of the radius, a leg whose
 * ends coincide touches every circle at its start, and the leg/circle intersection
 * (intSeg2Circle, which also reports the mileages of the crossing points along the leg)
 * and the coincidence test (is2PtsSame) are passed in as function values.
 */
module PolyTourSegCircle {
  import opened Wrappers
  import opened Geom
  import opened Common
  import opened PolyTour
  import opened PolyTourActions
  import opened PolyTourSweep

  datatype Circle = Circle(center: Point, radius: real)

  /** The circle dictionary as its (id, circle) entries in iteration order. */
  type Circles = seq<(int, Circle)>

  /** intSeg2Circle(seg, circle, detailFlag = True): the crossing point or segment with
      the distances along the leg it reports. */
  datatype CircleInt =
    | CNoCross
    | CCrossPoint(pt: Point, d: real)
    | CCrossSeg(int1: Point, int2: Point, d1: real, d2: real)

  datatype SegCircleGeom = SegCircleGeom(
    dist: DistFn,
    intSeg: (Point, Point, Circle) -> CircleInt,
    same: SameFn,
    polyTol: real,
    ptTol: real)

  // ---- Step 0: the circles a turning point is on and in ----

  datatype CircleTurn = CircleTurn(tang: seq<int>, iner: seq<int>)

  function D2Circle(pt: Point, cs: Circles, j: nat, g: SegCircleGeom): real
    requires j < |cs|
  {
    g.dist(pt, cs[j].1.center)
  }

  /** The point is strictly inside circle j, by more than the tolerance. */
  predicate Deep(pt: Point, cs: Circles, j: nat, g: SegCircleGeom)
    requires j < |cs|
  {
    D2Circle(pt, cs, j, g) < cs[j].1.radius - g.polyTol
  }

  /** The point is on circle j, up to the tolerance. */
  predicate OnRim(pt: Point, cs: Circles, j: nat, g: SegCircleGeom)
    requires j < |cs|
  {
    cs[j].1.radius + g.polyTol >= D2Circle(pt, cs, j, g) >= cs[j].1.radius - g.polyTol
  }

  function CircleStep(t: CircleTurn, pt: Point, cs: Circles, j: nat, g: SegCircleGeom): CircleTurn
    requires j < |cs|
  {
    var p := cs[j].0;
    var t1 := if Deep(pt, cs, j, g) then t.(iner := t.iner + [p]) else t;
    if OnRim(pt, cs, j, g) then
      t1.(tang := t1.tang + [p], iner := if p !in t1.iner then t1.iner + [p] else t1.iner)
    else t1
  }

  function CircleTurnUpTo(pt: Point, cs: Circles, n: nat, g: SegCircleGeom): CircleTurn
    requires n <= |cs|
  {
    if n == 0 then CircleTurn([], [])
    else CircleStep(CircleTurnUpTo(pt, cs, n - 1, g), pt, cs, n - 1, g)
  }

  /** turnPts[i]: the two end points of the path are on and in no circle. */
  function TurnOf(path: seq<Point>, i: nat, cs: Circles, g: SegCircleGeom): CircleTurn
    requires i < |path|
  {
    if 0 < i < |path| - 1 then CircleTurnUpTo(path[i], cs, |cs|, g) else CircleTurn([], [])
  }

  ghost predicate RimIn(pt: Point, cs: Circles, n: nat, g: SegCircleGeom, x: int)
    requires n <= |cs|
  {
    exists j :: 0 <= j < n && OnRim(pt, cs, j, g) && cs[j].0 == x
  }

  ghost predicate WithinIn(pt: Point, cs: Circles, n: nat, g: SegCircleGeom, x: int)
    requires n <= |cs|
  {
    exists j :: 0 <= j < n && D2Circle(pt, cs, j, g) <= cs[j].1.radius + g.polyTol && cs[j].0 == x
  }

  /** A point is on the circles whose rim it lies on, and in the circles it lies within
      the tolerance of (strictly inside or on the rim). */
  lemma {:induction false} CircleTurnMeaning(pt: Point, cs: Circles, n: nat, g: SegCircleGeom)
    requires n <= |cs| && g.polyTol >= 0.0
    ensures forall x :: x in CircleTurnUpTo(pt, cs, n, g).tang <==> RimIn(pt, cs, n, g, x)
    ensures forall x :: x in CircleTurnUpTo(pt, cs, n, g).iner <==> WithinIn(pt, cs, n, g, x)
  {
    if n > 0 {
      CircleTurnMeaning(pt, cs, n - 1, g);
      var t' := CircleTurnUpTo(pt, cs, n, g);
      var within := D2Circle(pt, cs, n - 1, g) <= cs[n - 1].1.radius + g.polyTol;
      assert within <==> Deep(pt, cs, n - 1, g) || OnRim(pt, cs, n - 1, g);
      forall x
        ensures x in t'.tang <==> RimIn(pt, cs, n, g, x)
      {
        assert RimIn(pt, cs, n, g, x) <==>
          RimIn(pt, cs, n - 1, g, x) || (OnRim(pt, cs, n - 1, g) && cs[n - 1].0 == x);
      }
      forall x
        ensures x in t'.iner <==> WithinIn(pt, cs, n, g, x)
      {
        assert WithinIn(pt, cs, n, g, x) <==>
          WithinIn(pt, cs, n - 1, g, x) || (within && cs[n - 1].0 == x);
      }
    }
  }

  /** Step 0 for one interior point: the loop over the circles. */
  method CircleTurnPoint(pt: Point, cs: Circles, g: SegCircleGeom) returns (t: CircleTurn)
    ensures t == CircleTurnUpTo(pt, cs, |cs|, g)
  {
    var tangCircle: seq<int> := [];
    var inerCircle: seq<int> := [];
    for j := 0 to |cs|
      invariant CircleTurnUpTo(pt, cs, j, g) == CircleTurn(tangCircle, inerCircle)
    {
      var (p, c) := cs[j];
      var d2Circle := g.dist(pt, c.center);
      if d2Circle < c.radius - g.polyTol {
        inerCircle := inerCircle + [p];
      }
      if c.radius + g.polyTol >= d2Circle >= c.radius - g.polyTol {
        tangCircle := tangCircle + [p];
        if p !in inerCircle {
          inerCircle := inerCircle + [p];
        }
      }
    }
    t := CircleTurn(tangCircle, inerCircle);
  }

  /** Step 0: the turning points of a non-empty path. */
  method CircleTurnPoints(path: seq<Point>, cs: Circles, g: SegCircleGeom) returns (turnPts: seq<CircleTurn>)
    requires |path| > 0
    ensures |turnPts| == |path|
    ensures forall i :: 0 <= i < |path| ==> turnPts[i] == TurnOf(path, i, cs, g)
  {
    turnPts := [CircleTurn([], [])];
    var i := 1;
    while i < |path| - 1
      invariant 1 <= i <= |path| && (|path| > 1 ==> i <= |path| - 1)
      invariant |turnPts| == i
      invariant forall k :: 0 <= k < i ==> turnPts[k] == TurnOf(path, k, cs, g)
    {
      var t := CircleTurnPoint(path[i], cs, g);
      turnPts := turnPts + [t];
      i := i + 1;
    }
    if |path| > 1 {
      turnPts := turnPts + [CircleTurn([], [])];
    }
  }

  // ---- Step 2: the crossing events of a leg ----

  /** The events of the leg seg0-seg1 with circle p: a leg whose ends coincide touches
      the circle at its start; otherwise the crossing segment enters and leaves, and a
      crossing point touches, at the mileages the primitive reports. */
  function CircleEvents(seg0: Point, seg1: Point, st: real, p: int, c: Circle, g: SegCircleGeom): (es: seq<Event>)
    ensures forall e :: e in es ==> e.id == p && (e.kind.Enter? || e.kind.Leave? || e.kind.Tangle?)
    ensures g.same(seg0, seg1) ==> es == [Event(st, p, seg0, Tangle)]
  {
    if g.same(seg0, seg1) then [Event(st, p, seg0, Tangle)]
    else
      match g.intSeg(seg0, seg1, c)
      case CNoCross => []
      case CCrossSeg(a, b, d1, d2) => SegEvents(st, p, a, b, d1, d2)
      case CCrossPoint(q, d) => [Event(d + st, p, q, Tangle)]
  }

  ghost predicate CircleCrossing(e: Event, cs: Circles)
  {
    (exists j :: 0 <= j < |cs| && cs[j].0 == e.id) && (e.kind.Enter? || e.kind.Leave? || e.kind.Tangle?)
  }

  /** The unsorted events of the leg with the first n circles. */
  function CircleRaw(seg0: Point, seg1: Point, st: real, cs: Circles, n: nat, g: SegCircleGeom): (es: seq<Event>)
    requires n <= |cs|
    ensures forall e :: e in es ==> CircleCrossing(e, cs)
  {
    if n == 0 then []
    else
      var prev := CircleRaw(seg0, seg1, st, cs, n - 1, g);
      var here := CircleEvents(seg0, seg1, st, cs[n - 1].0, cs[n - 1].1, g);
      assert forall e :: e in here ==> CircleCrossing(e, cs) by {
        assert forall e :: e in here ==> e.id == cs[n - 1].0;
      }
      prev + here
  }

  /** A leg whose ends coincide yields one touch per circle, in the circles' order, at
      the leg's start. */
  lemma {:induction false} DegenerateLegTouches(seg0: Point, seg1: Point, st: real, cs: Circles, n: nat, g: SegCircleGeom)
    requires n <= |cs| && g.same(seg0, seg1)
    ensures CircleRaw(seg0, seg1, st, cs, n, g) == seq(n, j requires 0 <= j < n => Event(st, cs[j].0, seg0, Tangle))
  {
    if n > 0 {
      DegenerateLegTouches(seg0, seg1, st, cs, n - 1, g);
    }
  }

  // ---- Steps 1 and 2: the legs ----

  function ToSome(ids: seq<int>): (r: seq<Option<int>>)
    ensures |r| == |ids| && forall k :: 0 <= k < |ids| ==> r[k] == Some(ids[k])
  {
    seq(|ids|, k requires 0 <= k < |ids| => Some(ids[k]))
  }

  /** Steps 1 and 2 for leg i, seg0-seg1, starting at mileage st, whose start point has
      the turning-point lists t. */
  function PlanAt(seg0: Point, seg1: Point, st: real, t: CircleTurn, i: nat, cs: Circles, g: SegCircleGeom): LegPlan
  {
    var ed := st + g.dist(seg0, seg1);
    var stTang := if |t.tang| > 0 then Some(PointPiece(seg0, ToSome(t.iner), st, Some(i))) else None;
    var raw := CircleRaw(seg0, seg1, st, cs, |cs|, g);
    LegPlan(seg0, st, stTang, LegEvents(st, ed, seg0, seg1, raw), Some(i))
  }

  function PlanOf(path: seq<Point>, i: nat, cs: Circles, g: SegCircleGeom): LegPlan
    requires i + 1 < |path|
  {
    PlanAt(path[i], path[i + 1], MileageAt(path, g.dist, i), TurnOf(path, i, cs, g), i, cs, g)
  }

  function PlansOf(path: seq<Point>, cs: Circles, g: SegCircleGeom): (plans: seq<LegPlan>)
    ensures |plans| == Legs(path)
  {
    seq(Legs(path), i requires 0 <= i < Legs(path) => PlanOf(path, i, cs, g))
  }

  /** segSetPath2Circle on a path that is already reduced. */
  function SegSetOf(path: seq<Point>, cs: Circles, g: SegCircleGeom): Result<seq<Piece>>
  {
    RestoreUpTo(PlansOf(path, cs, g), Legs(path), g.ptTol)
  }

  /** Step 2 for one leg: the loop over the circles. */
  method LegRaw(seg0: Point, seg1: Point, st: real, cs: Circles, g: SegCircleGeom) returns (raw: seq<Event>)
    ensures raw == CircleRaw(seg0, seg1, st, cs, |cs|, g)
  {
    raw := [];
    for j := 0 to |cs|
      invariant raw == CircleRaw(seg0, seg1, st, cs, j, g)
    {
      var (p, c) := cs[j];
      if g.same(seg0, seg1) {
        raw := raw + [Event(st, p, seg0, Tangle)];
      } else {
        var segInt := g.intSeg(seg0, seg1, c);
        match segInt {
          case CCrossSeg(int1, int2, d1, d2) =>
            if d1 < d2 {
              raw := raw + [Event(d1 + st, p, int1, EventKind.Enter), Event(d2 + st, p, int2, EventKind.Leave)];
            } else {
              raw := raw + [Event(d2 + st, p, int2, EventKind.Enter), Event(d1 + st, p, int1, EventKind.Leave)];
            }
          case CCrossPoint(intP, dP) =>
            raw := raw + [Event(dP + st, p, intP, Tangle)];
          case CNoCross =>
        }
      }
    }
  }

  /** Steps 1 and 2 for one leg. */
  method PlanLeg(seg0: Point, seg1: Point, st: real, t: CircleTurn, i: nat, cs: Circles, g: SegCircleGeom) returns (plan: LegPlan)
    ensures plan == PlanAt(seg0, seg1, st, t, i, cs, g)
  {
    var stTangPt: Option<Piece> := None;
    if |t.tang| > 0 {
      stTangPt := Some(PointPiece(seg0, ToSome(t.iner), st, Some(i)));
    }
    var ed := st + g.dist(seg0, seg1);
    var raw := LegRaw(seg0, seg1, st, cs, g);
    assert raw == CircleRaw(seg0, seg1, st, cs, |cs|, g);
    var events := LegEvents(st, ed, seg0, seg1, raw);
    plan := LegPlan(seg0, st, stTangPt, events, Some(i));
  }

  /** Steps 1 and 2: the legs' mileages, start pieces and sorted events. */
  method PlanLegs(path: seq<Point>, cs: Circles, turnPts: seq<CircleTurn>, g: SegCircleGeom) returns (plans: seq<LegPlan>)
    requires |turnPts| == |path|
    requires forall i :: 0 <= i < |path| ==> turnPts[i] == TurnOf(path, i, cs, g)
    ensures plans == PlansOf(path, cs, g)
  {
    plans := [];
    var accMileage := 0.0;
    for i := 0 to Legs(path)
      invariant i < |path| ==> accMileage == MileageAt(path, g.dist, i)
      invariant plans == PlansOf(path, cs, g)[..i]
    {
      var plan := PlanLeg(path[i], path[i + 1], accMileage, turnPts[i], i, cs, g);
      plans := plans + [plan];
      MileageStep(path, g.dist, i);
      accMileage := accMileage + g.dist(path[i], path[i + 1]);
    }
  }

  /** segSetPath2Circle. pathDegened = false reduces the path first; an empty path fails
      on reading its first point; a leave event whose circle is not in the inside list
      is the ValueError of list.remove. */
  method SegSetPath2Circle(path: seq<Point>, cs: Circles, pathDegened: bool, g: SegCircleGeom, dev: DevFn, segTol: real)
    returns (r: Result<seq<Piece>>)
    ensures path == [] ==> r == Err(IndexError)
    ensures path != [] ==> r == SegSetOf(TourPath(path, pathDegened, g.same, g.dist, dev, segTol), cs, g)
  {
    var p := path;
    if !pathDegened {
      var degen := PathRemoveDegen(path, g.same, g.dist, dev, segTol);
      if degen.Err? {
        return Err(degen.error);
      }
      DegenStart(path, g.same, g.dist, dev, segTol);
      p := degen.value.newPath;
    }
    if p == [] {
      return Err(IndexError);
    }
    var turnPts := CircleTurnPoints(p, cs, g);
    var plans := PlanLegs(p, cs, turnPts, g);
    r := Restore(plans, g.ptTol);
  }

  /** The end points of the path are on no circle, so the first leg has no point piece,
      and every leg's pieces carry the leg's index. */
  lemma LegPiecesOfLeg(path: seq<Point>, cs: Circles, g: SegCircleGeom, i: nat)
    requires i + 1 < |path|
    ensures i == 0 ==> PlanOf(path, i, cs, g).stTangPt.None?
    ensures var plan := PlanOf(path, i, cs, g);
      LegPieces(plan, g.ptTol).Ok? ==>
        forall k :: 0 <= k < |LegPieces(plan, g.ptTol).value| ==> LegPieces(plan, g.ptTol).value[k].segID == Some(i)
  {
  }
}
