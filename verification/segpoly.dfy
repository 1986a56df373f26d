/**
 * polyTour.py, segSetPath2Poly: cut a polyline into point and segment pieces, each with
 * the polygons it lies on or in.
 *
 * Step 0 finds, for every turning point, the polygons whose edge it touches and the
 * polygons it lies in; Steps 1 and 2 give every leg its mileages and its sorted list of
 * crossing events; Step 3 is the sweep of module PolyTourSweep. The distance to a
 * polygon's boundary (distPt2Path), the interior test (isPtInPoly), the leg/polygon
 * intersection (intSeg2Poly) and the coincidence test (is2PtsSame) come from the
 * geometry file and are passed in as function values.
 */
module PolyTourSegPoly {
  import opened Wrappers
  import opened Geom
  import opened Common
  import opened PolyTour
  import opened PolyTourActions
  import opened PolyTourSweep

  /** intSeg2Poly(seg, poly) without detail: a single part, or a list of parts. */
  datatype SegInt = Single(part: IntPart) | Many(parts: seq<IntPart>)

  /** The primitives and the ERRTOL tolerances in force. */
  datatype SegPolyGeom = SegPolyGeom(
    dist: DistFn,
    edgeDist: (Point, seq<Point>) -> real,
    inPoly: (Point, seq<Point>) -> bool,
    intSeg: (Point, Point, seq<Point>) -> SegInt,
    same: SameFn,
    polyTol: real,
    ptTol: real)

  /** The polygon dictionary as its (id, polygon) entries in iteration order. */
  type Polys = seq<(int, seq<Point>)>

  // ---- Step 0: the polygons a turning point touches and lies in ----

  /** The loop state of Step 0 for one point; a missing closestDist is float('inf'). */
  datatype TurnState = TurnState(tans: seq<Option<int>>, iner: seq<Option<int>>,
                                 closest: Option<int>, closestDist: Option<real>, found: bool)

  function EdgeDist(pt: Point, polys: Polys, j: nat, g: SegPolyGeom): real
    requires j < |polys|
  {
    g.edgeDist(pt, polys[j].1)
  }

  /** One polygon p at boundary distance d, inside telling whether the point is in it. */
  function TurnStep(t: TurnState, p: int, d: real, inside: bool, tol: real): TurnState
  {
    var t1 := if t.closestDist.None? || d < t.closestDist.value then t.(closest := Some(p), closestDist := Some(d)) else t;
    var t2 := if d <= tol then t1.(tans := t1.tans + [Some(p)], found := true, iner := t1.iner + [Some(p)]) else t1;
    if Some(p) !in t2.iner && inside then t2.(iner := t2.iner + [Some(p)]) else t2
  }

  function TurnUpTo(pt: Point, polys: Polys, n: nat, g: SegPolyGeom): TurnState
    requires n <= |polys|
  {
    if n == 0 then TurnState([], [], None, None, false)
    else TurnStep(TurnUpTo(pt, polys, n - 1, g), polys[n - 1].0, EdgeDist(pt, polys, n - 1, g),
                  g.inPoly(pt, polys[n - 1].1), g.polyTol)
  }

  /** turnPts[i]: the polygons the point touches (tansPolys) and lies in (inerPolys). */
  datatype TurnPt = TurnPt(tans: seq<Option<int>>, iner: seq<Option<int>>)

  /** When no polygon is within the tolerance, the closest one (None when there are no
      polygons) is recorded in both lists. */
  function TurnPointOf(pt: Point, polys: Polys, g: SegPolyGeom): TurnPt
  {
    var t := TurnUpTo(pt, polys, |polys|, g);
    if t.found then TurnPt(t.tans, t.iner) else TurnPt(t.tans + [t.closest], t.iner + [t.closest])
  }

  predicate Near(pt: Point, polys: Polys, j: nat, g: SegPolyGeom)
    requires j < |polys|
  {
    EdgeDist(pt, polys, j, g) <= g.polyTol
  }

  predicate NearOrIn(pt: Point, polys: Polys, j: nat, g: SegPolyGeom)
    requires j < |polys|
  {
    Near(pt, polys, j, g) || g.inPoly(pt, polys[j].1)
  }

  ghost predicate AnyNear(pt: Point, polys: Polys, n: nat, g: SegPolyGeom)
    requires n <= |polys|
  {
    exists j :: 0 <= j < n && Near(pt, polys, j, g)
  }

  ghost predicate NearIn(pt: Point, polys: Polys, n: nat, g: SegPolyGeom, x: Option<int>)
    requires n <= |polys|
  {
    exists j :: 0 <= j < n && Near(pt, polys, j, g) && x == Some(polys[j].0)
  }

  ghost predicate HoldsIn(pt: Point, polys: Polys, n: nat, g: SegPolyGeom, x: Option<int>)
    requires n <= |polys|
  {
    exists j :: 0 <= j < n && NearOrIn(pt, polys, j, g) && x == Some(polys[j].0)
  }

  /** Polygon j is the first of the first n polygons at the least boundary distance. */
  ghost predicate FirstNearest(pt: Point, polys: Polys, n: nat, g: SegPolyGeom, j: nat)
    requires n <= |polys|
  {
    j < n &&
    (forall i :: 0 <= i < n ==> EdgeDist(pt, polys, j, g) <= EdgeDist(pt, polys, i, g)) &&
    (forall i :: 0 <= i < j ==> EdgeDist(pt, polys, j, g) < EdgeDist(pt, polys, i, g))
  }

  lemma {:induction false} TurnFound(pt: Point, polys: Polys, n: nat, g: SegPolyGeom)
    requires n <= |polys|
    ensures TurnUpTo(pt, polys, n, g).found <==> AnyNear(pt, polys, n, g)
    ensures TurnUpTo(pt, polys, n, g).tans == [] <==> !TurnUpTo(pt, polys, n, g).found
  {
    if n > 0 {
      TurnFound(pt, polys, n - 1, g);
      assert AnyNear(pt, polys, n, g) <==> AnyNear(pt, polys, n - 1, g) || Near(pt, polys, n - 1, g);
    }
  }

  lemma {:induction false} TurnTans(pt: Point, polys: Polys, n: nat, g: SegPolyGeom)
    requires n <= |polys|
    ensures forall x :: x in TurnUpTo(pt, polys, n, g).tans <==> NearIn(pt, polys, n, g, x)
  {
    if n > 0 {
      TurnTans(pt, polys, n - 1, g);
      var t' := TurnUpTo(pt, polys, n, g);
      forall x
        ensures x in t'.tans <==> NearIn(pt, polys, n, g, x)
      {
        assert NearIn(pt, polys, n, g, x) <==>
          NearIn(pt, polys, n - 1, g, x) || (Near(pt, polys, n - 1, g) && x == Some(polys[n - 1].0));
      }
    }
  }

  lemma {:induction false} TurnIner(pt: Point, polys: Polys, n: nat, g: SegPolyGeom)
    requires n <= |polys|
    ensures forall x :: x in TurnUpTo(pt, polys, n, g).iner <==> HoldsIn(pt, polys, n, g, x)
  {
    if n > 0 {
      TurnIner(pt, polys, n - 1, g);
      var t' := TurnUpTo(pt, polys, n, g);
      forall x
        ensures x in t'.iner <==> HoldsIn(pt, polys, n, g, x)
      {
        assert HoldsIn(pt, polys, n, g, x) <==>
          HoldsIn(pt, polys, n - 1, g, x) || (NearOrIn(pt, polys, n - 1, g) && x == Some(polys[n - 1].0));
      }
    }
  }

  lemma {:induction false} TurnClosest(pt: Point, polys: Polys, n: nat, g: SegPolyGeom)
    requires n <= |polys|
    ensures TurnUpTo(pt, polys, n, g).closest.None? <==> n == 0
    ensures n == 0 ==> TurnUpTo(pt, polys, n, g).closestDist.None?
    ensures n > 0 ==> exists j: nat :: (FirstNearest(pt, polys, n, g, j) &&
      TurnUpTo(pt, polys, n, g).closest == Some(polys[j].0) &&
      TurnUpTo(pt, polys, n, g).closestDist == Some(EdgeDist(pt, polys, j, g)))
  {
    if n > 0 {
      TurnClosest(pt, polys, n - 1, g);
      var t := TurnUpTo(pt, polys, n - 1, g);
      var d := EdgeDist(pt, polys, n - 1, g);
      var t' := TurnUpTo(pt, polys, n, g);
      StepClosest(t, polys[n - 1].0, d, g.inPoly(pt, polys[n - 1].1), g.polyTol);
      if t.closestDist.None? || d < t.closestDist.value {
        assert t'.closest == Some(polys[n - 1].0) && t'.closestDist == Some(d);
        if n > 1 {
          var j: nat :| FirstNearest(pt, polys, n - 1, g, j) && t.closestDist == Some(EdgeDist(pt, polys, j, g));
          NearestNew(pt, polys, n, g, j);
        }
        assert FirstNearest(pt, polys, n, g, n - 1);
      } else {
        assert t'.closest == t.closest && t'.closestDist == t.closestDist;
        var j: nat :| FirstNearest(pt, polys, n - 1, g, j) && t.closest == Some(polys[j].0)
                 && t.closestDist == Some(EdgeDist(pt, polys, j, g));
        NearestOld(pt, polys, n, g, j);
      }
    }
  }

  /** The closest polygon so far changes only to a strictly closer one. */
  lemma StepClosest(t: TurnState, p: int, d: real, inside: bool, tol: real)
    ensures var t' := TurnStep(t, p, d, inside, tol);
      if t.closestDist.None? || d < t.closestDist.value then t'.closest == Some(p) && t'.closestDist == Some(d)
      else t'.closest == t.closest && t'.closestDist == t.closestDist
  {
  }

  /** A polygon strictly closer than the first nearest one so far is the new first nearest. */
  lemma NearestNew(pt: Point, polys: Polys, n: nat, g: SegPolyGeom, j: nat)
    requires 1 < n <= |polys| && FirstNearest(pt, polys, n - 1, g, j)
    requires EdgeDist(pt, polys, n - 1, g) < EdgeDist(pt, polys, j, g)
    ensures FirstNearest(pt, polys, n, g, n - 1)
  {
  }

  /** A polygon no closer than the first nearest one so far leaves it first nearest. */
  lemma NearestOld(pt: Point, polys: Polys, n: nat, g: SegPolyGeom, j: nat)
    requires 0 < n <= |polys| && FirstNearest(pt, polys, n - 1, g, j)
    requires !(EdgeDist(pt, polys, n - 1, g) < EdgeDist(pt, polys, j, g))
    ensures FirstNearest(pt, polys, n, g, j)
  {
  }

  /** The touching list is never empty. When some polygon is within the tolerance the
      lists hold exactly the polygons within it, and those within it or containing the
      point; otherwise the touching list is the first closest polygon alone, which is
      also added to the containing list (None for both when there are no polygons). */
  lemma TurnPointMeaning(pt: Point, polys: Polys, g: SegPolyGeom)
    ensures TurnPointOf(pt, polys, g).tans != []
    ensures AnyNear(pt, polys, |polys|, g) ==>
      (forall x :: x in TurnPointOf(pt, polys, g).tans <==> NearIn(pt, polys, |polys|, g, x)) &&
      (forall x :: x in TurnPointOf(pt, polys, g).iner <==> HoldsIn(pt, polys, |polys|, g, x))
    ensures polys == [] ==> TurnPointOf(pt, polys, g) == TurnPt([None], [None])
    ensures !AnyNear(pt, polys, |polys|, g) && polys != [] ==>
      exists j: nat :: FirstNearest(pt, polys, |polys|, g, j) &&
        TurnPointOf(pt, polys, g).tans == [Some(polys[j].0)] &&
        (forall x :: x in TurnPointOf(pt, polys, g).iner <==> HoldsIn(pt, polys, |polys|, g, x) || x == Some(polys[j].0))
  {
    TurnFound(pt, polys, |polys|, g);
    TurnTans(pt, polys, |polys|, g);
    TurnIner(pt, polys, |polys|, g);
    TurnClosest(pt, polys, |polys|, g);
  }

  /** Step 0 for one point: the loop over the polygons. */
  method TurnPoint(pt: Point, polys: Polys, g: SegPolyGeom) returns (tp: TurnPt)
    ensures tp == TurnPointOf(pt, polys, g)
  {
    var tans: seq<Option<int>> := [];
    var iner: seq<Option<int>> := [];
    var closestIdx: Option<int> := None;
    var closestDist: Option<real> := None;
    var foundClosest := false;
    for j := 0 to |polys|
      invariant TurnUpTo(pt, polys, j, g) == TurnState(tans, iner, closestIdx, closestDist, foundClosest)
    {
      var (p, poly) := polys[j];
      var d2Edge := g.edgeDist(pt, poly);
      if closestDist.None? || d2Edge < closestDist.value {
        closestDist := Some(d2Edge);
        closestIdx := Some(p);
      }
      if d2Edge <= g.polyTol {
        tans := tans + [Some(p)];
        foundClosest := true;
        iner := iner + [Some(p)];
      }
      if Some(p) !in iner && g.inPoly(pt, poly) {
        iner := iner + [Some(p)];
      }
    }
    if !foundClosest {
      tans := tans + [closestIdx];
      iner := iner + [closestIdx];
    }
    tp := TurnPt(tans, iner);
  }

  /** Step 0: the turning points of the whole path. */
  method TurnPoints(path: seq<Point>, polys: Polys, g: SegPolyGeom) returns (turnPts: seq<TurnPt>)
    ensures |turnPts| == |path|
    ensures forall i :: 0 <= i < |path| ==> turnPts[i] == TurnPointOf(path[i], polys, g)
  {
    turnPts := [];
    for i := 0 to |path|
      invariant |turnPts| == i
      invariant forall k :: 0 <= k < i ==> turnPts[k] == TurnPointOf(path[k], polys, g)
    {
      var tp := TurnPoint(path[i], polys, g);
      turnPts := turnPts + [tp];
    }
  }

  // ---- Step 2: the crossing events of a leg ----

  /** The events of one part of a leg's intersection with polygon p; a touching point
      taken from a list of parts is dropped when it coincides with an end of the leg. */
  function PartEvents(seg0: Point, seg1: Point, st: real, p: int, part: IntPart, inList: bool, g: SegPolyGeom): (es: seq<Event>)
    ensures forall e :: e in es ==> e.id == p && (e.kind.Enter? || e.kind.Leave? || e.kind.Tangle?)
    ensures IsDist(g.dist) ==> forall e :: e in es ==> e.mileage >= st
    ensures inList ==> forall e :: e in es && e.kind == Tangle ==> !g.same(e.pt, seg0) && !g.same(e.pt, seg1)
  {
    match part
    case NoCross => []
    case CrossSeg(a, b) => SegEvents(st, p, a, b, g.dist(seg0, a), g.dist(seg0, b))
    case CrossPoint(q) =>
      if inList && (g.same(q, seg0) || g.same(q, seg1)) then []
      else [Event(g.dist(seg0, q) + st, p, q, Tangle)]
  }

  ghost predicate Crossing(e: Event, st: real, polys: Polys, g: SegPolyGeom)
  {
    HasID(polys, e.id) && (e.kind.Enter? || e.kind.Leave? || e.kind.Tangle?) && (IsDist(g.dist) ==> e.mileage >= st)
  }

  function PartsEvents(seg0: Point, seg1: Point, st: real, p: int, parts: seq<IntPart>, n: nat, g: SegPolyGeom): (es: seq<Event>)
    requires n <= |parts|
    ensures forall e :: e in es ==> e.id == p && (e.kind.Enter? || e.kind.Leave? || e.kind.Tangle?)
    ensures IsDist(g.dist) ==> forall e :: e in es ==> e.mileage >= st
  {
    if n == 0 then []
    else PartsEvents(seg0, seg1, st, p, parts, n - 1, g) + PartEvents(seg0, seg1, st, p, parts[n - 1], true, g)
  }

  function PolyEvents(seg0: Point, seg1: Point, st: real, p: int, si: SegInt, g: SegPolyGeom): seq<Event>
  {
    match si
    case Single(part) => PartEvents(seg0, seg1, st, p, part, false, g)
    case Many(parts) => PartsEvents(seg0, seg1, st, p, parts, |parts|, g)
  }

  /** The unsorted events of the leg seg0-seg1 with the first n polygons: every one
      belongs to one of the polygons, and none lies before the leg's start. */
  function RawEvents(seg0: Point, seg1: Point, st: real, polys: Polys, n: nat, g: SegPolyGeom): (es: seq<Event>)
    requires n <= |polys|
    ensures forall e :: e in es ==> Crossing(e, st, polys, g)
  {
    if n == 0 then []
    else
      var prev := RawEvents(seg0, seg1, st, polys, n - 1, g);
      var here := PolyEvents(seg0, seg1, st, polys[n - 1].0, g.intSeg(seg0, seg1, polys[n - 1].1), g);
      assert forall e :: e in here ==> Crossing(e, st, polys, g) by {
        assert forall e :: e in here ==> e.id == polys[n - 1].0;
      }
      prev + here
  }

  // ---- Steps 1 and 2: the legs ----

  /** Steps 1 and 2 for the leg seg0-seg1 starting at mileage st, whose start point has
      the turning-point lists tp. */
  function PlanAt(seg0: Point, seg1: Point, st: real, tp: TurnPt, polys: Polys, g: SegPolyGeom): LegPlan
  {
    var ed := st + g.dist(seg0, seg1);
    var stTang := if |tp.tans| > 0 then Some(PointPiece(seg0, tp.iner, st, None)) else None;
    var raw := RawEvents(seg0, seg1, st, polys, |polys|, g);
    LegPlan(seg0, st, stTang, LegEvents(st, ed, seg0, seg1, raw), None)
  }

  function PlanOf(path: seq<Point>, i: nat, polys: Polys, g: SegPolyGeom): LegPlan
    requires i + 1 < |path|
  {
    PlanAt(path[i], path[i + 1], MileageAt(path, g.dist, i), TurnPointOf(path[i], polys, g), polys, g)
  }

  function PlansOf(path: seq<Point>, polys: Polys, g: SegPolyGeom): (plans: seq<LegPlan>)
    ensures |plans| == Legs(path)
  {
    seq(Legs(path), i requires 0 <= i < Legs(path) => PlanOf(path, i, polys, g))
  }

  /** One step of the loop over the legs: the plan of leg i, made at the mileage of
      path[i], extends the plans of the legs before it, and the mileage moves on by the
      leg's length. */
  lemma PlansGrow(path: seq<Point>, polys: Polys, g: SegPolyGeom, i: nat, acc: real, plan: LegPlan)
    requires i < Legs(path) && acc == MileageAt(path, g.dist, i)
    requires plan == PlanAt(path[i], path[i + 1], acc, TurnPointOf(path[i], polys, g), polys, g)
    ensures PlansOf(path, polys, g)[..i + 1] == PlansOf(path, polys, g)[..i] + [plan]
    ensures acc + g.dist(path[i], path[i + 1]) == MileageAt(path, g.dist, i + 1)
  {
    var plans := PlansOf(path, polys, g);
    assert plans[i] == plan;
    TakeOneMore(plans, i);
    MileageStep(path, g.dist, i);
  }

  /** segSetPath2Poly on a path that is already reduced. */
  function SegSetOf(path: seq<Point>, polys: Polys, g: SegPolyGeom): Result<seq<Piece>>
  {
    RestoreUpTo(PlansOf(path, polys, g), Legs(path), g.ptTol)
  }

  /** Step 2, the loop over a list of parts. */
  method ManyRaw(seg0: Point, seg1: Point, st: real, p: int, parts: seq<IntPart>, g: SegPolyGeom) returns (raw: seq<Event>)
    ensures raw == PartsEvents(seg0, seg1, st, p, parts, |parts|, g)
  {
    raw := [];
    for k := 0 to |parts|
      invariant raw == PartsEvents(seg0, seg1, st, p, parts, k, g)
    {
      raw := raw + PartEvents(seg0, seg1, st, p, parts[k], true, g);
    }
  }

  /** Step 2 for one leg: the loops over the polygons and over the parts of their
      intersection with the leg. */
  method LegRaw(seg0: Point, seg1: Point, st: real, polys: Polys, g: SegPolyGeom) returns (raw: seq<Event>)
    ensures raw == RawEvents(seg0, seg1, st, polys, |polys|, g)
  {
    raw := [];
    for j := 0 to |polys|
      invariant raw == RawEvents(seg0, seg1, st, polys, j, g)
    {
      var (p, poly) := polys[j];
      var segInt := g.intSeg(seg0, seg1, poly);
      match segInt {
        case Many(parts) =>
          var partsRaw := ManyRaw(seg0, seg1, st, p, parts, g);
          raw := raw + partsRaw;
        case Single(part) =>
          raw := raw + PartEvents(seg0, seg1, st, p, part, false, g);
      }
    }
  }

  /** Steps 1 and 2 for one leg. */
  method PlanLeg(seg0: Point, seg1: Point, st: real, tp: TurnPt, polys: Polys, g: SegPolyGeom) returns (plan: LegPlan)
    ensures plan == PlanAt(seg0, seg1, st, tp, polys, g)
  {
    var stTangPt: Option<Piece> := None;
    if |tp.tans| > 0 {
      stTangPt := Some(PointPiece(seg0, tp.iner, st, None));
    }
    var ed := st + g.dist(seg0, seg1);
    var raw := LegRaw(seg0, seg1, st, polys, g);
    assert raw == RawEvents(seg0, seg1, st, polys, |polys|, g);
    var events := LegEvents(st, ed, seg0, seg1, raw);
    plan := LegPlan(seg0, st, stTangPt, events, None);
  }

  /** Steps 1 and 2: the legs' mileages, start pieces and sorted events. */
  method PlanLegs(path: seq<Point>, polys: Polys, turnPts: seq<TurnPt>, g: SegPolyGeom) returns (plans: seq<LegPlan>)
    requires |turnPts| == |path|
    requires forall i :: 0 <= i < |path| ==> turnPts[i] == TurnPointOf(path[i], polys, g)
    ensures plans == PlansOf(path, polys, g)
  {
    plans := [];
    var accMileage := 0.0;
    for i := 0 to Legs(path)
      invariant i < |path| ==> accMileage == MileageAt(path, g.dist, i)
      invariant plans == PlansOf(path, polys, g)[..i]
    {
      var plan := PlanLeg(path[i], path[i + 1], accMileage, turnPts[i], polys, g);
      PlansGrow(path, polys, g, i, accMileage, plan);
      plans := plans + [plan];
      accMileage := accMileage + g.dist(path[i], path[i + 1]);
    }
  }

  /** segSetPath2Poly. pathDegened = false reduces the path first, which fails on an
      empty path; a leave event whose polygon is not in the inside list is the ValueError
      of list.remove. */
  method SegSetPath2Poly(path: seq<Point>, polys: Polys, pathDegened: bool, g: SegPolyGeom, dev: DevFn, segTol: real)
    returns (r: Result<seq<Piece>>)
    ensures !pathDegened && path == [] ==> r == Err(IndexError)
    ensures pathDegened || path != [] ==> r == SegSetOf(TourPath(path, pathDegened, g.same, g.dist, dev, segTol), polys, g)
  {
    var p := path;
    if !pathDegened {
      var degen := PathRemoveDegen(path, g.same, g.dist, dev, segTol);
      if degen.Err? {
        return Err(degen.error);
      }
      p := degen.value.newPath;
    }
    var turnPts := TurnPoints(p, polys, g);
    var plans := PlanLegs(p, polys, turnPts, g);
    r := Restore(plans, g.ptTol);
  }

  /** Every leg of the result begins with a point piece at its start point and start
      mileage, and its spans chain from there to the leg's end (up to the tolerance). */
  lemma LegShape(path: seq<Point>, polys: Polys, g: SegPolyGeom, i: nat)
    requires i + 1 < |path|
    ensures var plan := PlanOf(path, i, polys, g);
      LegPieces(plan, g.ptTol).Ok? ==> (
        var st := MileageAt(path, g.dist, i);
        var ed := st + g.dist(path[i], path[i + 1]);
        var spans := LegSpans(plan.events, st, path[i], g.ptTol).value;
        LegPieces(plan, g.ptTol).value ==
          [PointPiece(path[i], TurnPointOf(path[i], polys, g).iner, st, None)] + SpanPieces(spans, None) &&
        Chained(spans, st, path[i], g.ptTol) &&
        (EndOf(spans, st, path[i]) == (ed, path[i + 1]) || Abs(EndOf(spans, st, path[i]).0 - ed) <= g.ptTol))
  {
    var tp := TurnPointOf(path[i], polys, g);
    assert tp.tans != [] by {
      TurnPointMeaning(path[i], polys, g);
    }
    var plan := PlanOf(path, i, polys, g);
    var st := MileageAt(path, g.dist, i);
    var ed := st + g.dist(path[i], path[i + 1]);
    assert plan.stTangPt == Some(PointPiece(path[i], tp.iner, st, None));
    SweepReachesEnd(plan.events, st, path[i], g.ptTol, ed, path[i + 1]);
  }

  /** With a distance and non-negative polygon ids, every leg's events begin with its
      start event: no crossing lies before the leg's start. */
  lemma LegStartsFirst(path: seq<Point>, polys: Polys, g: SegPolyGeom, i: nat)
    requires i + 1 < |path|
    requires IsDist(g.dist)
    requires forall j :: 0 <= j < |polys| ==> polys[j].0 >= 0
    ensures PlanOf(path, i, polys, g).events[0] == StartEvent(MileageAt(path, g.dist, i), path[i])
  {
    var st := MileageAt(path, g.dist, i);
    var raw := RawEvents(path[i], path[i + 1], st, polys, |polys|, g);
    forall e | e in raw
      ensures e.mileage >= st && e.id >= 0
    {
      assert Crossing(e, st, polys, g);
    }
    LegEventsStartFirst(st, st + g.dist(path[i], path[i + 1]), path[i], path[i + 1], raw);
  }
}
