/**
 * The enter/leave sweep shared by polyTour.py's segSetPath2Poly and segSetPath2Circle.
 *
 * Every leg of the path gets a list of events (mileage, region id, point, kind): a
 * 'start' event at the leg's start mileage, the events of its crossings with the
 * regions, sorted the way Python sorts tuples, and an 'end' event at the leg's end
 * mileage. The sweep walks that list keeping the set of regions the path is inside and
 * cuts the leg into spans wherever the mileage has moved on by more than the
 * point tolerance.
 */
module PolyTourSweep {
  import opened Wrappers
  import opened Geom
  import opened Common
  import Sorting

  /** The event kinds, in the order Python compares their names
      ('end' < 'enter' < 'leave' < 'start' < 'tangle'). */
  datatype EventKind = End | Enter | Leave | Start | Tangle

  function KindRank(k: EventKind): nat
  {
    match k
    case End => 0
    case Enter => 1
    case Leave => 2
    case Start => 3
    case Tangle => 4
  }

  /** A region id of -1 marks the leg's own start and end events. */
  datatype Event = Event(mileage: real, id: int, pt: Point, kind: EventKind)

  /** Python's comparison of (mileage, id, (x, y), kind) tuples. */
  function EventLe(a: Event, b: Event): bool
  {
    if a.mileage != b.mileage then a.mileage < b.mileage
    else if a.id != b.id then a.id < b.id
    else if a.pt.x != b.pt.x then a.pt.x < b.pt.x
    else if a.pt.y != b.pt.y then a.pt.y < b.pt.y
    else KindRank(a.kind) <= KindRank(b.kind)
  }

  lemma EventLeOrders()
    ensures Sorting.IsTotalPreorder(EventLe)
  {
    forall a: Event, b: Event, c: Event | EventLe(a, b) && EventLe(b, c)
      ensures EventLe(a, c)
    {
    }
  }

  /** Tuple comparison never ties two different events. */
  lemma EventLeAntisymmetric(a: Event, b: Event)
    requires EventLe(a, b) && EventLe(b, a)
    ensures a == b
  {
    assert a.kind == b.kind by {
      assert KindRank(a.kind) == KindRank(b.kind);
    }
  }

  function StartEvent(st: real, seg0: Point): Event
  {
    Event(st, -1, seg0, Start)
  }

  function EndEvent(ed: real, seg1: Point): Event
  {
    Event(ed, -1, seg1, End)
  }

  /** A leg's event list: the start event and the crossing events sorted together, then
      the end event. */
  function LegEvents(st: real, ed: real, seg0: Point, seg1: Point, raw: seq<Event>): (events: seq<Event>)
    ensures |events| == |raw| + 2
    ensures events[|events| - 1] == EndEvent(ed, seg1)
    ensures multiset(events[..|events| - 1]) == multiset([StartEvent(st, seg0)] + raw)
    ensures Sorting.SortedBy(events[..|events| - 1], EventLe)
  {
    EventLeOrders();
    var sorted := Sorting.SortBy([StartEvent(st, seg0)] + raw, EventLe);
    assert (sorted + [EndEvent(ed, seg1)])[..|sorted|] == sorted;
    sorted + [EndEvent(ed, seg1)]
  }

  /** The list begins with the start event exactly when no crossing event sorts below it. */
  lemma LegEventsStart(st: real, ed: real, seg0: Point, seg1: Point, raw: seq<Event>)
    ensures LegEvents(st, ed, seg0, seg1, raw)[0] == StartEvent(st, seg0)
      <==> forall e :: e in raw ==> EventLe(StartEvent(st, seg0), e)
  {
    EventLeOrders();
    var events := LegEvents(st, ed, seg0, seg1, raw);
    var sorted := events[..|events| - 1];
    var s := StartEvent(st, seg0);
    assert sorted[0] == events[0];
    forall e | e in [s] + raw
      ensures EventLe(sorted[0], e)
    {
      assert e in multiset(sorted);
      Sorting.HeadIsLeast(sorted, e, EventLe);
    }
    if events[0] == s {
      forall e | e in raw
        ensures EventLe(s, e)
      {
        assert e in [s] + raw;
      }
    } else {
      assert sorted[0] in multiset([s] + raw);
      var e := sorted[0];
      assert e in raw;
      if EventLe(s, e) {
        assert s in [s] + raw;
        EventLeAntisymmetric(s, e);
      }
    }
  }

  /** In particular the start event comes first when every crossing lies on or after the
      start mileage and every region id is non-negative. */
  lemma LegEventsStartFirst(st: real, ed: real, seg0: Point, seg1: Point, raw: seq<Event>)
    requires forall e :: e in raw ==> e.mileage >= st && e.id >= 0
    ensures LegEvents(st, ed, seg0, seg1, raw)[0] == StartEvent(st, seg0)
  {
    LegEventsStart(st, ed, seg0, seg1, raw);
  }

  /** The two events of a crossing segment int1-int2 whose ends lie d1 and d2 along the
      leg: the nearer end enters, the farther end leaves (int2 first on a tie). */
  function SegEvents(st: real, id: int, int1: Point, int2: Point, d1: real, d2: real): (es: seq<Event>)
    ensures |es| == 2 && es[0].kind == Enter && es[1].kind == Leave
    ensures es[0].id == id && es[1].id == id
    ensures es[0].mileage == st + Min(d1, d2) && es[1].mileage == st + Max(d1, d2)
    ensures es[0].mileage <= es[1].mileage
    ensures (es[0].pt, es[1].pt) == (if d1 < d2 then (int1, int2) else (int2, int1))
  {
    if d1 < d2 then [Event(d1 + st, id, int1, Enter), Event(d2 + st, id, int2, Leave)]
    else [Event(d2 + st, id, int2, Enter), Event(d1 + st, id, int1, Leave)]
  }

  /** The index of the first occurrence of x. */
  function FirstIndex(s: seq<int>, x: int): (k: nat)
    requires x in s
    ensures k < |s| && s[k] == x
    ensures forall j :: 0 <= j < k ==> s[j] != x
  {
    if s[0] == x then 0 else 1 + FirstIndex(s[1..], x)
  }

  /** list.remove(x): drops the first occurrence of x. */
  function RemoveFirst(s: seq<int>, x: int): (r: seq<int>)
    requires x in s
  {
    var k := FirstIndex(s, x);
    s[..k] + s[k + 1..]
  }

  lemma RemoveFirstCounts(s: seq<int>, x: int)
    requires x in s
    ensures |RemoveFirst(s, x)| == |s| - 1
    ensures multiset(RemoveFirst(s, x)) == multiset(s) - multiset{x}
  {
    var k := FirstIndex(s, x);
    assert s == s[..k] + [x] + s[k + 1..];
  }

  /** The inside list after one event; leaving a region that is not in it is list.remove's
      ValueError. */
  function Apply(inside: seq<int>, e: Event): Result<seq<int>>
  {
    match e.kind
    case Enter => Ok(inside + [e.id])
    case Leave => if e.id in inside then Ok(RemoveFirst(inside, e.id)) else Err(ValueError("list.remove(x): x not in list"))
    case _ => Ok(inside)
  }

  /** The inside list after the first n events, starting from the empty list. */
  function InsideAfter(events: seq<Event>, n: nat): Result<seq<int>>
    requires n <= |events|
  {
    if n == 0 then Ok([])
    else
      match InsideAfter(events, n - 1)
      case Err(err) => Err(err)
      case Ok(inside) => Apply(inside, events[n - 1])
  }

  /** A piece of a leg between two mileages, with the regions it lies inside. */
  datatype Span = Span(from: Point, to: Point, belong: seq<int>, m1: real, m2: real)

  datatype SweepState = SweepState(curM: real, curPt: Point, inside: seq<int>, spans: seq<Span>)

  /** One event: close a span when the mileage has moved on by more than tol, then enter
      or leave. */
  function StepEvent(s: SweepState, e: Event, tol: real): Result<SweepState>
  {
    var s' := if Abs(e.mileage - s.curM) > tol
      then SweepState(e.mileage, e.pt, s.inside, s.spans + [Span(s.curPt, e.pt, s.inside, s.curM, e.mileage)])
      else s;
    match Apply(s'.inside, e)
    case Err(err) => Err(err)
    case Ok(inside) => Ok(s'.(inside := inside))
  }

  /** The sweep over the first n events of a leg starting at mileage m0 and point p0. */
  function SweepUpTo(events: seq<Event>, n: nat, m0: real, p0: Point, tol: real): Result<SweepState>
    requires n <= |events|
  {
    if n == 0 then Ok(SweepState(m0, p0, [], []))
    else
      match SweepUpTo(events, n - 1, m0, p0, tol)
      case Err(err) => Err(err)
      case Ok(s) => StepEvent(s, events[n - 1], tol)
  }

  /** The spans of a whole leg. */
  function LegSpans(events: seq<Event>, m0: real, p0: Point, tol: real): Result<seq<Span>>
  {
    match SweepUpTo(events, |events|, m0, p0, tol)
    case Err(err) => Err(err)
    case Ok(s) => Ok(s.spans)
  }

  /** The sweep fails exactly when some leave event finds its region missing, and the
      inside list it carries is the enter/leave fold of the events so far. */
  lemma {:induction false} SweepInside(events: seq<Event>, n: nat, m0: real, p0: Point, tol: real)
    requires n <= |events|
    ensures SweepUpTo(events, n, m0, p0, tol).Ok? <==> InsideAfter(events, n).Ok?
    ensures SweepUpTo(events, n, m0, p0, tol).Ok? ==>
      SweepUpTo(events, n, m0, p0, tol).value.inside == InsideAfter(events, n).value
  {
    if n > 0 {
      SweepInside(events, n - 1, m0, p0, tol);
    }
  }

  /** Spans follow one another: the first starts at (p0, m0), each next one where the
      previous ended, and each covers more than tol of mileage. */
  predicate Chained(spans: seq<Span>, m0: real, p0: Point, tol: real)
  {
    (forall j :: 0 <= j < |spans| ==> Abs(spans[j].m2 - spans[j].m1) > tol) &&
    (|spans| > 0 ==> spans[0].from == p0 && spans[0].m1 == m0) &&
    (forall j :: 0 < j < |spans| ==> spans[j].from == spans[j - 1].to && spans[j].m1 == spans[j - 1].m2)
  }

  /** Where the last span ended, or the leg's start when there is none. */
  function EndOf(spans: seq<Span>, m0: real, p0: Point): (real, Point)
  {
    if spans == [] then (m0, p0) else (spans[|spans| - 1].m2, spans[|spans| - 1].to)
  }

  lemma {:induction false} SweepChained(events: seq<Event>, n: nat, m0: real, p0: Point, tol: real)
    requires n <= |events|
    ensures SweepUpTo(events, n, m0, p0, tol).Ok? ==> (
      var s := SweepUpTo(events, n, m0, p0, tol).value;
      Chained(s.spans, m0, p0, tol) && (s.curM, s.curPt) == EndOf(s.spans, m0, p0))
  {
    if n > 0 && SweepUpTo(events, n, m0, p0, tol).Ok? {
      SweepChained(events, n - 1, m0, p0, tol);
      var prev := SweepUpTo(events, n - 1, m0, p0, tol).value;
      var e := events[n - 1];
      if Abs(e.mileage - prev.curM) > tol {
        ChainGrows(prev.spans, m0, p0, tol, Span(prev.curPt, e.pt, prev.inside, prev.curM, e.mileage));
      }
    }
  }

  lemma ChainGrows(spans: seq<Span>, m0: real, p0: Point, tol: real, sp: Span)
    requires Chained(spans, m0, p0, tol)
    requires (sp.m1, sp.from) == EndOf(spans, m0, p0) && Abs(sp.m2 - sp.m1) > tol
    ensures Chained(spans + [sp], m0, p0, tol)
    ensures EndOf(spans + [sp], m0, p0) == (sp.m2, sp.to)
  {
    var t := spans + [sp];
    forall j | 0 <= j < |t|
      ensures Abs(t[j].m2 - t[j].m1) > tol
    {
      if j < |spans| {
        assert t[j] == spans[j];
      }
    }
    forall j | 0 < j < |t|
      ensures t[j].from == t[j - 1].to && t[j].m1 == t[j - 1].m2
    {
      if j < |spans| {
        assert t[j] == spans[j] && t[j - 1] == spans[j - 1];
      } else {
        assert t[j - 1] == spans[|spans| - 1];
      }
    }
  }

  /** A leg whose events end with its end event is covered: its spans chain from the
      start, and the last one ends at the end event or within tol of its mileage. */
  lemma SweepReachesEnd(events: seq<Event>, m0: real, p0: Point, tol: real, ed: real, seg1: Point)
    requires |events| > 0 && events[|events| - 1] == EndEvent(ed, seg1)
    ensures LegSpans(events, m0, p0, tol).Ok? ==> (
      var spans := LegSpans(events, m0, p0, tol).value;
      Chained(spans, m0, p0, tol) &&
      (EndOf(spans, m0, p0) == (ed, seg1) || Abs(EndOf(spans, m0, p0).0 - ed) <= tol))
  {
    var n := |events|;
    SweepChained(events, n, m0, p0, tol);
    SweepChained(events, n - 1, m0, p0, tol);
  }

  /** A span was closed by event k: it ends at that event, and its regions are the inside
      list just before it. */
  predicate ClosedAt(events: seq<Event>, sp: Span, k: nat)
    requires k < |events|
  {
    InsideAfter(events, k) == Ok(sp.belong) && sp.to == events[k].pt && sp.m2 == events[k].mileage
  }

  ghost predicate ClosedBySome(events: seq<Event>, sp: Span, n: nat)
    requires n <= |events|
  {
    exists k :: 0 <= k < n && ClosedAt(events, sp, k)
  }

  /** Every span ends at an event and belongs to the regions the path is inside there. */
  lemma {:induction false} SweepBelong(events: seq<Event>, n: nat, m0: real, p0: Point, tol: real)
    requires n <= |events|
    ensures SweepUpTo(events, n, m0, p0, tol).Ok? ==> (
      var s := SweepUpTo(events, n, m0, p0, tol).value;
      forall j :: 0 <= j < |s.spans| ==> ClosedBySome(events, s.spans[j], n))
  {
    if n > 0 && SweepUpTo(events, n, m0, p0, tol).Ok? {
      SweepBelong(events, n - 1, m0, p0, tol);
      SweepInside(events, n - 1, m0, p0, tol);
      var prev := SweepUpTo(events, n - 1, m0, p0, tol).value;
      var s := SweepUpTo(events, n, m0, p0, tol).value;
      forall j | 0 <= j < |s.spans|
        ensures ClosedBySome(events, s.spans[j], n)
      {
        if j < |prev.spans| {
          assert s.spans[j] == prev.spans[j];
          var k :| 0 <= k < n - 1 && ClosedAt(events, prev.spans[j], k);
        } else {
          assert ClosedAt(events, s.spans[j], n - 1);
        }
      }
    }
  }

  /** Once the sweep has failed it stays failed. */
  lemma {:induction false} SweepErrSticks(events: seq<Event>, k: nat, n: nat, m0: real, p0: Point, tol: real)
    requires k <= n <= |events|
    requires SweepUpTo(events, k, m0, p0, tol).Err?
    ensures SweepUpTo(events, n, m0, p0, tol) == Err(SweepUpTo(events, k, m0, p0, tol).error)
    decreases n - k
  {
    if k < n {
      SweepErrSticks(events, k, n - 1, m0, p0, tol);
    }
  }

  /** Step 3 of segSetPath2Poly / segSetPath2Circle for one leg: the loop over the leg's
      events with the current mileage, the current point and the inside list. */
  method SweepLeg(events: seq<Event>, m0: real, p0: Point, tol: real) returns (r: Result<seq<Span>>)
    ensures r == LegSpans(events, m0, p0, tol)
  {
    var curM, curPt := m0, p0;
    var inside: seq<int> := [];
    var spans: seq<Span> := [];
    for k := 0 to |events|
      invariant SweepUpTo(events, k, m0, p0, tol) == Ok(SweepState(curM, curPt, inside, spans))
    {
      var e := events[k];
      if Abs(e.mileage - curM) > tol {
        spans := spans + [Span(curPt, e.pt, inside, curM, e.mileage)];
        curM, curPt := e.mileage, e.pt;
      }
      if e.kind == Enter {
        inside := inside + [e.id];
      } else if e.kind == Leave {
        if e.id !in inside {
          SweepErrSticks(events, k + 1, |events|, m0, p0, tol);
          return Err(ValueError("list.remove(x): x not in list"));
        }
        inside := RemoveFirst(inside, e.id);
      }
    }
    r := Ok(spans);
  }

  /** An entry of the result: a turning point on a region's edge, or a span of a leg.
      The circle variant also records the leg's index. */
  datatype Piece =
    | PointPiece(pt: Point, belong: seq<Option<int>>, mileage: real, segID: Option<nat>)
    | SegmentPiece(span: Span, segID: Option<nat>)

  function SpanPieces(spans: seq<Span>, segID: Option<nat>): (ps: seq<Piece>)
    ensures |ps| == |spans|
    ensures forall j :: 0 <= j < |ps| ==> ps[j] == SegmentPiece(spans[j], segID)
  {
    seq(|spans|, j requires 0 <= j < |spans| => SegmentPiece(spans[j], segID))
  }

  /** What Steps 0-2 prepare for one leg: its start point and mileage, the point piece
      recorded when the start point is on a region's edge, the sorted events and the leg's
      index where the variant records it. */
  datatype LegPlan = LegPlan(seg0: Point, st: real, stTangPt: Option<Piece>, events: seq<Event>, segID: Option<nat>)

  /** The pieces of one leg: the point piece, if any, then its spans. */
  function LegPieces(plan: LegPlan, tol: real): Result<seq<Piece>>
  {
    var head := if plan.stTangPt.Some? then [plan.stTangPt.value] else [];
    match LegSpans(plan.events, plan.st, plan.seg0, tol)
    case Err(err) => Err(err)
    case Ok(spans) => Ok(head + SpanPieces(spans, plan.segID))
  }

  /** The pieces of the first n legs; the first leg that fails ends the whole. */
  function RestoreUpTo(plans: seq<LegPlan>, n: nat, tol: real): Result<seq<Piece>>
    requires n <= |plans|
  {
    if n == 0 then Ok([])
    else
      match RestoreUpTo(plans, n - 1, tol)
      case Err(err) => Err(err)
      case Ok(pieces) =>
        match LegPieces(plans[n - 1], tol)
        case Err(err) => Err(err)
        case Ok(leg) => Ok(pieces + leg)
  }

  /** The result is the legs' pieces one after the other, and it fails exactly when one
      leg's sweep fails. */
  lemma {:induction false} RestoreLegs(plans: seq<LegPlan>, n: nat, tol: real)
    requires n <= |plans|
    ensures RestoreUpTo(plans, n, tol).Ok? <==> forall i :: 0 <= i < n ==> LegPieces(plans[i], tol).Ok?
    ensures RestoreUpTo(plans, n, tol).Ok? ==>
      RestoreUpTo(plans, n, tol).value == Flatten(seq(n, i requires 0 <= i < n => LegPieces(plans[i], tol).value))
  {
    if n > 0 {
      RestoreLegs(plans, n - 1, tol);
      if RestoreUpTo(plans, n, tol).Ok? {
        var legs := seq(n, i requires 0 <= i < n => LegPieces(plans[i], tol).value);
        assert legs[..n - 1] == seq(n - 1, i requires 0 <= i < n - 1 => LegPieces(plans[i], tol).value);
        FlattenSnoc(legs[..n - 1], legs[n - 1]);
        assert legs == legs[..n - 1] + [legs[n - 1]];
      }
    }
  }

  /** Step 3: the loop over the legs, each adding its point piece and its spans. */
  method Restore(plans: seq<LegPlan>, tol: real) returns (r: Result<seq<Piece>>)
    ensures r == RestoreUpTo(plans, |plans|, tol)
  {
    var segSet: seq<Piece> := [];
    for i := 0 to |plans|
      invariant RestoreUpTo(plans, i, tol) == Ok(segSet)
    {
      var plan := plans[i];
      ghost var before := segSet;
      ghost var head := if plan.stTangPt.Some? then [plan.stTangPt.value] else [];
      if plan.stTangPt.Some? {
        segSet := segSet + [plan.stTangPt.value];
      }
      var spans := SweepLeg(plan.events, plan.st, plan.seg0, tol);
      if spans.Err? {
        RestoreErrSticks(plans, i + 1, |plans|, tol);
        return Err(spans.error);
      }
      segSet := segSet + SpanPieces(spans.value, plan.segID);
      assert segSet == before + (head + SpanPieces(spans.value, plan.segID));
    }
    r := Ok(segSet);
  }

  lemma {:induction false} RestoreErrSticks(plans: seq<LegPlan>, k: nat, n: nat, tol: real)
    requires k <= n <= |plans|
    requires RestoreUpTo(plans, k, tol).Err?
    ensures RestoreUpTo(plans, n, tol) == Err(RestoreUpTo(plans, k, tol).error)
    decreases n - k
  {
    if k < n {
      RestoreErrSticks(plans, k, n - 1, tol);
    }
  }
}
