/**
 * curveArc2CurveArcPath: the adaptive search through an ordered list of circular arcs.
 * Each arc holds a chain of samples (key -> degree and point) that is open at both ends.
 * An edge's time is max(length / speed, the leg's minimum time) and its weight is
 * time * M + length, with M larger than any distance the route can gain; the search
 * minimises the weight and stops on the change of the route's time. A graph over all
 * samples is searched once (arc-to-arc edges of length 0.005 or less left out); after
 * that every pass inserts samples around each waypoint and rebuilds the graph over the
 * waypoints' neighbourhoods of up to five samples.
 */
module ArcAdapt {
  import opened Wrappers
  import opened Geom
  import opened Rings
  import opened LayeredGraph
  import opened Routes
  import PolyAdapt
  import CircleAdapt

  /** A curve-arc node's data: its degree on the circle and its point. */
  type Sample = CircleAdapt.CircSample

  /** The circle an arc lies on; its samples live in the arc's ring. */
  datatype Arc = Arc(center: Point, radius: real)

  /** What the arc's insertAround places between two neighbouring samples. */
  type MidFn = (Sample, Sample) -> Sample

  /** Arc-to-arc edges this short are left out of the first graph. */
  const MinLegLen: real := 0.005

  /** The factor on the largest span that makes M. */
  const MScale: real := 1.2

  /** Everything an edge's time and weight depend on besides its length. */
  datatype Setting = Setting(dist: DistFn, st: Point, en: Point, speed: real, atLeast: seq<real>, M: real)

  /** The result: the path, its time and its length; no route at all through the first
      graph (networkx raises NetworkXNoPath); or the fuel ran out before the stop test held. */
  datatype Outcome = Found(path: seq<Point>, time: real, dist: real) | NoPath | OutOfFuel

  // ---- M and the minimum leg times ----

  /** How far apart two arcs can put two points: centre distance plus both radii. */
  function Span(dist: DistFn, arcs: seq<Arc>, i: nat, j: nat): real
    requires i < |arcs| && j < |arcs|
  {
    dist(arcs[i].center, arcs[j].center) + arcs[i].radius + arcs[j].radius
  }

  /** M is 1.2 times the largest span over pairs of arcs, or 0 when no span is positive. */
  ghost predicate IsScale(dist: DistFn, arcs: seq<Arc>, M: real)
  {
    M >= 0.0 &&
    (forall i, j :: 0 <= i < j < |arcs| ==> MScale * Span(dist, arcs, i, j) <= M) &&
    (M == 0.0 || exists i, j :: 0 <= i < j < |arcs| && M == MScale * Span(dist, arcs, i, j))
  }

  /** The largest span over the pairs i < j, scaled by 1.2. */
  method ScaleM(dist: DistFn, arcs: seq<Arc>) returns (M: real)
    ensures IsScale(dist, arcs, M)
    ensures |arcs| <= 1 ==> M == 0.0
  {
    var m := 0.0;
    var i := 0;
    while i + 1 < |arcs|
      invariant i <= |arcs| || i == 0
      invariant m >= 0.0
      invariant forall a, b :: 0 <= a < i && a < b < |arcs| ==> Span(dist, arcs, a, b) <= m
      invariant m == 0.0 || exists a, b :: 0 <= a < b < |arcs| && m == Span(dist, arcs, a, b)
    {
      var j := i + 1;
      while j < |arcs|
        invariant i + 1 <= j <= |arcs|
        invariant m >= 0.0
        invariant forall a, b :: 0 <= a < i && a < b < |arcs| ==> Span(dist, arcs, a, b) <= m
        invariant forall b :: i < b < j ==> Span(dist, arcs, i, b) <= m
        invariant m == 0.0 || exists a, b :: 0 <= a < b < |arcs| && m == Span(dist, arcs, a, b)
      {
        var d := dist(arcs[i].center, arcs[j].center) + arcs[i].radius + arcs[j].radius;
        if d > m {
          m := d;
          assert m == Span(dist, arcs, i, j);
        }
        j := j + 1;
      }
      i := i + 1;
    }
    M := m * MScale;
  }

  /** atLeastTimeBtw as given, or one 0 per leg (len(curveArcs) + 1 of them). */
  function MinTimes(atLeast: Option<seq<real>>, n: nat): (r: seq<real>)
    ensures atLeast.Some? ==> r == atLeast.value
    ensures atLeast.None? ==> |r| == n + 1 && forall i :: 0 <= i < |r| ==> r[i] == 0.0
  {
    match atLeast
    case Some(a) => a
    case None => seq(n + 1, i => 0.0)
  }

  // ---- edge time and weight ----

  /** The entry of atLeastTimeBtw an edge uses: 0 out of 's', i + 1 from arc i to arc
      i + 1, the last one (index -1) into 'e'. */
  function Leg(e: (Node, Node), nLegs: nat): nat
  {
    if e.0.Start? then 0
    else if e.1.End? then (if nLegs == 0 then 0 else nLegs - 1)
    else if e.1.V? then e.1.layer
    else 0
  }

  /** The setting serves n arcs: a positive speed and a minimum time for every leg. */
  predicate Fits(t: Setting, n: nat)
  {
    t.speed > 0.0 && |t.atLeast| >= n && |t.atLeast| >= 1
  }

  function LegTime(t: Setting, d: real, leg: nat): real
    requires t.speed > 0.0 && leg < |t.atLeast|
  {
    var travel := d / t.speed;
    if travel >= t.atLeast[leg] then travel else t.atLeast[leg]
  }

  function LegWeight(t: Setting, d: real, leg: nat): real
    requires t.speed > 0.0 && leg < |t.atLeast|
  {
    LegTime(t, d, leg) * t.M + d
  }

  lemma LegInRange(t: Setting, S: Samples, e: (Node, Node))
    requires Fits(t, |S|) && LiveEdge(S, e)
    ensures Leg(e, |t.atLeast|) < |t.atLeast|
  {
  }

  /** The time and the weight of a live edge, from its true length. */
  function EdgeTime(t: Setting, S: Samples, e: (Node, Node)): real
    requires Fits(t, |S|) && LiveEdge(S, e)
  {
    LegInRange(t, S, e);
    LegTime(t, EdgeLen(t.dist, t.st, t.en, S, e), Leg(e, |t.atLeast|))
  }

  function EdgeWeight(t: Setting, S: Samples, e: (Node, Node)): real
    requires Fits(t, |S|) && LiveEdge(S, e)
  {
    LegInRange(t, S, e);
    LegWeight(t, EdgeLen(t.dist, t.st, t.en, S, e), Leg(e, |t.atLeast|))
  }

  function EdgeCost(t: Setting, S: Samples, e: (Node, Node), timed: bool): real
    requires Fits(t, |S|) && LiveEdge(S, e)
  {
    if timed then EdgeTime(t, S, e) else EdgeWeight(t, S, e)
  }

  /** G holds the weights and Tm the times of the same live edges. */
  ghost predicate Attributed(t: Setting, S: Samples, G: Graph, Tm: Graph)
  {
    Fits(t, |S|) && (forall e :: e in G <==> e in Tm) &&
    forall e :: e in G ==> LiveEdge(S, e) && G[e] == EdgeWeight(t, S, e) && Tm[e] == EdgeTime(t, S, e)
  }

  // ---- the cost of a route, independent of any graph ----

  /** The edge a prefix ends with. */
  function LastEdge(p: seq<nat>): (Node, Node)
    requires |p| >= 1
  {
    if |p| == 1 then (Start, V(0, p[0])) else (V(|p| - 2, p[|p| - 2]), V(|p| - 1, p[|p| - 1]))
  }

  /** The time (timed) or the weight of the edges s -> (0, p[0]) -> ... -> (|p|-1, p[|p|-1]). */
  function PrefixCost(t: Setting, S: Samples, p: seq<nat>, timed: bool): real
    requires Fits(t, |S|) && 1 <= |p| <= |S| && OnSamples(S, p)
    decreases |p|
  {
    assert LiveEdge(S, LastEdge(p));
    (if |p| == 1 then 0.0 else PrefixCost(t, S, p[..|p| - 1], timed)) + EdgeCost(t, S, LastEdge(p), timed)
  }

  /** The time or the weight of the whole route through all |S| arcs. */
  function RouteCost(t: Setting, S: Samples, p: seq<nat>, timed: bool): real
    requires Fits(t, |S|) && |p| == |S| >= 1 && OnSamples(S, p)
  {
    assert LiveEdge(S, (V(|p| - 1, p[|p| - 1]), End));
    PrefixCost(t, S, p, timed) + EdgeCost(t, S, (V(|p| - 1, p[|p| - 1]), End), timed)
  }

  /** In an attributed graph a route prefix weighs its weight cost and the time map
      holds the same prefix with its time cost. */
  lemma {:induction false} AttributedPrefix(t: Setting, S: Samples, G: Graph, Tm: Graph, p: seq<nat>)
    requires Attributed(t, S, G, Tm) && PrefixOk(G, p)
    ensures PrefixOk(Tm, p) && |p| <= |S| && OnSamples(S, p)
    ensures PrefixW(G, p) == PrefixCost(t, S, p, false)
    ensures PrefixW(Tm, p) == PrefixCost(t, S, p, true)
    decreases |p|
  {
    assert LastEdge(p) in G && LiveEdge(S, LastEdge(p));
    if |p| > 1 {
      var q := p[..|p| - 1];
      AttributedPrefix(t, S, G, Tm, q);
      assert q[|q| - 1] == p[|p| - 2];
    }
  }

  lemma AttributedRoute(t: Setting, S: Samples, G: Graph, Tm: Graph, p: seq<nat>)
    requires Attributed(t, S, G, Tm) && IsRoute(G, |S|, p)
    ensures IsRoute(Tm, |S|, p) && OnSamples(S, p)
    ensures RouteW(G, p) == RouteCost(t, S, p, false)
    ensures RouteW(Tm, p) == RouteCost(t, S, p, true)
  {
    AttributedPrefix(t, S, G, Tm, p);
  }

  /** Samples only added: a route's costs do not change. */
  lemma {:induction false} PrefixCostGrows(t: Setting, S: Samples, S': Samples, p: seq<nat>, timed: bool)
    requires Fits(t, |S|) && Grows(S, S') && 1 <= |p| <= |S| && OnSamples(S, p)
    ensures OnSamples(S', p) && PrefixCost(t, S', p, timed) == PrefixCost(t, S, p, timed)
    decreases |p|
  {
    assert LiveEdge(S, LastEdge(p));
    if |p| > 1 {
      PrefixCostGrows(t, S, S', p[..|p| - 1], timed);
    }
  }

  lemma RouteCostGrows(t: Setting, S: Samples, S': Samples, p: seq<nat>, timed: bool)
    requires Fits(t, |S|) && Grows(S, S') && |p| == |S| >= 1 && OnSamples(S, p)
    ensures OnSamples(S', p) && RouteCost(t, S', p, timed) == RouteCost(t, S, p, timed)
  {
    PrefixCostGrows(t, S, S', p, timed);
  }

  // ---- the memo ----

  /**
   * The distance of edge e through tau: read back when e is present, otherwise
   * computed from the two end points once and stored. An entry is never overwritten.
   */
  method Memo(t: Setting, S: Samples, tau: Graph, e: (Node, Node), p: Point, q: Point)
    returns (d: real, tau2: Graph)
    requires Faithful(t.dist, t.st, t.en, S, tau) && LiveEdge(S, e)
    requires t.dist(p, q) == EdgeLen(t.dist, t.st, t.en, S, e)
    ensures Faithful(t.dist, t.st, t.en, S, tau2) && PolyAdapt.MemoGrows(tau, tau2)
    ensures e in tau2 && d == tau2[e] == EdgeLen(t.dist, t.st, t.en, S, e)
    ensures e in tau ==> tau2 == tau
    ensures forall x :: x in tau2 ==> x in tau || x == e
  {
    if e !in tau {
      d := t.dist(p, q);
      tau2 := tau[e := d];
    } else {
      d := tau[e];
      tau2 := tau;
    }
  }

  // ---- the graphs: both attributes of every edge, distances through the memo ----

  /** add_edge(u, v, weight = ..., time = ...) for a live edge of true length d. */
  method AddEdge(t: Setting, S: Samples, G0: Graph, Tm0: Graph, e: (Node, Node), d: real)
    returns (G: Graph, Tm: Graph)
    requires Attributed(t, S, G0, Tm0) && LiveEdge(S, e) && d == EdgeLen(t.dist, t.st, t.en, S, e)
    ensures Attributed(t, S, G, Tm) && e in G
    ensures forall x :: x in G <==> x in G0 || x == e
  {
    LegInRange(t, S, e);
    var leg := Leg(e, |t.atLeast|);
    G := G0[e := LegWeight(t, d, leg)];
    Tm := Tm0[e := LegTime(t, d, leg)];
  }

  /** The edges a graph over the key lists L holds: every edge among the lists, except,
      when filter is on, the arc-to-arc edges of length 0.005 or less. */
  ghost predicate Kept(t: Setting, S: Samples, L: seq<seq<nat>>, filter: bool, e: (Node, Node))
  {
    PolyAdapt.NearEdge(L, e) && LiveEdge(S, e) &&
    (filter && PolyAdapt.Middle(e) ==> EdgeLen(t.dist, t.st, t.en, S, e) > MinLegLen)
  }

  /** What every step of the graph construction keeps: both attributes right, only
      kept edges, the memo faithful and only grown. */
  ghost predicate Building(t: Setting, S: Samples, L: seq<seq<nat>>, filter: bool,
                           G: Graph, Tm: Graph, tau0: Graph, tau: Graph)
  {
    Attributed(t, S, G, Tm) && (forall e :: e in G ==> Kept(t, S, L, filter, e)) &&
    Faithful(t.dist, t.st, t.en, S, tau) && PolyAdapt.MemoGrows(tau0, tau)
  }

  /** One candidate edge: its distance through the memo, then add_edge when it is kept. */
  method Offer(t: Setting, S: Samples, L: seq<seq<nat>>, filter: bool, G0: Graph, Tm0: Graph,
               tau0: Graph, tau1: Graph, e: (Node, Node), p: Point, q: Point) returns (G: Graph, Tm: Graph, tau: Graph)
    requires Building(t, S, L, filter, G0, Tm0, tau0, tau1)
    requires PolyAdapt.NearEdge(L, e) && LiveEdge(S, e) && t.dist(p, q) == EdgeLen(t.dist, t.st, t.en, S, e)
    ensures Building(t, S, L, filter, G, Tm, tau0, tau)
    ensures forall x :: x in G <==> x in G0 || (x == e && Kept(t, S, L, filter, e))
  {
    var d;
    d, tau := Memo(t, S, tau1, e, p, q);
    if !filter || !e.0.V? || !e.1.V? || d > MinLegLen {
      G, Tm := AddEdge(t, S, G0, Tm0, e, d);
    } else {
      G, Tm := G0, Tm0;
    }
  }

  /** 's' to every listed sample of the first arc, leg 0. */
  method StartFan(t: Setting, S: Samples, L: seq<seq<nat>>, filter: bool,
                  G0: Graph, Tm0: Graph, tau0: Graph) returns (G: Graph, Tm: Graph, tau: Graph)
    requires PolyAdapt.ListsIn(S, L) && |L| >= 1
    requires Building(t, S, L, filter, G0, Tm0, tau0, tau0)
    ensures Building(t, S, L, filter, G, Tm, tau0, tau)
    ensures forall e :: e in G0 ==> e in G
    ensures forall k :: k in L[0] ==> (Start, V(0, k)) in G
  {
    G, Tm, tau := G0, Tm0, tau0;
    var ks := L[0];
    var j := 0;
    while j < |ks|
      invariant j <= |ks| && Building(t, S, L, filter, G, Tm, tau0, tau)
      invariant forall e :: e in G0 ==> e in G
      invariant forall x :: 0 <= x < j ==> (Start, V(0, ks[x])) in G
    {
      G, Tm, tau := Offer(t, S, L, filter, G, Tm, tau0, tau, (Start, V(0, ks[j])), t.st, S[0][ks[j]]);
      j := j + 1;
    }
  }

  /** Sample a of arc i to every listed sample of arc j = i + 1. */
  method PairRow(t: Setting, S: Samples, L: seq<seq<nat>>, filter: bool, i: nat, j: nat, a: nat,
                 G0: Graph, Tm0: Graph, tau0: Graph, tau1: Graph) returns (G: Graph, Tm: Graph, tau: Graph)
    requires PolyAdapt.ListsIn(S, L) && j == i + 1 && j < |L| && a in L[i]
    requires Building(t, S, L, filter, G0, Tm0, tau0, tau1)
    ensures Building(t, S, L, filter, G, Tm, tau0, tau)
    ensures forall e :: e in G0 ==> e in G
    ensures forall b :: b in L[j] && Kept(t, S, L, filter, (V(i, a), V(j, b))) ==> (V(i, a), V(j, b)) in G
  {
    G, Tm, tau := G0, Tm0, tau1;
    var ks := L[j];
    var y := 0;
    while y < |ks|
      invariant y <= |ks| && Building(t, S, L, filter, G, Tm, tau0, tau)
      invariant forall e :: e in G0 ==> e in G
      invariant forall y' :: 0 <= y' < y && Kept(t, S, L, filter, (V(i, a), V(j, ks[y']))) ==>
        (V(i, a), V(j, ks[y'])) in G
    {
      G, Tm, tau := Offer(t, S, L, filter, G, Tm, tau0, tau, (V(i, a), V(j, ks[y])), S[i][a], S[j][ks[y]]);
      y := y + 1;
    }
  }

  /** Every listed sample of arc i to every listed sample of arc j = i + 1, leg j; with
      the filter on, only the pairs more than 0.005 apart. */
  method PairBlock(t: Setting, S: Samples, L: seq<seq<nat>>, filter: bool, i: nat, j: nat,
                   G0: Graph, Tm0: Graph, tau0: Graph, tau1: Graph) returns (G: Graph, Tm: Graph, tau: Graph)
    requires PolyAdapt.ListsIn(S, L) && j == i + 1 && j < |L|
    requires Building(t, S, L, filter, G0, Tm0, tau0, tau1)
    ensures Building(t, S, L, filter, G, Tm, tau0, tau)
    ensures forall e :: e in G0 ==> e in G
    ensures forall a, b :: a in L[i] && b in L[j] && Kept(t, S, L, filter, (V(i, a), V(j, b))) ==>
      (V(i, a), V(j, b)) in G
  {
    G, Tm, tau := G0, Tm0, tau1;
    var ks := L[i];
    var x := 0;
    while x < |ks|
      invariant x <= |ks| && Building(t, S, L, filter, G, Tm, tau0, tau)
      invariant forall e :: e in G0 ==> e in G
      invariant forall x', b :: 0 <= x' < x && b in L[j] && Kept(t, S, L, filter, (V(i, ks[x']), V(j, b))) ==>
        (V(i, ks[x']), V(j, b)) in G
    {
      G, Tm, tau := PairRow(t, S, L, filter, i, j, ks[x], G, Tm, tau0, tau);
      x := x + 1;
    }
  }

  /** Every listed sample of the last arc to 'e', the last leg. */
  method EndFan(t: Setting, S: Samples, L: seq<seq<nat>>, filter: bool, last: nat,
                G0: Graph, Tm0: Graph, tau0: Graph, tau1: Graph) returns (G: Graph, Tm: Graph, tau: Graph)
    requires PolyAdapt.ListsIn(S, L) && last + 1 == |L|
    requires Building(t, S, L, filter, G0, Tm0, tau0, tau1)
    ensures Building(t, S, L, filter, G, Tm, tau0, tau)
    ensures forall e :: e in G0 ==> e in G
    ensures forall k :: k in L[last] ==> (V(last, k), End) in G
  {
    G, Tm, tau := G0, Tm0, tau1;
    var ks := L[last];
    var j := 0;
    while j < |ks|
      invariant j <= |ks| && Building(t, S, L, filter, G, Tm, tau0, tau)
      invariant forall e :: e in G0 ==> e in G
      invariant forall x :: 0 <= x < j ==> (V(last, ks[x]), End) in G
    {
      G, Tm, tau := Offer(t, S, L, filter, G, Tm, tau0, tau, (V(last, ks[j]), End), S[last][ks[j]], t.en);
      j := j + 1;
    }
  }

  /** A graph holding the start fan, the kept middle edges below the last arc and the
      end fan holds every kept edge. */
  lemma KeptCovered(t: Setting, S: Samples, L: seq<seq<nat>>, filter: bool, G: Graph, last: nat)
    requires last + 1 == |L|
    requires forall k :: k in L[0] ==> (Start, V(0, k)) in G
    requires forall e :: Kept(t, S, L, filter, e) && PolyAdapt.Middle(e) && e.0.layer < last ==> e in G
    requires forall k :: k in L[last] ==> (V(last, k), End) in G
    ensures forall e :: Kept(t, S, L, filter, e) ==> e in G
  {
    forall e | Kept(t, S, L, filter, e) ensures e in G {
      if e.0.Start? {
        assert e == (Start, V(0, e.1.key));
      } else if e.1.End? {
        assert e == (V(last, e.0.key), End);
      }
    }
  }

  /** Adding the block from arc i to arc j = i + 1 extends the kept middle edges held
      from those below arc i to those below arc j. */
  lemma BlockCovered(t: Setting, S: Samples, L: seq<seq<nat>>, filter: bool, G0: Graph, G: Graph, i: nat, j: nat)
    requires j == i + 1 && j < |L|
    requires forall e :: Kept(t, S, L, filter, e) && PolyAdapt.Middle(e) && e.0.layer < i ==> e in G0
    requires forall e :: e in G0 ==> e in G
    requires forall a, b :: a in L[i] && b in L[j] && Kept(t, S, L, filter, (V(i, a), V(j, b))) ==>
      (V(i, a), V(j, b)) in G
    ensures forall e :: Kept(t, S, L, filter, e) && PolyAdapt.Middle(e) && e.0.layer < j ==> e in G
  {
    forall e | Kept(t, S, L, filter, e) && PolyAdapt.Middle(e) && e.0.layer == i ensures e in G {
      assert e == (V(i, e.0.key), V(j, e.1.key));
    }
  }

  /** The graph over the key lists L: exactly the kept edges, each with its weight and
      its time; every distance comes from the memo tau, which only grows. */
  method BuildGraph(t: Setting, S: Samples, L: seq<seq<nat>>, filter: bool, tau0: Graph)
    returns (G: Graph, Tm: Graph, tau: Graph)
    requires Fits(t, |S|) && PolyAdapt.ListsIn(S, L) && |L| >= 1
    requires Faithful(t.dist, t.st, t.en, S, tau0)
    ensures Attributed(t, S, G, Tm) && Faithful(t.dist, t.st, t.en, S, tau) && PolyAdapt.MemoGrows(tau0, tau)
    ensures forall e :: e in G <==> Kept(t, S, L, filter, e)
  {
    G, Tm, tau := StartFan(t, S, L, filter, map[], map[], tau0);
    var i := 0;
    while i + 1 < |L|
      invariant i < |L| && Building(t, S, L, filter, G, Tm, tau0, tau)
      invariant forall k :: k in L[0] ==> (Start, V(0, k)) in G
      invariant forall e :: Kept(t, S, L, filter, e) && PolyAdapt.Middle(e) && e.0.layer < i ==> e in G
    {
      var j := i + 1;
      ghost var G0 := G;
      G, Tm, tau := PairBlock(t, S, L, filter, i, j, G, Tm, tau0, tau);
      BlockCovered(t, S, L, filter, G0, G, i, j);
      i := i + 1;
    }
    G, Tm, tau := EndFan(t, S, L, filter, i, G, Tm, tau0, tau);
    KeptCovered(t, S, L, filter, G, i);
  }

  // ---- the first search ----

  /** A choice of one sample per arc, the first n of them, whose arc-to-arc legs are
      all longer than 0.005. */
  ghost predicate ClearPrefix(dist: DistFn, S: Samples, p: seq<nat>)
  {
    1 <= |p| <= |S| && OnSamples(S, p) &&
    forall i :: 1 <= i < |p| ==> dist(S[i - 1][p[i - 1]], S[i][p[i]]) > MinLegLen
  }

  /** A full choice of samples the first graph can route through. */
  ghost predicate ClearRoute(dist: DistFn, S: Samples, ks: seq<nat>)
  {
    |ks| == |S| && ClearPrefix(dist, S, ks)
  }

  /** A clear prefix is a clear prefix one shorter plus one clear leg. */
  lemma ClearStep(dist: DistFn, S: Samples, p: seq<nat>)
    requires |p| > 1
    ensures var n := |p| - 1;
      ClearPrefix(dist, S, p) <==>
        ClearPrefix(dist, S, p[..n]) && n < |S| && p[n] in S[n] && dist(S[n - 1][p[n - 1]], S[n][p[n]]) > MinLegLen
  {
    var n := |p| - 1;
    var q := p[..n];
    assert forall i :: 0 <= i < n ==> q[i] == p[i];
  }

  /** The edge into sample k of arc n is in the first graph exactly when k is a sample
      and, from sample a of arc n - 1, the leg is clear. */
  lemma KeptLeg(t: Setting, S: Samples, L: seq<seq<nat>>, G: Graph, n: nat, a: nat, k: nat)
    requires PolyAdapt.OrdersMatch(S, L) && forall e :: e in G <==> Kept(t, S, L, true, e)
    requires 0 < n < |S| ==> a in S[n - 1]
    ensures n == 0 ==> ((Start, V(0, k)) in G <==> 0 < |S| && k in S[0])
    ensures 0 < n ==> ((V(n - 1, a), V(n, k)) in G <==>
      n < |S| && k in S[n] && t.dist(S[n - 1][a], S[n][k]) > MinLegLen)
  {
    if n == 0 {
      if 0 < |S| && k in S[0] {
        assert Kept(t, S, L, true, (Start, V(0, k)));
      }
    } else if n < |S| && k in S[n] {
      assert PolyAdapt.NearEdge(L, (V(n - 1, a), V(n, k)));
    }
  }

  /** The prefixes of the first graph are exactly the clear prefixes. */
  lemma {:induction false} ClearPrefixOk(t: Setting, S: Samples, L: seq<seq<nat>>, G: Graph, p: seq<nat>)
    requires PolyAdapt.OrdersMatch(S, L) && forall e :: e in G <==> Kept(t, S, L, true, e)
    ensures PrefixOk(G, p) <==> ClearPrefix(t.dist, S, p)
    decreases |p|
  {
    if |p| > 1 {
      var n := |p| - 1;
      var q := p[..n];
      ClearPrefixOk(t, S, L, G, q);
      ClearStep(t.dist, S, p);
      assert q[n - 1] == p[n - 1];
      if PrefixOk(G, q) {
        KeptLeg(t, S, L, G, n, p[n - 1], p[n]);
      }
    } else if |p| == 1 {
      KeptLeg(t, S, L, G, 0, 0, p[0]);
    }
  }

  /** The routes of the first graph are exactly the clear routes. */
  lemma ClearIsRoute(t: Setting, S: Samples, L: seq<seq<nat>>, G: Graph)
    requires |S| >= 1 && PolyAdapt.OrdersMatch(S, L) && forall e :: e in G <==> Kept(t, S, L, true, e)
    ensures forall ks :: IsRoute(G, |S|, ks) <==> ClearRoute(t.dist, S, ks)
  {
    forall ks ensures IsRoute(G, |S|, ks) <==> ClearRoute(t.dist, S, ks) {
      ClearPrefixOk(t, S, L, G, ks);
      if |ks| == |S| && ClearRoute(t.dist, S, ks) {
        assert Kept(t, S, L, true, (V(|S| - 1, ks[|S| - 1]), End));
      }
    }
  }

  /** The first graph over every sample (L lists each arc's keys) and its shortest
      route: no route when no choice of samples is clear; otherwise a clear choice of
      least weight over all clear choices, with T its time summed along the route. */
  method FirstSearch(t: Setting, S: Samples, L: seq<seq<nat>>)
    returns (sp: Option<seq<nat>>, T: real, tau: Graph, ghost W: real)
    requires Fits(t, |S|) && |S| >= 1 && PolyAdapt.ListsIn(S, L) && PolyAdapt.OrdersMatch(S, L)
    ensures Faithful(t.dist, t.st, t.en, S, tau)
    ensures sp.None? <==> forall ks :: !ClearRoute(t.dist, S, ks)
    ensures sp.Some? ==>
      ClearRoute(t.dist, S, sp.value) &&
      W == RouteCost(t, S, sp.value, false) && T == RouteCost(t, S, sp.value, true)
    ensures sp.Some? ==> (forall ks :: ClearRoute(t.dist, S, ks) ==> W <= RouteCost(t, S, ks, false))
  {
    var G, Tm;
    G, Tm, tau := BuildGraph(t, S, L, true, map[]);
    PolyAdapt.NearInLayers(G, L);
    ClearIsRoute(t, S, L, G);
    sp := ShortestRoute(G, L);
    T, W := 0.0, 0.0;
    if sp.Some? {
      AttributedRoute(t, S, G, Tm, sp.value);
      T := SumRoute(Tm, sp.value);
      W := RouteW(G, sp.value);
      forall ks | ClearRoute(t.dist, S, ks) ensures W <= RouteCost(t, S, ks, false) {
        AttributedRoute(t, S, G, Tm, ks);
      }
    }
  }

  // ---- refinement: two new samples around every waypoint, five-sample stages ----

  /** A curve arc's sample chain: open at both ends, consistent, keys 0 .. count-1,
      never empty. */
  ghost predicate ArcRingOk(r: Ring<Sample>)
    reads r
  {
    !r.closed && r.Valid() && r.Dense() && |r.order| > 0
  }

  ghost predicate ArcRingsOk(rings: seq<Ring<Sample>>)
    reads set r | r in rings
  {
    PolyAdapt.Separate(rings) && forall i :: 0 <= i < |rings| ==> ArcRingOk(rings[i])
  }

  /** thisStage for waypoint n, built as the source builds it: n.prev.prev, n.prev, n,
      n.next, n.next.next, each only where it is not nil. */
  method StageAround(r: Ring<Sample>, n: nat) returns (stage: seq<nat>)
    requires ArcRingOk(r) && n in r.vals
    ensures stage == Window(r.order, n)
  {
    var prev := r.Prev(n);
    var next := r.Next(n);
    var before := if prev.Some? then r.Prev(prev.value) else None;
    var after := if next.Some? then r.Next(next.value) else None;
    stage := Keys(before) + Keys(prev) + [n] + Keys(next) + Keys(after);
    WindowByLinks(r.order, n);
  }

  /** insertAround(n): a sample made by mid from n's predecessor and n, spliced after
      the predecessor under key count, then one made from n and its successor, spliced
      after n under the next key; each only where that neighbour exists. */
  method InsertAround(r: Ring<Sample>, n: nat, mid: MidFn)
    requires ArcRingOk(r) && n in r.vals
    modifies r
    ensures ArcRingOk(r) && Extends(old(r.vals), r.vals)
    ensures r.order == Around(old(r.order), n, old(r.count))
    ensures var s, v, c := old(r.order), old(r.vals), old(r.count);
      var p := PrevIn(s, false, n);
      var q := NextIn(s, false, n);
      var c' := if p.Some? then c + 1 else c;
      (p.Some? ==> c in r.vals && r.vals[c] == mid(v[p.value], v[n])) &&
      (q.Some? ==> c' in r.vals && r.vals[c'] == mid(v[n], v[q.value]))
  {
    var here := r.Query(n);
    var p := r.Prev(n);
    var q := r.Next(n);
    if p.Some? {
      r.Insert(p.value, r.count, mid(r.Query(p.value), here));
      assert forall k: nat :: k in r.vals <==> k < r.count;
    }
    if q.Some? {
      r.Insert(n, r.count, mid(here, r.Query(q.value)));
      assert forall k: nat :: k in r.vals <==> k < r.count;
    }
  }

  /** One waypoint's share of a pass: insertAround(n), then thisStage around n. */
  method RefineArcAt(r: Ring<Sample>, n: nat, mid: MidFn) returns (stage: seq<nat>)
    requires ArcRingOk(r) && n in r.vals
    modifies r
    ensures ArcRingOk(r) && Extends(old(r.vals), r.vals) && n in r.order
    ensures stage == Window(r.order, n)
  {
    InsertAround(r, n, mid);
    stage := StageAround(r, n);
  }

  /** stage is the window of chain r around its sample n. */
  ghost predicate StagedAt(r: Ring<Sample>, n: nat, stage: seq<nat>)
    reads r
  {
    n in r.order && stage == Window(r.order, n)
  }

  /** The first half of a pass: around each waypoint sp[i] of arc i, two new samples and
      the stage of up to five samples around it. */
  method StageAll(rings: seq<Ring<Sample>>, mid: MidFn, sp: seq<nat>) returns (L: seq<seq<nat>>)
    requires ArcRingsOk(rings) && |sp| == |rings|
    requires forall i :: 0 <= i < |sp| ==> sp[i] in rings[i].vals
    modifies set r | r in rings
    ensures ArcRingsOk(rings)
    ensures forall x :: 0 <= x < |rings| ==> Extends(old(rings[x].vals), rings[x].vals)
    ensures |L| == |rings| && forall x :: 0 <= x < |rings| ==> StagedAt(rings[x], sp[x], L[x])
  {
    ghost var D0 := CircleAdapt.ValsOf(rings);
    L := [];
    var i := 0;
    while i < |rings|
      invariant i <= |rings| && |L| == i && PolyAdapt.Separate(rings)
      invariant forall x :: 0 <= x < |rings| ==> ArcRingOk(rings[x])
      invariant forall x :: i <= x < |rings| ==> rings[x].vals == D0[x]
      invariant forall x :: 0 <= x < i ==> Extends(D0[x], rings[x].vals)
      invariant forall x :: 0 <= x < i ==> StagedAt(rings[x], sp[x], L[x])
    {
      label B:
      var stage := RefineArcAt(rings[i], sp[i], mid);
      assert forall x :: 0 <= x < |rings| && x != i ==> rings[x] != rings[i] && unchanged@B(rings[x]);
      L := L + [stage];
      i := i + 1;
    }
  }

  /** The refinement and the points the arcs hold after it: the stages list, for each
      arc, samples it holds, the old waypoint among them. */
  method RefineAndStage(rings: seq<Ring<Sample>>, mid: MidFn, S0: Samples, sp0: seq<nat>,
                        ghost V0: seq<map<nat, Sample>>) returns (S: Samples, L: seq<seq<nat>>)
    requires ArcRingsOk(rings) && CircleAdapt.CSnapshot(S0, rings) && CircleAdapt.ValsFrom(V0, rings)
    requires |sp0| == |S0| && OnSamples(S0, sp0)
    modifies set r | r in rings
    ensures ArcRingsOk(rings) && CircleAdapt.CSnapshot(S, rings) && Grows(S0, S)
    ensures CircleAdapt.ValsFrom(V0, rings)
    ensures PolyAdapt.ListsIn(S, L) && PolyAdapt.Within(L, sp0)
    ensures forall x :: 0 <= x < |L| ==> StagedAt(rings[x], sp0[x], L[x])
  {
    L := StageAll(rings, mid, sp0);
    S := CircleAdapt.PointsAll(CircleAdapt.ValsOf(rings));
    forall x | 0 <= x < |rings| ensures Extends(V0[x], rings[x].vals) {
      assert Extends(V0[x], old(rings[x].vals));
    }
    forall i | 0 <= i < |S0| ensures Extends(S0[i], S[i]) {
      CircleAdapt.PointsGrow(old(rings[i].vals), rings[i].vals);
    }
    forall i | 0 <= i < |S| ensures forall k :: k in L[i] ==> k in S[i] {
      assert ArcRingOk(rings[i]);
    }
  }

  // ---- searching the stages ----

  /** The rebuilt graph over the stages L (every edge among them, none left out) and its
      shortest route: the least-weight choice of samples within L, with T its time summed
      along the route. The old route sp0 lies within L, so a route always exists. */
  method SearchStage(t: Setting, S: Samples, L: seq<seq<nat>>, sp0: seq<nat>, tau0: Graph)
    returns (sp: seq<nat>, T: real, tau: Graph, ghost W: real)
    requires Fits(t, |S|) && |S| >= 1 && PolyAdapt.ListsIn(S, L) && PolyAdapt.Within(L, sp0)
    requires Faithful(t.dist, t.st, t.en, S, tau0)
    ensures Faithful(t.dist, t.st, t.en, S, tau) && PolyAdapt.MemoGrows(tau0, tau)
    ensures PolyAdapt.Within(L, sp) && OnSamples(S, sp)
    ensures W == RouteCost(t, S, sp, false) && T == RouteCost(t, S, sp, true)
    ensures forall ks :: PolyAdapt.Within(L, ks) ==> OnSamples(S, ks) && W <= RouteCost(t, S, ks, false)
  {
    var G, Tm;
    G, Tm, tau := BuildGraph(t, S, L, false, tau0);
    forall e | PolyAdapt.NearEdge(L, e) ensures e in G {
      PolyAdapt.NearIsLive(S, L, e);
    }
    PolyAdapt.NearInLayers(G, L);
    PolyAdapt.NearRoute(L, G, sp0);
    var r := ShortestRoute(G, L);
    assert r.Some?;
    sp := r.value;
    RouteInLayers(G, L, sp);
    AttributedRoute(t, S, G, Tm, sp);
    T := SumRoute(Tm, sp);
    W := RouteW(G, sp);
    forall ks | PolyAdapt.Within(L, ks) ensures OnSamples(S, ks) && W <= RouteCost(t, S, ks, false) {
      PolyAdapt.NearRoute(L, G, ks);
      AttributedRoute(t, S, G, Tm, ks);
    }
  }

  /** What the refinement loop keeps: sound sample chains, S their points, tau a faithful
      memo, sp a choice of samples and T its time. */
  ghost predicate ArcSearching(t: Setting, rings: seq<Ring<Sample>>, S: Samples, tau: Graph,
                               sp: seq<nat>, T: real)
    reads set r | r in rings
  {
    ArcRingsOk(rings) && CircleAdapt.CSnapshot(S, rings) && Fits(t, |S|) && |S| >= 1 &&
    Faithful(t.dist, t.st, t.en, S, tau) && |sp| == |S| && OnSamples(S, sp) &&
    T == RouteCost(t, S, sp, true)
  }

  /** One pass of the loop: insert around every waypoint, take the stages, rebuild the
      graph over them and search it. The new route is the least-weight choice within the
      stages and weighs no more than the old one, which lies within them. */
  method ArcStep(t: Setting, rings: seq<Ring<Sample>>, mid: MidFn, S0: Samples, sp0: seq<nat>,
                 tau0: Graph, T0: real, ghost V0: seq<map<nat, Sample>>)
    returns (S: Samples, sp: seq<nat>, T: real, tau: Graph, L: seq<seq<nat>>)
    requires ArcSearching(t, rings, S0, tau0, sp0, T0) && CircleAdapt.ValsFrom(V0, rings)
    modifies set r | r in rings
    ensures ArcSearching(t, rings, S, tau, sp, T) && CircleAdapt.ValsFrom(V0, rings)
    ensures Grows(S0, S) && PolyAdapt.MemoGrows(tau0, tau)
    ensures PolyAdapt.ListsIn(S, L) && PolyAdapt.Within(L, sp0) && PolyAdapt.Within(L, sp)
    ensures OnSamples(S, sp0) && RouteCost(t, S, sp, false) <= RouteCost(t, S0, sp0, false)
    ensures forall ks :: PolyAdapt.Within(L, ks) ==>
      OnSamples(S, ks) && RouteCost(t, S, sp, false) <= RouteCost(t, S, ks, false)
  {
    S, L := RefineAndStage(rings, mid, S0, sp0, V0);
    FaithfulGrows(t.dist, t.st, t.en, S0, S, tau0);
    ghost var W;
    sp, T, tau, W := SearchStage(t, S, L, sp0, tau0);
    RouteCostGrows(t, S0, S, sp0, false);
  }

  // ---- the stop test on the route's time ----

  /** Every step of the times before position n changed the time by more than tol. */
  ghost predicate ChangesBefore(c: seq<real>, tol: real, n: int)
  {
    forall i :: 0 < i < |c| && i < n ==> PolyAdapt.Abs(c[i] - c[i - 1]) > tol
  }

  /** The times recorded so far: while the loop goes on every search changed the time by
      more than tol; once it stops, only the last one did not. */
  ghost predicate TimeTrail(c: seq<real>, tol: real, going: bool)
  {
    |c| >= 1 &&
    (going ==> ChangesBefore(c, tol, |c|)) &&
    (!going ==> |c| >= 2 && ChangesBefore(c, tol, |c| - 1) && PolyAdapt.Abs(c[|c| - 1] - c[|c| - 2]) <= tol)
  }

  /** Recording a new time keeps the trail; the loop goes on exactly when the time
      changed by more than tol. */
  lemma TimesStep(c: seq<real>, x: real, tol: real, going: bool)
    requires TimeTrail(c, tol, true) && going == (PolyAdapt.Abs(x - c[|c| - 1]) > tol)
    ensures TimeTrail(c + [x], tol, going) && (c + [x])[0] == c[0]
  {
    var c' := c + [x];
    forall i | 0 < i < |c'| && i < |c| ensures PolyAdapt.Abs(c'[i] - c'[i - 1]) > tol {
      assert c'[i] == c[i] && c'[i - 1] == c[i - 1];
    }
  }

  /** A weight no larger than the last keeps the weights non-increasing. */
  lemma WeightsStep(c: seq<real>, x: real)
    requires |c| >= 1 && PolyAdapt.NonIncreasing(c) && x <= c[|c| - 1]
    ensures PolyAdapt.NonIncreasing(c + [x]) && (c + [x])[0] == c[0]
  {
    var c' := c + [x];
    forall i, j | 0 <= i <= j < |c'| ensures c'[j] <= c'[i] {
      if j == |c| && i < |c| {
        assert c'[j] == x && c[|c| - 1] <= c[i];
      }
    }
  }

  /** Both records after one more search. */
  lemma TrailsStep(ts: seq<real>, ws: seq<real>, last: real, x: real, w: real, tol: real, going: bool)
    requires TimeTrail(ts, tol, true) && ts[|ts| - 1] == last && going == (PolyAdapt.Abs(x - last) > tol)
    requires PolyAdapt.NonIncreasing(ws) && |ws| >= 1 && w <= ws[|ws| - 1]
    ensures TimeTrail(ts + [x], tol, going) && (ts + [x])[0] == ts[0] && (ts + [x])[|ts|] == x
    ensures PolyAdapt.NonIncreasing(ws + [w]) && (ws + [w])[0] == ws[0] && (ws + [w])[|ws|] == w
  {
    TimesStep(ts, x, tol, going);
    WeightsStep(ws, w);
  }

  /** One pass and the stop test: the new time and weight are recorded, and the loop goes
      on exactly when the time changed by more than adaptErr. */
  method ArcPass(t: Setting, rings: seq<Ring<Sample>>, mid: MidFn, S: Samples, sp: seq<nat>,
                 tau: Graph, T: real, adaptErr: real, ghost V0: seq<map<nat, Sample>>,
                 ghost ts: seq<real>, ghost ws: seq<real>)
    returns (S2: Samples, sp2: seq<nat>, T2: real, tau2: Graph, going: bool,
             ghost ts2: seq<real>, ghost ws2: seq<real>, ghost L: seq<seq<nat>>)
    requires ArcSearching(t, rings, S, tau, sp, T) && CircleAdapt.ValsFrom(V0, rings)
    requires TimeTrail(ts, adaptErr, true) && ts[|ts| - 1] == T
    requires PolyAdapt.NonIncreasing(ws) && |ws| >= 1 && ws[|ws| - 1] == RouteCost(t, S, sp, false)
    modifies set r | r in rings
    ensures ArcSearching(t, rings, S2, tau2, sp2, T2) && CircleAdapt.ValsFrom(V0, rings) && Grows(S, S2)
    ensures going == (PolyAdapt.Abs(T2 - T) > adaptErr)
    ensures TimeTrail(ts2, adaptErr, going) && ts2[0] == ts[0] && ts2[|ts2| - 1] == T2
    ensures PolyAdapt.NonIncreasing(ws2) && |ws2| >= 1
    ensures ws2[0] == ws[0] && ws2[|ws2| - 1] == RouteCost(t, S2, sp2, false)
    ensures PolyAdapt.ListsIn(S2, L) && PolyAdapt.Within(L, sp2)
    ensures forall ks :: PolyAdapt.Within(L, ks) ==>
      OnSamples(S2, ks) && RouteCost(t, S2, sp2, false) <= RouteCost(t, S2, ks, false)
  {
    S2, sp2, T2, tau2, L := ArcStep(t, rings, mid, S, sp, tau, T, V0);
    going := PolyAdapt.Abs(T2 - T) > adaptErr;
    ts2, ws2 := ts + [T2], ws + [RouteCost(t, S2, sp2, false)];
    TrailsStep(ts, ws, T, T2, RouteCost(t, S2, sp2, false), adaptErr, going);
  }

  /**
   * The refinement loop: refine, search and time the route again until its time changes
   * by at most adaptErr, or until the fuel runs out (going stays true). ts and ws record
   * the time and the weight after every search; the weights never increase.
   */
  method ArcLoop(t: Setting, rings: seq<Ring<Sample>>, mid: MidFn, S0: Samples, sp0: seq<nat>,
                 tau0: Graph, T0: real, adaptErr: real, fuel: nat, ghost V0: seq<map<nat, Sample>>)
    returns (S: Samples, sp: seq<nat>, T: real, going: bool,
             ghost ts: seq<real>, ghost ws: seq<real>, ghost L: seq<seq<nat>>)
    requires ArcSearching(t, rings, S0, tau0, sp0, T0) && CircleAdapt.ValsFrom(V0, rings)
    modifies set r | r in rings
    ensures ArcRingsOk(rings) && CircleAdapt.CSnapshot(S, rings) && CircleAdapt.ValsFrom(V0, rings)
    ensures Grows(S0, S) && |sp| == |S| && OnSamples(S, sp) && T == RouteCost(t, S, sp, true)
    ensures TimeTrail(ts, adaptErr, going) && ts[0] == T0 && ts[|ts| - 1] == T
    ensures PolyAdapt.NonIncreasing(ws) && |ws| >= 1
    ensures ws[0] == RouteCost(t, S0, sp0, false) && ws[|ws| - 1] == RouteCost(t, S, sp, false)
    ensures !going ==>
      PolyAdapt.ListsIn(S, L) && PolyAdapt.Within(L, sp) &&
      (forall ks :: PolyAdapt.Within(L, ks) ==> OnSamples(S, ks) && RouteCost(t, S, sp, false) <= RouteCost(t, S, ks, false))
  {
    var tau;
    S, sp, T, tau := S0, sp0, T0, tau0;
    ts, ws, L := [T], [RouteCost(t, S, sp, false)], [];
    going := true;
    var left := fuel;
    while going && left > 0
      invariant ArcSearching(t, rings, S, tau, sp, T) && CircleAdapt.ValsFrom(V0, rings) && Grows(S0, S)
      invariant TimeTrail(ts, adaptErr, going) && ts[0] == T0 && ts[|ts| - 1] == T
      invariant PolyAdapt.NonIncreasing(ws) && |ws| >= 1
      invariant ws[0] == RouteCost(t, S0, sp0, false) && ws[|ws| - 1] == RouteCost(t, S, sp, false)
      invariant !going ==>
        PolyAdapt.ListsIn(S, L) && PolyAdapt.Within(L, sp) &&
        (forall ks :: PolyAdapt.Within(L, ks) ==> OnSamples(S, ks) && RouteCost(t, S, sp, false) <= RouteCost(t, S, ks, false))
      decreases left
    {
      var S2, sp2, T2, tau2;
      S2, sp2, T2, tau2, going, ts, ws, L := ArcPass(t, rings, mid, S, sp, tau, T, adaptErr, V0, ts, ws);
      GrowsTrans(S0, S, S2);
      S, sp, T, tau := S2, sp2, T2, tau2;
      left := left - 1;
    }
  }

  /** The path and its length, read from the chains: start, one sample per arc, end,
      each leg added as its point is appended. */
  method Collect(dist: DistFn, st: Point, en: Point, rings: seq<Ring<Sample>>, sp: seq<nat>, ghost S: Samples)
    returns (path: seq<Point>, d: real)
    requires CircleAdapt.CSnapshot(S, rings) && |sp| == |S| && OnSamples(S, sp)
    ensures path == RoutePoints(st, S, sp, en) && d == PathLength(dist, path)
  {
    path, d := [st], 0.0;
    var i := 0;
    while i < |sp|
      invariant i <= |sp| && OnSamples(S, sp[..i])
      invariant path == [st] + Waypoints(S, sp[..i]) && d == PathLength(dist, path)
    {
      assert OnSamples(S, sp[..i + 1]);
      assert Waypoints(S, sp[..i + 1]) == Waypoints(S, sp[..i]) + [S[i][sp[i]]];
      var pt := rings[i].Query(sp[i]).pt;
      PathLengthSnoc(dist, path, pt);
      d := d + dist(path[|path| - 1], pt);
      path := path + [pt];
      i := i + 1;
    }
    assert sp[..i] == sp;
    PathLengthSnoc(dist, path, en);
    d := d + dist(path[|path| - 1], en);
    path := path + [en];
  }

  /** Before the loop: M, the minimum leg times, the points the arcs hold, and the first
      search over every sample with arc-to-arc legs of 0.005 or less left out. */
  method ArcSeed(dist: DistFn, startPt: Point, endPt: Point, arcs: seq<Arc>, rings: seq<Ring<Sample>>,
                 atLeast: Option<seq<real>>, speed: real)
    returns (t: Setting, S0: Samples, first: Option<seq<nat>>, T0: real, tau0: Graph, ghost W0: real)
    requires |arcs| >= 1 && |rings| == |arcs| && ArcRingsOk(rings) && speed > 0.0
    requires atLeast.Some? ==> |atLeast.value| >= |arcs|
    ensures t.dist == dist && t.st == startPt && t.en == endPt && t.speed == speed
    ensures t.atLeast == MinTimes(atLeast, |arcs|) && IsScale(dist, arcs, t.M) && Fits(t, |arcs|)
    ensures S0 == CircleAdapt.PointsAll(CircleAdapt.ValsOf(rings)) && CircleAdapt.CSnapshot(S0, rings)
    ensures Faithful(dist, startPt, endPt, S0, tau0)
    ensures first.None? <==> forall ks :: !ClearRoute(dist, S0, ks)
    ensures first.Some? ==>
      ClearRoute(dist, S0, first.value) &&
      W0 == RouteCost(t, S0, first.value, false) && T0 == RouteCost(t, S0, first.value, true)
    ensures first.Some? ==> (forall ks :: ClearRoute(dist, S0, ks) ==> W0 <= RouteCost(t, S0, ks, false))
  {
    var M := ScaleM(dist, arcs);
    t := Setting(dist, startPt, endPt, speed, MinTimes(atLeast, |arcs|), M);
    S0 := CircleAdapt.PointsAll(CircleAdapt.ValsOf(rings));
    var ords := CircleAdapt.RingOrders(rings, S0);
    first, T0, tau0, W0 := FirstSearch(t, S0, ords);
  }

  /**
   * curveArc2CurveArcPath. t is the setting the edges are weighed with (M from the arcs,
   * the minimum leg times as given or all 0), S0 the points the arcs held on entry and S
   * the points they hold at the end, ks the chosen sample keys, ts and ws the route's
   * time and weight after every search. There is no path exactly when no choice of
   * samples on entry keeps every arc-to-arc leg longer than 0.005. Otherwise, once the
   * time changes by at most adaptErr: the path runs through the chosen samples, its
   * length and time are those of the route, the weight never went up and ends no higher
   * than that of any clear choice on entry, nor than that of any choice within the last
   * stages.
   */
  method CurveArc2CurveArcPath(dist: DistFn, startPt: Point, endPt: Point, arcs: seq<Arc>,
                               rings: seq<Ring<Sample>>, mid: MidFn, adaptErr: real,
                               atLeast: Option<seq<real>>, speed: real, fuel: nat)
    returns (res: Outcome, ghost t: Setting, ghost S0: Samples, ghost S: Samples, ghost ks: seq<nat>,
             ghost ts: seq<real>, ghost ws: seq<real>, ghost L: seq<seq<nat>>)
    requires |arcs| >= 1 && |rings| == |arcs| && ArcRingsOk(rings) && speed > 0.0
    requires atLeast.Some? ==> |atLeast.value| >= |arcs|
    modifies set r | r in rings
    ensures t.dist == dist && t.st == startPt && t.en == endPt && t.speed == speed
    ensures t.atLeast == MinTimes(atLeast, |arcs|) && IsScale(dist, arcs, t.M) && Fits(t, |arcs|)
    ensures S0 == CircleAdapt.PointsAll(old(CircleAdapt.ValsOf(rings)))
    ensures res.NoPath? <==> forall ks0 :: !ClearRoute(dist, S0, ks0)
    ensures res.Found? ==>
      ArcRingsOk(rings) && CircleAdapt.CSnapshot(S, rings) && Grows(S0, S) &&
      |ks| == |S| && OnSamples(S, ks) &&
      res.path == RoutePoints(startPt, S, ks, endPt) && res.dist == PathLength(dist, res.path) &&
      res.time == RouteCost(t, S, ks, true) && TimeTrail(ts, adaptErr, false) && ts[|ts| - 1] == res.time
    ensures res.Found? ==>
      PolyAdapt.NonIncreasing(ws) && |ws| >= 1 && ws[|ws| - 1] == RouteCost(t, S, ks, false) &&
      (forall ks0 :: ClearRoute(dist, S0, ks0) ==> ws[|ws| - 1] <= RouteCost(t, S0, ks0, false))
    ensures res.Found? ==>
      PolyAdapt.ListsIn(S, L) && PolyAdapt.Within(L, ks) &&
      (forall ks' :: PolyAdapt.Within(L, ks') ==> OnSamples(S, ks') && ws[|ws| - 1] <= RouteCost(t, S, ks', false))
  {
    ghost var V0 := CircleAdapt.ValsOf(rings);
    var setting, pts, first, T0, tau0;
    ghost var W0;
    setting, pts, first, T0, tau0, W0 := ArcSeed(dist, startPt, endPt, arcs, rings, atLeast, speed);
    t, S0, S, ks, ts, ws, L := setting, pts, pts, [], [], [], [];
    if first.None? {
      res := NoPath;
      return;
    }
    var last, sp, T, going;
    last, sp, T, going, ts, ws, L := ArcLoop(setting, rings, mid, pts, first.value, tau0, T0, adaptErr, fuel, V0);
    S, ks := last, sp;
    assert ws[|ws| - 1] <= ws[0];
    if going {
      res := OutOfFuel;
    } else {
      var path, d := Collect(dist, startPt, endPt, rings, sp, last);
      res := Found(path, T, d);
    }
  }
}
