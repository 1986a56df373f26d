/**
 * vrpSolver/geometry.py: the distance table, the nearest-first and sweep orders of a
 * node dictionary, the heading normalisation and the small cases of the convex hull.
 *
 * The coordinate primitives (the square root in distEuclidean2D, distLatLon, the polar
 * angle of vecXY2Polar, getHeadingXY and pointInDistXY) are parameters. CONST_EPSILON
 * lives in a constants file that is not part of this model and is a parameter `eps`.
 * A node dictionary is its keys in iteration order with each node's 'loc'.
 */
module VrpGeometry {
  import opened Wrappers
  import opened Geom
  import Sorting

  datatype Nodes = Nodes(keys: seq<int>, loc: map<int, Point>)

  /** A dictionary's keys are exactly the nodes that have a location. */
  predicate WellFormed(nodes: Nodes)
  {
    (forall k :: k in nodes.loc ==> k in nodes.keys) && (forall k :: k in nodes.keys ==> k in nodes.loc)
  }

  /** The nodeIDs argument: 'All' or a list of ids. */
  datatype NodeIDs = All | Listed(ids: seq<int>)

  function IdsOf(nodes: Nodes, sel: NodeIDs): seq<int>
  {
    if sel.All? then nodes.keys else sel.ids
  }

  /** Every id is a key of the dictionary (the source fails with KeyError otherwise). */
  predicate Known(nodes: Nodes, ids: seq<int>)
  {
    forall i :: 0 <= i < |ids| ==> ids[i] in nodes.loc
  }

  // ---- distEuclidean2D ----

  /** distEuclidean2D: the distance of two points, and 0 when either is None. */
  function DistEuclidean2D(pt1: Option<Point>, pt2: Option<Point>, norm: DistFn): (d: real)
    ensures pt1.None? || pt2.None? ==> d == 0.0
    ensures pt1.Some? && pt2.Some? ==> d == norm(pt1.value, pt2.value)
  {
    if pt1.Some? && pt2.Some? then norm(pt1.value, pt2.value) else 0.0
  }

  /** With a distance for its norm, distEuclidean2D is a distance on optional points. */
  lemma DistEuclidean2DIsDist(pt1: Option<Point>, pt2: Option<Point>, norm: DistFn)
    requires IsDist(norm)
    ensures DistEuclidean2D(pt1, pt2, norm) >= 0.0
    ensures DistEuclidean2D(pt1, pt2, norm) == DistEuclidean2D(pt2, pt1, norm)
  {
  }

  // ---- Heading normalisation ----

  /** How many turns the normalisation loops take on d. */
  function DegSteps(d: real): nat
  {
    if d > 360.0 then (d / 360.0).Floor as nat
    else if d < 0.0 then ((-d) / 360.0).Floor as nat + 1
    else 0
  }

  /** `while d > 360: d -= 360` followed by `while d < 0: d += 360`. */
  function NormDeg(d: real): real
    decreases DegSteps(d)
  {
    if d > 360.0 then NormDeg(d - 360.0)
    else if d < 0.0 then NormDeg(d + 360.0)
    else d
  }

  /** The normalised heading lies in [0, 360] and names the same direction: it differs
      from d by a whole number k of turns. A heading above 360 lands in (0, 360], a
      negative one in [0, 360), and one already in [0, 360] is unchanged. */
  lemma {:induction false} NormDegMeaning(d: real) returns (k: int)
    ensures 0.0 <= NormDeg(d) <= 360.0
    ensures NormDeg(d) == d + 360.0 * k as real
    ensures d > 360.0 ==> NormDeg(d) > 0.0
    ensures d < 0.0 ==> NormDeg(d) < 360.0
    ensures 0.0 <= d <= 360.0 ==> NormDeg(d) == d
    decreases DegSteps(d)
  {
    if d > 360.0 {
      var k' := NormDegMeaning(d - 360.0);
      k := k' - 1;
    } else if d < 0.0 {
      var k' := NormDegMeaning(d + 360.0);
      k := k' + 1;
    } else {
      k := 0;
    }
  }

  /** The normalisation loops. */
  method NormalizeDeg(d: real) returns (r: real)
    ensures r == NormDeg(d)
  {
    r := d;
    while r > 360.0
      invariant NormDeg(r) == NormDeg(d)
      decreases DegSteps(r)
    {
      r := r - 360.0;
    }
    while r < 0.0
      invariant NormDeg(r) == NormDeg(d)
      decreases DegSteps(r)
    {
      r := r + 360.0;
    }
  }

  // ---- getPerpendicularLine ----

  /** getPerpendicularLine: the points at distance 10 from pt in the two headings at
      right angles to vec; the headings are normalised into [0, 360]. */
  method PerpendicularLine(pt: Point, vec: Point, heading: (Point, Point) -> real,
                           inDist: (Point, real, real) -> Point)
    returns (line: (Point, Point))
    ensures var h := heading(pt, Point(pt.x + vec.x, pt.y + vec.y));
      line == (inDist(pt, NormDeg(h + 90.0), 10.0), inDist(pt, NormDeg(h - 90.0), 10.0))
  {
    var h := heading(pt, Point(pt.x + vec.x, pt.y + vec.y));
    var newHeading1 := NormalizeDeg(h + 90.0);
    var newHeading2 := NormalizeDeg(h - 90.0);
    line := (inDist(pt, newHeading1, 10.0), inDist(pt, newHeading2, 10.0));
  }

  /** The two headings of the perpendicular line lie in [0, 360] and point in opposite
      directions: they are half a turn apart. */
  lemma PerpendicularHeadings(h: real)
    ensures 0.0 <= NormDeg(h + 90.0) <= 360.0 && 0.0 <= NormDeg(h - 90.0) <= 360.0
    ensures NormDeg(h + 90.0) - NormDeg(h - 90.0) == 180.0 ||
            NormDeg(h + 90.0) - NormDeg(h - 90.0) == -180.0
  {
    var k1 := NormDegMeaning(h + 90.0);
    var k2 := NormDegMeaning(h - 90.0);
    var diff := NormDeg(h + 90.0) - NormDeg(h - 90.0);
    assert diff == 180.0 + 360.0 * (k1 - k2) as real;
    assert -360.0 <= diff <= 360.0;
    assert k1 - k2 == 0 || k1 - k2 == -1;
  }

  // ---- getTauEuclidean, getTauLatLon ----

  /** Two different ids among the selected ones, the only pairs a table builder measures. */
  predicate DistinctPair(ids: seq<int>)
  {
    exists i, j | i in ids && j in ids :: i != j
  }

  /** The table entry for the pair (i, j): CONST_EPSILON on the diagonal, the distance
      over the speed elsewhere. */
  function TauEntry(nodes: Nodes, dist: DistFn, speed: real, eps: real, i: int, j: int): real
    requires i in nodes.loc && j in nodes.loc && (i == j || speed != 0.0)
  {
    if i == j then eps else dist(nodes.loc[i], nodes.loc[j]) / speed
  }

  /** Every entry so far is a pair of the ids holding its TauEntry. */
  ghost predicate TauSoFar(tau: map<(int, int), real>, nodes: Nodes, ids: seq<int>, dist: DistFn, speed: real, eps: real)
    requires Known(nodes, ids) && (speed != 0.0 || !DistinctPair(ids))
  {
    forall k :: k in tau ==> k.0 in ids && k.1 in ids && tau[k] == TauEntry(nodes, dist, speed, eps, k.0, k.1)
  }

  /** The inner loop of getTauEuclidean: the entries of ids[a] with every id, both ways. */
  method TauRow(tau0: map<(int, int), real>, nodes: Nodes, ids: seq<int>, a: nat, dist: DistFn, speed: real, eps: real)
    returns (tau: map<(int, int), real>)
    requires (speed != 0.0 || !DistinctPair(ids)) && IsDist(dist) && Known(nodes, ids) && a < |ids|
    requires TauSoFar(tau0, nodes, ids, dist, speed, eps)
    ensures TauSoFar(tau, nodes, ids, dist, speed, eps)
    ensures forall k :: k in tau0 ==> k in tau
    ensures forall q :: 0 <= q < |ids| ==> (ids[a], ids[q]) in tau
  {
    tau := tau0;
    for b := 0 to |ids|
      invariant TauSoFar(tau, nodes, ids, dist, speed, eps)
      invariant forall k :: k in tau0 ==> k in tau
      invariant forall q :: 0 <= q < b ==> (ids[a], ids[q]) in tau
    {
      var i, j := ids[a], ids[b];
      assert i in ids && j in ids;
      if i != j {
        var t := dist(nodes.loc[i], nodes.loc[j]) / speed;
        tau := tau[(i, j) := t][(j, i) := t];
      } else {
        tau := tau[(i, j) := eps][(j, i) := eps];
      }
    }
  }

  /** getTauEuclidean and getTauLatLon, which differ only in the distance they use: an
      entry for every ordered pair of the ids, symmetric, with CONST_EPSILON on the
      diagonal and the distance over the speed off it. A zero speed divides by zero at
      the first pair of different ids. */
  method TauTable(nodes: Nodes, sel: NodeIDs, dist: DistFn, speed: real, eps: real)
    returns (r: Result<map<(int, int), real>>)
    requires IsDist(dist)
    requires Known(nodes, IdsOf(nodes, sel))
    ensures r.Err? <==> speed == 0.0 && DistinctPair(IdsOf(nodes, sel))
    ensures r.Err? ==> r.error == ZeroDivisionError
    ensures r.Ok? ==> forall i, j :: (i, j) in r.value <==> i in IdsOf(nodes, sel) && j in IdsOf(nodes, sel)
    ensures r.Ok? ==> forall i, j :: (i, j) in r.value ==> r.value[(i, j)] == r.value[(j, i)]
    ensures r.Ok? ==> forall i :: (i, i) in r.value ==> r.value[(i, i)] == eps
    ensures r.Ok? ==> forall i, j :: (i, j) in r.value && i != j ==>
      speed != 0.0 && r.value[(i, j)] == dist(nodes.loc[i], nodes.loc[j]) / speed
  {
    var ids := IdsOf(nodes, sel);
    if speed == 0.0 && DistinctPair(ids) {
      return Err(ZeroDivisionError);
    }
    var tau := map[];
    for a := 0 to |ids|
      invariant TauSoFar(tau, nodes, ids, dist, speed, eps)
      invariant forall p, q :: 0 <= p < a && 0 <= q < |ids| ==> (ids[p], ids[q]) in tau
    {
      tau := TauRow(tau, nodes, ids, a, dist, speed, eps);
    }
    TauFull(tau, nodes, ids, dist, speed, eps);
    r := Ok(tau);
  }

  /** A table holding its TauEntry at every pair of ids, and only there, is the
      symmetric table TauTable promises. */
  lemma TauFull(tau: map<(int, int), real>, nodes: Nodes, ids: seq<int>, dist: DistFn, speed: real, eps: real)
    requires (speed != 0.0 || !DistinctPair(ids)) && IsDist(dist) && Known(nodes, ids)
    requires TauSoFar(tau, nodes, ids, dist, speed, eps)
    requires forall p, q :: 0 <= p < |ids| && 0 <= q < |ids| ==> (ids[p], ids[q]) in tau
    ensures forall i, j :: (i, j) in tau <==> i in ids && j in ids
    ensures forall i, j :: (i, j) in tau ==> tau[(i, j)] == tau[(j, i)]
    ensures forall i :: (i, i) in tau ==> tau[(i, i)] == eps
    ensures forall i, j :: (i, j) in tau && i != j ==> speed != 0.0 && tau[(i, j)] == dist(nodes.loc[i], nodes.loc[j]) / speed
  {
    forall i, j | i in ids && j in ids
      ensures (i, j) in tau
    {
      var p :| 0 <= p < |ids| && ids[p] == i;
      var q :| 0 <= q < |ids| && ids[q] == j;
    }
  }

  // ---- getSortedNodesByDist ----

  /** heapq orders (key, id) entries by key, then by id. */
  predicate KeyLe(ka: real, a: int, kb: real, b: int)
  {
    ka < kb || (ka == kb && a <= b)
  }

  /** The ids in non-decreasing (distance from refNodeID, id) order. */
  predicate NearestFirst(s: seq<int>, nodes: Nodes, dist: DistFn, eps: real, refNodeID: int)
    requires refNodeID in nodes.loc && Known(nodes, s)
  {
    forall i, j :: 0 <= i < j < |s| ==>
      KeyLe(TauEntry(nodes, dist, 1.0, eps, refNodeID, s[i]), s[i], TauEntry(nodes, dist, 1.0, eps, refNodeID, s[j]), s[j])
  }

  /** getSortedNodesByDist: the ids nearest first, by the entries of the Euclidean or
      lat/lon table of the whole dictionary; None for any other `edges`. A refNodeID or
      an id that is not a node (the default refNodeID None is none) has no table entry:
      KeyError, unless there are no ids to look up. */
  method SortedNodesByDist(nodes: Nodes, edges: string, sel: NodeIDs, refNodeID: int,
                           euclid: DistFn, latLon: DistFn, eps: real)
    returns (r: Result<Option<seq<int>>>)
    requires WellFormed(nodes)
    requires IsDist(euclid) && IsDist(latLon)
    ensures r.Err? <==> ((edges == "Euclidean" || edges == "LatLon") &&
      exists n | n in IdsOf(nodes, sel) :: refNodeID !in nodes.loc || n !in nodes.loc)
    ensures r.Err? ==> r.error == KeyError
    ensures r.Ok? ==> (r.value.None? <==> edges != "Euclidean" && edges != "LatLon")
    ensures r.Ok? && r.value.Some? ==> multiset(r.value.value) == multiset(IdsOf(nodes, sel))
    ensures r.Ok? && r.value.Some? && refNodeID in nodes.loc ==> (Known(nodes, r.value.value) &&
      NearestFirst(r.value.value, nodes, if edges == "Euclidean" then euclid else latLon, eps, refNodeID))
  {
    var ids := IdsOf(nodes, sel);
    var dist: DistFn;
    if edges == "Euclidean" {
      dist := euclid;
    } else if edges == "LatLon" {
      dist := latLon;
    } else {
      return Ok(None);
    }
    if exists n | n in ids :: refNodeID !in nodes.loc || n !in nodes.loc {
      return Err(KeyError);
    }
    if ids == [] {
      return Ok(Some([]));
    }
    assert ids[0] in ids;
    forall i | 0 <= i < |ids|
      ensures ids[i] in nodes.loc
    {
      assert ids[i] in ids;
    }
    forall i | 0 <= i < |nodes.keys|
      ensures nodes.keys[i] in nodes.loc
    {
      var k := nodes.keys[i];
      assert k in nodes.keys;
      assert k in nodes.loc;
    }
    var table := TauTable(nodes, All, dist, 1.0, eps);
    var tau := table.value;
    var le := (a: int, b: int) =>
      KeyLe(if (refNodeID, a) in tau then tau[(refNodeID, a)] else 0.0, a,
            if (refNodeID, b) in tau then tau[(refNodeID, b)] else 0.0, b);
    assert Sorting.IsTotalPreorder(le);
    var sorted := Sorting.DrainHeap(ids, le);
    forall i | 0 <= i < |sorted|
      ensures sorted[i] in nodes.loc && (refNodeID, sorted[i]) in tau
      ensures tau[(refNodeID, sorted[i])] == TauEntry(nodes, dist, 1.0, eps, refNodeID, sorted[i])
    {
      assert sorted[i] in multiset(ids);
    }
    r := Ok(Some(sorted));
  }

  // ---- getSweepSeq ----

  /** A node within CONST_EPSILON of the centre; with no centre, distEuclidean2D gives 0
      and every node is one. */
  predicate AtCentre(nodes: Nodes, n: int, centerLoc: Option<Point>, dist: DistFn, eps: real)
    requires n in nodes.loc
  {
    DistEuclidean2D(Some(nodes.loc[n]), centerLoc, dist) <= eps
  }

  /** The heap key of a node: its polar angle about the centre, measured from initDeg in
      the sweep direction and normalised into [0, 360]. */
  function SweepKey(nodes: Nodes, centerLoc: Option<Point>, isClockwise: bool, initDeg: real,
                    polarDeg: (real, real) -> real, n: int): real
  {
    if n in nodes.loc && centerLoc.Some? then
      var deg := polarDeg(nodes.loc[n].x - centerLoc.value.x, nodes.loc[n].y - centerLoc.value.y);
      NormDeg(if isClockwise then deg - initDeg else initDeg - deg)
    else 0.0
  }

  /** The swept nodes of ids[..n], in order. */
  function OffCentre(nodes: Nodes, ids: seq<int>, n: nat, centerLoc: Option<Point>, dist: DistFn, eps: real): seq<int>
    requires n <= |ids| && Known(nodes, ids)
  {
    if n == 0 then []
    else
      OffCentre(nodes, ids, n - 1, centerLoc, dist, eps) +
        (if AtCentre(nodes, ids[n - 1], centerLoc, dist, eps) then [] else [ids[n - 1]])
  }

  /** The nodes of ids[..n] at the centre, in order. */
  function Centre(nodes: Nodes, ids: seq<int>, n: nat, centerLoc: Option<Point>, dist: DistFn, eps: real): seq<int>
    requires n <= |ids| && Known(nodes, ids)
  {
    if n == 0 then []
    else
      Centre(nodes, ids, n - 1, centerLoc, dist, eps) +
        (if AtCentre(nodes, ids[n - 1], centerLoc, dist, eps) then [ids[n - 1]] else [])
  }

  /** Every node is either swept or at the centre. */
  lemma {:induction false} CentreSplit(nodes: Nodes, ids: seq<int>, n: nat, centerLoc: Option<Point>, dist: DistFn, eps: real)
    requires n <= |ids| && Known(nodes, ids)
    ensures multiset(OffCentre(nodes, ids, n, centerLoc, dist, eps)) + multiset(Centre(nodes, ids, n, centerLoc, dist, eps))
      == multiset(ids[..n])
  {
    if n == 0 {
      assert ids[..0] == [];
    } else {
      CentreSplit(nodes, ids, n - 1, centerLoc, dist, eps);
      var off, cen := OffCentre(nodes, ids, n - 1, centerLoc, dist, eps), Centre(nodes, ids, n - 1, centerLoc, dist, eps);
      var off', cen' := OffCentre(nodes, ids, n, centerLoc, dist, eps), Centre(nodes, ids, n, centerLoc, dist, eps);
      CentreUnfold(nodes, ids, n, centerLoc, dist, eps);
      SplitStep(off, cen, ids, n, off', cen');
    }
  }

  /** One more node goes to exactly one of the two lists. */
  lemma CentreUnfold(nodes: Nodes, ids: seq<int>, n: nat, centerLoc: Option<Point>, dist: DistFn, eps: real)
    requires 0 < n <= |ids| && Known(nodes, ids)
    ensures var off, cen := OffCentre(nodes, ids, n - 1, centerLoc, dist, eps), Centre(nodes, ids, n - 1, centerLoc, dist, eps);
      (OffCentre(nodes, ids, n, centerLoc, dist, eps) == off && Centre(nodes, ids, n, centerLoc, dist, eps) == cen + [ids[n - 1]]) ||
      (OffCentre(nodes, ids, n, centerLoc, dist, eps) == off + [ids[n - 1]] && Centre(nodes, ids, n, centerLoc, dist, eps) == cen)
  {
    if AtCentre(nodes, ids[n - 1], centerLoc, dist, eps) {
      assert OffCentre(nodes, ids, n - 1, centerLoc, dist, eps) + [] == OffCentre(nodes, ids, n - 1, centerLoc, dist, eps);
    } else {
      assert Centre(nodes, ids, n - 1, centerLoc, dist, eps) + [] == Centre(nodes, ids, n - 1, centerLoc, dist, eps);
    }
  }

  lemma SplitStep(off: seq<int>, cen: seq<int>, ids: seq<int>, n: nat, off': seq<int>, cen': seq<int>)
    requires 0 < n <= |ids| && multiset(off) + multiset(cen) == multiset(ids[..n - 1])
    requires (off' == off && cen' == cen + [ids[n - 1]]) || (off' == off + [ids[n - 1]] && cen' == cen)
    ensures multiset(off') + multiset(cen') == multiset(ids[..n])
  {
    assert ids[..n] == ids[..n - 1] + [ids[n - 1]];
  }

  /** With no centre given every node is at the centre, so the sweep hands the ids back
      in the order given. */
  lemma {:induction false} NoCentreKeepsOrder(nodes: Nodes, ids: seq<int>, n: nat, dist: DistFn, eps: real)
    requires n <= |ids| && Known(nodes, ids) && eps >= 0.0
    ensures OffCentre(nodes, ids, n, None, dist, eps) == []
    ensures Centre(nodes, ids, n, None, dist, eps) == ids[..n]
  {
    if n > 0 {
      NoCentreKeepsOrder(nodes, ids, n - 1, dist, eps);
      assert ids[..n] == ids[..n - 1] + [ids[n - 1]];
    }
  }

  /** The ids in non-decreasing (key, id) order. */
  predicate SweptInOrder(s: seq<int>, nodes: Nodes, centerLoc: Option<Point>, isClockwise: bool, initDeg: real,
                         polarDeg: (real, real) -> real)
  {
    forall i, j :: 0 <= i < j < |s| ==>
      KeyLe(SweepKey(nodes, centerLoc, isClockwise, initDeg, polarDeg, s[i]), s[i],
            SweepKey(nodes, centerLoc, isClockwise, initDeg, polarDeg, s[j]), s[j])
  }

  /** The first loop of getSweepSeq: the nodes at the centre aside, the others pushed
      with their sweep angle. */
  method SplitAtCentre(nodes: Nodes, ids: seq<int>, centerLoc: Option<Point>, isClockwise: bool, initDeg: real,
                       dist: DistFn, polarDeg: (real, real) -> real, eps: real)
    returns (degHeap: seq<int>, centerLocNodes: seq<int>)
    requires Known(nodes, ids) && eps >= 0.0
    ensures degHeap == OffCentre(nodes, ids, |ids|, centerLoc, dist, eps)
    ensures centerLocNodes == Centre(nodes, ids, |ids|, centerLoc, dist, eps)
  {
    degHeap := [];
    centerLocNodes := [];
    for i := 0 to |ids|
      invariant degHeap == OffCentre(nodes, ids, i, centerLoc, dist, eps)
      invariant centerLocNodes == Centre(nodes, ids, i, centerLoc, dist, eps)
    {
      var n := ids[i];
      var d := DistEuclidean2D(Some(nodes.loc[n]), centerLoc, dist);
      if d <= eps {
        centerLocNodes := centerLocNodes + [n];
      } else {
        var c := centerLoc.value;
        var deg := polarDeg(nodes.loc[n].x - c.x, nodes.loc[n].y - c.y);
        var evalDeg := if isClockwise then deg - initDeg else initDeg - deg;
        evalDeg := NormalizeDeg(evalDeg);
        // the heap entry (evalDeg, n)
        assert evalDeg == SweepKey(nodes, centerLoc, isClockwise, initDeg, polarDeg, n);
        degHeap := degHeap + [n];
      }
    }
  }

  /** getSweepSeq: the nodes away from the centre by increasing sweep angle, then the
      nodes at the centre in the order given; a permutation of the ids. */
  method SweepSeq(nodes: Nodes, sel: NodeIDs, centerLoc: Option<Point>, isClockwise: bool, initDeg: real,
                  dist: DistFn, polarDeg: (real, real) -> real, eps: real)
    returns (sweep: seq<int>)
    requires Known(nodes, IdsOf(nodes, sel)) && eps >= 0.0
    ensures var ids := IdsOf(nodes, sel);
      var off := OffCentre(nodes, ids, |ids|, centerLoc, dist, eps);
      |off| <= |sweep| &&
      multiset(sweep[..|off|]) == multiset(off) &&
      SweptInOrder(sweep[..|off|], nodes, centerLoc, isClockwise, initDeg, polarDeg) &&
      sweep[|off|..] == Centre(nodes, ids, |ids|, centerLoc, dist, eps)
    ensures multiset(sweep) == multiset(IdsOf(nodes, sel))
  {
    var ids := IdsOf(nodes, sel);
    var degHeap, centerLocNodes := SplitAtCentre(nodes, ids, centerLoc, isClockwise, initDeg, dist, polarDeg, eps);
    var le := (a: int, b: int) =>
      KeyLe(SweepKey(nodes, centerLoc, isClockwise, initDeg, polarDeg, a), a,
            SweepKey(nodes, centerLoc, isClockwise, initDeg, polarDeg, b), b);
    assert Sorting.IsTotalPreorder(le);
    var swept := Sorting.DrainHeap(degHeap, le);
    assert |swept| == |multiset(swept)| == |degHeap|;
    sweep := swept + centerLocNodes;
    assert sweep[..|swept|] == swept && sweep[|swept|..] == centerLocNodes;
    CentreSplit(nodes, ids, |ids|, centerLoc, dist, eps);
    assert ids[..|ids|] == ids;
  }

  // ---- getConvexHull ----

  /** What getConvexHull does before the Jarvis march: no hull, the nodes themselves, or
      the march. */
  datatype HullCase = NoHull | HullIds(ids: seq<int>) | JarvisMarch

  /** getConvexHull's small cases: None for no nodes, every id for up to three nodes,
      the march for more with algo 'Jarvis' and None for any other algo. */
  method ConvexHullCases(nodes: Nodes, algo: string) returns (h: HullCase)
    ensures h.NoHull? <==> |nodes.keys| == 0 || (|nodes.keys| > 3 && algo != "Jarvis")
    ensures h.HullIds? <==> 1 <= |nodes.keys| <= 3
    ensures h.HullIds? ==> h.ids == nodes.keys
  {
    if |nodes.keys| == 0 {
      return NoHull;
    } else if |nodes.keys| <= 3 {
      var chSeq: seq<int> := [];
      for i := 0 to |nodes.keys|
        invariant chSeq == nodes.keys[..i]
      {
        chSeq := chSeq + [nodes.keys[i]];
      }
      return HullIds(chSeq);
    }
    if algo == "Jarvis" {
      return JarvisMarch;
    }
    return NoHull;
  }
}
