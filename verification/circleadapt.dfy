/**
 * The adaptive circle-to-circle search (_circle2CirclePathAdaptIter in obj2Obj.py):
 * seed one ring of initLod evenly spaced boundary samples per circle, search the
 * layered graph over all samples, then repeatedly split the two arcs at each waypoint
 * and add the edges the new samples need, keeping every edge already in the graph,
 * until the route length changes by at most adaptErr.
 */
module CircleAdapt {
  import opened Geom
  import opened Rings
  import opened LayeredGraph
  import opened Routes
  import PolyAdapt

  datatype Circle = Circle(center: Point, radius: real)

  /** A ring node's payload: its degree on the circle and the point there. */
  datatype CircSample = CircSample(deg: real, pt: Point)

  /** getPtByDeg: the point of a circle at a degree (cos/sin are not modelled). */
  type PtAtFn = (Circle, real) -> Point

  // ---- midpoint degrees ----

  /** The counter-clockwise sweep from degree a to degree b, for a, b in [0, 360):
      a full turn when they coincide. */
  function Ccw(a: real, b: real): real
  {
    if a < b then b - a else b - a + 360.0
  }

  /** x and y name the same direction (they differ by at most one turn here). */
  predicate SameAngle(x: real, y: real)
  {
    x == y || x == y + 360.0 || x + 360.0 == y
  }

  /** pPrevMidDeg as the loop computes it: the mean of p.prev.deg and p.deg, moved up a
      turn when negative. */
  function PrevMidDegAsWritten(prevDeg: real, deg: real): real
  {
    var m := prevDeg + (deg - prevDeg) / 2.0;
    if m < 0.0 then m + 360.0 else m
  }

  /** pNextMidDeg as the loop computes it: the mean of p.deg and p.next.deg, moved down
      a turn when above 360. */
  function NextMidDegAsWritten(deg: real, nextDeg: real): real
  {
    var m := deg + (nextDeg - deg) / 2.0;
    if m > 360.0 then m - 360.0 else m
  }

  /** The previous-side midpoint degree with p.prev.deg unwrapped first (pPrevDeg: a
      turn less when it is not below p.deg), as the loop prepares it. */
  function PrevMidDeg(prevDeg: real, deg: real): real
  {
    var pd := if prevDeg < deg then prevDeg else prevDeg - 360.0;
    var m := pd + (deg - pd) / 2.0;
    if m < 0.0 then m + 360.0 else m
  }

  /** The next-side midpoint degree with p.next.deg unwrapped first (pNextDeg: a turn
      more when it is not above p.deg). */
  function NextMidDeg(deg: real, nextDeg: real): real
  {
    var nd := if nextDeg > deg then nextDeg else nextDeg + 360.0;
    var m := deg + (nd - deg) / 2.0;
    if m > 360.0 then m - 360.0 else m
  }

  /** The new previous-side sample lies halfway along the arc from p.prev to p. */
  lemma PrevMidHalves(prevDeg: real, deg: real)
    requires 0.0 <= prevDeg < 360.0 && 0.0 <= deg < 360.0
    ensures 0.0 <= PrevMidDeg(prevDeg, deg) < 360.0
    ensures SameAngle(PrevMidDeg(prevDeg, deg), prevDeg + Ccw(prevDeg, deg) / 2.0)
  {
  }

  /** The new next-side sample lies halfway along the arc from p to p.next. */
  lemma NextMidHalves(deg: real, nextDeg: real)
    requires 0.0 <= deg < 360.0 && 0.0 <= nextDeg < 360.0
    ensures 0.0 <= NextMidDeg(deg, nextDeg) <= 360.0
    ensures SameAngle(NextMidDeg(deg, nextDeg), deg + Ccw(deg, nextDeg) / 2.0)
  {
  }

  /** Away from the 0-degree seam the loop's midpoints are the intended ones. */
  lemma AsWrittenOffSeam(a: real, b: real)
    requires a < b
    ensures PrevMidDegAsWritten(a, b) == PrevMidDeg(a, b)
    ensures NextMidDegAsWritten(a, b) == NextMidDeg(a, b)
  {
  }

  /** At the seam they are not: with initLod = 4 the ring holds degrees 0, 90, 180, 270;
      for the waypoint at 0 the previous sample is at 270 and the loop puts the new
      sample at 135, on the far side of the circle, instead of 315; for the waypoint at
      270 the next sample is at 0 and the new sample again lands at 135. */
  lemma SeamMidpoints()
    ensures PrevMidDegAsWritten(270.0, 0.0) == 135.0
    ensures !SameAngle(PrevMidDegAsWritten(270.0, 0.0), 270.0 + Ccw(270.0, 0.0) / 2.0)
    ensures NextMidDegAsWritten(270.0, 0.0) == 135.0
    ensures !SameAngle(NextMidDegAsWritten(270.0, 0.0), 270.0 + Ccw(270.0, 0.0) / 2.0)
    ensures PrevMidDeg(270.0, 0.0) == 315.0 && NextMidDeg(270.0, 0.0) == 315.0
  {
  }

  /** Degrees in [0, 360] stay there, as written and corrected alike. */
  lemma MidDegsInRange(a: real, b: real)
    requires 0.0 <= a <= 360.0 && 0.0 <= b <= 360.0
    ensures 0.0 <= PrevMidDegAsWritten(a, b) <= 360.0 && 0.0 <= NextMidDegAsWritten(a, b) <= 360.0
    ensures 0.0 <= PrevMidDeg(a, b) <= 360.0 && 0.0 <= NextMidDeg(a, b) <= 360.0
  {
  }

  // ---- rings of circle samples ----

  /** Every sample sits on circle c at its own degree, a degree in [0, 360]. */
  ghost predicate OnCircle(m: map<nat, CircSample>, c: Circle, ptAt: PtAtFn)
  {
    forall k :: k in m ==> 0.0 <= m[k].deg <= 360.0 && m[k].pt == ptAt(c, m[k].deg)
  }

  /** A closed ring with at least one sample, keyed 0 .. count-1, on its circle. */
  ghost predicate CircRingOk(r: Ring<CircSample>, c: Circle, ptAt: PtAtFn)
    reads r
  {
    r.Valid() && r.Dense() && r.closed && |r.order| > 0 && OnCircle(r.vals, c, ptAt)
  }

  ghost predicate CircRingsOk(rings: seq<Ring<CircSample>>, circles: seq<Circle>, ptAt: PtAtFn)
    reads set r | r in rings
  {
    |rings| == |circles| && PolyAdapt.Separate(rings) &&
    forall i :: 0 <= i < |rings| ==> CircRingOk(rings[i], circles[i], ptAt)
  }

  /** The degree of seed sample i: i * 360 / initLod. */
  function SeedDeg(i: nat, initLod: nat): real
    requires initLod > 0
  {
    (i as real) * 360.0 / (initLod as real)
  }

  lemma SeedDegRange(i: nat, initLod: nat)
    requires i < initLod
    ensures 0.0 <= SeedDeg(i, initLod) < 360.0
  {
    assert (i as real) < (initLod as real);
    assert (i as real) * 360.0 < (initLod as real) * 360.0;
  }

  /** The seed samples are all in m, sample i at degree i * 360 / initLod. */
  ghost predicate Seeded(m: map<nat, CircSample>, initLod: nat)
    requires initLod > 0
  {
    forall j :: 0 <= j < initLod ==> j in m && m[j].deg == SeedDeg(j, initLod)
  }

  /** One circle's ring: initLod samples appended in order, key i at degree
      i * 360 / initLod. */
  method SeedCircleRing(c: Circle, ptAt: PtAtFn, initLod: nat) returns (ring: Ring<CircSample>)
    requires initLod > 0
    ensures fresh(ring) && CircRingOk(ring, c, ptAt) && ring.count == initLod
    ensures Seeded(ring.vals, initLod)
  {
    ring := new Ring<CircSample>(true);
    var i := 0;
    while i < initLod
      invariant i <= initLod && ring.Valid() && ring.Dense() && ring.closed && ring.count == i
      invariant |ring.order| == i && OnCircle(ring.vals, c, ptAt)
      invariant forall x :: 0 <= x < i ==> x in ring.vals && ring.vals[x].deg == SeedDeg(x, initLod)
    {
      var deg := (i as real) * 360.0 / (initLod as real);
      SeedDegRange(i, initLod);
      ring.Append(i, CircSample(deg, ptAt(c, deg)));
      i := i + 1;
    }
  }

  /** One ring per circle. */
  method SeedCircleRings(circles: seq<Circle>, ptAt: PtAtFn, initLod: nat)
    returns (rings: seq<Ring<CircSample>>)
    requires initLod > 0
    ensures CircRingsOk(rings, circles, ptAt)
    ensures forall i :: 0 <= i < |rings| ==> fresh(rings[i])
    ensures forall i :: 0 <= i < |rings| ==> Seeded(rings[i].vals, initLod)
  {
    rings := [];
    var i := 0;
    while i < |circles|
      invariant i <= |circles| && |rings| == i && PolyAdapt.Separate(rings)
      invariant forall x :: 0 <= x < i ==> fresh(rings[x]) && CircRingOk(rings[x], circles[x], ptAt)
      invariant forall x :: 0 <= x < i ==> Seeded(rings[x].vals, initLod)
    {
      var ring := SeedCircleRing(circles[i], ptAt, initLod);
      ghost var before := rings;
      rings := rings + [ring];
      assert rings[i] == ring && forall x :: 0 <= x < i ==> rings[x] == before[x];
      i := i + 1;
    }
  }

  /** The two insertions of a refinement: sNext after k under key count+1, then sPrev
      after pPrev under key count. */
  method InsertPair(r: Ring<CircSample>, k: nat, pPrev: nat, sPrev: CircSample, sNext: CircSample)
    requires r.Valid() && r.Dense() && k in r.vals && pPrev in r.vals
    modifies r
    ensures r.Valid() && r.Dense() && r.count == old(r.count) + 2
    ensures Extends(old(r.vals), r.vals)
    ensures old(r.count) in r.vals && r.vals[old(r.count)] == sPrev
    ensures old(r.count) + 1 in r.vals && r.vals[old(r.count) + 1] == sNext
    ensures forall x :: x in r.vals ==> x in old(r.vals) || x == old(r.count) || x == old(r.count) + 1
    ensures r.order == Splice(Splice(old(r.order), k, old(r.count) + 1), pPrev, old(r.count))
  {
    var c0: nat := r.count;
    var c1: nat := c0 + 1;
    ghost var v0 := r.vals;
    ghost var o0 := r.order;
    r.Insert(k, c1, sNext);
    ghost var v1 := r.vals;
    assert v1 == v0[c1 := sNext];
    assert r.order == Splice(o0, k, c1);
    assert c0 !in v1;
    r.Insert(pPrev, c0, sPrev);
    assert r.vals == v1[c0 := sPrev];
    assert r.order == Splice(Splice(o0, k, c1), pPrev, c0);
    assert forall x: nat :: x in r.vals <==> x < c0 + 2 by {
      forall x: nat ensures x in r.vals <==> x < c0 + 2 {
        assert x in r.vals <==> x in v0 || x == c0 || x == c1;
      }
    }
  }

  /** Split the two arcs at sample k: a sample at the mean of the degrees of p.prev and
      p gets key count and goes after p.prev, one at the mean of the degrees of p and
      p.next gets key count+1 and goes after k. Across the 0-degree seam these means
      are not the arc midpoints (see SeamMidpoints). */
  method RefineCircleAt(r: Ring<CircSample>, c: Circle, ptAt: PtAtFn, k: nat)
    requires CircRingOk(r, c, ptAt) && k in r.vals
    modifies r
    ensures CircRingOk(r, c, ptAt) && Extends(old(r.vals), r.vals)
    ensures r.count == old(r.count) + 2
    ensures var pPrev := PrevIn(old(r.order), true, k).value;
            var pNext := NextIn(old(r.order), true, k).value;
            var v0 := old(r.vals);
      old(r.count) in r.vals && old(r.count) + 1 in r.vals &&
      r.vals[old(r.count)].deg == PrevMidDegAsWritten(v0[pPrev].deg, v0[k].deg) &&
      r.vals[old(r.count) + 1].deg == NextMidDegAsWritten(v0[k].deg, v0[pNext].deg) &&
      r.order == Splice(Splice(old(r.order), k, old(r.count) + 1), pPrev, old(r.count))
  {
    var p := r.Query(k);
    var pPrev := r.Prev(k).value;
    var pNext := r.Next(k).value;
    var prevDeg, nextDeg := r.Query(pPrev).deg, r.Query(pNext).deg;
    var pPrevMidDeg := PrevMidDegAsWritten(prevDeg, p.deg);
    var pNextMidDeg := NextMidDegAsWritten(p.deg, nextDeg);
    MidDegsInRange(prevDeg, p.deg);
    MidDegsInRange(p.deg, nextDeg);
    ghost var v0 := r.vals;
    ghost var c0 := r.count;
    assert c0 !in v0 && c0 + 1 !in v0;
    InsertPair(r, k, pPrev, CircSample(pPrevMidDeg, ptAt(c, pPrevMidDeg)), CircSample(pNextMidDeg, ptAt(c, pNextMidDeg)));
  }

  /** RefineCircleAt, seen from the loop over the circles. */
  method RefineCircleRing(r: Ring<CircSample>, c: Circle, ptAt: PtAtFn, k: nat)
    requires CircRingOk(r, c, ptAt) && k in r.vals
    modifies r
    ensures CircRingOk(r, c, ptAt) && Extends(old(r.vals), r.vals)
  {
    RefineCircleAt(r, c, ptAt, k);
  }

  /** Split the arcs around every waypoint of the route sp, circle by circle. */
  method RefineCircles(rings: seq<Ring<CircSample>>, circles: seq<Circle>, ptAt: PtAtFn, sp: seq<nat>)
    requires CircRingsOk(rings, circles, ptAt) && |sp| == |rings|
    requires forall i :: 0 <= i < |sp| ==> sp[i] in rings[i].vals
    modifies set r | r in rings
    ensures CircRingsOk(rings, circles, ptAt)
    ensures forall x :: 0 <= x < |rings| ==> Extends(old(rings[x].vals), rings[x].vals)
  {
    ghost var D0 := ValsOf(rings);
    var i := 0;
    while i < |rings|
      invariant i <= |rings| && PolyAdapt.Separate(rings)
      invariant forall x :: 0 <= x < |rings| ==> CircRingOk(rings[x], circles[x], ptAt)
      invariant forall x :: i <= x < |rings| ==> rings[x].vals == D0[x]
      invariant forall x :: 0 <= x < i ==> Extends(D0[x], rings[x].vals)
    {
      label L:
      RefineCircleRing(rings[i], circles[i], ptAt, sp[i]);
      assert forall x :: 0 <= x < |rings| && x != i ==> rings[x] != rings[i] && unchanged@L(rings[x]);
      i := i + 1;
    }
  }

  // ---- the samples the search sees ----

  /** The ring contents, circle by circle. */
  function ValsOf(rings: seq<Ring<CircSample>>): (D: seq<map<nat, CircSample>>)
    reads set r | r in rings
    ensures |D| == |rings| && forall i :: 0 <= i < |rings| ==> D[i] == rings[i].vals
  {
    if rings == [] then []
    else ValsOf(rings[..|rings| - 1]) + [rings[|rings| - 1].vals]
  }

  /** The points of one ring's samples, by key. */
  function PointsOf(m: map<nat, CircSample>): (pts: map<nat, Point>)
    ensures forall k :: k in pts <==> k in m
    ensures forall k :: k in m ==> pts[k] == m[k].pt
  {
    map k | k in m :: m[k].pt
  }

  /** The points of every ring's samples, circle by circle. */
  function PointsAll(D: seq<map<nat, CircSample>>): (S: Samples)
    ensures |S| == |D| && forall i :: 0 <= i < |D| ==> S[i] == PointsOf(D[i])
  {
    seq(|D|, i requires 0 <= i < |D| => PointsOf(D[i]))
  }

  /** S holds, circle by circle, the points the rings hold now. */
  ghost predicate CSnapshot(S: Samples, rings: seq<Ring<CircSample>>)
    reads set r | r in rings
  {
    |S| == |rings| && forall i :: 0 <= i < |rings| ==> S[i] == PointsOf(rings[i].vals)
  }

  /** Every ring still holds every sample V0 records for it. */
  ghost predicate ValsFrom(V0: seq<map<nat, CircSample>>, rings: seq<Ring<CircSample>>)
    reads set r | r in rings
  {
    |V0| == |rings| && forall x :: 0 <= x < |rings| ==> Extends(V0[x], rings[x].vals)
  }

  lemma PointsGrow(m0: map<nat, CircSample>, m: map<nat, CircSample>)
    requires Extends(m0, m)
    ensures Extends(PointsOf(m0), PointsOf(m))
  {
  }

  /** Every ring can be walked from its head: consistent and non-empty. */
  ghost predicate Walkable(rings: seq<Ring<CircSample>>)
    reads set r | r in rings
  {
    forall i :: 0 <= i < |rings| ==> rings[i].Valid() && |rings[i].order| > 0
  }

  /** The key lists of the rings, each walked from its head. */
  method RingOrders(rings: seq<Ring<CircSample>>, ghost S: Samples)
    returns (ords: seq<seq<nat>>)
    requires Walkable(rings) && CSnapshot(S, rings)
    ensures PolyAdapt.ListsIn(S, ords) && PolyAdapt.OrdersMatch(S, ords)
  {
    ords := [];
    var i := 0;
    while i < |rings|
      invariant i <= |rings| && |ords| == i
      invariant forall x :: 0 <= x < i ==> ords[x] == rings[x].order
    {
      var ks := rings[i].Traverse();
      ords := ords + [ks];
      i := i + 1;
    }
    forall x | 0 <= x < |S| ensures forall k :: k in S[x] <==> k in ords[x] {
      assert rings[x].Valid();
    }
  }

  /** The refinement, and the points the rings hold after it. */
  method RefineAndSample(rings: seq<Ring<CircSample>>, circles: seq<Circle>, ptAt: PtAtFn,
                         S0: Samples, sp0: seq<nat>, ghost V0: seq<map<nat, CircSample>>) returns (S: Samples)
    requires CircRingsOk(rings, circles, ptAt) && CSnapshot(S0, rings) && ValsFrom(V0, rings)
    requires |sp0| == |S0| && OnSamples(S0, sp0)
    modifies set r | r in rings
    ensures CircRingsOk(rings, circles, ptAt) && CSnapshot(S, rings) && Grows(S0, S)
    ensures ValsFrom(V0, rings)
  {
    RefineCircles(rings, circles, ptAt, sp0);
    S := PointsAll(ValsOf(rings));
    forall x | 0 <= x < |rings| ensures Extends(V0[x], rings[x].vals) {
      assert Extends(V0[x], old(rings[x].vals));
    }
    forall i | 0 <= i < |S0| ensures Extends(S0[i], S[i]) {
      PointsGrow(old(rings[i].vals), rings[i].vals);
    }
  }

  /** The route's points read from the rings: start, one sample per circle, end. */
  method CircleRoutePoints(st: Point, en: Point, rings: seq<Ring<CircSample>>, sp: seq<nat>, ghost S: Samples)
    returns (path: seq<Point>)
    requires CSnapshot(S, rings) && |sp| == |S| && OnSamples(S, sp)
    ensures path == RoutePoints(st, S, sp, en)
  {
    path := [st];
    var i := 0;
    while i < |sp|
      invariant i <= |sp| && OnSamples(S, sp[..i])
      invariant path == [st] + Waypoints(S, sp[..i])
    {
      assert OnSamples(S, sp[..i + 1]);
      assert Waypoints(S, sp[..i + 1]) == Waypoints(S, sp[..i]) + [S[i][sp[i]]];
      path := path + [rings[i].Query(sp[i]).pt];
      i := i + 1;
    }
    assert sp[..i] == sp;
    path := path + [en];
  }

  // ---- the graph: built once, then only added to ----

  method MissingStartFan(dist: DistFn, st: Point, en: Point, S: Samples, L: seq<seq<nat>>,
                         G0: Graph) returns (G: Graph)
    requires PolyAdapt.ListsIn(S, L) && |L| >= 1
    requires Faithful(dist, st, en, S, G0) && forall e :: e in G0 ==> PolyAdapt.NearEdge(L, e)
    ensures Faithful(dist, st, en, S, G) && forall e :: e in G ==> PolyAdapt.NearEdge(L, e)
    ensures PolyAdapt.MemoGrows(G0, G)
    ensures forall k :: k in L[0] ==> (Start, V(0, k)) in G
  {
    G := G0;
    var ks := L[0];
    var j := 0;
    while j < |ks|
      invariant j <= |ks|
      invariant Faithful(dist, st, en, S, G) && forall e :: e in G ==> PolyAdapt.NearEdge(L, e)
      invariant PolyAdapt.MemoGrows(G0, G)
      invariant forall x :: 0 <= x < j ==> (Start, V(0, ks[x])) in G
    {
      var e := (Start, V(0, ks[j]));
      if e !in G {
        var d := dist(st, S[0][ks[j]]);
        G := G[e := d];
      }
      j := j + 1;
    }
  }

  method MissingPairBlock(dist: DistFn, st: Point, en: Point, S: Samples, L: seq<seq<nat>>,
                          i: nat, j: nat, G0: Graph) returns (G: Graph)
    requires PolyAdapt.ListsIn(S, L) && j == i + 1 && j < |L|
    requires Faithful(dist, st, en, S, G0) && forall e :: e in G0 ==> PolyAdapt.NearEdge(L, e)
    ensures Faithful(dist, st, en, S, G) && forall e :: e in G ==> PolyAdapt.NearEdge(L, e)
    ensures PolyAdapt.MemoGrows(G0, G)
    ensures forall a, b :: a in L[i] && b in L[j] ==> (V(i, a), V(j, b)) in G
  {
    G := G0;
    var ksI, ksJ := L[i], L[j];
    var x := 0;
    while x < |ksI|
      invariant x <= |ksI|
      invariant Faithful(dist, st, en, S, G) && forall e :: e in G ==> PolyAdapt.NearEdge(L, e)
      invariant PolyAdapt.MemoGrows(G0, G)
      invariant forall x', b :: 0 <= x' < x && b in ksJ ==> (V(i, ksI[x']), V(j, b)) in G
    {
      var curI := ksI[x];
      var y := 0;
      while y < |ksJ|
        invariant y <= |ksJ|
        invariant Faithful(dist, st, en, S, G) && forall e :: e in G ==> PolyAdapt.NearEdge(L, e)
        invariant PolyAdapt.MemoGrows(G0, G)
        invariant forall x', b :: 0 <= x' < x && b in ksJ ==> (V(i, ksI[x']), V(j, b)) in G
        invariant forall y' :: 0 <= y' < y ==> (V(i, curI), V(j, ksJ[y'])) in G
      {
        var curJ := ksJ[y];
        var e := (V(i, curI), V(j, curJ));
        if e !in G {
          var d := dist(S[i][curI], S[j][curJ]);
          G := G[e := d];
        }
        y := y + 1;
      }
      x := x + 1;
    }
  }

  method MissingEndFan(dist: DistFn, st: Point, en: Point, S: Samples, L: seq<seq<nat>>,
                       last: nat, G0: Graph) returns (G: Graph)
    requires PolyAdapt.ListsIn(S, L) && last + 1 == |L|
    requires Faithful(dist, st, en, S, G0) && forall e :: e in G0 ==> PolyAdapt.NearEdge(L, e)
    ensures Faithful(dist, st, en, S, G) && forall e :: e in G ==> PolyAdapt.NearEdge(L, e)
    ensures PolyAdapt.MemoGrows(G0, G)
    ensures forall k :: k in L[last] ==> (V(last, k), End) in G
  {
    G := G0;
    var ks := L[last];
    var j := 0;
    while j < |ks|
      invariant j <= |ks|
      invariant Faithful(dist, st, en, S, G) && forall e :: e in G ==> PolyAdapt.NearEdge(L, e)
      invariant PolyAdapt.MemoGrows(G0, G)
      invariant forall x :: 0 <= x < j ==> (V(last, ks[x]), End) in G
    {
      var e := (V(last, ks[j]), End);
      if e !in G {
        var d := dist(S[last][ks[j]], en);
        G := G[e := d];
      }
      j := j + 1;
    }
  }

  /** After a refinement: every edge among the samples that G lacks is added with its
      length; no edge already present is touched. */
  method AddMissing(dist: DistFn, st: Point, en: Point, S: Samples, L: seq<seq<nat>>, G0: Graph)
    returns (G: Graph)
    requires PolyAdapt.ListsIn(S, L) && |L| >= 1
    requires Faithful(dist, st, en, S, G0) && forall e :: e in G0 ==> PolyAdapt.NearEdge(L, e)
    ensures Faithful(dist, st, en, S, G) && PolyAdapt.MemoGrows(G0, G)
    ensures forall e :: e in G <==> PolyAdapt.NearEdge(L, e)
  {
    G := MissingStartFan(dist, st, en, S, L, G0);
    var i := 0;
    while i + 1 < |L|
      invariant i < |L|
      invariant Faithful(dist, st, en, S, G) && forall e :: e in G ==> PolyAdapt.NearEdge(L, e)
      invariant PolyAdapt.MemoGrows(G0, G)
      invariant forall k :: k in L[0] ==> (Start, V(0, k)) in G
      invariant forall e :: PolyAdapt.NearEdge(L, e) && PolyAdapt.Middle(e) && e.0.layer < i ==> e in G
    {
      var j := i + 1;
      G := MissingPairBlock(dist, st, en, S, L, i, j, G);
      forall e | PolyAdapt.NearEdge(L, e) && PolyAdapt.Middle(e) && e.0.layer == i ensures e in G {
        assert e == (V(i, e.0.key), V(j, e.1.key));
      }
      i := i + 1;
    }
    G := MissingEndFan(dist, st, en, S, L, i, G);
    PolyAdapt.NearCovered(L, G, i);
  }

  /** With the key lists matching the samples, the edges among the lists are the live
      edges, and the choices within the lists are the sample choices. */
  lemma ListsAreSamples(S: Samples, L: seq<seq<nat>>)
    requires PolyAdapt.OrdersMatch(S, L)
    ensures forall e :: PolyAdapt.NearEdge(L, e) <==> LiveEdge(S, e)
    ensures forall ks :: PolyAdapt.Within(L, ks) <==> |ks| == |S| && OnSamples(S, ks)
  {
  }

  /** The shortest route of a graph holding every edge among the lists L, as a choice of
      samples: no choice within L gives a shorter polyline. */
  method CircleSearch(dist: DistFn, st: Point, en: Point, S: Samples, L: seq<seq<nat>>, G: Graph,
                      sp0: seq<nat>) returns (sp: seq<nat>)
    requires |S| >= 1 && PolyAdapt.ListsIn(S, L) && PolyAdapt.Within(L, sp0)
    requires Faithful(dist, st, en, S, G) && forall e :: e in G <==> PolyAdapt.NearEdge(L, e)
    ensures PolyAdapt.Within(L, sp) && OnSamples(S, sp)
    ensures forall ks :: PolyAdapt.Within(L, ks) ==>
      OnSamples(S, ks) && PathLength(dist, RoutePoints(st, S, sp, en)) <= PathLength(dist, RoutePoints(st, S, ks, en))
  {
    PolyAdapt.NearInLayers(G, L);
    PolyAdapt.NearRoute(L, G, sp0);
    var r := ShortestRoute(G, L);
    assert r.Some?;
    sp := r.value;
    RouteInLayers(G, L, sp);
    forall ks | PolyAdapt.Within(L, ks) ensures IsRoute(G, |S|, ks) && RouteW(G, sp) <= RouteW(G, ks) {
      PolyAdapt.NearRoute(L, G, ks);
    }
    PolyAdapt.BestWithin(dist, st, en, S, L, G, sp);
    RouteLength(dist, st, en, S, G, sp);
  }

  // ---- the refinement loop ----

  /** d is the length of a shortest route through the samples S. */
  ghost predicate BestOver(dist: DistFn, st: Point, en: Point, S: Samples, d: real)
  {
    forall ks :: |ks| == |S| && OnSamples(S, ks) ==> d <= PathLength(dist, RoutePoints(st, S, ks, en))
  }

  /** What the loop keeps: rings on their circles, S their points, G faithful and holding
      exactly the edges among the samples, sp a shortest route and d its length. */
  ghost predicate CircSearching(dist: DistFn, st: Point, en: Point, ptAt: PtAtFn, circles: seq<Circle>,
                                rings: seq<Ring<CircSample>>, S: Samples, G: Graph, sp: seq<nat>, d: real)
    reads set r | r in rings
  {
    CircRingsOk(rings, circles, ptAt) && CSnapshot(S, rings) && |S| >= 1 &&
    Faithful(dist, st, en, S, G) && (forall e :: e in G <==> LiveEdge(S, e)) &&
    |sp| == |S| && OnSamples(S, sp) &&
    d == PathLength(dist, RoutePoints(st, S, sp, en)) && BestOver(dist, st, en, S, d)
  }

  /** Search G over the samples the rings hold and measure the route. */
  method SearchAndMeasure(dist: DistFn, st: Point, en: Point, ptAt: PtAtFn, circles: seq<Circle>,
                          rings: seq<Ring<CircSample>>, S: Samples, L: seq<seq<nat>>, G: Graph, sp0: seq<nat>,
                          ghost V0: seq<map<nat, CircSample>>)
    returns (sp: seq<nat>, d: real)
    requires CircRingsOk(rings, circles, ptAt) && CSnapshot(S, rings) && |S| >= 1
    requires PolyAdapt.ListsIn(S, L) && PolyAdapt.OrdersMatch(S, L)
    requires Faithful(dist, st, en, S, G) && forall e :: e in G <==> PolyAdapt.NearEdge(L, e)
    requires |sp0| == |S| && OnSamples(S, sp0)
    requires ValsFrom(V0, rings)
    ensures CircSearching(dist, st, en, ptAt, circles, rings, S, G, sp, d)
    ensures d <= PathLength(dist, RoutePoints(st, S, sp0, en)) && ValsFrom(V0, rings)
  {
    ListsAreSamples(S, L);
    sp := CircleSearch(dist, st, en, S, L, G, sp0);
    d := MeasureRoute(dist, st, en, rings, sp, S);
  }

  /** The length of the route sp, read from the rings leg by leg. */
  method MeasureRoute(dist: DistFn, st: Point, en: Point, rings: seq<Ring<CircSample>>, sp: seq<nat>,
                      ghost S: Samples) returns (d: real)
    requires CSnapshot(S, rings) && |sp| == |S| && OnSamples(S, sp)
    ensures d == PathLength(dist, RoutePoints(st, S, sp, en))
  {
    var path := CircleRoutePoints(st, en, rings, sp, S);
    d := LegSum(dist, path);
  }

  /** The first half of a pass: split the arcs at every waypoint, read the new key
      lists and add the edges the new samples bring. */
  method RefineAndConnect(dist: DistFn, st: Point, en: Point, ptAt: PtAtFn, circles: seq<Circle>,
                          rings: seq<Ring<CircSample>>, S0: Samples, G0: Graph, sp0: seq<nat>,
                          ghost V0: seq<map<nat, CircSample>>)
    returns (S: Samples, L: seq<seq<nat>>, G: Graph)
    requires CircRingsOk(rings, circles, ptAt) && CSnapshot(S0, rings) && |S0| >= 1 && ValsFrom(V0, rings)
    requires Faithful(dist, st, en, S0, G0) && forall e :: e in G0 <==> LiveEdge(S0, e)
    requires |sp0| == |S0| && OnSamples(S0, sp0)
    modifies set r | r in rings
    ensures CircRingsOk(rings, circles, ptAt) && CSnapshot(S, rings) && Grows(S0, S)
    ensures PolyAdapt.ListsIn(S, L) && PolyAdapt.OrdersMatch(S, L)
    ensures Faithful(dist, st, en, S, G) && forall e :: e in G <==> PolyAdapt.NearEdge(L, e)
    ensures PolyAdapt.MemoGrows(G0, G) && ValsFrom(V0, rings)
  {
    S := RefineAndSample(rings, circles, ptAt, S0, sp0, V0);
    FaithfulGrows(dist, st, en, S0, S, G0);
    L := RingOrders(rings, S);
    ListsAreSamples(S, L);
    G := AddMissing(dist, st, en, S, L, G0);
  }

  /** One pass of the loop: split the arcs at every waypoint, add the missing edges,
      search again and measure. */
  method CircleStep(dist: DistFn, st: Point, en: Point, ptAt: PtAtFn, circles: seq<Circle>,
                    rings: seq<Ring<CircSample>>, S0: Samples, G0: Graph, sp0: seq<nat>, d0: real,
                    ghost V0: seq<map<nat, CircSample>>)
    returns (S: Samples, G: Graph, sp: seq<nat>, d: real)
    requires IsDist(dist) && CircSearching(dist, st, en, ptAt, circles, rings, S0, G0, sp0, d0)
    requires ValsFrom(V0, rings)
    modifies set r | r in rings
    ensures CircSearching(dist, st, en, ptAt, circles, rings, S, G, sp, d)
    ensures Grows(S0, S) && PolyAdapt.MemoGrows(G0, G) && ValsFrom(V0, rings)
    ensures 0.0 <= d <= d0
  {
    var L;
    S, L, G := RefineAndConnect(dist, st, en, ptAt, circles, rings, S0, G0, sp0, V0);
    WaypointsGrow(S0, S, sp0);
    assert RoutePoints(st, S, sp0, en) == RoutePoints(st, S0, sp0, en);
    sp, d := SearchAndMeasure(dist, st, en, ptAt, circles, rings, S, L, G, sp0, V0);
    PathLengthNonNeg(dist, RoutePoints(st, S, sp, en));
  }

  /** The seeded rings, their points, their key lists and the graph over them. */
  method SeedAndConnect(dist: DistFn, st: Point, en: Point, ptAt: PtAtFn, circles: seq<Circle>, initLod: nat)
    returns (rings: seq<Ring<CircSample>>, S: Samples, L: seq<seq<nat>>, G: Graph,
             ghost V0: seq<map<nat, CircSample>>)
    requires |circles| >= 1 && initLod > 0
    ensures CircRingsOk(rings, circles, ptAt) && CSnapshot(S, rings) && |S| >= 1
    ensures forall i :: 0 <= i < |rings| ==> fresh(rings[i])
    ensures ValsFrom(V0, rings) && forall i :: 0 <= i < |V0| ==> Seeded(V0[i], initLod)
    ensures forall i :: 0 <= i < |S| ==> 0 in S[i]
    ensures PolyAdapt.ListsIn(S, L) && PolyAdapt.OrdersMatch(S, L)
    ensures Faithful(dist, st, en, S, G) && forall e :: e in G <==> PolyAdapt.NearEdge(L, e)
  {
    rings := SeedCircleRings(circles, ptAt, initLod);
    V0 := ValsOf(rings);
    S := PointsAll(ValsOf(rings));
    L := RingOrders(rings, S);
    var tau;
    G, tau := PolyAdapt.InitialGraph(dist, st, en, S, L);
  }

  /** Before the loop: the seeded rings, the graph over all their samples and its
      shortest route. */
  method CircleSeed(dist: DistFn, st: Point, en: Point, ptAt: PtAtFn, circles: seq<Circle>, initLod: nat)
    returns (rings: seq<Ring<CircSample>>, S: Samples, G: Graph, sp: seq<nat>, d: real,
             ghost V0: seq<map<nat, CircSample>>)
    requires IsDist(dist) && |circles| >= 1 && initLod > 0
    ensures CircSearching(dist, st, en, ptAt, circles, rings, S, G, sp, d)
    ensures forall i :: 0 <= i < |rings| ==> fresh(rings[i])
    ensures ValsFrom(V0, rings) && forall i :: 0 <= i < |V0| ==> Seeded(V0[i], initLod)
    ensures 0.0 <= d
  {
    var L;
    rings, S, L, G, V0 := SeedAndConnect(dist, st, en, ptAt, circles, initLod);
    var zeros := seq(|S|, i => 0);
    assert |zeros| == |S| && OnSamples(S, zeros);
    sp, d := SearchAndMeasure(dist, st, en, ptAt, circles, rings, S, L, G, zeros, V0);
    PathLengthNonNeg(dist, RoutePoints(st, S, sp, en));
  }

  /** The refinement loop: refine and search again until the route length changes by
      at most adaptErr; costs records the length after every search. */
  method CircleLoop(dist: DistFn, st: Point, en: Point, ptAt: PtAtFn, circles: seq<Circle>,
                    rings: seq<Ring<CircSample>>, S0: Samples, G0: Graph, sp0: seq<nat>, d0: real,
                    adaptErr: real, ghost V0: seq<map<nat, CircSample>>)
    returns (S: Samples, sp: seq<nat>, d: real, ghost costs: seq<real>)
    requires IsDist(dist) && adaptErr > 0.0
    requires CircSearching(dist, st, en, ptAt, circles, rings, S0, G0, sp0, d0) && ValsFrom(V0, rings)
    modifies set r | r in rings
    ensures CircRingsOk(rings, circles, ptAt) && CSnapshot(S, rings)
    ensures |sp| == |S| && OnSamples(S, sp) && BestOver(dist, st, en, S, d)
    ensures d == PathLength(dist, RoutePoints(st, S, sp, en))
    ensures PolyAdapt.CostTrail(costs, adaptErr, false) && costs[0] == d0 && costs[|costs| - 1] == d
    ensures ValsFrom(V0, rings)
  {
    var G;
    S, G, sp, d := S0, G0, sp0, d0;
    PathLengthNonNeg(dist, RoutePoints(st, S, sp, en));
    costs := [d];
    PolyAdapt.FloorNonNeg(d, adaptErr);
    var refineFlag := true;
    while refineFlag
      invariant CircSearching(dist, st, en, ptAt, circles, rings, S, G, sp, d)
      invariant d >= 0.0 && (d / adaptErr).Floor >= 0
      invariant PolyAdapt.CostTrail(costs, adaptErr, refineFlag) && costs[0] == d0 && costs[|costs| - 1] == d
      invariant ValsFrom(V0, rings)
      decreases if refineFlag then (d / adaptErr).Floor + 1 else 0
    {
      var sp2, newDist;
      S, G, sp2, newDist := CircleStep(dist, st, en, ptAt, circles, rings, S, G, sp, d, V0);
      PolyAdapt.MeasureStep(d, newDist, adaptErr);
      if PolyAdapt.Abs(newDist - d) <= adaptErr {
        refineFlag := false;
      }
      PolyAdapt.CostsStep(costs, newDist, adaptErr, refineFlag);
      costs := costs + [newDist];
      d, sp := newDist, sp2;
    }
  }

  /**
   * _circle2CirclePathAdaptIter. D is what the rings hold at the end and ks the chosen
   * sample keys: every sample lies on its circle, the seeded ones at i * 360 / initLod;
   * the path runs through the chosen samples, and no choice of samples is shorter.
   * costs is the route length after every search: non-increasing, every refinement
   * but the last shortened it by more than adaptErr, the last by at most adaptErr.
   */
  method Circle2CirclePathAdaptIter(dist: DistFn, ptAt: PtAtFn, startPt: Point, endPt: Point,
                                    circles: seq<Circle>, adaptErr: real, initLod: nat)
    returns (res: PolyAdapt.PathDist, ghost D: seq<map<nat, CircSample>>, ghost ks: seq<nat>,
             ghost costs: seq<real>)
    requires IsDist(dist) && adaptErr > 0.0 && |circles| >= 1 && initLod > 0
    ensures |D| == |circles| && forall i :: 0 <= i < |D| ==> OnCircle(D[i], circles[i], ptAt)
    ensures forall i :: 0 <= i < |D| ==> Seeded(D[i], initLod)
    ensures |ks| == |D| && OnSamples(PointsAll(D), ks)
    ensures res.path == RoutePoints(startPt, PointsAll(D), ks, endPt)
    ensures res.dist == PathLength(dist, res.path)
    ensures BestOver(dist, startPt, endPt, PointsAll(D), res.dist)
    ensures PolyAdapt.CostTrail(costs, adaptErr, false) && costs[|costs| - 1] == res.dist
  {
    var rings, S0, G0, sp0, d0, V0 := CircleSeed(dist, startPt, endPt, ptAt, circles, initLod);
    var S, sp, d;
    S, sp, d, costs := CircleLoop(dist, startPt, endPt, ptAt, circles, rings, S0, G0, sp0, d0, adaptErr, V0);
    D, ks := ValsOf(rings), sp;
    assert PointsAll(D) == S;
    forall i | 0 <= i < |D| ensures OnCircle(D[i], circles[i], ptAt) && Seeded(D[i], initLod) {
      assert CircRingOk(rings[i], circles[i], ptAt);
      assert Extends(V0[i], D[i]) && Seeded(V0[i], initLod);
    }
    var path := CircleRoutePoints(startPt, endPt, rings, sp, S);
    res := PolyAdapt.PathDist(path, d);
  }
}

