/**
 * The adaptive polygon-to-polygon search (_poly2PolyPathAdaptIter in obj2Obj.py):
 * seed one ring per polygon with its vertices, take the cheapest layered route
 * through all vertices, then repeatedly split the two ring edges at each waypoint
 * and search again among the five samples around each waypoint, until the route
 * length changes by at most adaptErr.
 */
module PolyAdapt {
  import opened Wrappers
  import opened Geom
  import opened Rings
  import opened LayeredGraph
  import opened Routes

  datatype PathDist = PathDist(path: seq<Point>, dist: real)

  function Abs(x: real): real { if x < 0.0 then -x else x }

  /** The points a ring holds, region by region. */
  function SamplesOf(rings: seq<Ring<Point>>): (S: Samples)
    reads set r | r in rings
    ensures |S| == |rings| && forall i :: 0 <= i < |rings| ==> S[i] == rings[i].vals
  {
    if rings == [] then []
    else SamplesOf(rings[..|rings| - 1]) + [rings[|rings| - 1].vals]
  }

  /** S holds, region by region, the samples the rings hold now. */
  ghost predicate Snapshot(S: Samples, rings: seq<Ring<Point>>)
    reads set r | r in rings
  {
    |S| == |rings| && forall i :: 0 <= i < |rings| ==> S[i] == rings[i].vals
  }

  /** A closed ring with at least one sample, keyed 0 .. count-1. */
  ghost predicate RingOk(r: Ring<Point>)
    reads r
  {
    r.Valid() && r.Dense() && r.closed && |r.order| > 0
  }

  /** One ring per region, no two the same object. */
  predicate Separate<V>(rings: seq<Ring<V>>)
  {
    forall i, j :: 0 <= i < j < |rings| ==> rings[i] != rings[j]
  }

  ghost predicate RingsOk(rings: seq<Ring<Point>>)
    reads set r | r in rings
  {
    Separate(rings) && forall i :: 0 <= i < |rings| ==> RingOk(rings[i])
  }

  /** A choice of one vertex per polygon. */
  predicate IsVertexChoice(polys: seq<seq<Point>>, ks: seq<nat>)
  {
    |ks| == |polys| && forall i :: 0 <= i < |ks| ==> ks[i] < |polys[i]|
  }

  function VertexPoints(polys: seq<seq<Point>>, ks: seq<nat>): (r: seq<Point>)
    requires IsVertexChoice(polys, ks)
    ensures |r| == |ks| && forall i :: 0 <= i < |ks| ==> r[i] == polys[i][ks[i]]
  {
    seq(|ks|, i requires 0 <= i < |ks| => polys[i][ks[i]])
  }

  /** The vertices seeded into the rings: key j of region i is vertex j of polygon i. */
  ghost predicate HoldsVertices(polys: seq<seq<Point>>, S: Samples)
  {
    |S| == |polys| &&
    forall i, j :: 0 <= i < |polys| && 0 <= j < |polys[i]| ==> j in S[i] && S[i][j] == polys[i][j]
  }

  /** A ring holding one polygon's vertices, appended in order with keys 0 .. len-1. */
  method SeedRing(poly: seq<Point>) returns (ring: Ring<Point>)
    ensures fresh(ring) && ring.Valid() && ring.Dense() && ring.closed && ring.count == |poly|
    ensures forall x :: 0 <= x < |poly| ==> x in ring.vals && ring.vals[x] == poly[x]
    ensures RingOn(ring, poly)
  {
    ring := new Ring<Point>(true);
    var i := 0;
    while i < |poly|
      invariant i <= |poly| && ring.Valid() && ring.Dense() && ring.closed && ring.count == i
      invariant forall x :: 0 <= x < i ==> x in ring.vals && ring.vals[x] == poly[x]
      invariant forall x :: 0 <= x < i ==> ring.order[x] == x
    {
      ring.Append(i, poly[i]);
      i := i + 1;
    }
    SeedEdges(poly, ring.order, ring.vals);
  }

  /** A ring as SeedRing leaves it: sound, holding vertex j of poly under key j, and
      edge-linked to poly. */
  ghost predicate Seeded(r: Ring<Point>, poly: seq<Point>)
    reads r
  {
    RingOk(r) && r.count == |poly| && RingOn(r, poly) &&
    forall j :: 0 <= j < |poly| ==> j in r.vals && r.vals[j] == poly[j]
  }

  /** One ring per polygon. */
  method SeedRings(polys: seq<seq<Point>>) returns (rings: seq<Ring<Point>>)
    requires forall i :: 0 <= i < |polys| ==> |polys[i]| > 0
    ensures |rings| == |polys| && RingsOk(rings)
    ensures forall i :: 0 <= i < |rings| ==> fresh(rings[i])
    ensures forall i :: 0 <= i < |rings| ==> rings[i].count == |polys[i]|
    ensures HoldsVertices(polys, SamplesOf(rings))
    ensures OnPolys(rings, polys)
  {
    rings := [];
    var i := 0;
    while i < |polys|
      invariant i <= |polys| && |rings| == i && Separate(rings)
      invariant forall x :: 0 <= x < i ==> fresh(rings[x]) && Seeded(rings[x], polys[x])
    {
      var ring := SeedRing(polys[i]);
      assert Seeded(ring, polys[i]);
      rings := rings + [ring];
      i := i + 1;
    }
  }

  // ---- samples on the polygon boundary ----

  /** The point at parameter s of edge j, the segment from vertex j to the vertex after
      it. */
  function EdgePt(poly: seq<Point>, j: nat, s: real): Point
    requires j < |poly|
  {
    Lerp(poly[j], poly[Succ(poly, j)], s)
  }

  /** The vertex after vertex j, the first one after the last. */
  function Succ(poly: seq<Point>, j: nat): (r: nat)
    requires j < |poly|
    ensures r < |poly|
  {
    if j + 1 < |poly| then j + 1 else 0
  }

  /** u and v lie on one edge of poly. */
  ghost predicate OnOneEdge(poly: seq<Point>, u: Point, v: Point)
  {
    exists j: nat, s: real, t: real :: j < |poly| && 0.0 <= s <= 1.0 && 0.0 <= t <= 1.0 &&
      u == EdgePt(poly, j, s) && v == EdgePt(poly, j, t)
  }

  /** u lies on an edge of poly. */
  ghost predicate OnEdge(poly: seq<Point>, u: Point)
  {
    exists j: nat, s: real :: j < |poly| && 0.0 <= s <= 1.0 && u == EdgePt(poly, j, s)
  }

  /** Sample k and the sample after it in the closed ring lie on one edge. */
  ghost predicate LinkOnEdge(order: seq<nat>, vals: map<nat, Point>, poly: seq<Point>, k: nat)
    requires k in order
  {
    k in vals && NextIn(order, true, k).value in vals && OnOneEdge(poly, vals[k], vals[NextIn(order, true, k).value])
  }

  /** Every sample and the sample after it in the closed ring lie on one edge. */
  ghost predicate EdgeLinked(order: seq<nat>, vals: map<nat, Point>, poly: seq<Point>)
  {
    forall k {:trigger LinkOnEdge(order, vals, poly, k)} :: k in order ==> LinkOnEdge(order, vals, poly, k)
  }

  /** A ring edge-linked to the polygon poly. */
  ghost predicate RingOn(r: Ring<Point>, poly: seq<Point>)
    reads r
  {
    EdgeLinked(r.order, r.vals, poly)
  }

  /** The rings of the polygons, each edge-linked to its own polygon. */
  ghost predicate OnPolys(rings: seq<Ring<Point>>, polys: seq<seq<Point>>)
    reads set r | r in rings
  {
    |rings| == |polys| && forall i :: 0 <= i < |rings| ==> RingOn(rings[i], polys[i])
  }

  /** Halving between two points of one edge stays on that edge, on both sides. */
  lemma MidOnEdge(poly: seq<Point>, u: Point, v: Point)
    requires OnOneEdge(poly, u, v)
    ensures OnOneEdge(poly, u, Mid(u, v)) && OnOneEdge(poly, Mid(u, v), v)
  {
    var j: nat, s: real, t: real :| j < |poly| && 0.0 <= s <= 1.0 && 0.0 <= t <= 1.0 &&
      u == EdgePt(poly, j, s) && v == EdgePt(poly, j, t);
    MidOfLerps(poly[j], poly[Succ(poly, j)], s, t);
    assert Mid(u, v) == EdgePt(poly, j, (s + t) / 2.0);
  }

  /** In a closed ring without repeats the sample before k has k after it. */
  lemma PrevThenNext(s: seq<nat>, k: nat)
    requires Distinct(s) && k in s
    ensures NextIn(s, true, PrevIn(s, true, k).value) == Some(k)
  {
    var i := IndexOf(s, k);
    if i > 0 {
      NextAt(s, true, i - 1);
    } else {
      NextAt(s, true, |s| - 1);
    }
  }

  /** Vertex k and the vertex after it are the two ends of edge k. */
  lemma VertexPair(poly: seq<Point>, k: nat)
    requires k < |poly|
    ensures OnOneEdge(poly, poly[k], poly[Succ(poly, k)])
  {
    assert poly[k] == EdgePt(poly, k, 0.0);
    assert poly[Succ(poly, k)] == EdgePt(poly, k, 1.0);
  }

  /** The vertices of a polygon, in order, are edge-linked. */
  lemma SeedEdges(poly: seq<Point>, order: seq<nat>, vals: map<nat, Point>)
    requires |order| == |poly| && forall x :: 0 <= x < |poly| ==> order[x] == x && x in vals && vals[x] == poly[x]
    ensures EdgeLinked(order, vals, poly)
  {
    forall k | k in order
      ensures LinkOnEdge(order, vals, poly, k)
    {
      SeedPair(poly, order, vals, k);
    }
  }

  lemma SeedPair(poly: seq<Point>, order: seq<nat>, vals: map<nat, Point>, k: nat)
    requires |order| == |poly| && forall x :: 0 <= x < |poly| ==> order[x] == x && x in vals && vals[x] == poly[x]
    requires k in order
    ensures k in vals && NextIn(order, true, k).value in vals
    ensures OnOneEdge(poly, vals[k], vals[NextIn(order, true, k).value])
  {
    var n := |poly|;
    assert Distinct(order) by {
      forall i, j | 0 <= i < j < n
        ensures order[i] != order[j]
      {
        assert order[i] == i && order[j] == j;
      }
    }
    var x := IndexOf(order, k);
    assert order[x] == x;
    NextAt(order, true, x);
    var y := Succ(poly, k);
    if k + 1 < n {
      assert order[k + 1] == k + 1;
    } else {
      assert order[0] == 0;
    }
    assert NextIn(order, true, k) == Some(y);
    assert vals[k] == poly[k] && vals[y] == poly[y];
    VertexPair(poly, k);
  }

  /** The links after RefineAt at k with fresh keys c and c + 1: pPrev -> c -> k ->
      c + 1 -> pNext, where in a ring of one sample pPrev, k and pNext coincide. */
  lemma RefineNext(o0: seq<nat>, k: nat, c: nat, x: nat)
    requires Distinct(o0) && k in o0 && c !in o0 && c + 1 !in o0
    requires x in Splice(Splice(o0, k, c + 1), PrevIn(o0, true, k).value, c)
    ensures var pPrev := PrevIn(o0, true, k).value;
            var o2 := Splice(Splice(o0, k, c + 1), pPrev, c);
      NextIn(o2, true, x) ==
        if x == pPrev then Some(c)
        else if x == c then (if pPrev == k then Some(c + 1) else Some(k))
        else if x == k then Some(c + 1)
        else if x == c + 1 then NextIn(o0, true, k)
        else NextIn(o0, true, x)
  {
    var pPrev := PrevIn(o0, true, k).value;
    var o1 := Splice(o0, k, c + 1);
    PrevThenNext(o0, k);
    SpliceNext(o0, true, k, c + 1, k);
    SpliceNext(o1, true, pPrev, c, x);
    if x == c {
      SpliceNext(o0, true, k, c + 1, pPrev);
    } else if x != pPrev && x != k {
      SpliceNext(o0, true, k, c + 1, x);
    }
  }

  /** RefineAt keeps a ring edge-linked: the two new samples are midpoints of two
      linked pairs, and each takes its place between the two samples it halves. */
  lemma RefineEdges(o0: seq<nat>, v0: map<nat, Point>, poly: seq<Point>, k: nat, c: nat,
                    o2: seq<nat>, v2: map<nat, Point>)
    requires Distinct(o0) && k in o0 && c !in o0 && c + 1 !in o0 && (forall x :: x in v0 <==> x in o0)
    requires EdgeLinked(o0, v0, poly)
    requires o2 == Splice(Splice(o0, k, c + 1), PrevIn(o0, true, k).value, c)
    requires Extends(v0, v2)
    requires c in v2 && v2[c] == Mid(v0[PrevIn(o0, true, k).value], v0[k])
    requires c + 1 in v2 && v2[c + 1] == Mid(v0[k], v0[NextIn(o0, true, k).value])
    ensures EdgeLinked(o2, v2, poly)
  {
    forall x | x in o2
      ensures LinkOnEdge(o2, v2, poly, x)
    {
      RefinePair(o0, v0, poly, k, c, v2, x);
    }
  }

  /** RefineEdges for the link that leaves sample x. */
  lemma RefinePair(o0: seq<nat>, v0: map<nat, Point>, poly: seq<Point>, k: nat, c: nat,
                   v2: map<nat, Point>, x: nat)
    requires Distinct(o0) && k in o0 && c !in o0 && c + 1 !in o0 && (forall x :: x in v0 <==> x in o0)
    requires EdgeLinked(o0, v0, poly)
    requires Extends(v0, v2)
    requires c in v2 && v2[c] == Mid(v0[PrevIn(o0, true, k).value], v0[k])
    requires c + 1 in v2 && v2[c + 1] == Mid(v0[k], v0[NextIn(o0, true, k).value])
    requires x in Splice(Splice(o0, k, c + 1), PrevIn(o0, true, k).value, c)
    ensures var o2 := Splice(Splice(o0, k, c + 1), PrevIn(o0, true, k).value, c);
      x in v2 && NextIn(o2, true, x).value in v2 && OnOneEdge(poly, v2[x], v2[NextIn(o2, true, x).value])
  {
    var pPrev, pNext := PrevIn(o0, true, k).value, NextIn(o0, true, k).value;
    PrevThenNext(o0, k);
    RefineNext(o0, k, c, x);
    assert LinkOnEdge(o0, v0, poly, k);
    if x == pPrev {
      assert LinkOnEdge(o0, v0, poly, pPrev);
      MidOnEdge(poly, v0[pPrev], v0[k]);
    } else if x == c {
      if pPrev == k {
        assert Mid(v0[k], v0[k]) == v0[k];
        MidOnEdge(poly, v0[k], v0[pNext]);
      } else {
        assert LinkOnEdge(o0, v0, poly, pPrev);
        MidOnEdge(poly, v0[pPrev], v0[k]);
      }
    } else if x == k || x == c + 1 {
      MidOnEdge(poly, v0[k], v0[pNext]);
    } else {
      assert x in o0;
      assert LinkOnEdge(o0, v0, poly, x);
    }
  }

  /** An edge-linked ring holds only points of the polygon's edges. */
  lemma LinkedOnEdges(order: seq<nat>, vals: map<nat, Point>, poly: seq<Point>)
    requires EdgeLinked(order, vals, poly) && forall x :: x in vals ==> x in order
    ensures forall x :: x in vals ==> OnEdge(poly, vals[x])
  {
    forall x | x in vals
      ensures OnEdge(poly, vals[x])
    {
      assert LinkOnEdge(order, vals, poly, x);
      var y := NextIn(order, true, x).value;
      var j: nat, s: real, t: real :| j < |poly| && 0.0 <= s <= 1.0 && 0.0 <= t <= 1.0 &&
        vals[x] == EdgePt(poly, j, s) && vals[y] == EdgePt(poly, j, t);
    }
  }

  /** Every sample of region i lies on an edge of polygon i. */
  ghost predicate OnBoundary(polys: seq<seq<Point>>, S: Samples)
  {
    |S| == |polys| && forall i, k :: 0 <= i < |S| && k in S[i] ==> OnEdge(polys[i], S[i][k])
  }

  /** Edge-linked rings hold only points of their polygons' edges. */
  lemma SamplesOnEdges(rings: seq<Ring<Point>>, polys: seq<seq<Point>>, S: Samples)
    requires RingsOk(rings) && OnPolys(rings, polys) && Snapshot(S, rings)
    ensures OnBoundary(polys, S)
  {
    forall i | 0 <= i < |S|
      ensures forall k :: k in S[i] ==> OnEdge(polys[i], S[i][k])
    {
      assert RingOk(rings[i]) && RingOn(rings[i], polys[i]);
      LinkedOnEdges(rings[i].order, rings[i].vals, polys[i]);
    }
  }

  /** Split the two ring edges at sample k: a new sample halfway to the previous sample
      gets key count and goes after it, one halfway to the next sample gets key
      count+1 and goes after k. */
  method RefineAt(r: Ring<Point>, k: nat)
    requires r.Valid() && r.Dense() && r.closed && k in r.vals
    modifies r
    ensures r.Valid() && r.Dense()
    ensures Extends(old(r.vals), r.vals)
    ensures r.count == old(r.count) + 2
    ensures var pPrev := PrevIn(old(r.order), true, k).value;
            var pNext := NextIn(old(r.order), true, k).value;
      old(r.count) in r.vals && old(r.count) + 1 in r.vals &&
      r.vals[old(r.count)] == Mid(old(r.vals)[pPrev], old(r.vals)[k]) &&
      r.vals[old(r.count) + 1] == Mid(old(r.vals)[k], old(r.vals)[pNext]) &&
      r.order == Splice(Splice(old(r.order), k, old(r.count) + 1), pPrev, old(r.count))
  {
    var p := r.Query(k);
    var pPrev := r.Prev(k).value;
    var pNext := r.Next(k).value;
    var pPrevMidPt := Mid(r.Query(pPrev), p);
    var pNextMidPt := Mid(p, r.Query(pNext));
    var c: nat := r.count;
    var c1: nat := c + 1;
    ghost var v0: map<nat, Point> := r.vals;
    ghost var o0 := r.order;
    assert pPrev == PrevIn(o0, true, k).value && pNext == NextIn(o0, true, k).value;
    r.Insert(k, c1, pNextMidPt);
    ghost var v1 := r.vals;
    assert v1 == v0[c1 := pNextMidPt];
    assert r.order == Splice(o0, k, c1);
    assert c !in v1;
    r.Insert(pPrev, c, pPrevMidPt);
    assert r.vals == v1[c := pPrevMidPt];
    assert r.order == Splice(Splice(o0, k, c1), pPrev, c);
    assert pPrevMidPt == Mid(v0[pPrev], v0[k]) && pNextMidPt == Mid(v0[k], v0[pNext]);
    assert forall x: nat :: x in r.vals <==> x < c + 2 by {
      forall x: nat ensures x in r.vals <==> x < c + 2 {
        assert x in r.vals <==> x in v0 || x == c || x == c1;
      }
    }
  }

  /** [p.prev.prev, p.prev, p, p.next, p.next.next] in a closed ring. */
  function Near5(ord: seq<nat>, k: nat): (nb: seq<nat>)
    requires k in ord
    ensures |nb| == 5 && nb[2] == k
    ensures forall x :: x in nb ==> x in ord
  {
    var p := PrevIn(ord, true, k).value;
    var n := NextIn(ord, true, k).value;
    [PrevIn(ord, true, p).value, p, k, n, NextIn(ord, true, n).value]
  }

  /** The edges the rebuilt graph holds: 's' to the start neighbourhood, every pair of
      neighbourhood samples of adjacent regions, the end neighbourhood to 'e'. */
  predicate NearEdge(nbs: seq<seq<nat>>, e: (Node, Node))
  {
    if e.0.Start? && e.1.V? then e.1.layer == 0 && 0 < |nbs| && e.1.key in nbs[0]
    else if e.0.V? && e.1.V? then
      e.1.layer == e.0.layer + 1 && e.1.layer < |nbs| && e.0.key in nbs[e.0.layer] && e.1.key in nbs[e.1.layer]
    else if e.0.V? && e.1.End? then e.0.layer + 1 == |nbs| && e.0.key in nbs[e.0.layer]
    else false
  }

  lemma {:induction false} NearPrefix(nbs: seq<seq<nat>>, G: Graph, ks: seq<nat>)
    requires forall e :: NearEdge(nbs, e) ==> e in G
    requires 1 <= |ks| <= |nbs| && forall i :: 0 <= i < |ks| ==> ks[i] in nbs[i]
    ensures PrefixOk(G, ks)
    decreases |ks|
  {
    if |ks| == 1 {
      assert NearEdge(nbs, (Start, V(0, ks[0])));
    } else {
      NearPrefix(nbs, G, ks[..|ks| - 1]);
      assert NearEdge(nbs, (V(|ks| - 2, ks[|ks| - 2]), V(|ks| - 1, ks[|ks| - 1])));
    }
  }

  /** The previous route stays a route of the rebuilt graph: each waypoint is inside
      its own neighbourhood. */
  lemma NearRoute(nbs: seq<seq<nat>>, G: Graph, ks: seq<nat>)
    requires forall e :: NearEdge(nbs, e) ==> e in G
    requires 1 <= |ks| == |nbs| && forall i :: 0 <= i < |ks| ==> ks[i] in nbs[i]
    ensures IsRoute(G, |nbs|, ks)
  {
    NearPrefix(nbs, G, ks);
    assert NearEdge(nbs, (V(|ks| - 1, ks[|ks| - 1]), End));
  }

  /** Keys of each region, in ring order, as the source walks them. */
  ghost predicate OrdersMatch(S: Samples, ords: seq<seq<nat>>)
  {
    |ords| == |S| && forall i :: 0 <= i < |S| ==> forall k :: k in S[i] <==> k in ords[i]
  }

  lemma FaithfulInLayers(dist: DistFn, st: Point, en: Point, S: Samples, G: Graph, ords: seq<seq<nat>>)
    requires Faithful(dist, st, en, S, G) && OrdersMatch(S, ords)
    ensures InLayers(G, ords)
  {
    forall e | e in G ensures EdgeInLayers(e, ords) {
      assert LiveEdge(S, e);
    }
  }

  /** Every key listed for region i is a sample of region i. */
  ghost predicate ListsIn(S: Samples, L: seq<seq<nat>>)
  {
    |L| == |S| && forall i :: 0 <= i < |S| ==> forall k :: k in L[i] ==> k in S[i]
  }

  lemma NearIsLive(S: Samples, L: seq<seq<nat>>, e: (Node, Node))
    requires ListsIn(S, L) && NearEdge(L, e)
    ensures LiveEdge(S, e)
  {
  }

  lemma NearInLayers(G: Graph, L: seq<seq<nat>>)
    requires forall e :: e in G ==> NearEdge(L, e)
    ensures InLayers(G, L)
  {
    forall e | e in G ensures EdgeInLayers(e, L) {
      assert NearEdge(L, e);
    }
  }

  /** Memo entries are only ever added: none is removed or overwritten. */
  ghost predicate MemoGrows(m0: map<(Node, Node), real>, m: map<(Node, Node), real>)
  {
    forall e :: e in m0 ==> e in m && m[e] == m0[e]
  }

  // ---- the first graph: every sample of every region ----

  method InitStartFan(dist: DistFn, st: Point, en: Point, S: Samples, L: seq<seq<nat>>,
                      G0: Graph) returns (G: Graph, tau: Graph)
    requires ListsIn(S, L) && |L| >= 1
    requires Faithful(dist, st, en, S, G0) && forall e :: e in G0 ==> NearEdge(L, e)
    ensures tau == G && Faithful(dist, st, en, S, G) && forall e :: e in G ==> NearEdge(L, e)
    ensures forall e :: e in G0 ==> e in G
    ensures forall k :: k in L[0] ==> (Start, V(0, k)) in G
  {
    G, tau := G0, G0;
    var ks := L[0];
    var j := 0;
    while j < |ks|
      invariant j <= |ks| && tau == G
      invariant Faithful(dist, st, en, S, G) && forall e :: e in G ==> NearEdge(L, e)
      invariant forall e :: e in G0 ==> e in G
      invariant forall x :: 0 <= x < j ==> (Start, V(0, ks[x])) in G
    {
      var k := ks[j];
      var d := dist(st, S[0][k]);
      tau := tau[(Start, V(0, k)) := d];
      G := G[(Start, V(0, k)) := d];
      j := j + 1;
    }
  }

  method InitPairBlock(dist: DistFn, st: Point, en: Point, S: Samples, L: seq<seq<nat>>,
                       i: nat, j: nat, G0: Graph) returns (G: Graph, tau: Graph)
    requires ListsIn(S, L) && j == i + 1 && j < |L|
    requires Faithful(dist, st, en, S, G0) && forall e :: e in G0 ==> NearEdge(L, e)
    ensures tau == G && Faithful(dist, st, en, S, G) && forall e :: e in G ==> NearEdge(L, e)
    ensures forall e :: e in G0 ==> e in G
    ensures forall a, b :: a in L[i] && b in L[j] ==> (V(i, a), V(j, b)) in G
  {
    G, tau := G0, G0;
    var ksI, ksJ := L[i], L[j];
    var x := 0;
    while x < |ksI|
      invariant x <= |ksI| && tau == G
      invariant Faithful(dist, st, en, S, G) && forall e :: e in G ==> NearEdge(L, e)
      invariant forall e :: e in G0 ==> e in G
      invariant forall x', b :: 0 <= x' < x && b in ksJ ==> (V(i, ksI[x']), V(j, b)) in G
    {
      var curI := ksI[x];
      var y := 0;
      while y < |ksJ|
        invariant y <= |ksJ| && tau == G
        invariant Faithful(dist, st, en, S, G) && forall e :: e in G ==> NearEdge(L, e)
        invariant forall e :: e in G0 ==> e in G
        invariant forall x', b :: 0 <= x' < x && b in ksJ ==> (V(i, ksI[x']), V(j, b)) in G
        invariant forall y' :: 0 <= y' < y ==> (V(i, curI), V(j, ksJ[y'])) in G
      {
        var curJ := ksJ[y];
        var d := dist(S[i][curI], S[j][curJ]);
        tau := tau[(V(i, curI), V(j, curJ)) := d];
        G := G[(V(i, curI), V(j, curJ)) := d];
        y := y + 1;
      }
      x := x + 1;
    }
  }

  method InitEndFan(dist: DistFn, st: Point, en: Point, S: Samples, L: seq<seq<nat>>,
                    last: nat, G0: Graph) returns (G: Graph, tau: Graph)
    requires ListsIn(S, L) && last + 1 == |L|
    requires Faithful(dist, st, en, S, G0) && forall e :: e in G0 ==> NearEdge(L, e)
    ensures tau == G && Faithful(dist, st, en, S, G) && forall e :: e in G ==> NearEdge(L, e)
    ensures forall e :: e in G0 ==> e in G
    ensures forall k :: k in L[last] ==> (V(last, k), End) in G
  {
    G, tau := G0, G0;
    var ks := L[last];
    var j := 0;
    while j < |ks|
      invariant j <= |ks| && tau == G
      invariant Faithful(dist, st, en, S, G) && forall e :: e in G ==> NearEdge(L, e)
      invariant forall e :: e in G0 ==> e in G
      invariant forall x :: 0 <= x < j ==> (V(last, ks[x]), End) in G
    {
      var k := ks[j];
      var d := dist(S[last][k], en);
      tau := tau[(V(last, k), End) := d];
      G := G[(V(last, k), End) := d];
      j := j + 1;
    }
  }

  /** The first graph: 's' to every sample of region 0, every sample of region i to
      every sample of region i+1, every sample of the last region to 'e'; each weight
      is also memoised in tau under the same edge. */
  method InitialGraph(dist: DistFn, st: Point, en: Point, S: Samples, L: seq<seq<nat>>)
    returns (G: Graph, tau: Graph)
    requires ListsIn(S, L) && |L| >= 1
    ensures tau == G && Faithful(dist, st, en, S, G)
    ensures forall e :: e in G <==> NearEdge(L, e)
  {
    G, tau := InitStartFan(dist, st, en, S, L, map[]);
    var i := 0;
    while i + 1 < |L|
      invariant i < |L| && tau == G
      invariant Faithful(dist, st, en, S, G) && forall e :: e in G ==> NearEdge(L, e)
      invariant forall k :: k in L[0] ==> (Start, V(0, k)) in G
      invariant forall e :: NearEdge(L, e) && Middle(e) && e.0.layer < i ==> e in G
    {
      var j := i + 1;
      G, tau := InitPairBlock(dist, st, en, S, L, i, j, G);
      forall e | NearEdge(L, e) && Middle(e) && e.0.layer == i ensures e in G {
        assert e == (V(i, e.0.key), V(j, e.1.key));
      }
      i := i + 1;
    }
    G, tau := InitEndFan(dist, st, en, S, L, i, G);
    NearCovered(L, G, i);
  }

  /** A graph holding the start fan, the middle blocks below the last region and the
      end fan holds every edge among the lists. */
  lemma NearCovered(L: seq<seq<nat>>, G: Graph, last: nat)
    requires last + 1 == |L|
    requires forall k :: k in L[0] ==> (Start, V(0, k)) in G
    requires forall e :: NearEdge(L, e) && Middle(e) && e.0.layer < last ==> e in G
    requires forall k :: k in L[last] ==> (V(last, k), End) in G
    ensures forall e :: NearEdge(L, e) ==> e in G
  {
    forall e | NearEdge(L, e) ensures e in G {
      if e.0.Start? {
        assert e == (Start, V(0, e.1.key));
      } else if e.1.End? {
        assert e == (V(last, e.0.key), End);
      }
    }
  }

  // ---- the rebuilt graph: five-sample neighbourhoods, memoised middle weights ----

  /** Edges between sample nodes, the only ones the memo tau holds. */
  predicate Middle(e: (Node, Node))
  {
    e.0.V? && e.1.V?
  }

  method NearStartFan(dist: DistFn, st: Point, en: Point, S: Samples, L: seq<seq<nat>>,
                      G0: Graph) returns (G: Graph)
    requires ListsIn(S, L) && |L| >= 1
    requires Faithful(dist, st, en, S, G0) && forall e :: e in G0 ==> NearEdge(L, e)
    ensures Faithful(dist, st, en, S, G) && forall e :: e in G ==> NearEdge(L, e)
    ensures forall e :: e in G0 ==> e in G
    ensures forall e :: e in G && Middle(e) ==> e in G0
    ensures forall k :: k in L[0] ==> (Start, V(0, k)) in G
  {
    G := G0;
    var ks := L[0];
    var j := 0;
    while j < |ks|
      invariant j <= |ks|
      invariant Faithful(dist, st, en, S, G) && forall e :: e in G ==> NearEdge(L, e)
      invariant forall e :: e in G0 ==> e in G
      invariant forall e :: e in G && Middle(e) ==> e in G0
      invariant forall x :: 0 <= x < j ==> (Start, V(0, ks[x])) in G
    {
      var k := ks[j];
      var d := dist(st, S[0][k]);
      G := G[(Start, V(0, k)) := d];
      j := j + 1;
    }
  }

  method NearPairBlock(dist: DistFn, st: Point, en: Point, S: Samples, L: seq<seq<nat>>,
                       i: nat, j: nat, G0: Graph, tau0: Graph) returns (G: Graph, tau: Graph)
    requires ListsIn(S, L) && j == i + 1 && j < |L|
    requires Faithful(dist, st, en, S, G0) && forall e :: e in G0 ==> NearEdge(L, e)
    requires Faithful(dist, st, en, S, tau0)
    requires forall e :: e in G0 && Middle(e) ==> e in tau0
    ensures Faithful(dist, st, en, S, G) && forall e :: e in G ==> NearEdge(L, e)
    ensures Faithful(dist, st, en, S, tau) && MemoGrows(tau0, tau)
    ensures forall e :: e in G && Middle(e) ==> e in tau
    ensures forall e :: e in G0 ==> e in G
    ensures forall a, b :: a in L[i] && b in L[j] ==> (V(i, a), V(j, b)) in G
  {
    G, tau := G0, tau0;
    var ksI, ksJ := L[i], L[j];
    var x := 0;
    while x < |ksI|
      invariant x <= |ksI|
      invariant Faithful(dist, st, en, S, G) && forall e :: e in G ==> NearEdge(L, e)
      invariant Faithful(dist, st, en, S, tau) && MemoGrows(tau0, tau)
      invariant forall e :: e in G && Middle(e) ==> e in tau
      invariant forall e :: e in G0 ==> e in G
      invariant forall x', b :: 0 <= x' < x && b in ksJ ==> (V(i, ksI[x']), V(j, b)) in G
    {
      var curI := ksI[x];
      var y := 0;
      while y < |ksJ|
        invariant y <= |ksJ|
        invariant Faithful(dist, st, en, S, G) && forall e :: e in G ==> NearEdge(L, e)
        invariant Faithful(dist, st, en, S, tau) && MemoGrows(tau0, tau)
        invariant forall e :: e in G && Middle(e) ==> e in tau
        invariant forall e :: e in G0 ==> e in G
        invariant forall x', b :: 0 <= x' < x && b in ksJ ==> (V(i, ksI[x']), V(j, b)) in G
        invariant forall y' :: 0 <= y' < y ==> (V(i, curI), V(j, ksJ[y'])) in G
      {
        var curJ := ksJ[y];
        var e := (V(i, curI), V(j, curJ));
        var d: real;
        if e in tau {
          d := tau[e];
        } else {
          d := dist(S[i][curI], S[j][curJ]);
          tau := tau[e := d];
        }
        G := G[e := d];
        y := y + 1;
      }
      x := x + 1;
    }
  }

  method NearEndFan(dist: DistFn, st: Point, en: Point, S: Samples, L: seq<seq<nat>>,
                    last: nat, G0: Graph) returns (G: Graph)
    requires ListsIn(S, L) && last + 1 == |L|
    requires Faithful(dist, st, en, S, G0) && forall e :: e in G0 ==> NearEdge(L, e)
    ensures Faithful(dist, st, en, S, G) && forall e :: e in G ==> NearEdge(L, e)
    ensures forall e :: e in G0 ==> e in G
    ensures forall e :: e in G && Middle(e) ==> e in G0
    ensures forall k :: k in L[last] ==> (V(last, k), End) in G
  {
    G := G0;
    var ks := L[last];
    var j := 0;
    while j < |ks|
      invariant j <= |ks|
      invariant Faithful(dist, st, en, S, G) && forall e :: e in G ==> NearEdge(L, e)
      invariant forall e :: e in G0 ==> e in G
      invariant forall e :: e in G && Middle(e) ==> e in G0
      invariant forall x :: 0 <= x < j ==> (V(last, ks[x]), End) in G
    {
      var k := ks[j];
      var d := dist(S[last][k], en);
      G := G[(V(last, k), End) := d];
      j := j + 1;
    }
  }

  /** The rebuilt graph holds exactly the edges among the neighbourhoods L; its start and
      end weights are computed afresh, its middle weights come from the memo tau when
      present and are added to it otherwise. */
  method RebuildGraph(dist: DistFn, st: Point, en: Point, S: Samples, L: seq<seq<nat>>,
                      tau0: Graph) returns (G: Graph, tau: Graph)
    requires ListsIn(S, L) && |L| >= 1 && Faithful(dist, st, en, S, tau0)
    ensures Faithful(dist, st, en, S, G) && Faithful(dist, st, en, S, tau) && MemoGrows(tau0, tau)
    ensures forall e :: e in G <==> NearEdge(L, e)
    ensures forall e :: e in G && Middle(e) ==> e in tau
  {
    G := NearStartFan(dist, st, en, S, L, map[]);
    tau := tau0;
    var i := 0;
    while i + 1 < |L|
      invariant i < |L|
      invariant Faithful(dist, st, en, S, G) && forall e :: e in G ==> NearEdge(L, e)
      invariant Faithful(dist, st, en, S, tau) && MemoGrows(tau0, tau)
      invariant forall e :: e in G && Middle(e) ==> e in tau
      invariant forall k :: k in L[0] ==> (Start, V(0, k)) in G
      invariant forall e :: NearEdge(L, e) && Middle(e) && e.0.layer < i ==> e in G
    {
      var j := i + 1;
      ghost var tauBefore := tau;
      G, tau := NearPairBlock(dist, st, en, S, L, i, j, G, tau);
      forall e | NearEdge(L, e) && Middle(e) && e.0.layer == i ensures e in G {
        assert e == (V(i, e.0.key), V(j, e.1.key));
      }
      i := i + 1;
    }
    G := NearEndFan(dist, st, en, S, L, i, G);
    NearCovered(L, G, i);
  }

  /** The length of a route, summed as the source does: the start leg, the memoised
      middle legs, the end leg. It is the length of the polyline through the route's
      sample points, and also the route's weight in G. */
  method RouteDist(dist: DistFn, st: Point, en: Point, S: Samples, G: Graph, tau: Graph,
                   sp: seq<nat>) returns (d: real)
    requires IsRoute(G, |S|, sp) && Faithful(dist, st, en, S, G) && Faithful(dist, st, en, S, tau)
    requires forall e :: e in G && Middle(e) ==> e in tau
    ensures OnSamples(S, sp)
    ensures d == RouteW(G, sp)
    ensures d == PathLength(dist, RoutePoints(st, S, sp, en))
  {
    d := LegsDist(dist, st, en, S, G, tau, sp);
    var last := |sp| - 1;
    RouteWhole(G, sp);
    FaithfulAt(dist, st, en, S, G, (V(last, sp[last]), End));
    d := d + dist(S[last][sp[last]], en);
    RouteLength(dist, st, en, S, G, sp);
  }

  /** The start leg plus the memoised middle legs of a route: its prefix weight in G. */
  method LegsDist(dist: DistFn, st: Point, en: Point, S: Samples, G: Graph, tau: Graph,
                  sp: seq<nat>) returns (d: real)
    requires |sp| >= 1 && PrefixOk(G, sp) && Faithful(dist, st, en, S, G) && Faithful(dist, st, en, S, tau)
    requires forall e :: e in G && Middle(e) ==> e in tau
    ensures PrefixOk(G, sp[..|sp|]) && d == PrefixW(G, sp[..|sp|])
  {
    PrefixOkTake(G, sp, 1);
    assert sp[..1] == [sp[0]];
    FaithfulAt(dist, st, en, S, G, (Start, V(0, sp[0])));
    d := dist(st, S[0][sp[0]]);
    var i := 0;
    while i + 1 < |sp|
      invariant i < |sp| && PrefixOk(G, sp[..i + 1])
      invariant d == PrefixW(G, sp[..i + 1])
    {
      LegStep(dist, st, en, S, G, tau, sp, i);
      d := d + tau[(V(i, sp[i]), V(i + 1, sp[i + 1]))];
      i := i + 1;
    }
  }

  /** The memo holds the middle leg i -> i + 1 of a route, with its weight in G. */
  lemma LegStep(dist: DistFn, st: Point, en: Point, S: Samples, G: Graph, tau: Graph, sp: seq<nat>, i: nat)
    requires i + 1 < |sp| && PrefixOk(G, sp) && Faithful(dist, st, en, S, G) && Faithful(dist, st, en, S, tau)
    requires forall e :: e in G && Middle(e) ==> e in tau
    ensures (V(i, sp[i]), V(i + 1, sp[i + 1])) in tau && PrefixOk(G, sp[..i + 1]) && PrefixOk(G, sp[..i + 2])
    ensures PrefixW(G, sp[..i + 2]) == PrefixW(G, sp[..i + 1]) + tau[(V(i, sp[i]), V(i + 1, sp[i + 1]))]
  {
    var j := i + 1;
    PrefixStep(G, sp, i, j);
    var e := (V(i, sp[i]), V(j, sp[j]));
    assert Middle(e) && e in G && e in tau;
    FaithfulAt(dist, st, en, S, G, e);
    FaithfulAt(dist, st, en, S, tau, e);
  }

  /** RefineAt, seen from the loop over the regions: the ring stays sound and only
      gains samples. */
  method RefineRing(r: Ring<Point>, k: nat, ghost poly: seq<Point>)
    requires RingOk(r) && k in r.vals && RingOn(r, poly)
    modifies r
    ensures RingOk(r) && Extends(old(r.vals), r.vals) && RingOn(r, poly)
  {
    ghost var o0, v0, c := r.order, r.vals, r.count;
    RefineAt(r, k);
    RefineEdges(o0, v0, poly, k, c, r.order, r.vals);
  }

  /** A ring during RefineAll: sound, edge-linked to poly, and either refined (it only
      gained samples over v0) or not yet reached (it still holds v0). */
  ghost predicate Stage(r: Ring<Point>, poly: seq<Point>, v0: map<nat, Point>, done: bool)
    reads r
  {
    RingOk(r) && RingOn(r, poly) && if done then Extends(v0, r.vals) else r.vals == v0
  }

  /** Split the ring edges around every waypoint of the route sp, region by region. */
  method RefineAll(rings: seq<Ring<Point>>, sp: seq<nat>, ghost polys: seq<seq<Point>>)
    requires RingsOk(rings) && |sp| == |rings| && OnPolys(rings, polys)
    requires forall i :: 0 <= i < |sp| ==> sp[i] in rings[i].vals
    modifies set r | r in rings
    ensures RingsOk(rings) && OnPolys(rings, polys)
    ensures forall x :: 0 <= x < |rings| ==> Extends(old(rings[x].vals), rings[x].vals)
  {
    ghost var S0 := SamplesOf(rings);
    var i := 0;
    while i < |rings|
      invariant i <= |rings| && Separate(rings)
      invariant forall x :: 0 <= x < |rings| ==> Stage(rings[x], polys[x], S0[x], x < i)
    {
      assert Stage(rings[i], polys[i], S0[i], false);
      RefineRing(rings[i], sp[i], polys[i]);
      assert Stage(rings[i], polys[i], S0[i], true);
      i := i + 1;
    }
  }

  /** The key lists of the rings, each walked from its head as the source does. */
  method Orders(rings: seq<Ring<Point>>) returns (ords: seq<seq<nat>>)
    requires RingsOk(rings)
    ensures |ords| == |rings| && forall i :: 0 <= i < |rings| ==> ords[i] == rings[i].order
  {
    ords := [];
    var i := 0;
    while i < |rings|
      invariant i <= |rings| && |ords| == i
      invariant forall x :: 0 <= x < i ==> ords[x] == rings[x].order
    {
      var ks := rings[i].Traverse();
      ords := ords + [ks];
      i := i + 1;
    }
  }

  lemma OrdersListed(rings: seq<Ring<Point>>, ords: seq<seq<nat>>)
    requires RingsOk(rings)
    requires |ords| == |rings| && forall i :: 0 <= i < |rings| ==> ords[i] == rings[i].order
    ensures ListsIn(SamplesOf(rings), ords) && OrdersMatch(SamplesOf(rings), ords)
  {
  }

  /** The length of the polyline s -> chosen vertices -> e. */
  function VertexRouteLen(dist: DistFn, st: Point, en: Point, polys: seq<seq<Point>>, ks: seq<nat>): real
    requires IsVertexChoice(polys, ks)
  {
    PathLength(dist, [st] + VertexPoints(polys, ks) + [en])
  }

  /** While the rings still hold the polygon vertices, a vertex choice is a choice of
      samples with the same points. */
  lemma VertexSamples(dist: DistFn, st: Point, en: Point, polys: seq<seq<Point>>, S: Samples, ks: seq<nat>)
    requires HoldsVertices(polys, S) && IsVertexChoice(polys, ks)
    ensures OnSamples(S, ks)
    ensures PathLength(dist, RoutePoints(st, S, ks, en)) == VertexRouteLen(dist, st, en, polys, ks)
  {
    assert Waypoints(S, ks) == VertexPoints(polys, ks);
  }

  lemma HoldsVerticesGrows(polys: seq<seq<Point>>, S: Samples, S': Samples)
    requires HoldsVertices(polys, S) && Grows(S, S')
    ensures HoldsVertices(polys, S')
  {
    forall i, j | 0 <= i < |polys| && 0 <= j < |polys[i]| ensures j in S'[i] && S'[i][j] == polys[i][j] {
      assert Extends(S[i], S'[i]);
    }
  }

  /** A cost that drops by more than tol drops its tol-quotient by at least one. */
  lemma FloorDecrease(x: real, y: real, tol: real)
    requires tol > 0.0 && x - y > tol
    ensures (y / tol).Floor < (x / tol).Floor
  {
    assert x / tol - y / tol == (x - y) / tol;
    assert (x - y) / tol > 1.0;
  }

  lemma FloorNonNeg(x: real, tol: real)
    requires tol > 0.0 && x >= 0.0
    ensures (x / tol).Floor >= 0
  {
    assert x / tol >= 0.0;
  }

  /** The loop measure: a new cost no larger than the last stays counted, and a drop
      by more than tol lowers the count. */
  lemma MeasureStep(x: real, y: real, tol: real)
    requires tol > 0.0 && 0.0 <= y <= x
    ensures (y / tol).Floor >= 0
    ensures Abs(y - x) > tol ==> (y / tol).Floor < (x / tol).Floor
  {
    FloorNonNeg(y, tol);
    if Abs(y - x) > tol {
      FloorDecrease(x, y, tol);
    }
  }

  /** A sequence of costs that never goes up. */
  predicate NonIncreasing(c: seq<real>)
  {
    forall i, j :: 0 <= i <= j < |c| ==> c[j] <= c[i]
  }

  /** Every step of c that ends before position n dropped by more than tol. */
  ghost predicate DropsBefore(c: seq<real>, tol: real, n: int)
  {
    forall i, j :: 0 <= i < j < |c| && j < n && j == i + 1 ==> c[i] - c[j] > tol
  }

  /** The costs recorded so far: never increasing; while the loop goes on every step
      dropped by more than tol, and once it stops only the last step did not. */
  ghost predicate CostTrail(c: seq<real>, tol: real, going: bool)
  {
    |c| >= 1 && NonIncreasing(c) &&
    (going ==> DropsBefore(c, tol, |c|)) &&
    (!going ==> |c| >= 2 && DropsBefore(c, tol, |c| - 1) && Abs(c[|c| - 1] - c[|c| - 2]) <= tol)
  }

  /** Recording a cost no larger than the last keeps the trail; the loop goes on exactly
      when the step dropped by more than tol. */
  lemma CostsStep(c: seq<real>, x: real, tol: real, going: bool)
    requires CostTrail(c, tol, true) && x <= c[|c| - 1] && going == (Abs(x - c[|c| - 1]) > tol)
    ensures CostTrail(c + [x], tol, going)
    ensures (c + [x])[0] == c[0] && (c + [x])[|c + [x]| - 1] == x
  {
    var c' := c + [x];
    forall i, j | 0 <= i <= j < |c'| ensures c'[j] <= c'[i] {
      if j == |c| && i < |c| {
        assert c'[j] == x && c[|c| - 1] <= c[i];
      }
    }
  }

  /** c is the length of a best vertex route: some choice of vertices attains it and
      no choice is shorter. */
  ghost predicate BestVertexCost(dist: DistFn, st: Point, en: Point, polys: seq<seq<Point>>, c: real)
  {
    (exists ks :: IsVertexChoice(polys, ks) && c == VertexRouteLen(dist, st, en, polys, ks)) &&
    forall ks :: IsVertexChoice(polys, ks) ==> c <= VertexRouteLen(dist, st, en, polys, ks)
  }

  /** The samples of each region are exactly its polygon's vertices. */
  ghost predicate OnlyVertices(polys: seq<seq<Point>>, S: Samples)
  {
    HoldsVertices(polys, S) && forall i :: 0 <= i < |S| ==> forall k :: k in S[i] ==> k < |polys[i]|
  }

  /** Each waypoint of ks is one of its region's listed keys. */
  predicate Within(L: seq<seq<nat>>, ks: seq<nat>)
  {
    |ks| == |L| && forall i :: 0 <= i < |ks| ==> ks[i] in L[i]
  }

  /** A shortest route of a graph that holds every edge among the lists L is, as a
      polyline, no longer than any other choice within L. */
  lemma BestWithin(dist: DistFn, st: Point, en: Point, S: Samples, L: seq<seq<nat>>, G: Graph, sp: seq<nat>)
    requires ListsIn(S, L) && Faithful(dist, st, en, S, G) && IsRoute(G, |S|, sp)
    requires forall ks :: Within(L, ks) ==> IsRoute(G, |S|, ks) && RouteW(G, sp) <= RouteW(G, ks)
    ensures OnSamples(S, sp)
    ensures forall ks :: Within(L, ks) ==>
      OnSamples(S, ks) && RouteW(G, sp) <= PathLength(dist, RoutePoints(st, S, ks, en))
  {
    RouteLength(dist, st, en, S, G, sp);
    forall ks | Within(L, ks)
      ensures OnSamples(S, ks) && RouteW(G, sp) <= PathLength(dist, RoutePoints(st, S, ks, en))
    {
      RouteLength(dist, st, en, S, G, ks);
    }
  }

  /** The first graph and its shortest route, the shortest choice within L. */
  method SearchAll(dist: DistFn, st: Point, en: Point, S: Samples, L: seq<seq<nat>>, sp0: seq<nat>)
    returns (sp: seq<nat>, G: Graph, tau: Graph)
    requires |S| >= 1 && ListsIn(S, L) && Within(L, sp0)
    ensures IsRoute(G, |S|, sp) && Within(L, sp)
    ensures Faithful(dist, st, en, S, G) && tau == G
    ensures forall ks :: Within(L, ks) ==> IsRoute(G, |S|, ks) && RouteW(G, sp) <= RouteW(G, ks)
  {
    G, tau := InitialGraph(dist, st, en, S, L);
    NearInLayers(G, L);
    NearRoute(L, G, sp0);
    var r := ShortestRoute(G, L);
    assert r.Some?;
    sp := r.value;
    RouteInLayers(G, L, sp);
    forall ks | Within(L, ks) ensures IsRoute(G, |S|, ks) && RouteW(G, sp) <= RouteW(G, ks) {
      NearRoute(L, G, ks);
    }
  }

  /** The rebuilt graph over the neighbourhoods L and its shortest route: the route is
      the shortest choice within L, and the previous route sp0 is one of them. */
  method SearchWithin(dist: DistFn, st: Point, en: Point, S: Samples, L: seq<seq<nat>>,
                      sp0: seq<nat>, tau0: Graph) returns (sp: seq<nat>, G: Graph, tau: Graph)
    requires |S| >= 1 && ListsIn(S, L) && Faithful(dist, st, en, S, tau0) && Within(L, sp0)
    ensures IsRoute(G, |S|, sp) && Within(L, sp)
    ensures Faithful(dist, st, en, S, G) && Faithful(dist, st, en, S, tau) && MemoGrows(tau0, tau)
    ensures forall e :: e in G && Middle(e) ==> e in tau
    ensures forall ks :: Within(L, ks) ==> IsRoute(G, |S|, ks) && RouteW(G, sp) <= RouteW(G, ks)
  {
    G, tau := RebuildGraph(dist, st, en, S, L, tau0);
    NearInLayers(G, L);
    NearRoute(L, G, sp0);
    var r := ShortestRoute(G, L);
    assert r.Some?;
    sp := r.value;
    RouteInLayers(G, L, sp);
    forall ks | Within(L, ks) ensures IsRoute(G, |S|, ks) && RouteW(G, sp) <= RouteW(G, ks) {
      NearRoute(L, G, ks);
    }
  }

  /** The first search, over the graph joining every vertex of each polygon to every
      vertex of the next: its route is the shortest polyline s -> one vertex per
      polygon -> e, and its length is summed from the memo. */
  method FirstRoute(dist: DistFn, st: Point, en: Point, polys: seq<seq<Point>>, S: Samples,
                    ords: seq<seq<nat>>) returns (sp: seq<nat>, tau: Graph, d: real)
    requires |polys| >= 1 && forall i :: 0 <= i < |polys| ==> |polys[i]| > 0
    requires OnlyVertices(polys, S) && OrdersMatch(S, ords)
    ensures IsVertexChoice(polys, sp) && OnSamples(S, sp) && Faithful(dist, st, en, S, tau)
    ensures d == PathLength(dist, RoutePoints(st, S, sp, en))
    ensures d == VertexRouteLen(dist, st, en, polys, sp)
    ensures forall ks :: IsVertexChoice(polys, ks) ==> d <= VertexRouteLen(dist, st, en, polys, ks)
  {
    var zeros := seq(|S|, i => 0);
    assert forall i :: 0 <= i < |S| ==> 0 in S[i];
    assert ListsIn(S, ords) && Within(ords, zeros);
    var G: Graph;
    sp, G, tau := SearchAll(dist, st, en, S, ords, zeros);
    d := RouteDist(dist, st, en, S, G, tau, sp);
    BestWithin(dist, st, en, S, ords, G, sp);
    VertexSamples(dist, st, en, polys, S, sp);
    BestOverVertices(dist, st, en, polys, S, ords, d);
  }

  /** Every vertex choice is a choice within the full key lists. */
  lemma BestOverVertices(dist: DistFn, st: Point, en: Point, polys: seq<seq<Point>>, S: Samples,
                         ords: seq<seq<nat>>, d: real)
    requires OnlyVertices(polys, S) && OrdersMatch(S, ords)
    requires forall ks :: Within(ords, ks) ==> OnSamples(S, ks) && d <= PathLength(dist, RoutePoints(st, S, ks, en))
    ensures forall ks :: IsVertexChoice(polys, ks) ==> d <= VertexRouteLen(dist, st, en, polys, ks)
  {
    forall ks | IsVertexChoice(polys, ks) ensures d <= VertexRouteLen(dist, st, en, polys, ks) {
      VertexSamples(dist, st, en, polys, S, ks);
      assert Within(ords, ks);
    }
  }

  /** One later search over the neighbourhoods L of the previous route sp0: the route of
      the rebuilt graph, its length summed from the memo; it is the shortest choice
      within L, so never longer than sp0. */
  method NextRoute(dist: DistFn, st: Point, en: Point, S: Samples, L: seq<seq<nat>>,
                   sp0: seq<nat>, tau0: Graph, d0: real) returns (sp: seq<nat>, tau: Graph, d: real)
    requires |S| >= 1 && ListsIn(S, L) && Faithful(dist, st, en, S, tau0) && Within(L, sp0)
    requires OnSamples(S, sp0) && d0 == PathLength(dist, RoutePoints(st, S, sp0, en))
    ensures Within(L, sp) && OnSamples(S, sp)
    ensures Faithful(dist, st, en, S, tau) && MemoGrows(tau0, tau)
    ensures d == PathLength(dist, RoutePoints(st, S, sp, en))
    ensures forall ks :: Within(L, ks) ==> OnSamples(S, ks) && d <= PathLength(dist, RoutePoints(st, S, ks, en))
    ensures d <= d0
  {
    var G: Graph;
    sp, G, tau := SearchWithin(dist, st, en, S, L, sp0, tau0);
    d := RouteDist(dist, st, en, S, G, tau, sp);
    BestWithin(dist, st, en, S, L, G, sp);
  }

  /** [p.prev.prev, p.prev, p, p.next, p.next.next] for the sample p with key k. */
  method NearOf(r: Ring<Point>, k: nat) returns (nb: seq<nat>)
    requires r.Valid() && r.closed && k in r.vals
    ensures nb == Near5(r.order, k)
    ensures nb[2] == k && forall x :: x in nb ==> x in r.vals
  {
    var p := r.Prev(k).value;
    var pp := r.Prev(p).value;
    var n := r.Next(k).value;
    var nn := r.Next(n).value;
    nb := [pp, p, k, n, nn];
  }

  /** The five-sample neighbourhood of every waypoint of sp. */
  method Neighbourhoods(rings: seq<Ring<Point>>, sp: seq<nat>) returns (nbs: seq<seq<nat>>)
    requires RingsOk(rings) && |sp| == |rings|
    requires forall i :: 0 <= i < |sp| ==> sp[i] in rings[i].vals
    ensures Within(nbs, sp) && forall i :: 0 <= i < |rings| ==> forall k :: k in nbs[i] ==> k in rings[i].vals
  {
    nbs := [];
    var i := 0;
    while i < |rings|
      invariant i <= |rings| && |nbs| == i
      invariant forall x :: 0 <= x < i ==> sp[x] in nbs[x] && forall k :: k in nbs[x] ==> k in rings[x].vals
    {
      var nb := NearOf(rings[i], sp[i]);
      nbs := nbs + [nb];
      i := i + 1;
    }
  }

  /** path = [startPt] + the sample of every waypoint, in region order + [endPt]. */
  method BuildPath(st: Point, en: Point, rings: seq<Ring<Point>>, sp: seq<nat>, ghost S: Samples)
    returns (path: seq<Point>)
    requires Snapshot(S, rings) && |sp| == |S| && OnSamples(S, sp)
    ensures path == RoutePoints(st, S, sp, en)
  {
    path := [st];
    var i := 0;
    while i < |sp|
      invariant i <= |sp| && OnSamples(S, sp[..i])
      invariant path == [st] + Waypoints(S, sp[..i])
    {
      assert OnSamples(S, sp[..i + 1]);
      assert Waypoints(S, sp[..i + 1]) == Waypoints(S, sp[..i]) + [S[i][sp[i]]];
      path := path + [rings[i].Query(sp[i])];
      i := i + 1;
    }
    assert sp[..i] == sp;
    path := path + [en];
  }

  /** The refinement itself, and the samples the rings hold after it. */
  method RefineRings(rings: seq<Ring<Point>>, S0: Samples, sp0: seq<nat>, ghost polys: seq<seq<Point>>)
    returns (S: Samples)
    requires RingsOk(rings) && Snapshot(S0, rings) && |sp0| == |S0| && OnSamples(S0, sp0)
    requires OnPolys(rings, polys)
    modifies set r | r in rings
    ensures RingsOk(rings) && Snapshot(S, rings) && Grows(S0, S) && OnPolys(rings, polys)
  {
    RefineAll(rings, sp0, polys);
    S := SamplesOf(rings);
  }

  /** What the refinement loop keeps: sound rings, S their samples, tau a faithful memo,
      sp a choice of samples and d the length of its polyline. */
  ghost predicate Searching(dist: DistFn, st: Point, en: Point, rings: seq<Ring<Point>>, S: Samples,
                            sp: seq<nat>, tau: Graph, d: real)
    reads set r | r in rings
  {
    RingsOk(rings) && Snapshot(S, rings) && |S| >= 1 &&
    Faithful(dist, st, en, S, tau) && |sp| == |S| && OnSamples(S, sp) &&
    d == PathLength(dist, RoutePoints(st, S, sp, en))
  }

  /** One pass of the refinement loop: split the ring edges around every waypoint, take
      the five-sample neighbourhoods, rebuild the graph and search it again. */
  method AdaptStep(dist: DistFn, st: Point, en: Point, rings: seq<Ring<Point>>, S0: Samples,
                   sp0: seq<nat>, tau0: Graph, d0: real, ghost polys: seq<seq<Point>>)
    returns (S: Samples, sp: seq<nat>, tau: Graph, d: real, nbs: seq<seq<nat>>)
    requires IsDist(dist) && Searching(dist, st, en, rings, S0, sp0, tau0, d0) && OnPolys(rings, polys)
    modifies set r | r in rings
    ensures Searching(dist, st, en, rings, S, sp, tau, d) && OnPolys(rings, polys)
    ensures Grows(S0, S) && MemoGrows(tau0, tau)
    ensures 0.0 <= d <= d0
    ensures ListsIn(S, nbs) && Within(nbs, sp0) && Within(nbs, sp)
    ensures forall ks :: Within(nbs, ks) ==> OnSamples(S, ks) && d <= PathLength(dist, RoutePoints(st, S, ks, en))
  {
    S := RefineRings(rings, S0, sp0, polys);
    FaithfulGrows(dist, st, en, S0, S, tau0);
    WaypointsGrow(S0, S, sp0);
    assert RoutePoints(st, S, sp0, en) == RoutePoints(st, S0, sp0, en);
    sp, tau, d, nbs := NearSearch(dist, st, en, rings, S, sp0, tau0, d0);
  }

  /** The search half of a pass: the five-sample neighbourhoods of the route sp0 and the
      shortest route within them. */
  method NearSearch(dist: DistFn, st: Point, en: Point, rings: seq<Ring<Point>>, S: Samples,
                    sp0: seq<nat>, tau0: Graph, d0: real)
    returns (sp: seq<nat>, tau: Graph, d: real, nbs: seq<seq<nat>>)
    requires IsDist(dist) && RingsOk(rings) && Snapshot(S, rings) && |S| >= 1
    requires Faithful(dist, st, en, S, tau0) && |sp0| == |S| && OnSamples(S, sp0)
    requires d0 == PathLength(dist, RoutePoints(st, S, sp0, en))
    ensures |sp| == |S| && OnSamples(S, sp) && d == PathLength(dist, RoutePoints(st, S, sp, en))
    ensures Faithful(dist, st, en, S, tau) && MemoGrows(tau0, tau)
    ensures 0.0 <= d <= d0
    ensures ListsIn(S, nbs) && Within(nbs, sp0) && Within(nbs, sp)
    ensures forall ks :: Within(nbs, ks) ==> OnSamples(S, ks) && d <= PathLength(dist, RoutePoints(st, S, ks, en))
  {
    nbs := Neighbourhoods(rings, sp0);
    assert ListsIn(S, nbs) && Within(nbs, sp0);
    sp, tau, d := NextRoute(dist, st, en, S, nbs, sp0, tau0, d0);
    PathLengthNonNeg(dist, RoutePoints(st, S, sp, en));
  }

  /** Before the loop: the rings seeded with the polygon vertices and the first search
      over all of them. */
  method Seed(dist: DistFn, st: Point, en: Point, polys: seq<seq<Point>>)
    returns (rings: seq<Ring<Point>>, S: Samples, sp: seq<nat>, tau: Graph, d: real)
    requires IsDist(dist) && |polys| >= 1 && forall i :: 0 <= i < |polys| ==> |polys[i]| > 0
    ensures |rings| == |polys| && Searching(dist, st, en, rings, S, sp, tau, d) && OnPolys(rings, polys)
    ensures forall i :: 0 <= i < |rings| ==> fresh(rings[i])
    ensures 0.0 <= d && BestVertexCost(dist, st, en, polys, d)
  {
    rings := SeedRings(polys);
    S := SamplesOf(rings);
    assert OnlyVertices(polys, S);
    var ords := Orders(rings);
    OrdersListed(rings, ords);
    sp, tau, d := FirstRoute(dist, st, en, polys, S, ords);
    PathLengthNonNeg(dist, RoutePoints(st, S, sp, en));
  }

  /**
   * The refinement loop of _poly2PolyPathAdaptIter: refine and search again until the
   * route length changes by at most adaptErr. costs records the route length after
   * every search, starting with d0.
   */
  method RefineLoop(dist: DistFn, st: Point, en: Point, rings: seq<Ring<Point>>, S0: Samples,
                    sp0: seq<nat>, tau0: Graph, d0: real, adaptErr: real, ghost polys: seq<seq<Point>>)
    returns (S: Samples, sp: seq<nat>, d: real, ghost costs: seq<real>, ghost L: seq<seq<nat>>)
    requires IsDist(dist) && adaptErr > 0.0 && Searching(dist, st, en, rings, S0, sp0, tau0, d0)
    requires OnPolys(rings, polys)
    modifies set r | r in rings
    ensures RingsOk(rings) && Snapshot(S, rings) && |sp| == |S| && OnSamples(S, sp) && OnPolys(rings, polys)
    ensures d == PathLength(dist, RoutePoints(st, S, sp, en))
    ensures CostTrail(costs, adaptErr, false) && costs[0] == d0 && costs[|costs| - 1] == d
    ensures ListsIn(S, L) && Within(L, sp)
    ensures forall ks :: Within(L, ks) ==> OnSamples(S, ks) && d <= PathLength(dist, RoutePoints(st, S, ks, en))
  {
    var tau;
    S, sp, tau, d := S0, sp0, tau0, d0;
    PathLengthNonNeg(dist, RoutePoints(st, S, sp, en));
    costs := [d];
    L := [];
    FloorNonNeg(d, adaptErr);
    var refineFlag := true;
    while refineFlag
      invariant Searching(dist, st, en, rings, S, sp, tau, d) && OnPolys(rings, polys)
      invariant d >= 0.0 && (d / adaptErr).Floor >= 0
      invariant CostTrail(costs, adaptErr, refineFlag) && costs[0] == d0 && costs[|costs| - 1] == d
      invariant !refineFlag ==> ListsIn(S, L) && Within(L, sp)
      invariant !refineFlag ==>
        forall ks :: Within(L, ks) ==> OnSamples(S, ks) && d <= PathLength(dist, RoutePoints(st, S, ks, en))
      decreases if refineFlag then (d / adaptErr).Floor + 1 else 0
    {
      var sp2, tau2, newDist;
      S, sp2, tau2, newDist, L := AdaptStep(dist, st, en, rings, S, sp, tau, d, polys);
      MeasureStep(d, newDist, adaptErr);
      if Abs(newDist - d) <= adaptErr {
        refineFlag := false;
      }
      CostsStep(costs, newDist, adaptErr, refineFlag);
      costs := costs + [newDist];
      d, sp, tau := newDist, sp2, tau2;
    }
  }

  /**
   * _poly2PolyPathAdaptIter: seed the rings, search the full vertex graph, then refine
   * and search the neighbourhood graph until the route length changes by at most
   * adaptErr. costs records the route length after every search: the first is the
   * best vertex route, none is longer than the one before, every refinement but the
   * last shortened the route by more than adaptErr, and the last changed it by at most
   * adaptErr.
   */
  method Poly2PolyPathAdaptIter(dist: DistFn, startPt: Point, endPt: Point, polys: seq<seq<Point>>,
                                adaptErr: real)
    returns (res: PathDist, ghost costs: seq<real>, ghost S: Samples, ghost ks: seq<nat>, ghost L: seq<seq<nat>>)
    requires IsDist(dist) && adaptErr > 0.0
    requires |polys| >= 1 && forall i :: 0 <= i < |polys| ==> |polys[i]| > 0
    ensures |res.path| == |polys| + 2 && res.path[0] == startPt && res.path[|polys| + 1] == endPt
    ensures res.dist == PathLength(dist, res.path)
    ensures CostTrail(costs, adaptErr, false)
    ensures costs[|costs| - 1] == res.dist && BestVertexCost(dist, startPt, endPt, polys, costs[0])
    ensures |S| == |polys| && |ks| == |S| && OnSamples(S, ks) && res.path == RoutePoints(startPt, S, ks, endPt)
    ensures OnBoundary(polys, S)
    ensures ListsIn(S, L) && Within(L, ks)
    ensures forall ks' :: Within(L, ks') ==>
      OnSamples(S, ks') && res.dist <= PathLength(dist, RoutePoints(startPt, S, ks', endPt))
  {
    var rings, S0, sp0, tau0, d0 := Seed(dist, startPt, endPt, polys);
    var sp, d;
    S, sp, d, costs, L := RefineLoop(dist, startPt, endPt, rings, S0, sp0, tau0, d0, adaptErr, polys);
    var path := BuildPath(startPt, endPt, rings, sp, S);
    SamplesOnEdges(rings, polys, S);
    ks := sp;
    res := PathDist(path, d);
  }
}
