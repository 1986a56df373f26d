/**
 * What the weights of the adaptive searches' graphs mean. The samples of region i
 * form a map from key to point; an edge is live when both its ends are samples
 * of adjacent layers, and its true length is the distance between the two points
 * (or between the start / end point and a sample). Graphs and the memo `tau` are
 * faithful when every entry is a live edge carrying its true length.
 */
module Routes {
  import opened Geom
  import opened Rings
  import opened LayeredGraph

  type Samples = seq<map<nat, Point>>

  predicate LiveEdge(S: Samples, e: (Node, Node))
  {
    if e.0.Start? && e.1.V? then e.1.layer == 0 && 0 < |S| && e.1.key in S[0]
    else if e.0.V? && e.1.V? then
      e.1.layer == e.0.layer + 1 && e.1.layer < |S| && e.0.key in S[e.0.layer] && e.1.key in S[e.1.layer]
    else if e.0.V? && e.1.End? then e.0.layer + 1 == |S| && e.0.key in S[e.0.layer]
    else false
  }

  function EdgeLen(dist: DistFn, st: Point, en: Point, S: Samples, e: (Node, Node)): real
    requires LiveEdge(S, e)
  {
    if e.0.Start? then dist(st, S[0][e.1.key])
    else if e.1.End? then dist(S[e.0.layer][e.0.key], en)
    else dist(S[e.0.layer][e.0.key], S[e.1.layer][e.1.key])
  }

  /** Every entry of M is a live edge weighted by its true length. */
  ghost predicate Faithful(dist: DistFn, st: Point, en: Point, S: Samples, M: map<(Node, Node), real>)
  {
    forall e :: e in M ==> LiveEdge(S, e) && M[e] == EdgeLen(dist, st, en, S, e)
  }

  /** One entry of a faithful map. */
  lemma FaithfulAt(dist: DistFn, st: Point, en: Point, S: Samples, M: map<(Node, Node), real>, e: (Node, Node))
    requires Faithful(dist, st, en, S, M) && e in M
    ensures LiveEdge(S, e) && M[e] == EdgeLen(dist, st, en, S, e)
  {
  }

  /** S' keeps every sample of S, in the same region, with the same point. */
  ghost predicate Grows(S: Samples, S': Samples)
  {
    |S| == |S'| && forall i :: 0 <= i < |S| ==> Extends(S[i], S'[i])
  }

  /** Growing twice is growing once. */
  lemma GrowsTrans(S: Samples, S': Samples, S'': Samples)
    requires Grows(S, S') && Grows(S', S'')
    ensures Grows(S, S'')
  {
    forall i | 0 <= i < |S| ensures Extends(S[i], S''[i]) {
      assert Extends(S[i], S'[i]) && Extends(S'[i], S''[i]);
    }
  }

  lemma FaithfulGrows(dist: DistFn, st: Point, en: Point, S: Samples, S': Samples, M: map<(Node, Node), real>)
    requires Faithful(dist, st, en, S, M) && Grows(S, S')
    ensures Faithful(dist, st, en, S', M)
  {
    forall e | e in M ensures LiveEdge(S', e) && M[e] == EdgeLen(dist, st, en, S', e) {
      assert LiveEdge(S, e);
    }
  }

  predicate OnSamples(S: Samples, ks: seq<nat>)
  {
    |ks| <= |S| && forall i :: 0 <= i < |ks| ==> ks[i] in S[i]
  }

  /** The sample points a key choice picks, region by region. */
  function Waypoints(S: Samples, ks: seq<nat>): (r: seq<Point>)
    requires OnSamples(S, ks)
    ensures |r| == |ks| && forall i :: 0 <= i < |ks| ==> r[i] == S[i][ks[i]]
  {
    seq(|ks|, i requires 0 <= i < |ks| => S[i][ks[i]])
  }

  /** The polyline the search returns for a key choice: start, waypoints, end. */
  function RoutePoints(st: Point, S: Samples, ks: seq<nat>, en: Point): seq<Point>
    requires OnSamples(S, ks)
  {
    [st] + Waypoints(S, ks) + [en]
  }

  /** In a faithful graph a route prefix weighs exactly the length of its polyline. */
  lemma {:induction false} PrefixLength(dist: DistFn, st: Point, en: Point, S: Samples, G: Graph, p: seq<nat>)
    requires Faithful(dist, st, en, S, G) && PrefixOk(G, p)
    ensures OnSamples(S, p)
    ensures PrefixW(G, p) == PathLength(dist, [st] + Waypoints(S, p))
    decreases |p|
  {
    if |p| == 1 {
      assert LiveEdge(S, (Start, V(0, p[0])));
      assert [st] + Waypoints(S, p) == [st, S[0][p[0]]];
    } else {
      var q := p[..|p| - 1];
      PrefixLength(dist, st, en, S, G, q);
      var e := (V(|p| - 2, p[|p| - 2]), V(|p| - 1, p[|p| - 1]));
      assert LiveEdge(S, e);
      var pts := [st] + Waypoints(S, p);
      assert pts[..|pts| - 1] == [st] + Waypoints(S, q);
    }
  }

  /** In a faithful graph a route weighs exactly the length of the path the search returns. */
  lemma RouteLength(dist: DistFn, st: Point, en: Point, S: Samples, G: Graph, ks: seq<nat>)
    requires Faithful(dist, st, en, S, G) && IsRoute(G, |S|, ks)
    ensures OnSamples(S, ks)
    ensures RouteW(G, ks) == PathLength(dist, RoutePoints(st, S, ks, en))
  {
    PrefixLength(dist, st, en, S, G, ks);
    var pts := RoutePoints(st, S, ks, en);
    assert pts[..|pts| - 1] == [st] + Waypoints(S, ks);
    assert LiveEdge(S, (V(|ks| - 1, ks[|ks| - 1]), End));
  }

  /** A graph holding every live edge has a route through any key choice. */
  lemma {:induction false} CompletePrefix(S: Samples, G: Graph, ks: seq<nat>)
    requires forall e :: LiveEdge(S, e) ==> e in G
    requires |ks| >= 1 && OnSamples(S, ks)
    ensures PrefixOk(G, ks)
    decreases |ks|
  {
    if |ks| == 1 {
      assert LiveEdge(S, (Start, V(0, ks[0])));
    } else {
      CompletePrefix(S, G, ks[..|ks| - 1]);
      assert LiveEdge(S, (V(|ks| - 2, ks[|ks| - 2]), V(|ks| - 1, ks[|ks| - 1])));
    }
  }

  lemma CompleteRoute(S: Samples, G: Graph, ks: seq<nat>)
    requires forall e :: LiveEdge(S, e) ==> e in G
    requires |ks| == |S| >= 1 && OnSamples(S, ks)
    ensures IsRoute(G, |S|, ks)
  {
    CompletePrefix(S, G, ks);
    assert LiveEdge(S, (V(|ks| - 1, ks[|ks| - 1]), End));
  }

  /** Route weights only depend on the samples they visit: a route over grown samples
      picks the same points. */
  lemma WaypointsGrow(S: Samples, S': Samples, ks: seq<nat>)
    requires Grows(S, S') && OnSamples(S, ks)
    ensures OnSamples(S', ks) && Waypoints(S', ks) == Waypoints(S, ks)
  {
  }
}
