/**
 * The graphs the adaptive searches hand to networkx: a start node 's', an end node
 * 'e', and one layer of sample nodes (layer, key) per region. Edges only join 's' to
 * layer 0, layer i to layer i+1, and the last layer to 'e'; they are stored oriented
 * from the lower layer. A route is the choice of one key per layer.
 */
module LayeredGraph {
  import opened Wrappers

  datatype Node = Start | End | V(layer: nat, key: nat)

  type Graph = map<(Node, Node), real>

  /** s -> (0, p[0]) -> ... -> (|p|-1, p[|p|-1]) uses only edges of G. */
  predicate PrefixOk(G: Graph, p: seq<nat>)
    decreases |p|
  {
    |p| >= 1 &&
    if |p| == 1 then (Start, V(0, p[0])) in G
    else PrefixOk(G, p[..|p| - 1]) && (V(|p| - 2, p[|p| - 2]), V(|p| - 1, p[|p| - 1])) in G
  }

  /** Total weight of the edges of a route prefix. */
  function PrefixW(G: Graph, p: seq<nat>): real
    requires PrefixOk(G, p)
    decreases |p|
  {
    if |p| == 1 then G[(Start, V(0, p[0]))]
    else PrefixW(G, p[..|p| - 1]) + G[(V(|p| - 2, p[|p| - 2]), V(|p| - 1, p[|p| - 1]))]
  }

  lemma {:induction false} PrefixOkTake(G: Graph, p: seq<nat>, m: nat)
    requires PrefixOk(G, p) && 1 <= m <= |p|
    ensures PrefixOk(G, p[..m])
    decreases |p|
  {
    if m < |p| {
      assert p[..|p| - 1][..m] == p[..m];
      PrefixOkTake(G, p[..|p| - 1], m);
    } else {
      assert p[..m] == p;
    }
  }

  /** One more edge of a route prefix: its edge is in G and adds its weight. */
  lemma PrefixStep(G: Graph, p: seq<nat>, i: nat, j: nat)
    requires PrefixOk(G, p) && j == i + 1 && j < |p|
    ensures (V(i, p[i]), V(j, p[j])) in G && PrefixOk(G, p[..j]) && PrefixOk(G, p[..j + 1])
    ensures PrefixW(G, p[..j + 1]) == PrefixW(G, p[..j]) + G[(V(i, p[i]), V(j, p[j]))]
  {
    PrefixOkTake(G, p, j + 1);
    var pre := p[..j + 1];
    assert pre[..|pre| - 1] == p[..j];
  }

  /** Every waypoint of a route is one of its layer's candidate keys. */
  lemma RouteInLayers(G: Graph, layers: seq<seq<nat>>, p: seq<nat>)
    requires InLayers(G, layers) && PrefixOk(G, p)
    ensures |p| <= |layers| && forall i :: 0 <= i < |p| ==> p[i] in layers[i]
  {
    LastInLayer(G, layers, p);
    forall i | 0 <= i < |p| ensures p[i] in layers[i] {
      PrefixOkTake(G, p, i + 1);
      LastInLayer(G, layers, p[..i + 1]);
    }
  }

  /** A full s..e route through n layers. */
  predicate IsRoute(G: Graph, n: nat, p: seq<nat>)
  {
    |p| == n && n >= 1 && PrefixOk(G, p) && (V(n - 1, p[n - 1]), End) in G
  }

  function RouteW(G: Graph, p: seq<nat>): real
    requires IsRoute(G, |p|, p)
  {
    PrefixW(G, p) + G[(V(|p| - 1, p[|p| - 1]), End)]
  }

  /** A route weighs its whole prefix plus the edge into 'e'. */
  lemma RouteWhole(G: Graph, p: seq<nat>)
    requires IsRoute(G, |p|, p)
    ensures PrefixOk(G, p[..|p|])
    ensures RouteW(G, p) == PrefixW(G, p[..|p|]) + G[(V(|p| - 1, p[|p| - 1]), End)]
  {
    assert p[..|p|] == p;
  }

  /** An edge attribute summed along a route from 's' to 'e', one edge at a time. */
  method SumRoute(G: Graph, p: seq<nat>) returns (w: real)
    requires IsRoute(G, |p|, p)
    ensures w == RouteW(G, p)
  {
    PrefixOkTake(G, p, 1);
    w := G[(Start, V(0, p[0]))];
    var i := 1;
    while i < |p|
      invariant 1 <= i <= |p| && PrefixOk(G, p[..i]) && w == PrefixW(G, p[..i])
    {
      PrefixStep(G, p, i - 1, i);
      w := w + G[(V(i - 1, p[i - 1]), V(i, p[i]))];
      i := i + 1;
    }
    RouteWhole(G, p);
    w := w + G[(V(|p| - 1, p[|p| - 1]), End)];
  }

  /** The same route as networkx returns it: ['s', (0, k0), ..., (n-1, kn-1), 'e']. */
  function AsNodes(p: seq<nat>): (r: seq<Node>)
    ensures |r| == |p| + 2 && r[0] == Start && r[|p| + 1] == End
    ensures forall i :: 0 <= i < |p| ==> r[i + 1] == V(i, p[i])
  {
    [Start] + seq(|p|, i requires 0 <= i < |p| => V(i, p[i])) + [End]
  }

  /** Every edge of G enters a node listed in its layer: the candidate keys of each layer. */
  predicate EdgeInLayers(e: (Node, Node), layers: seq<seq<nat>>)
  {
    match e.1
    case V(i, k) => i < |layers| && k in layers[i]
    case _ => true
  }

  ghost predicate InLayers(G: Graph, layers: seq<seq<nat>>)
  {
    forall e :: e in G ==> EdgeInLayers(e, layers)
  }

  lemma LastInLayer(G: Graph, layers: seq<seq<nat>>, p: seq<nat>)
    requires InLayers(G, layers) && PrefixOk(G, p)
    ensures |p| - 1 < |layers| && p[|p| - 1] in layers[|p| - 1]
  {
    if |p| == 1 {
      assert EdgeInLayers((Start, V(0, p[0])), layers);
    } else {
      assert EdgeInLayers((V(|p| - 2, p[|p| - 2]), V(|p| - 1, p[|p| - 1])), layers);
    }
  }

  lemma ExtendPrefix(G: Graph, p: seq<nat>, b: nat)
    requires PrefixOk(G, p)
    requires (V(|p| - 1, p[|p| - 1]), V(|p|, b)) in G
    ensures PrefixOk(G, p + [b])
    ensures PrefixW(G, p + [b]) == PrefixW(G, p) + G[(V(|p| - 1, p[|p| - 1]), V(|p|, b))]
  {
    assert (p + [b])[..|p|] == p;
  }

  /** q is a route prefix through the first len layers. */
  predicate Reaches(G: Graph, q: seq<nat>, len: nat)
  {
    |q| == len && PrefixOk(G, q)
  }

  /** best[b] is a route prefix through len layers ending at key b. */
  ghost predicate Sound(G: Graph, len: nat, best: map<nat, seq<nat>>)
  {
    forall b :: b in best ==> Reaches(G, best[b], len) && best[b][len - 1] == b
  }

  /** Table of the programme after len layers: best[b] is a cheapest prefix ending at b,
      and every key some prefix reaches has an entry. */
  ghost predicate BestAt(G: Graph, len: nat, best: map<nat, seq<nat>>)
  {
    len >= 1 && Sound(G, len, best) &&
    forall q :: Reaches(G, q, len) ==> q[len - 1] in best && PrefixW(G, best[q[len - 1]]) <= PrefixW(G, q)
  }

  method FirstLayer(G: Graph, layers: seq<seq<nat>>) returns (best: map<nat, seq<nat>>)
    requires |layers| >= 1 && InLayers(G, layers)
    ensures BestAt(G, 1, best)
  {
    best := map[];
    var first := layers[0];
    var j := 0;
    while j < |first|
      invariant j <= |first|
      invariant forall b :: b in best ==> best[b] == [b] && (Start, V(0, b)) in G
      invariant forall x :: 0 <= x < j && (Start, V(0, first[x])) in G ==> first[x] in best
    {
      var k := first[j];
      if (Start, V(0, k)) in G {
        best := best[k := [k]];
      }
      j := j + 1;
    }
    forall q | Reaches(G, q, 1)
      ensures q[0] in best && PrefixW(G, best[q[0]]) <= PrefixW(G, q)
    {
      LastInLayer(G, layers, q);
      var x :| 0 <= x < |first| && first[x] == q[0];
      assert best[q[0]] == [q[0]] == q;
    }
  }

  /** Relax every edge from pa, a cheapest prefix ending at key a of layer i-1, into layer i. */
  method RelaxFrom(G: Graph, layers: seq<seq<nat>>, i: nat, pa: seq<nat>, a: nat,
                   next0: map<nat, seq<nat>>) returns (next: map<nat, seq<nat>>)
    requires 1 <= i < |layers| && InLayers(G, layers)
    requires Reaches(G, pa, i) && pa[i - 1] == a
    requires Sound(G, i + 1, next0)
    ensures Sound(G, i + 1, next)
    ensures forall b :: b in next0 ==> b in next && PrefixW(G, next[b]) <= PrefixW(G, next0[b])
    ensures forall b :: (V(i - 1, a), V(i, b)) in G ==>
      b in next && PrefixW(G, next[b]) <= PrefixW(G, pa) + G[(V(i - 1, a), V(i, b))]
  {
    next := next0;
    var lc := layers[i];
    var j := 0;
    while j < |lc|
      invariant j <= |lc|
      invariant Sound(G, i + 1, next)
      invariant forall b :: b in next0 ==> b in next && PrefixW(G, next[b]) <= PrefixW(G, next0[b])
      invariant forall y :: 0 <= y < j && (V(i - 1, a), V(i, lc[y])) in G ==>
        lc[y] in next && PrefixW(G, next[lc[y]]) <= PrefixW(G, pa) + G[(V(i - 1, a), V(i, lc[y]))]
    {
      var b := lc[j];
      if (V(i - 1, a), V(i, b)) in G {
        ExtendPrefix(G, pa, b);
        var w := PrefixW(G, pa) + G[(V(i - 1, a), V(i, b))];
        if b !in next || w < PrefixW(G, next[b]) {
          next := next[b := pa + [b]];
        }
      }
      j := j + 1;
    }
    forall b | (V(i - 1, a), V(i, b)) in G
      ensures b in next && PrefixW(G, next[b]) <= PrefixW(G, pa) + G[(V(i - 1, a), V(i, b))]
    {
      assert EdgeInLayers((V(i - 1, a), V(i, b)), layers);
      var y :| 0 <= y < |lc| && lc[y] == b;
    }
  }

  /** Once every key of layer i-1 has been relaxed, the new table is cheapest for layer i. */
  lemma RelaxDone(G: Graph, layers: seq<seq<nat>>, i: nat, prev: seq<nat>, best: map<nat, seq<nat>>,
                  next: map<nat, seq<nat>>, done: set<nat>)
    requires 1 <= i < |layers| && InLayers(G, layers) && prev == layers[i - 1]
    requires BestAt(G, i, best)
    requires forall x :: 0 <= x < |prev| ==> prev[x] in done
    requires Sound(G, i + 1, next)
    requires forall a, b :: a in done && a in best && (V(i - 1, a), V(i, b)) in G ==>
      b in next && PrefixW(G, next[b]) <= PrefixW(G, best[a]) + G[(V(i - 1, a), V(i, b))]
    ensures BestAt(G, i + 1, next)
  {
    forall q | Reaches(G, q, i + 1)
      ensures q[i] in next && PrefixW(G, next[q[i]]) <= PrefixW(G, q)
    {
      var q' := q[..i];
      assert Reaches(G, q', i);
      LastInLayer(G, layers, q');
      var a := q[i - 1];
      assert q'[i - 1] == a;
      var x :| 0 <= x < |prev| && prev[x] == a;
      assert a in done;
      assert PrefixW(G, q) == PrefixW(G, q') + G[(V(i - 1, a), V(i, q[i]))];
    }
  }

  /** One step of the programme: from the cheapest prefixes through i layers to those
      through i+1 layers. */
  method Relax(G: Graph, layers: seq<seq<nat>>, i: nat, best: map<nat, seq<nat>>)
    returns (next: map<nat, seq<nat>>)
    requires 1 <= i < |layers| && InLayers(G, layers)
    requires BestAt(G, i, best)
    ensures BestAt(G, i + 1, next)
  {
    next := map[];
    var lp := layers[i - 1];
    ghost var done: set<nat> := {};
    var j := 0;
    while j < |lp|
      invariant j <= |lp|
      invariant forall x :: 0 <= x < j ==> lp[x] in done
      invariant Sound(G, i + 1, next)
      invariant forall a, b :: a in done && a in best && (V(i - 1, a), V(i, b)) in G ==>
        b in next && PrefixW(G, next[b]) <= PrefixW(G, best[a]) + G[(V(i - 1, a), V(i, b))]
    {
      var a := lp[j];
      if a in best {
        next := RelaxFrom(G, layers, i, best[a], a, next);
      }
      done := done + {a};
      j := j + 1;
    }
    RelaxDone(G, layers, i, lp, best, next, done);
  }

  /** dijkstra_path(G, 's', 'e') on a layered graph: a cheapest s..e route, or None
      (networkx raises NetworkXNoPath) when there is none. */
  method ShortestRoute(G: Graph, layers: seq<seq<nat>>) returns (sp: Option<seq<nat>>)
    requires |layers| >= 1 && InLayers(G, layers)
    ensures sp.Some? ==> IsRoute(G, |layers|, sp.value)
    ensures sp.Some? ==> forall p :: IsRoute(G, |layers|, p) ==> RouteW(G, sp.value) <= RouteW(G, p)
    ensures sp.None? ==> forall p :: !IsRoute(G, |layers|, p)
  {
    var n := |layers|;
    var best := FirstLayer(G, layers);
    var i := 1;
    while i < n
      invariant 1 <= i <= n
      invariant BestAt(G, i, best)
    {
      best := Relax(G, layers, i, best);
      i := i + 1;
    }
    sp := Finish(G, layers, best);
  }

  /** Pick the cheapest complete route among the table's prefixes. */
  method Finish(G: Graph, layers: seq<seq<nat>>, best: map<nat, seq<nat>>)
    returns (sp: Option<seq<nat>>)
    requires |layers| >= 1 && InLayers(G, layers)
    requires BestAt(G, |layers|, best)
    ensures sp.Some? ==> IsRoute(G, |layers|, sp.value)
    ensures sp.Some? ==> forall p :: IsRoute(G, |layers|, p) ==> RouteW(G, sp.value) <= RouteW(G, p)
    ensures sp.None? ==> forall p :: !IsRoute(G, |layers|, p)
  {
    var n := |layers|;
    sp := None;
    var bw: real := 0.0;
    var last := layers[n - 1];
    ghost var done: set<nat> := {};
    var j := 0;
    while j < |last|
      invariant j <= |last|
      invariant forall x :: 0 <= x < j ==> last[x] in done
      invariant sp.Some? ==> IsRoute(G, n, sp.value) && bw == RouteW(G, sp.value)
      invariant forall a :: a in done && a in best && (V(n - 1, a), End) in G ==>
        sp.Some? && bw <= PrefixW(G, best[a]) + G[(V(n - 1, a), End)]
    {
      var a := last[j];
      if a in best && (V(n - 1, a), End) in G {
        assert Reaches(G, best[a], n);
        var w := PrefixW(G, best[a]) + G[(V(n - 1, a), End)];
        if sp.None? || w < bw {
          sp := Some(best[a]);
          bw := w;
        }
      }
      done := done + {a};
      j := j + 1;
    }
    FinishDone(G, layers, last, best, done, sp, bw);
  }

  lemma FinishDone(G: Graph, layers: seq<seq<nat>>, last: seq<nat>, best: map<nat, seq<nat>>, done: set<nat>,
                   sp: Option<seq<nat>>, bw: real)
    requires |layers| >= 1 && InLayers(G, layers) && last == layers[|layers| - 1]
    requires BestAt(G, |layers|, best)
    requires forall x :: 0 <= x < |last| ==> last[x] in done
    requires forall a :: a in done && a in best && (V(|layers| - 1, a), End) in G ==>
      sp.Some? && bw <= PrefixW(G, best[a]) + G[(V(|layers| - 1, a), End)]
    ensures forall p :: IsRoute(G, |layers|, p) ==> sp.Some? && bw <= RouteW(G, p)
  {
    var n := |layers|;
    forall p | IsRoute(G, n, p)
      ensures sp.Some? && bw <= RouteW(G, p)
    {
      assert Reaches(G, p, n);
      LastInLayer(G, layers, p);
      var x :| 0 <= x < |last| && last[x] == p[n - 1];
      assert p[n - 1] in done;
    }
  }
}
