/**
 * CurveArc (curveArc.py): a circular arc from startDeg to endDeg, held as a doubly
 * linked chain of lod + 1 evenly spaced sample nodes whose two ends point at nil
 * nodes; and the choice of start and end degrees for the part of an arc that lies
 * inside a circle.
 */
module CurveArcs {
  import opened Wrappers
  import opened Geom

  /** ptInDistXY(center, deg, radius): the point at a heading and distance from a
      centre (the trigonometry is not modelled). */
  type PlaceFn = (Point, real, real) -> Point

  /** headingXY(center, pt): the heading of pt seen from center, in [0, 360). */
  type HeadingFn = (Point, Point) -> real

  /** A sample node of a chain, or (isNil) one of the nil nodes past its ends. */
  class ArcNode {
    const isNil: bool
    const key: nat
    const loc: Point
    const deg: real
    var prev: ArcNode?
    var next: ArcNode?

    /** CurveArcNilNode(): a node with nothing in it. */
    constructor Nil()
      ensures isNil && prev == null && next == null
    {
      isNil := true;
      key := 0;
      loc := Point(0.0, 0.0);
      deg := 0.0;
      prev := null;
      next := null;
    }

    /** CurveArcNode(key, loc, deg) with no neighbours given: both links get a new
        nil node. */
    constructor (key: nat, loc: Point, deg: real)
      ensures !isNil && this.key == key && this.loc == loc && this.deg == deg
      ensures prev != null && prev.isNil && fresh(prev)
      ensures next != null && next.isNil && fresh(next)
    {
      isNil := false;
      this.key := key;
      this.loc := loc;
      this.deg := deg;
      prev := new ArcNode.Nil();
      next := new ArcNode.Nil();
    }
  }

  /** The level of detail the constructor uses: lod, raised to 2 when smaller. */
  function EffectiveLod(lod: int): (l: nat)
    ensures l >= 2
    ensures lod >= 2 ==> l == lod
    ensures lod < 2 ==> l == 2
  {
    if lod < 2 then 2 else lod
  }

  /** The degree of sample i: startDeg + i * (endDeg - startDeg) / lod. */
  function SampleDeg(startDeg: real, endDeg: real, lod: nat, i: nat): real
    requires lod > 0
  {
    startDeg + Portion(endDeg - startDeg, lod, i)
  }

  /** i lod-ths of a span D. */
  function Portion(D: real, lod: nat, i: nat): real
    requires lod > 0
  {
    (i as real) * D / (lod as real)
  }

  lemma PortionMono(D: real, lod: nat, i: nat, j: nat)
    requires lod > 0 && D >= 0.0 && i <= j
    ensures Portion(D, lod, i) <= Portion(D, lod, j)
  {
    var x, y, n := i as real, j as real, lod as real;
    assert y * D - x * D == (y - x) * D;
    assert y * D / n - x * D / n == (y * D - x * D) / n;
  }

  /** The first sample is at startDeg and the last at endDeg. */
  lemma SampleDegEnds(startDeg: real, endDeg: real, lod: nat)
    requires lod > 0
    ensures SampleDeg(startDeg, endDeg, lod, 0) == startDeg
    ensures SampleDeg(startDeg, endDeg, lod, lod) == endDeg
  {
    assert (lod as real) * (endDeg - startDeg) / (lod as real) == endDeg - startDeg;
  }

  /** For startDeg <= endDeg the degrees never decrease along the chain and stay
      between the two ends. */
  lemma SampleDegMonotone(startDeg: real, endDeg: real, lod: nat, i: nat, j: nat)
    requires lod > 0 && startDeg <= endDeg && i <= j <= lod
    ensures startDeg <= SampleDeg(startDeg, endDeg, lod, i) <= SampleDeg(startDeg, endDeg, lod, j) <= endDeg
  {
    var D := endDeg - startDeg;
    PortionMono(D, lod, 0, i);
    PortionMono(D, lod, i, j);
    PortionMono(D, lod, j, lod);
    SampleDegEnds(startDeg, endDeg, lod);
  }

  /** Distinct nodes, none of them nil. */
  ghost predicate Chain(list: seq<ArcNode>)
  {
    (forall j, k :: 0 <= j < k < |list| ==> list[j] != list[k]) &&
    (forall j :: 0 <= j < |list| ==> !list[j].isNil)
  }

  /** cvNodeList: lod + 1 new nodes, node i keyed i at SampleDeg i, both links nil. */
  method MakeNodes(center: Point, radius: real, startDeg: real, endDeg: real, L: nat, place: PlaceFn)
    returns (list: seq<ArcNode>)
    requires L > 0
    ensures |list| == L + 1 && Chain(list)
    ensures forall j :: 0 <= j <= L ==> fresh(list[j]) && list[j].key == j
    ensures forall j :: 0 <= j <= L ==>
      list[j].deg == SampleDeg(startDeg, endDeg, L, j) && list[j].loc == place(center, list[j].deg, radius)
    ensures forall j :: 0 <= j <= L ==>
      list[j].prev != null && list[j].prev.isNil && list[j].next != null && list[j].next.isNil
  {
    list := [];
    for i := 0 to L + 1
      invariant |list| == i && Chain(list)
      invariant forall j :: 0 <= j < i ==> fresh(list[j]) && list[j].key == j
      invariant forall j :: 0 <= j < i ==>
        list[j].deg == SampleDeg(startDeg, endDeg, L, j) && list[j].loc == place(center, list[j].deg, radius)
      invariant forall j :: 0 <= j < i ==>
        list[j].prev != null && list[j].prev.isNil && list[j].next != null && list[j].next.isNil
    {
      var d := SampleDeg(startDeg, endDeg, L, i);
      var n := new ArcNode(i, place(center, d, radius), d);
      list := list + [n];
    }
  }

  /** cvNodeList[i].next = cvNodeList[i + 1] for every node but the last. */
  method LinkNext(list: seq<ArcNode>)
    requires |list| >= 1 && Chain(list)
    modifies list
    ensures forall j :: 0 <= j < |list| - 1 ==> list[j].next == list[j + 1]
    ensures list[|list| - 1].next == old(list[|list| - 1].next)
    ensures forall j :: 0 <= j < |list| ==> list[j].prev == old(list[j].prev)
  {
    for i := 0 to |list| - 1
      invariant forall j :: 0 <= j < i ==> list[j].next == list[j + 1]
      invariant list[|list| - 1].next == old(list[|list| - 1].next)
      invariant forall j :: 0 <= j < |list| ==> list[j].prev == old(list[j].prev)
    {
      list[i].next := list[i + 1];
    }
  }

  /** cvNodeList[i].prev = cvNodeList[i - 1] for every node but the first. */
  method LinkPrev(list: seq<ArcNode>)
    requires |list| >= 1 && Chain(list)
    modifies list
    ensures forall j :: 1 <= j < |list| ==> list[j].prev == list[j - 1]
    ensures list[0].prev == old(list[0].prev)
    ensures forall j :: 0 <= j < |list| ==> list[j].next == old(list[j].next)
  {
    for i := 1 to |list|
      invariant forall j :: 1 <= j < i ==> list[j].prev == list[j - 1]
      invariant list[0].prev == old(list[0].prev)
      invariant forall j :: 0 <= j < |list| ==> list[j].next == old(list[j].next)
    {
      list[i].prev := list[i - 1];
    }
  }

  class CurveArc {
    const center: Point
    const radius: real
    const startDeg: real
    const endDeg: real
    /** The level of detail after raising it to at least 2. */
    const lod: nat
    const head: ArcNode
    const tail: ArcNode
    /** The sample nodes in chain order (cvNodeList). */
    ghost const nodes: seq<ArcNode>

    /** lod + 1 distinct sample nodes keyed 0 .. lod, each linked to the next both
        ways, head first, tail last, nil nodes before the head and after the tail. */
    ghost predicate Valid()
      reads nodes
    {
      lod >= 2 && |nodes| == lod + 1 && head == nodes[0] && tail == nodes[lod] &&
      (forall i, j :: 0 <= i < j < |nodes| ==> nodes[i] != nodes[j]) &&
      (forall i :: 0 <= i < |nodes| ==> !nodes[i].isNil && nodes[i].key == i) &&
      (forall i :: 0 <= i < lod ==> nodes[i].next == nodes[i + 1] && nodes[i + 1].prev == nodes[i]) &&
      head.prev != null && head.prev.isNil && tail.next != null && tail.next.isNil
    }

    /** Sample i sits at SampleDeg i, at the point place gives for that degree. */
    ghost predicate Sampled(place: PlaceFn)
    {
      lod > 0 &&
      forall i :: 0 <= i < |nodes| ==>
        nodes[i].deg == SampleDeg(startDeg, endDeg, lod, i) &&
        nodes[i].loc == place(center, nodes[i].deg, radius)
    }

    /** CurveArc(center, radius, startDeg, endDeg, lod): the node list first, then the
        next links, then the prev links. */
    constructor (center: Point, radius: real, startDeg: real, endDeg: real, lod: int, place: PlaceFn)
      ensures this.center == center && this.radius == radius
      ensures this.startDeg == startDeg && this.endDeg == endDeg
      ensures this.lod == EffectiveLod(lod)
      ensures Valid() && Sampled(place)
      ensures forall i :: 0 <= i < |nodes| ==> fresh(nodes[i])
    {
      var L := EffectiveLod(lod);
      var list := MakeNodes(center, radius, startDeg, endDeg, L, place);
      LinkNext(list);
      LinkPrev(list);
      this.center := center;
      this.radius := radius;
      this.startDeg := startDeg;
      this.endDeg := endDeg;
      this.lod := L;
      head := list[0];
      tail := list[L];
      nodes := list;
    }

    /** The node reached from the head by following next k times (null once a link
        leaves the chain). */
    ghost function Follow(k: nat): ArcNode?
      reads nodes
    {
      if k == 0 then head
      else
        var p := Follow(k - 1);
        if p == null || p !in nodes then null else p.next
    }

    /** Following next from the head k times reaches sample k. */
    lemma {:induction false} FollowFromHead(k: nat)
      requires Valid() && k <= lod
      ensures Follow(k) == nodes[k]
    {
      if k > 0 {
        FollowFromHead(k - 1);
      }
    }

    /** The tail is reached after exactly lod links, and its next is a nil node. */
    lemma HeadReachesTail()
      requires Valid()
      ensures Follow(lod) == tail && tail.next.isNil
      ensures forall k :: 0 <= k < lod ==> Follow(k) != tail
    {
      FollowFromHead(lod);
      forall k | 0 <= k < lod
        ensures Follow(k) != tail
      {
        FollowFromHead(k);
      }
    }

    /** The traversal the search does over an arc: from the head along next until a
        nil node, or until the walk is back at the head. It meets every sample once,
        in key order. */
    method Traverse() returns (ks: seq<nat>, degs: seq<real>, locs: seq<Point>)
      requires Valid()
      ensures |ks| == |degs| == |locs| == lod + 1
      ensures forall i :: 0 <= i < |ks| ==> ks[i] == i && degs[i] == nodes[i].deg && locs[i] == nodes[i].loc
    {
      var cur: ArcNode? := head;
      ks, degs, locs := [], [], [];
      ghost var pos := 0;
      while cur != null && !cur.isNil
        invariant 0 <= pos <= lod + 1 && |ks| == |degs| == |locs| == pos
        invariant pos <= lod ==> cur == nodes[pos]
        invariant pos == lod + 1 ==> cur == tail.next
        invariant forall i :: 0 <= i < pos ==> ks[i] == i && degs[i] == nodes[i].deg && locs[i] == nodes[i].loc
        decreases lod + 1 - pos
      {
        ks, degs, locs := ks + [cur.key], degs + [cur.deg], locs + [cur.loc];
        cur := cur.next;
        pos := pos + 1;
        assert pos <= lod ==> cur == nodes[pos] && nodes[pos] != nodes[0];
        // the traversal's stop at the head never fires: an open chain does not lead back
        // to its head
        assert cur != head;
      }
    }
  }

  // ---- the degree-selection tail of intCurveArc2Circle ----

  /** The arc runs clockwise iff at least two of its three thirds turn to a larger
      heading. */
  predicate Clockwise(firstDeg: real, oneThirdDeg: real, twoThirdDeg: real, lastDeg: real)
  {
    (if oneThirdDeg > firstDeg then 1 else 0) +
    (if twoThirdDeg > oneThirdDeg then 1 else 0) +
    (if lastDeg > twoThirdDeg then 1 else 0) >= 2
  }

  /** The start and end degrees: clockwise, from the first heading to the last;
      otherwise from the last to the first; the end moved up a turn when it is not
      larger than the start. */
  function SelectDegrees(firstDeg: real, lastDeg: real, clockwise: bool): (r: (real, real))
  {
    if clockwise then
      if firstDeg < lastDeg then (firstDeg, lastDeg) else (firstDeg, lastDeg + 360.0)
    else
      if firstDeg > lastDeg then (lastDeg, firstDeg) else (lastDeg, firstDeg + 360.0)
  }

  /** With headings in [0, 360) the selected degrees satisfy start < end <= start + 360
      (the constructor's convention), start is the heading the arc starts from and end
      names the other heading, possibly a turn up. */
  lemma SelectDegreesRange(firstDeg: real, lastDeg: real, clockwise: bool)
    requires 0.0 <= firstDeg < 360.0 && 0.0 <= lastDeg < 360.0
    ensures var (s, e) := SelectDegrees(firstDeg, lastDeg, clockwise);
      s < e <= s + 360.0 &&
      s == (if clockwise then firstDeg else lastDeg) &&
      (var other := if clockwise then lastDeg else firstDeg; e == other || e == other + 360.0)
  {
  }

  /** int(x) of the Python source for x = n / 3 - 1 and x = 2n / 3 - 1, n >= 1:
      truncation toward zero, so 0 for the small cases where x is in (-1, 0). */
  function TruncPred(q: nat): nat
  {
    if q == 0 then 0 else q - 1
  }

  /** The degree of the point halfway between the two samples that straddle a third
      of the intersection polyline. */
  function ThirdDeg(heading: HeadingFn, center: Point, nl: seq<Point>, num: nat): real
    requires |nl| >= 1 && 1 <= num <= 2
  {
    var n := |nl|;
    var hi := num * n / 3;
    var lo := if num * n < 3 then 0 else hi - 1;
    assert hi < n;
    heading(center, Mid(nl[hi], nl[lo]))
  }

  /** intCurveArc2Circle after the intersection: nl is the intersection of the arc with
      the circle as one polyline (computing it is geometry that is not part of this
      model). None when it is empty; otherwise a new arc on the same circle between
      the selected degrees. */
  method IntCurveArc2Circle(arc: CurveArc, nl: seq<Point>, heading: HeadingFn, place: PlaceFn)
    returns (r: CurveArc?)
    ensures nl == [] <==> r == null
    ensures r != null ==>
      var cw := Clockwise(heading(arc.center, nl[0]), ThirdDeg(heading, arc.center, nl, 1),
                          ThirdDeg(heading, arc.center, nl, 2), heading(arc.center, nl[|nl| - 1]));
      var (s, e) := SelectDegrees(heading(arc.center, nl[0]), heading(arc.center, nl[|nl| - 1]), cw);
      r.center == arc.center && r.radius == arc.radius && r.startDeg == s && r.endDeg == e &&
      r.lod == 6 && r.Valid() && r.Sampled(place)
  {
    if nl == [] {
      return null;
    }
    var firstDeg := heading(arc.center, nl[0]);
    var lastDeg := heading(arc.center, nl[|nl| - 1]);
    var oneThird := ThirdDeg(heading, arc.center, nl, 1);
    var twoThird := ThirdDeg(heading, arc.center, nl, 2);
    var cw := Clockwise(firstDeg, oneThird, twoThird, lastDeg);
    var (s, e) := SelectDegrees(firstDeg, lastDeg, cw);
    r := new CurveArc(arc.center, arc.radius, s, e, 6, place);
  }
}
