/**
 * The ring of boundary samples the adaptive searches refine. Each sample has a key
 * and a value; keys are handed out as 0, 1, 2, ... in creation order and never
 * change. A closed ring links its last sample back to its head; an open chain (the
 * samples of a curve arc) has no neighbour before its head or after its tail.
 */
module Rings {
  import opened Wrappers

  /** Position of key k in a sequence of keys. */
  function IndexOf(s: seq<nat>, k: nat): (i: nat)
    requires k in s
    ensures i < |s| && s[i] == k
    ensures forall j :: 0 <= j < i ==> s[j] != k
  {
    if s[0] == k then 0 else 1 + IndexOf(s[1..], k)
  }

  predicate Distinct(s: seq<nat>)
  {
    forall i, j :: 0 <= i < j < |s| ==> s[i] != s[j]
  }

  /** The key order after placing key directly after the sample `after`. */
  function Splice(s: seq<nat>, after: nat, key: nat): (r: seq<nat>)
    requires after in s
    ensures |r| == |s| + 1
    ensures forall k :: k in r <==> k in s || k == key
  {
    var i := IndexOf(s, after);
    assert s == s[..i + 1] + s[i + 1..];
    s[..i + 1] + [key] + s[i + 1..]
  }

  /** Every key of the old map is kept with its old value. */
  ghost predicate Extends<V>(older: map<nat, V>, newer: map<nat, V>)
  {
    forall k :: k in older ==> k in newer && newer[k] == older[k]
  }

  /** Neighbours in a key order: cyclic in a closed ring, nil past the ends of a chain. */
  function NextIn(s: seq<nat>, closed: bool, k: nat): (r: Option<nat>)
    requires k in s
    ensures r.Some? ==> r.value in s
    ensures closed ==> r.Some?
  {
    var i := IndexOf(s, k);
    if i + 1 < |s| then Some(s[i + 1])
    else if closed then Some(s[0])
    else None
  }

  function PrevIn(s: seq<nat>, closed: bool, k: nat): (r: Option<nat>)
    requires k in s
    ensures r.Some? ==> r.value in s
    ensures closed ==> r.Some?
  {
    var i := IndexOf(s, k);
    if i > 0 then Some(s[i - 1])
    else if closed then Some(s[|s| - 1])
    else None
  }

  class Ring<V> {
    const closed: bool
    var order: seq<nat>
    var vals: map<nat, V>
    var count: nat

    ghost predicate Valid()
      reads this
    {
      |order| == count &&
      Distinct(order) &&
      (forall k :: k in vals <==> k in order)
    }

    /** Keys are exactly 0 .. count-1: the next keys to hand out are fresh. */
    ghost predicate Dense()
      reads this
    {
      forall k: nat :: k in vals <==> k < count
    }

    constructor (closed: bool)
      ensures Valid() && Dense()
      ensures this.closed == closed && order == [] && vals == map[] && count == 0
    {
      this.closed := closed;
      order := [];
      vals := map[];
      count := 0;
    }

    /** append: the new sample becomes the tail (in a closed ring, head.prev). */
    method Append(key: nat, v: V)
      requires Valid() && key !in vals
      modifies this
      ensures Valid()
      ensures order == old(order) + [key]
      ensures vals == old(vals)[key := v]
      ensures count == old(count) + 1
    {
      order := order + [key];
      vals := vals[key := v];
      count := count + 1;
    }

    /** insert(after, node): splice a new sample directly after `after`. */
    method Insert(after: nat, key: nat, v: V)
      requires Valid() && after in vals && key !in vals
      modifies this
      ensures Valid()
      ensures order == Splice(old(order), after, key)
      ensures vals == old(vals)[key := v]
      ensures count == old(count) + 1
    {
      var i := IndexOf(order, after);
      ghost var s := order;
      order := order[..i + 1] + [key] + order[i + 1..];
      assert forall j :: 0 <= j <= i ==> order[j] == s[j];
      assert forall j :: i + 1 < j < |order| ==> order[j] == s[j - 1];
      vals := vals[key := v];
      count := count + 1;
    }

    /** traverse(): follow next from the head until the walk comes back to the head
        (closed ring) or runs off the tail (open chain); every sample is met once,
        in ring order. */
    method Traverse() returns (ks: seq<nat>)
      requires Valid() && |order| > 0
      ensures ks == order
    {
      var cur := order[0];
      ks := [];
      ghost var pos := 0;
      while true
        invariant 0 <= pos < |order| && cur == order[pos] && ks == order[..pos]
        decreases |order| - pos
      {
        ks := ks + [cur];
        IndexOfDistinct(order, pos);
        var nx := Next(cur);
        assert pos + 1 < |order| ==> nx == Some(order[pos + 1]) && order[pos + 1] != order[0];
        if nx.None? || nx.value == order[0] {
          assert order[..pos + 1] == order;
          break;
        }
        cur := nx.value;
        pos := pos + 1;
      }
    }

    function Query(k: nat): V
      reads this
      requires k in vals
    {
      vals[k]
    }

    function Next(k: nat): (r: Option<nat>)
      reads this
      requires Valid() && k in vals
      ensures r.Some? ==> r.value in vals
      ensures closed ==> r.Some?
    {
      NextIn(order, closed, k)
    }

    function Prev(k: nat): (r: Option<nat>)
      reads this
      requires Valid() && k in vals
      ensures r.Some? ==> r.value in vals
      ensures closed ==> r.Some?
    {
      PrevIn(order, closed, k)
    }
  }

  /** In a sequence without repeats, the position of an element is its only index. */
  lemma IndexOfDistinct(s: seq<nat>, j: nat)
    requires Distinct(s) && j < |s|
    ensures IndexOf(s, s[j]) == j
  {
  }

  /** The neighbour after the sample at position i, read off the positions. */
  lemma NextAt(s: seq<nat>, closed: bool, i: nat)
    requires Distinct(s) && i < |s|
    ensures NextIn(s, closed, s[i]) == if i + 1 < |s| then Some(s[i + 1]) else if closed then Some(s[0]) else None
  {
    IndexOfDistinct(s, i);
  }

  /** Position of the sample `steps` links after `start`, following next in a closed ring. */
  function Walk(s: seq<nat>, start: nat, steps: nat): (r: nat)
    requires start in s
    ensures r in s
  {
    if steps == 0 then start
    else NextIn(s, true, Walk(s, start, steps - 1)).value
  }

  /** Traversing next from the head of a closed ring meets the samples in key order
      and is back at the head after exactly |s| links, so it meets every sample once. */
  lemma {:induction false} WalkVisitsInOrder(s: seq<nat>, steps: nat)
    requires Distinct(s) && 0 < |s| && steps <= |s|
    ensures Walk(s, s[0], steps) == if steps < |s| then s[steps] else s[0]
    decreases steps
  {
    if steps > 0 {
      WalkVisitsInOrder(s, steps - 1);
      IndexOfDistinct(s, steps - 1);
    }
  }

  /** The shape of a splice: the prefix up to `after`, the new key, the rest shifted by one. */
  lemma SpliceAt(s: seq<nat>, after: nat, key: nat)
    requires after in s
    ensures var i := IndexOf(s, after); var r := Splice(s, after, key);
      r[i + 1] == key &&
      (forall j :: 0 <= j <= i ==> r[j] == s[j]) &&
      (forall j :: i + 1 < j < |r| ==> r[j] == s[j - 1])
  {
    var i := IndexOf(s, after);
    assert Splice(s, after, key) == s[..i + 1] + [key] + s[i + 1..];
    InsertAt(s, i + 1, key);
  }

  /** Inserting key at position p of s: key at p, the rest of s around it. */
  lemma InsertAt(s: seq<nat>, p: nat, key: nat)
    requires p <= |s|
    ensures var r := s[..p] + [key] + s[p..];
      |r| == |s| + 1 && r[p] == key &&
      (forall j :: 0 <= j < p ==> r[j] == s[j]) &&
      (forall j :: p < j < |r| ==> r[j] == s[j - 1])
  {
  }

  /** A splice of a new key keeps the keys distinct. */
  lemma SpliceShape(s: seq<nat>, after: nat, key: nat)
    requires Distinct(s) && after in s && key !in s
    ensures var i := IndexOf(s, after); var r := Splice(s, after, key);
      r[i + 1] == key &&
      (forall j :: 0 <= j <= i ==> r[j] == s[j]) &&
      (forall j :: i + 1 < j < |r| ==> r[j] == s[j - 1]) &&
      Distinct(r)
  {
    var i := IndexOf(s, after);
    var r := Splice(s, after, key);
    SpliceAt(s, after, key);
    forall a, b | 0 <= a < b < |r| ensures r[a] != r[b] {
      var a' := if a <= i then a else a - 1;
      var b' := if b <= i then b else b - 1;
      if a == i + 1 {
        assert r[b] == s[b'];
      } else if b == i + 1 {
        assert r[a] == s[a'];
      } else {
        assert r[a] == s[a'] && r[b] == s[b'] && a' < b';
      }
    }
  }

  /** Where a key sits after the splice. */
  lemma SpliceIndex(s: seq<nat>, after: nat, key: nat, k: nat)
    requires Distinct(s) && after in s && key !in s && (k in s || k == key)
    ensures var i := IndexOf(s, after); var r := Splice(s, after, key);
      IndexOf(r, k) == if k == key then i + 1 else if IndexOf(s, k) <= i then IndexOf(s, k) else IndexOf(s, k) + 1
  {
    var i := IndexOf(s, after);
    var r := Splice(s, after, key);
    SpliceShape(s, after, key);
    if k == key {
      IndexOfDistinct(r, i + 1);
    } else {
      var m := IndexOf(s, k);
      if m <= i {
        IndexOfDistinct(r, m);
      } else {
        assert r[m + 1] == s[m];
        IndexOfDistinct(r, m + 1);
      }
    }
  }

  /** Splicing key after `after` redirects exactly one next link and adds one:
      after -> key -> (the old next of after); every other sample keeps its next. */
  lemma SpliceNext(s: seq<nat>, closed: bool, after: nat, key: nat, k: nat)
    requires Distinct(s) && after in s && key !in s
    requires k in s || k == key
    ensures Distinct(Splice(s, after, key))
    ensures NextIn(Splice(s, after, key), closed, k) ==
      if k == after then Some(key)
      else if k == key then NextIn(s, closed, after)
      else NextIn(s, closed, k)
  {
    var i := IndexOf(s, after);
    var r := Splice(s, after, key);
    SpliceShape(s, after, key);
    if k == after {
      NextAt(r, closed, i);
    } else if k == key {
      NextAt(r, closed, i + 1);
      NextAt(s, closed, i);
    } else {
      var m := IndexOf(s, k);
      NextAt(s, closed, m);
      if m < i {
        NextAt(r, closed, m);
      } else {
        NextAt(r, closed, m + 1);
      }
    }
  }

  /** The samples at most two links from k along the chain s, in chain order: byStage's
      entry for waypoint k. */
  function Window(s: seq<nat>, k: nat): (w: seq<nat>)
    requires k in s
    ensures k in w && 1 <= |w| <= 5
    ensures forall m :: m in w ==> m in s
  {
    var i := IndexOf(s, k);
    var lo := if i >= 2 then i - 2 else 0;
    var hi := if i + 3 <= |s| then i + 3 else |s|;
    assert s[lo..hi][i - lo] == k;
    s[lo..hi]
  }

  /** The window holds exactly the samples at most two positions before or after k. */
  lemma WindowSteps(s: seq<nat>, k: nat)
    requires k in s
    ensures forall m :: m in Window(s, k) <==>
      exists j :: 0 <= j < |s| && s[j] == m && IndexOf(s, k) <= j + 2 && j <= IndexOf(s, k) + 2
  {
    forall m ensures m in Window(s, k) <==>
      exists j :: 0 <= j < |s| && s[j] == m && IndexOf(s, k) <= j + 2 && j <= IndexOf(s, k) + 2 {
      if m in Window(s, k) {
        WindowHas(s, k, m);
      }
      if exists j :: 0 <= j < |s| && s[j] == m && IndexOf(s, k) <= j + 2 && j <= IndexOf(s, k) + 2 {
        var j :| 0 <= j < |s| && s[j] == m && IndexOf(s, k) <= j + 2 && j <= IndexOf(s, k) + 2;
        WindowGets(s, k, j);
      }
    }
  }

  /** A sample of the window sits at most two positions from k. */
  lemma WindowHas(s: seq<nat>, k: nat, m: nat)
    requires k in s && m in Window(s, k)
    ensures exists j :: 0 <= j < |s| && s[j] == m && IndexOf(s, k) <= j + 2 && j <= IndexOf(s, k) + 2
  {
    var i := IndexOf(s, k);
    var lo := if i >= 2 then i - 2 else 0;
    var hi := if i + 3 <= |s| then i + 3 else |s|;
    var w := s[lo..hi];
    assert Window(s, k) == w;
    var x :| 0 <= x < |w| && w[x] == m;
    assert lo + x < hi && s[lo + x] == m;
  }

  /** Every sample at most two positions from k is in the window. */
  lemma WindowGets(s: seq<nat>, k: nat, j: nat)
    requires k in s && j < |s| && IndexOf(s, k) <= j + 2 && j <= IndexOf(s, k) + 2
    ensures s[j] in Window(s, k)
  {
    var i := IndexOf(s, k);
    var lo := if i >= 2 then i - 2 else 0;
    var hi := if i + 3 <= |s| then i + 3 else |s|;
    var w := s[lo..hi];
    assert Window(s, k) == w;
    assert lo <= j < hi;
    assert w[j - lo] == s[j];
  }

  /** An optional neighbour as zero or one keys. */
  function Keys(o: Option<nat>): (ks: seq<nat>)
    ensures |ks| <= 1 && forall k :: k in ks <==> o == Some(k)
  {
    if o.Some? then [o.value] else []
  }

  /** The neighbour of k's neighbour on one side of the chain, if both exist. */
  function Prev2(s: seq<nat>, k: nat): Option<nat>
    requires k in s
  {
    var p := PrevIn(s, false, k);
    if p.Some? then PrevIn(s, false, p.value) else None
  }

  function Next2(s: seq<nat>, k: nat): Option<nat>
    requires k in s
  {
    var q := NextIn(s, false, k);
    if q.Some? then NextIn(s, false, q.value) else None
  }

  /** The links of the sample at position i of a distinct open chain. */
  lemma LinksAt(s: seq<nat>, i: nat)
    requires Distinct(s) && i < |s|
    ensures NextIn(s, false, s[i]) == if i + 1 < |s| then Some(s[i + 1]) else None
    ensures PrevIn(s, false, s[i]) == if i > 0 then Some(s[i - 1]) else None
  {
    IndexOfDistinct(s, i);
  }

  lemma WindowLeft(s: seq<nat>, i: nat)
    requires Distinct(s) && i < |s|
    ensures s[(if i >= 2 then i - 2 else 0)..i] == Keys(Prev2(s, s[i])) + Keys(PrevIn(s, false, s[i]))
  {
    LinksAt(s, i);
    if i >= 2 {
      LinksAt(s, i - 1);
      assert s[i - 2..i] == [s[i - 2], s[i - 1]];
    } else if i == 1 {
      LinksAt(s, 0);
      assert s[0..1] == [s[0]];
    }
  }

  lemma WindowRight(s: seq<nat>, i: nat)
    requires Distinct(s) && i < |s|
    ensures s[i + 1..(if i + 3 <= |s| then i + 3 else |s|)] == Keys(NextIn(s, false, s[i])) + Keys(Next2(s, s[i]))
  {
    LinksAt(s, i);
    if i + 2 < |s| {
      LinksAt(s, i + 1);
      assert s[i + 1..i + 3] == [s[i + 1], s[i + 2]];
    } else if i + 1 < |s| {
      LinksAt(s, i + 1);
      assert s[i + 1..i + 2] == [s[i + 1]];
    }
  }

  /** The window around k, link by link: k.prev.prev, k.prev, k, k.next, k.next.next,
      leaving out the nil ones. */
  lemma WindowByLinks(s: seq<nat>, k: nat)
    requires Distinct(s) && k in s
    ensures Window(s, k) ==
      Keys(Prev2(s, k)) + Keys(PrevIn(s, false, k)) + [k] + Keys(NextIn(s, false, k)) + Keys(Next2(s, k))
  {
    var i := IndexOf(s, k);
    var lo := if i >= 2 then i - 2 else 0;
    var hi := if i + 3 <= |s| then i + 3 else |s|;
    var P := Keys(Prev2(s, k)) + Keys(PrevIn(s, false, k));
    var N := Keys(NextIn(s, false, k)) + Keys(Next2(s, k));
    WindowLeft(s, i);
    WindowRight(s, i);
    assert s[lo..i] == P && s[i + 1..hi] == N;
    assert s[lo..hi] == s[lo..i] + [k] + s[i + 1..hi];
    assert P + [k] + N == Keys(Prev2(s, k)) + Keys(PrevIn(s, false, k)) + [k] + Keys(NextIn(s, false, k)) + Keys(Next2(s, k));
  }

  /** The chain after insertAround(n) on chain s, new keys handed out from c: a new
      sample spliced after n's predecessor, then one spliced after n, each only where
      that neighbour exists. */
  function Around(s: seq<nat>, n: nat, c: nat): (r: seq<nat>)
    requires n in s
  {
    var p := PrevIn(s, false, n);
    var s1 := if p.Some? then Splice(s, p.value, c) else s;
    var c' := if p.Some? then c + 1 else c;
    if NextIn(s, false, n).Some? then Splice(s1, n, c') else s1
  }

  /** All the links of a splice at once: after -> key -> the old next of after, and
      every other sample keeps its next. */
  lemma SpliceLinks(s: seq<nat>, after: nat, key: nat)
    requires Distinct(s) && after in s && key !in s
    ensures var r := Splice(s, after, key);
      Distinct(r) && NextIn(r, false, after) == Some(key) && NextIn(r, false, key) == NextIn(s, false, after) &&
      forall k :: k in s && k != after ==> NextIn(r, false, k) == NextIn(s, false, k)
  {
    SpliceNext(s, false, after, key, after);
    SpliceNext(s, false, after, key, key);
    forall k | k in s && k != after ensures NextIn(Splice(s, after, key), false, k) == NextIn(s, false, k) {
      SpliceNext(s, false, after, key, k);
    }
  }

  /** Two splices in a row, the first after n's predecessor p (when there is one) and
      the second after n: the links they leave around n. */
  lemma TwoSplices(s: seq<nat>, s1: seq<nat>, r: seq<nat>, n: nat, p: Option<nat>, c: nat, c': nat, q: Option<nat>)
    requires n in s && (p.Some? ==> p.value in s && p.value != n) && q == NextIn(s, false, n)
    requires Distinct(s1) && n in s1 && (forall k :: k in s1 <==> k in s || (p.Some? && k == c))
    requires forall k :: k in s && Some(k) != p ==> NextIn(s1, false, k) == NextIn(s, false, k)
    requires p.Some? ==> NextIn(s1, false, p.value) == Some(c) && NextIn(s1, false, c) == Some(n)
    requires c' !in s1 && (p.Some? ==> c' != c)
    requires q.None? ==> r == s1
    requires q.Some? ==>
      (forall k :: k in r <==> k in s1 || k == c') &&
      Distinct(r) && NextIn(r, false, n) == Some(c') && NextIn(r, false, c') == Some(q.value) &&
      (forall k :: k in s1 && k != n ==> NextIn(r, false, k) == NextIn(s1, false, k))
    ensures Distinct(r) && (forall k :: k in r <==> k in s || (p.Some? && k == c) || (q.Some? && k == c'))
    ensures p.Some? ==> NextIn(r, false, p.value) == Some(c) && NextIn(r, false, c) == Some(n)
    ensures q.Some? ==> NextIn(r, false, n) == Some(c') && NextIn(r, false, c') == q
    ensures q.None? ==> NextIn(r, false, n).None?
    ensures forall k :: k in s && k != n && Some(k) != p ==> NextIn(r, false, k) == NextIn(s, false, k)
  {
  }

  /** After insertAround(n) the chain runs p -> c -> n -> c' -> q, where p and q were n's
      neighbours and c, c' are the new keys; every other link is as it was, and an end
      of the chain stays an end. */
  lemma AroundNext(s: seq<nat>, n: nat, c: nat)
    requires Distinct(s) && n in s && forall k :: k in s ==> k < c
    ensures var r := Around(s, n, c);
      var p := PrevIn(s, false, n);
      var q := NextIn(s, false, n);
      var c' := if p.Some? then c + 1 else c;
      Distinct(r) && (forall k :: k in r <==> k in s || (p.Some? && k == c) || (q.Some? && k == c')) &&
      (p.Some? ==> NextIn(r, false, p.value) == Some(c) && NextIn(r, false, c) == Some(n)) &&
      (q.Some? ==> NextIn(r, false, n) == Some(c') && NextIn(r, false, c') == q) &&
      (q.None? ==> NextIn(r, false, n).None?) &&
      (forall k :: k in s && k != n && Some(k) != p ==> NextIn(r, false, k) == NextIn(s, false, k))
  {
    var i := IndexOf(s, n);
    var p := PrevIn(s, false, n);
    var q := NextIn(s, false, n);
    var s1 := if p.Some? then Splice(s, p.value, c) else s;
    if p.Some? {
      IndexOfDistinct(s, i - 1);
      SpliceLinks(s, p.value, c);
    }
    var c' := if p.Some? then c + 1 else c;
    var r := if q.Some? then Splice(s1, n, c') else s1;
    if q.Some? {
      SpliceLinks(s1, n, c');
    }
    TwoSplices(s, s1, r, n, p, c, c', q);
  }
}
