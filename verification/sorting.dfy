/**
 * Orderings used by the library's `heapq` drains and `sorted` calls.
 * `heapq` and `sorted` are Python built-ins: the heap is modelled by its contents
 * (a sequence) and a pop that removes a least element; `sorted` by a stable
 * insertion sort.
 */
module Sorting {
  /** le is total and transitive: the comparisons Python's tuples and reals give. */
  ghost predicate IsTotalPreorder<T(!new)>(le: (T, T) -> bool)
  {
    (forall a: T, b: T :: le(a, b) || le(b, a)) &&
    (forall a: T, b: T, c: T :: le(a, b) && le(b, c) ==> le(a, c))
  }

  predicate SortedBy<T>(s: seq<T>, le: (T, T) -> bool)
  {
    forall i, j :: 0 <= i < j < |s| ==> le(s[i], s[j])
  }

  /** Index of a least element of a non-empty heap. */
  function MinIndex<T(!new)>(h: seq<T>, le: (T, T) -> bool): (k: nat)
    requires |h| > 0
    requires IsTotalPreorder(le)
    ensures k < |h|
    ensures forall j :: 0 <= j < |h| ==> le(h[k], h[j])
  {
    if |h| == 1 then 0
    else
      var k' := MinIndex(h[1..], le);
      assert forall j :: 1 <= j < |h| ==> h[j] == h[1..][j - 1];
      if le(h[0], h[1..][k']) then 0 else k' + 1
  }

  /** heappop: a least element and the heap without it. */
  function PopMin<T(!new)>(h: seq<T>, le: (T, T) -> bool): (r: (T, seq<T>))
    requires |h| > 0
    requires IsTotalPreorder(le)
    ensures multiset(h) == multiset{r.0} + multiset(r.1)
    ensures |r.1| == |h| - 1
    ensures forall x :: x in r.1 ==> le(r.0, x)
  {
    var k := MinIndex(h, le);
    assert h == h[..k] + [h[k]] + h[k + 1..];
    (h[k], h[..k] + h[k + 1..])
  }

  /** `while heap: out.append(heappop(heap))`: the heap's contents in order. */
  method DrainHeap<T(!new)>(heap: seq<T>, le: (T, T) -> bool) returns (out: seq<T>)
    requires IsTotalPreorder(le)
    ensures SortedBy(out, le)
    ensures multiset(out) == multiset(heap)
  {
    out := [];
    var h := heap;
    while |h| > 0
      invariant multiset(out) + multiset(h) == multiset(heap)
      invariant SortedBy(out, le)
      invariant forall i, x :: 0 <= i < |out| && x in h ==> le(out[i], x)
      decreases |h|
    {
      var r := PopMin(h, le);
      forall i, x | 0 <= i < |out| && x in r.1 ensures le(out[i], x) {
        assert x in multiset(r.1);
        assert x in multiset(h);
        assert x in h;
      }
      assert r.0 in multiset(h);
      assert r.0 in h;
      ghost var old_out := out;
      out := out + [r.0];
      assert forall i :: 0 <= i < |old_out| ==> out[i] == old_out[i];
      h := r.1;
    }
  }

  /** Insert x after every element not greater than it (keeps equal elements in order). */
  function InsertBy<T>(x: T, s: seq<T>, le: (T, T) -> bool): (r: seq<T>)
    ensures multiset(r) == multiset(s) + multiset{x}
    ensures |r| == |s| + 1
  {
    if s == [] then [x]
    else if le(s[0], x) then
      assert s == [s[0]] + s[1..];
      [s[0]] + InsertBy(x, s[1..], le)
    else
      [x] + s
  }

  /** Inserting into a sorted sequence keeps it sorted. */
  lemma {:induction false} InsertBySorted<T(!new)>(x: T, s: seq<T>, le: (T, T) -> bool)
    requires IsTotalPreorder(le)
    requires SortedBy(s, le)
    ensures SortedBy(InsertBy(x, s, le), le)
  {
    if s != [] && le(s[0], x) {
      var t := InsertBy(x, s[1..], le);
      InsertBySorted(x, s[1..], le);
      forall j | 0 <= j < |t| ensures le(s[0], t[j]) {
        assert t[j] in multiset(t);
        if t[j] != x {
          assert t[j] in multiset(s[1..]);
          var k :| 0 <= k < |s[1..]| && s[1..][k] == t[j];
          assert s[k + 1] == t[j];
        }
      }
      var r := [s[0]] + t;
      forall i, j | 0 <= i < j < |r| ensures le(r[i], r[j]) {
        if i > 0 {
          assert r[i] == t[i - 1] && r[j] == t[j - 1];
        } else {
          assert r[j] == t[j - 1];
        }
      }
    } else if s != [] {
      var r := [x] + s;
      forall i, j | 0 <= i < j < |r| ensures le(r[i], r[j]) {
        if i == 0 && j > 1 {
          assert le(s[0], s[j - 1]);
        }
      }
    }
  }

  /** Python's stable `sorted(s, key=...)`, with the key comparison given as le. */
  function SortBy<T(!new)>(s: seq<T>, le: (T, T) -> bool): (r: seq<T>)
    requires IsTotalPreorder(le)
    ensures SortedBy(r, le)
    ensures multiset(r) == multiset(s)
    ensures |r| == |s|
  {
    if s == [] then []
    else
      assert s == s[..|s| - 1] + [s[|s| - 1]];
      InsertBySorted(s[|s| - 1], SortBy(s[..|s| - 1], le), le);
      InsertBy(s[|s| - 1], SortBy(s[..|s| - 1], le), le)
  }

  /** The elements of s that tie with y under le, in their order in s. */
  function Ties<T>(s: seq<T>, y: T, le: (T, T) -> bool): seq<T>
  {
    if s == [] then []
    else (if le(s[0], y) && le(y, s[0]) then [s[0]] else []) + Ties(s[1..], y, le)
  }

  lemma {:induction false} TiesAppend<T>(a: seq<T>, b: seq<T>, y: T, le: (T, T) -> bool)
    ensures Ties(a + b, y, le) == Ties(a, y, le) + Ties(b, y, le)
  {
    if a == [] {
      assert a + b == b;
    } else {
      assert (a + b)[0] == a[0] && (a + b)[1..] == a[1..] + b;
      TiesAppend(a[1..], b, y, le);
    }
  }

  lemma {:induction false} NoTies<T>(s: seq<T>, y: T, le: (T, T) -> bool)
    requires forall i :: 0 <= i < |s| ==> !(le(s[i], y) && le(y, s[i]))
    ensures Ties(s, y, le) == []
  {
    if s != [] {
      NoTies(s[1..], y, le);
    }
  }

  /** Every element of t up to one that ties with y is not greater than x. */
  ghost predicate BelowTies<T>(x: T, t: seq<T>, y: T, le: (T, T) -> bool)
  {
    forall i, j :: 0 <= i <= j < |t| && le(t[j], y) && le(y, t[j]) ==> le(t[i], x)
  }

  /** InsertBy puts x after every element of a sorted sequence that ties with it. */
  lemma InsertByTies<T(!new)>(x: T, t: seq<T>, y: T, le: (T, T) -> bool)
    requires IsTotalPreorder(le) && SortedBy(t, le)
    ensures Ties(InsertBy(x, t, le), y, le) == Ties(t, y, le) + Ties([x], y, le)
  {
    if le(x, y) && le(y, x) {
      forall i, j | 0 <= i <= j < |t| && le(t[j], y) && le(y, t[j]) ensures le(t[i], x) {
        assert le(t[j], x);
        if i < j {
          assert le(t[i], t[j]);
        }
      }
    }
    InsertByTiesFrom(x, t, y, le);
  }

  lemma {:induction false} InsertByTiesFrom<T>(x: T, t: seq<T>, y: T, le: (T, T) -> bool)
    requires le(x, y) && le(y, x) ==> BelowTies(x, t, y, le)
    ensures Ties(InsertBy(x, t, le), y, le) == Ties(t, y, le) + Ties([x], y, le)
  {
    if t == [] {
      assert InsertBy(x, t, le) == [x] && Ties(t, y, le) == [];
    } else if le(t[0], x) {
      BelowTiesTail(x, t, y, le);
      InsertByTiesFrom(x, t[1..], y, le);
      PassTie(x, t, y, le);
    } else {
      InsertBefore(x, t, y, le);
    }
  }

  lemma BelowTiesTail<T>(x: T, t: seq<T>, y: T, le: (T, T) -> bool)
    requires t != [] && (le(x, y) && le(y, x) ==> BelowTies(x, t, y, le))
    ensures le(x, y) && le(y, x) ==> BelowTies(x, t[1..], y, le)
  {
    if le(x, y) && le(y, x) {
      forall i, j | 0 <= i <= j < |t[1..]| && le(t[1..][j], y) && le(y, t[1..][j])
        ensures le(t[1..][i], x)
      {
        assert t[1..][i] == t[i + 1] && t[1..][j] == t[j + 1];
      }
    }
  }

  lemma PassTie<T>(x: T, t: seq<T>, y: T, le: (T, T) -> bool)
    requires t != [] && le(t[0], x)
    requires Ties(InsertBy(x, t[1..], le), y, le) == Ties(t[1..], y, le) + Ties([x], y, le)
    ensures Ties(InsertBy(x, t, le), y, le) == Ties(t, y, le) + Ties([x], y, le)
  {
    var u := InsertBy(x, t[1..], le);
    assert InsertBy(x, t, le) == [t[0]] + u;
    TiesAppend([t[0]], u, y, le);
    TiesAppend([t[0]], t[1..], y, le);
    assert t == [t[0]] + t[1..];
  }

  lemma InsertBefore<T>(x: T, t: seq<T>, y: T, le: (T, T) -> bool)
    requires t != [] && !le(t[0], x)
    requires le(x, y) && le(y, x) ==> BelowTies(x, t, y, le)
    ensures Ties(InsertBy(x, t, le), y, le) == Ties(t, y, le) + Ties([x], y, le)
  {
    assert InsertBy(x, t, le) == [x] + t;
    TiesAppend([x], t, y, le);
    if le(x, y) && le(y, x) {
      NoTies(t, y, le);
    } else {
      assert Ties([x], y, le) == [];
    }
  }

  /** sorted is stable: the elements that tie with any y keep their order from s. */
  lemma {:induction false} SortByStable<T(!new)>(s: seq<T>, y: T, le: (T, T) -> bool)
    requires IsTotalPreorder(le)
    ensures Ties(SortBy(s, le), y, le) == Ties(s, y, le)
  {
    if s != [] {
      var init, last := s[..|s| - 1], s[|s| - 1];
      SortByStable(init, y, le);
      InsertByTies(last, SortBy(init, le), y, le);
      assert s == init + [last];
      TiesAppend(init, [last], y, le);
    }
  }

  /** The head of a sorted sequence is not greater than any of its elements. */
  lemma HeadIsLeast<T(!new)>(s: seq<T>, x: T, le: (T, T) -> bool)
    requires IsTotalPreorder(le)
    requires SortedBy(s, le)
    requires x in s
    ensures le(s[0], x)
  {
    var i :| 0 <= i < |s| && s[i] == x;
    if i == 0 {
      assert le(x, x) || le(x, x);
    }
  }

  /** The tail of a sorted sequence is sorted and holds all but its head. */
  lemma SortedTail<T>(a: seq<T>, le: (T, T) -> bool)
    requires SortedBy(a, le) && a != []
    ensures SortedBy(a[1..], le) && multiset(a[1..]) == multiset(a) - multiset{a[0]}
  {
    assert a == [a[0]] + a[1..];
  }

  /** Two sorted sequences with the same elements start with the same element when the
      order never ties distinct elements. */
  lemma SameHead<T(!new)>(a: seq<T>, b: seq<T>, le: (T, T) -> bool)
    requires IsTotalPreorder(le)
    requires forall x: T, y: T :: le(x, y) && le(y, x) ==> x == y
    requires SortedBy(a, le) && SortedBy(b, le)
    requires multiset(a) == multiset(b) && a != []
    ensures b != [] && a[0] == b[0]
  {
    assert |b| == |multiset(b)| == |a|;
    assert a[0] in multiset(b) && b[0] in multiset(a);
    HeadIsLeast(b, a[0], le);
    HeadIsLeast(a, b[0], le);
  }

  /** Two sequences sorted by an order that never ties distinct elements are equal
      once they hold the same elements: a heap drain and a sort agree. */
  lemma {:induction false} SortedUnique<T(!new)>(a: seq<T>, b: seq<T>, le: (T, T) -> bool)
    requires IsTotalPreorder(le)
    requires forall x: T, y: T :: le(x, y) && le(y, x) ==> x == y
    requires SortedBy(a, le) && SortedBy(b, le)
    requires multiset(a) == multiset(b)
    ensures a == b
    decreases |a|
  {
    if a != [] {
      SameHead(a, b, le);
      SortedTail(a, le);
      SortedTail(b, le);
      SortedUnique(a[1..], b[1..], le);
      assert a == [a[0]] + a[1..] && b == [b[0]] + b[1..];
    } else {
      assert |b| == |multiset(b)| == 0;
    }
  }
}
