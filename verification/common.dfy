/**
 * The list, interval, string and settings helpers of common.py: splitting a list into
 * bins or into runs of selected items, interval and time-window overlap, the
 * error-tolerance and log settings, centred banner strings, sorted tuples, and
 * stamping polygon vertices with their times.
 */
module Common {
  import opened Wrappers
  import opened Geom
  import Sorting

  // ---- splitList ----

  /** Items glued back together, bin after bin. */
  function Flatten<T>(ss: seq<seq<T>>): seq<T>
  {
    if ss == [] then [] else Flatten(ss[..|ss| - 1]) + ss[|ss| - 1]
  }

  lemma FlattenSnoc<T>(ss: seq<seq<T>>, s: seq<T>)
    ensures Flatten(ss + [s]) == Flatten(ss) + s
  {
    assert (ss + [s])[..|ss|] == ss;
  }

  /** A prefix one longer is the prefix and the next element. */
  lemma TakeOneMore<T>(s: seq<T>, i: nat)
    requires i < |s|
    ensures s[..i + 1] == s[..i] + [s[i]]
  {
  }

  /** How many of n items bin i gets: n / binNum, one more for the first n % binNum
      bins. */
  function BinSize(n: nat, binNum: nat, i: nat): nat
    requires binNum > 0
  {
    n / binNum + (if i < n % binNum then 1 else 0)
  }

  lemma MulMono(a: nat, b: nat, c: nat)
    requires a <= b
    ensures a * c <= b * c
  {
  }

  /** sizePerBin: binNum sizes of n / binNum, then one added to each of the first
      n - binNum * (n / binNum) of them. */
  method BinSizes(n: nat, binNum: nat) returns (sizes: seq<nat>)
    requires binNum > 0
    ensures |sizes| == binNum
    ensures forall j :: 0 <= j < binNum ==> sizes[j] == BinSize(n, binNum, j)
  {
    var perFloor := n / binNum;
    sizes := seq(binNum, _ => perFloor);
    var residual := n - perFloor * binNum;
    assert residual == n % binNum;
    for i := 0 to residual
      invariant |sizes| == binNum
      invariant forall j :: 0 <= j < binNum ==> sizes[j] == perFloor + (if j < i then 1 else 0)
    {
      sizes := sizes[i := sizes[i] + 1];
    }
  }

  /** bins[i].append(inputList[k]) for k in range(lo, hi). */
  method CopyRange<T>(input: seq<T>, lo: nat, hi: nat) returns (bin: seq<T>)
    requires lo <= hi <= |input|
    ensures bin == input[lo..hi]
  {
    bin := [];
    for k := lo to hi
      invariant bin == input[lo..k]
    {
      bin := bin + [input[k]];
    }
  }

  /** Where bin i starts: i * (n / binNum) plus the number of larger bins before it. */
  function BinStart(n: nat, binNum: nat, i: nat): nat
    requires binNum > 0
  {
    i * (n / binNum) + (if i < n % binNum then i else n % binNum)
  }

  /** Each bin starts where the one before it ends, and the last one ends at n. */
  lemma BinStartStep(n: nat, binNum: nat, i: nat)
    requires binNum > 0 && i < binNum
    ensures BinStart(n, binNum, i) + BinSize(n, binNum, i) == BinStart(n, binNum, i + 1)
    ensures BinStart(n, binNum, i + 1) <= n
    ensures BinStart(n, binNum, binNum) == n
  {
    var q, m := n / binNum, n % binNum;
    assert (i + 1) * q == i * q + q;
    MulMono(i + 1, binNum, q);
    assert binNum * q + m == n;
  }

  /** splitList with a positive bin count: binNum bins of consecutive items whose sizes
      differ by at most one, the larger ones first, together holding the whole list in
      order. */
  method SplitBins<T>(input: seq<T>, binNum: nat) returns (bins: seq<seq<T>>)
    requires binNum > 0
    ensures |bins| == binNum
    ensures forall i :: 0 <= i < binNum ==> |bins[i]| == BinSize(|input|, binNum, i)
    ensures Flatten(bins) == input
  {
    var sizes := BinSizes(|input|, binNum);
    bins := [];
    var acc := 0;
    for i := 0 to |sizes|
      invariant |bins| == i
      invariant acc == BinStart(|input|, binNum, i)
      invariant acc <= |input| && Flatten(bins) == input[..acc]
      invariant forall j :: 0 <= j < i ==> |bins[j]| == sizes[j]
    {
      BinStartStep(|input|, binNum, i);
      var bin := CopyRange(input, acc, acc + sizes[i]);
      FlattenSnoc(bins, bin);
      assert input[..acc] + input[acc..acc + sizes[i]] == input[..acc + sizes[i]];
      bins := bins + [bin];
      acc := acc + sizes[i];
    }
    BinStartStep(|input|, binNum, 0);
    assert input[..acc] == input;
  }

  /** splitList: the bins above for a positive count. binNum = 0 divides by zero; a
      negative count makes no bins, so the first residual item has no bin to go to. */
  method SplitList<T>(input: seq<T>, binNum: int) returns (r: Result<seq<seq<T>>>)
    ensures binNum == 0 ==> r == Err(ZeroDivisionError)
    ensures binNum < 0 ==> r == if input == [] then Ok([]) else Err(IndexError)
    ensures binNum > 0 ==> r.Ok? && |r.value| == binNum && Flatten(r.value) == input
    ensures binNum > 0 ==> forall i :: 0 <= i < binNum ==> |r.value[i]| == BinSize(|input|, binNum, i)
  {
    if binNum == 0 {
      return Err(ZeroDivisionError);
    } else if binNum < 0 {
      return if input == [] then Ok([]) else Err(IndexError);
    }
    var bins := SplitBins(input, binNum);
    return Ok(bins);
  }

  // ---- splitIntoSubSeq ----

  /** The selected items, in order. */
  function Selected<T>(input: seq<T>, flags: seq<bool>, n: nat): seq<T>
    requires |input| == |flags| && n <= |input|
  {
    if n == 0 then []
    else Selected(input, flags, n - 1) + (if flags[n - 1] then [input[n - 1]] else [])
  }


  /** Every flag in [lo, hi) is set. */
  predicate AllSet(flags: seq<bool>, lo: nat, hi: nat)
    requires lo <= hi <= |flags|
  {
    forall k :: lo <= k < hi ==> flags[k]
  }

  /** run is input[start..end]: a non-empty stretch of selected items that cannot be
      extended on either side. */
  ghost predicate IsRun<T>(input: seq<T>, flags: seq<bool>, run: seq<T>, start: nat, end: nat)
    requires |input| == |flags|
  {
    start < end <= |input| && run == input[start..end] && AllSet(flags, start, end) &&
    (start == 0 || !flags[start - 1]) &&
    (end == |input| || !flags[end])
  }

  /** runs[j] is the run input[starts[j]..ends[j]], and the runs come in order, apart. */
  ghost predicate MaximalRuns<T>(input: seq<T>, flags: seq<bool>, runs: seq<seq<T>>, starts: seq<nat>, ends: seq<nat>)
    requires |input| == |flags|
  {
    |starts| == |runs| && |ends| == |runs| &&
    (forall j {:trigger runs[j]} :: 0 <= j < |runs| ==> IsRun(input, flags, runs[j], starts[j], ends[j])) &&
    (forall j, k :: 0 <= j < k < |runs| ==> ends[j] < starts[k])
  }

  /** Closing the open run input[from..i] at an unselected item (or at the end) keeps
      the runs maximal. */
  lemma CloseRun<T>(input: seq<T>, flags: seq<bool>, runs: seq<seq<T>>, starts: seq<nat>, ends: seq<nat>,
                    from: nat, i: nat)
    requires |input| == |flags| && MaximalRuns(input, flags, runs, starts, ends)
    requires from < i <= |input| && AllSet(flags, from, i)
    requires from == 0 || !flags[from - 1]
    requires i == |input| || !flags[i]
    requires |runs| > 0 ==> ends[|runs| - 1] < from
    ensures MaximalRuns(input, flags, runs + [input[from..i]], starts + [from], ends + [i])
  {
    var runs', starts', ends' := runs + [input[from..i]], starts + [from], ends + [i];
    assert IsRun(input, flags, runs'[|runs|], starts'[|runs|], ends'[|runs|]);
    assert forall j :: 0 <= j < |runs| ==> runs'[j] == runs[j] && starts'[j] == starts[j] && ends'[j] == ends[j];
  }

  /** The state of the scan after the first i flags: the closed runs, all ending
      before i, and the open run sub = input[from..i] of selected items (empty, with
      from = i, when flag i - 1 was not set). */
  ghost predicate Scanned<T>(input: seq<T>, flags: seq<bool>, i: nat, split: seq<seq<T>>, sub: seq<T>,
                             starts: seq<nat>, ends: seq<nat>, from: nat)
  {
    |input| == |flags| && from <= i <= |input| && sub == input[from..i] && AllSet(flags, from, i) &&
    (from == 0 || !flags[from - 1]) &&
    (sub == [] ==> from == i) &&
    MaximalRuns(input, flags, split, starts, ends) &&
    (|split| > 0 ==> ends[|split| - 1] < from) &&
    Flatten(split) + sub == Selected(input, flags, i)
  }

  /** A selected item joins the open run. */
  lemma ScanSelected<T>(input: seq<T>, flags: seq<bool>, i: nat, split: seq<seq<T>>, sub: seq<T>,
                        starts: seq<nat>, ends: seq<nat>, from: nat)
    requires i < |input| && Scanned(input, flags, i, split, sub, starts, ends, from) && flags[i]
    ensures Scanned(input, flags, i + 1, split, sub + [input[i]], starts, ends, from)
  {
    assert sub + [input[i]] == input[from..i + 1];
    assert Flatten(split) + (sub + [input[i]]) == (Flatten(split) + sub) + [input[i]];
  }

  /** An unselected item closes the open run, if there is one. */
  lemma ScanUnselected<T>(input: seq<T>, flags: seq<bool>, i: nat, split: seq<seq<T>>, sub: seq<T>,
                          starts: seq<nat>, ends: seq<nat>, from: nat)
    requires i < |input| && Scanned(input, flags, i, split, sub, starts, ends, from) && !flags[i]
    ensures sub == [] ==> Scanned(input, flags, i + 1, split, [], starts, ends, i + 1)
    ensures sub != [] ==> Scanned(input, flags, i + 1, split + [sub], [], starts + [from], ends + [i], i + 1)
  {
    if sub != [] {
      FlattenSnoc(split, sub);
      CloseRun(input, flags, split, starts, ends, from, i);
    }
  }

  /** One round of the loop: a selected item joins the open run; an unselected one
      closes the open run, if any. */
  method ScanStep<T>(input: seq<T>, flags: seq<bool>, i: nat, split: seq<seq<T>>, sub: seq<T>,
                     ghost starts: seq<nat>, ghost ends: seq<nat>, ghost from: nat)
    returns (split': seq<seq<T>>, sub': seq<T>, ghost starts': seq<nat>, ghost ends': seq<nat>, ghost from': nat)
    requires i < |input| && Scanned(input, flags, i, split, sub, starts, ends, from)
    ensures Scanned(input, flags, i + 1, split', sub', starts', ends', from')
  {
    if flags[i] {
      ScanSelected(input, flags, i, split, sub, starts, ends, from);
      split', sub', starts', ends', from' := split, sub + [input[i]], starts, ends, from;
    } else {
      ScanUnselected(input, flags, i, split, sub, starts, ends, from);
      if |sub| > 0 {
        split', starts', ends' := split + [sub], starts + [from], ends + [i];
      } else {
        split', starts', ends' := split, starts, ends;
      }
      sub', from' := [], i + 1;
    }
  }

  /** The loop of splitIntoSubSeq over all the flags. */
  method ScanAll<T>(input: seq<T>, flags: seq<bool>)
    returns (split: seq<seq<T>>, sub: seq<T>, ghost starts: seq<nat>, ghost ends: seq<nat>, ghost from: nat)
    requires |input| == |flags|
    ensures Scanned(input, flags, |flags|, split, sub, starts, ends, from)
  {
    split, sub, starts, ends, from := [], [], [], [], 0;
    for i := 0 to |flags|
      invariant Scanned(input, flags, i, split, sub, starts, ends, from)
    {
      split, sub, starts, ends, from := ScanStep(input, flags, i, split, sub, starts, ends, from);
    }
  }

  /** splitIntoSubSeq: the maximal runs of consecutively selected items; a flag list of
      another length raises UnsupportedInputError. */
  method SplitIntoSubSeq<T>(input: seq<T>, flags: seq<bool>)
    returns (r: Result<seq<seq<T>>>, ghost starts: seq<nat>, ghost ends: seq<nat>)
    ensures r.Err? <==> |input| != |flags|
    ensures r.Err? ==> r.error.UnsupportedInputError?
    ensures r.Ok? ==> MaximalRuns(input, flags, r.value, starts, ends)
    ensures r.Ok? ==> Flatten(r.value) == Selected(input, flags, |input|)
  {
    if |input| != |flags| {
      return Err(UnsupportedInputError("ERROR: The length of `inputList` should be the same as the length of `selectFlag`")), [], [];
    }
    var split, sub;
    ghost var from;
    split, sub, starts, ends, from := ScanAll(input, flags);
    if |sub| > 0 {
      FlattenSnoc(split, sub);
      CloseRun(input, flags, split, starts, ends, from, |flags|);
      split, starts, ends := split + [sub], starts + [from], ends + [|flags|];
    }
    r := Ok(split);
  }

  // ---- is2IntervalOverlap / twOverlap ----

  function Min(a: real, b: real): real
  {
    if a <= b then a else b
  }

  function Max(a: real, b: real): real
  {
    if a >= b then a else b
  }

  /** is2IntervalOverlap: each interval is taken from its smaller to its larger end;
      they are apart iff one ends strictly before the other starts. */
  function Is2IntervalOverlap(interval1: (real, real), interval2: (real, real)): bool
  {
    var iA, iB := Min(interval1.0, interval1.1), Max(interval1.0, interval1.1);
    var jA, jB := Min(interval2.0, interval2.1), Max(interval2.0, interval2.1);
    if iB < jA then false
    else if jB < iA then false
    else true
  }

  /** x lies between the two ends of an interval, in either order. */
  predicate Between(x: real, interval: (real, real))
  {
    Min(interval.0, interval.1) <= x <= Max(interval.0, interval.1)
  }

  /** Two intervals overlap iff some point lies in both; the answer does not depend on
      the order of the intervals or of their ends. */
  lemma IntervalOverlapMeaning(interval1: (real, real), interval2: (real, real))
    ensures Is2IntervalOverlap(interval1, interval2) <==>
      exists x :: Between(x, interval1) && Between(x, interval2)
    ensures Is2IntervalOverlap(interval1, interval2) == Is2IntervalOverlap(interval2, interval1)
    ensures Is2IntervalOverlap(interval1, interval2) == Is2IntervalOverlap((interval1.1, interval1.0), interval2)
  {
    var x := Max(Min(interval1.0, interval1.1), Min(interval2.0, interval2.1));
    if Is2IntervalOverlap(interval1, interval2) {
      assert Between(x, interval1) && Between(x, interval2);
    }
  }

  /** twOverlap: a window whose start is after its end raises UnsupportedInputError;
      otherwise the windows are apart only when one lies strictly before the other
      and both have positive length. */
  function TwOverlap(tw1: (real, real), tw2: (real, real)): (r: Result<bool>)
    ensures r.Err? <==> tw1.0 > tw1.1 || tw2.0 > tw2.1
    ensures r.Err? ==> r.error.UnsupportedInputError?
  {
    if tw1.0 > tw1.1 || tw2.0 > tw2.1 then Err(UnsupportedInputError("ERROR: Time windows error."))
    else if tw1.0 < tw1.1 < tw2.0 < tw2.1 then Ok(false)
    else if tw2.0 < tw2.1 < tw1.0 < tw1.1 then Ok(false)
    else Ok(true)
  }

  /** A window of length zero is never reported apart from another: (2, 2) and (0, 1)
      share no time, yet twOverlap says they overlap. */
  lemma TwOverlapPointWindow()
    ensures TwOverlap((0.0, 1.0), (2.0, 2.0)) == Ok(true)
    ensures !Is2IntervalOverlap((0.0, 1.0), (2.0, 2.0))
  {
  }

  /** The overlap test as evidently intended: valid windows overlap iff they share a
      moment. */
  function TwOverlapIntended(tw1: (real, real), tw2: (real, real)): (r: Result<bool>)
    ensures r.Err? <==> tw1.0 > tw1.1 || tw2.0 > tw2.1
  {
    if tw1.0 > tw1.1 || tw2.0 > tw2.1 then Err(UnsupportedInputError("ERROR: Time windows error."))
    else Ok(!(tw1.1 < tw2.0 || tw2.1 < tw1.0))
  }

  /** On valid windows the intended test agrees with the interval overlap, and with
      twOverlap whenever both windows have positive length. */
  lemma TwOverlapIntendedAgrees(tw1: (real, real), tw2: (real, real))
    requires tw1.0 <= tw1.1 && tw2.0 <= tw2.1
    ensures TwOverlapIntended(tw1, tw2) == Ok(Is2IntervalOverlap(tw1, tw2))
    ensures tw1.0 < tw1.1 && tw2.0 < tw2.1 ==> TwOverlapIntended(tw1, tw2) == TwOverlap(tw1, tw2)
  {
  }

  // ---- configSetError / configSetLog ----

  /** A value of the DEBUG table: a flag or the log path. */
  datatype LogValue = Flag(on: bool) | Path(path: string)

  function DefaultErrTol(): map<string, real>
  {
    map["distPt2Pt" := 0.01, "distPt2Seg" := 0.05, "distPt2Poly" := 0.03, "deltaDist" := 0.01,
        "collinear" := 0.001, "slope2Slope" := 0.001, "vertical" := 0.001]
  }

  function DefaultDebug(): map<string, LogValue>
  {
    map["DEBUG_WRITE_LOG" := Flag(false), "DEBUG_PRINT_LOG" := Flag(true), "DEBUG_LOG_PATH" := Path("log.log")]
  }

  /** The module-level ERRTOL and DEBUG tables. */
  class Config {
    var errTol: map<string, real>
    var debug: map<string, LogValue>

    constructor ()
      ensures errTol == DefaultErrTol() && debug == DefaultDebug()
    {
      errTol := DefaultErrTol();
      debug := DefaultDebug();
    }

    /** configSetError: set a tolerance that already exists; an unknown name changes
        nothing (the source prints an error message, reported here as known = false). */
    method SetError(errorType: string, err: real) returns (known: bool)
      modifies this
      ensures known == (errorType in old(errTol))
      ensures errTol == if known then old(errTol)[errorType := err] else old(errTol)
      ensures errTol.Keys == old(errTol).Keys && debug == old(debug)
    {
      known := errorType in errTol;
      if known {
        errTol := errTol[errorType := err];
      }
    }

    /** configSetLog: the same for the DEBUG table. */
    method SetLog(param: string, value: LogValue) returns (known: bool)
      modifies this
      ensures known == (param in old(debug))
      ensures debug == if known then old(debug)[param := value] else old(debug)
      ensures debug.Keys == old(debug).Keys && errTol == old(errTol)
    {
      known := param in debug;
      if known {
        debug := debug[param := value];
      }
    }
  }

  // ---- hyphenStr ----

  /** n * sym in Python: n copies, none when n <= 0. */
  function Repeat(sym: string, n: int): (r: string)
    ensures |sym| == 1 ==> |r| == (if n > 0 then n else 0) && forall i :: 0 <= i < |r| ==> r[i] == sym[0]
    decreases if n > 0 then n else 0
  {
    if n <= 0 then [] else sym + Repeat(sym, n - 1)
  }

  /** hyphenStr: s centred between two runs of sym, with a space on each side. */
  function HyphenStr(s: string, length: int, sym: string): string
  {
    if s == "" then Repeat(sym, length)
    else if |s| + 2 < length then
      var left := (length - |s| - 2) / 2;
      var right := length - |s| - left - 2;
      Repeat(sym, left) + " " + s + " " + Repeat(sym, right)
    else s
  }

  /** With a one-character sym: an empty s gives a line of `length` syms; a short s is
      framed to exactly `length` characters, with s after the left run and a space,
      the right run as long as the left one or one longer; a long s comes back as it
      is. */
  lemma HyphenStrShape(s: string, length: int, sym: string)
    requires |sym| == 1
    ensures var r := HyphenStr(s, length, sym);
      (s == "" ==> |r| == (if length > 0 then length else 0) && forall i :: 0 <= i < |r| ==> r[i] == sym[0]) &&
      (s != "" && |s| + 2 < length ==>
        var left := (length - |s| - 2) / 2;
        var right := length - |s| - 2 - left;
        |r| == length && left <= right <= left + 1 &&
        r[..left] == Repeat(sym, left) && r[left] == ' ' && r[left + 1..left + 1 + |s|] == s &&
        r[left + 1 + |s|] == ' ' && r[left + 2 + |s|..] == Repeat(sym, right)) &&
      (s != "" && |s| + 2 >= length ==> r == s)
  {
    if s != "" && |s| + 2 < length {
      var left := (length - |s| - 2) / 2;
      var right := length - |s| - 2 - left;
      var a, b := Repeat(sym, left), Repeat(sym, right);
      var r := a + " " + s + " " + b;
      assert HyphenStr(s, length, sym) == r;
      assert r[..left] == a;
      assert r[left + 1..left + 1 + |s|] == s;
      assert r[left + 2 + |s|..] == b;
    }
  }

  // ---- list2Tuple ----

  /** list2Tuple: a sorted copy. */
  function List2Tuple(l: seq<real>): (t: seq<real>)
    ensures Sorting.SortedBy(t, (a: real, b: real) => a <= b)
    ensures multiset(t) == multiset(l)
  {
    var le := (a: real, b: real) => a <= b;
    assert Sorting.IsTotalPreorder(le);
    Sorting.SortBy(l, le)
  }

  /** Two lists with the same elements, counted with repetition, give the same tuple. */
  lemma List2TupleCanonical(l1: seq<real>, l2: seq<real>)
    requires multiset(l1) == multiset(l2)
    ensures List2Tuple(l1) == List2Tuple(l2)
  {
    var le := (a: real, b: real) => a <= b;
    var t1, t2 := List2Tuple(l1), List2Tuple(l2);
    forall a, b | le(a, b) && le(b, a) ensures a == b {
    }
    Sorting.SortedUnique(t1, t2, le);
  }

  // ---- timedPoly2Poly3D ----

  datatype Point3 = Point3(x: real, y: real, z: real)

  /** The vertices of every polygon in order, each carrying its polygon's time. */
  function Stamped(timedPoly: seq<(seq<Point>, real)>): seq<Point3>
  {
    if timedPoly == [] then []
    else
      var last := timedPoly[|timedPoly| - 1];
      Stamped(timedPoly[..|timedPoly| - 1]) + seq(|last.0|, i requires 0 <= i < |last.0| => Point3(last.0[i].x, last.0[i].y, last.1))
  }

  /** timedPoly2Poly3D: vertex after vertex, polygon after polygon. */
  method TimedPoly2Poly3D(timedPoly: seq<(seq<Point>, real)>) returns (poly3D: seq<Point3>)
    ensures poly3D == Stamped(timedPoly)
  {
    poly3D := [];
    for k := 0 to |timedPoly|
      invariant poly3D == Stamped(timedPoly[..k])
    {
      assert timedPoly[..k + 1][..k] == timedPoly[..k];
      var poly := timedPoly[k].0;
      ghost var before := poly3D;
      for j := 0 to |poly|
        invariant poly3D == before + seq(j, i requires 0 <= i < j => Point3(poly[i].x, poly[i].y, timedPoly[k].1))
      {
        poly3D := poly3D + [Point3(poly[j].x, poly[j].y, timedPoly[k].1)];
      }
    }
    assert timedPoly[..|timedPoly|] == timedPoly;
  }

  /** Every vertex of polygon k appears, at polygon k's time, and nothing else: the
      result has one point per vertex. */
  lemma {:induction false} StampedHolds(timedPoly: seq<(seq<Point>, real)>, k: nat, j: nat)
    requires k < |timedPoly| && j < |timedPoly[k].0|
    ensures Point3(timedPoly[k].0[j].x, timedPoly[k].0[j].y, timedPoly[k].1) in Stamped(timedPoly)
    decreases |timedPoly|
  {
    var n := |timedPoly|;
    var last := timedPoly[n - 1];
    var tail := seq(|last.0|, i requires 0 <= i < |last.0| => Point3(last.0[i].x, last.0[i].y, last.1));
    if k == n - 1 {
      assert tail[j] in tail;
    } else {
      assert timedPoly[..n - 1][k] == timedPoly[k];
      StampedHolds(timedPoly[..n - 1], k, j);
    }
  }

  // ---- defaultBoundingBox ----

  /** An arc record: its two-point arc field, or its start and end locations. */
  datatype ArcRecord = ArcRecord(arc: Option<(Point, Point)>, startLoc: Option<Point>, endLoc: Option<Point>)

  /** The points an arc contributes: the arc field if present, else start and end when both are. */
  function ArcPoints(a: ArcRecord): (ps: seq<Point>)
    ensures |ps| == 0 || |ps| == 2
    ensures a.arc.Some? ==> ps == [a.arc.value.0, a.arc.value.1]
    ensures a.arc.None? ==> (|ps| == 2 <==> a.startLoc.Some? && a.endLoc.Some?)
  {
    if a.arc.Some? then [a.arc.value.0, a.arc.value.1]
    else if a.startLoc.Some? && a.endLoc.Some? then [a.startLoc.value, a.endLoc.value]
    else []
  }

  /** The optional inputs of defaultBoundingBox; nodes map to their locations. */
  datatype BoxInputs = BoxInputs(
    xMin: Option<real>, xMax: Option<real>, yMin: Option<real>, yMax: Option<real>,
    pts: Option<seq<Point>>, nodes: Option<map<nat, Point>>, arcs: Option<map<nat, ArcRecord>>,
    poly: Option<seq<Point>>, polys: Option<seq<seq<Point>>>, polygons: Option<map<nat, seq<Point>>>)

  /** p is one of the points handed to defaultBoundingBox, in any of its forms. */
  ghost predicate Supplied(inp: BoxInputs, p: Point)
  {
    (inp.pts.Some? && p in inp.pts.value) ||
    (inp.nodes.Some? && p in inp.nodes.value.Values) ||
    (inp.arcs.Some? && exists a :: a in inp.arcs.value.Values && p in ArcPoints(a)) ||
    (inp.poly.Some? && p in inp.poly.value) ||
    (inp.polys.Some? && exists q :: q in inp.polys.value && p in q) ||
    (inp.polygons.Some? && exists q :: q in inp.polygons.value.Values && p in q)
  }

  /** v is a given x bound or the x of a supplied point. */
  ghost predicate SuppliedX(inp: BoxInputs, v: real)
  {
    (inp.xMin.Some? && v == inp.xMin.value) || (inp.xMax.Some? && v == inp.xMax.value) ||
    exists p :: Supplied(inp, p) && p.x == v
  }

  /** v is a given y bound or the y of a supplied point. */
  ghost predicate SuppliedY(inp: BoxInputs, v: real)
  {
    (inp.yMin.Some? && v == inp.yMin.value) || (inp.yMax.Some? && v == inp.yMax.value) ||
    exists p :: Supplied(inp, p) && p.y == v
  }

  /** The values of a dictionary, in the order a loop over its keys meets them. */
  method MapValues<V(==)>(m: map<nat, V>) returns (vs: seq<V>)
    ensures forall v :: v in vs <==> v in m.Values
  {
    vs := [];
    var rest := m.Keys;
    while rest != {}
      invariant rest <= m.Keys
      invariant forall v :: v in vs <==> exists k :: k in m.Keys - rest && m[k] == v
    {
      var k :| k in rest;
      vs := vs + [m[k]];
      rest := rest - {k};
    }
  }

  /** p lies in one of the groups. */
  ghost predicate InSome(p: Point, groups: seq<seq<Point>>)
  {
    exists j :: 0 <= j < |groups| && p in groups[j]
  }

  /** The points of each group, appended group after group. */
  method AppendGroups(found: seq<Point>, groups: seq<seq<Point>>) returns (found': seq<Point>)
    ensures forall p :: p in found' <==> p in found || InSome(p, groups)
  {
    found' := found;
    for i := 0 to |groups|
      invariant forall p :: p in found' <==> p in found || InSome(p, groups[..i])
    {
      found' := found' + groups[i];
      assert groups[..i + 1] == groups[..i] + [groups[i]];
    }
    assert groups[..|groups|] == groups;
  }

  /** Grouping the values of a dictionary of point lists loses and adds no point. */
  lemma GroupsOfValues(m: map<nat, seq<Point>>, vs: seq<seq<Point>>, p: Point)
    requires forall v :: v in vs <==> v in m.Values
    ensures InSome(p, vs) <==> exists q :: q in m.Values && p in q
  {
    if q :| q in m.Values && p in q {
      assert q in vs;
      var j :| 0 <= j < |vs| && vs[j] == q;
    }
  }

  /** The point groups of a list of arc records. */
  function ArcGroups(recs: seq<ArcRecord>): (groups: seq<seq<Point>>)
    ensures |groups| == |recs| && forall j :: 0 <= j < |recs| ==> groups[j] == ArcPoints(recs[j])
  {
    seq(|recs|, j requires 0 <= j < |recs| => ArcPoints(recs[j]))
  }

  lemma GroupsOfArcs(m: map<nat, ArcRecord>, recs: seq<ArcRecord>, p: Point)
    requires forall v :: v in recs <==> v in m.Values
    ensures InSome(p, ArcGroups(recs)) <==> exists a :: a in m.Values && p in ArcPoints(a)
  {
    if a :| a in m.Values && p in ArcPoints(a) {
      assert a in recs;
      var j :| 0 <= j < |recs| && recs[j] == a;
      assert p in ArcGroups(recs)[j];
    }
  }

  /** Every point handed to defaultBoundingBox, in the order its loops append them. */
  method CollectPoints(inp: BoxInputs) returns (found: seq<Point>)
    ensures forall p :: p in found <==> Supplied(inp, p)
  {
    found := [];
    if inp.pts.Some? {
      found := found + inp.pts.value;
    }
    if inp.nodes.Some? {
      var locs := MapValues(inp.nodes.value);
      found := found + locs;
    }
    if inp.arcs.Some? {
      var recs := MapValues(inp.arcs.value);
      found := AppendGroups(found, ArcGroups(recs));
      forall p { GroupsOfArcs(inp.arcs.value, recs, p); }
    }
    if inp.poly.Some? {
      found := found + inp.poly.value;
    }
    if inp.polys.Some? {
      found := AppendGroups(found, inp.polys.value);
    }
    if inp.polygons.Some? {
      var shapes := MapValues(inp.polygons.value);
      found := AppendGroups(found, shapes);
      forall p { GroupsOfValues(inp.polygons.value, shapes, p); }
    }
  }

  /** The given bounds among lo and hi, in that order. */
  function Given(lo: Option<real>, hi: Option<real>): (vs: seq<real>)
    ensures forall v :: v in vs <==> (lo.Some? && v == lo.value) || (hi.Some? && v == hi.value)
  {
    (if lo.Some? then [lo.value] else []) + (if hi.Some? then [hi.value] else [])
  }

  /** Python's min over a non-empty list. */
  method SeqMin(s: seq<real>) returns (lo: real)
    requires |s| > 0
    ensures lo in s && forall v :: v in s ==> lo <= v
  {
    lo := s[0];
    for i := 1 to |s|
      invariant lo in s[..i] && forall j :: 0 <= j < i ==> lo <= s[j]
    {
      if s[i] < lo {
        lo := s[i];
      }
    }
  }

  /** Python's max over a non-empty list. */
  method SeqMax(s: seq<real>) returns (hi: real)
    requires |s| > 0
    ensures hi in s && forall v :: v in s ==> v <= hi
  {
    hi := s[0];
    for i := 1 to |s|
      invariant hi in s[..i] && forall j :: 0 <= j < i ==> s[j] <= hi
    {
      if s[i] > hi {
        hi := s[i];
      }
    }
  }

  function Abs(v: real): (a: real)
    ensures a >= 0.0 && (a == v || a == -v)
  {
    if v < 0.0 then -v else v
  }

  /** The range [lo, hi] widened on both sides by edgeWidth times its length. */
  function Widen(lo: real, hi: real, edgeWidth: real): (real, real)
  {
    (lo - edgeWidth * Abs(hi - lo), hi + edgeWidth * Abs(hi - lo))
  }

  /** With a non-negative edgeWidth the widened range holds the original one. */
  lemma WidenEncloses(lo: real, hi: real, edgeWidth: real)
    requires lo <= hi && edgeWidth >= 0.0
    ensures Widen(lo, hi, edgeWidth).0 <= lo && hi <= Widen(lo, hi, edgeWidth).1
  {
  }

  /** A box (xMin, xMax, yMin, yMax) with its x and y ranges exchanged when latLonFlag is set. */
  function Oriented(box: (real, real, real, real), latLonFlag: bool): (real, real, real, real)
  {
    if latLonFlag then (box.2, box.3, box.0, box.1) else box
  }

  ghost predicate HasX(inp: BoxInputs)
  {
    exists v :: SuppliedX(inp, v)
  }

  ghost predicate HasY(inp: BoxInputs)
  {
    exists v :: SuppliedY(inp, v)
  }

  /** The x or y values of the supplied points, together with the given bounds. */
  lemma CoordsOf(inp: BoxInputs, found: seq<Point>, allX: seq<real>, allY: seq<real>)
    requires forall p :: p in found <==> Supplied(inp, p)
    requires allX == Given(inp.xMin, inp.xMax) + seq(|found|, i requires 0 <= i < |found| => found[i].x)
    requires allY == Given(inp.yMin, inp.yMax) + seq(|found|, i requires 0 <= i < |found| => found[i].y)
    ensures forall v :: v in allX <==> SuppliedX(inp, v)
    ensures forall v :: v in allY <==> SuppliedY(inp, v)
  {
    var g := Given(inp.xMin, inp.xMax);
    forall v | SuppliedX(inp, v) ensures v in allX {
      if p :| Supplied(inp, p) && p.x == v {
        var i :| 0 <= i < |found| && found[i] == p;
        assert allX[|g| + i] == v;
      }
    }
    forall v | v in allX ensures SuppliedX(inp, v) {
      var k :| 0 <= k < |allX| && allX[k] == v;
      if k >= |g| {
        assert Supplied(inp, found[k - |g|]);
      }
    }
    var h := Given(inp.yMin, inp.yMax);
    forall v | SuppliedY(inp, v) ensures v in allY {
      if p :| Supplied(inp, p) && p.y == v {
        var i :| 0 <= i < |found| && found[i] == p;
        assert allY[|h| + i] == v;
      }
    }
    forall v | v in allY ensures SuppliedY(inp, v) {
      var k :| 0 <= k < |allY| && allY[k] == v;
      if k >= |h| {
        assert Supplied(inp, found[k - |h|]);
      }
    }
  }

  /** defaultBoundingBox: the extent of every bound and point supplied, widened by edgeWidth
      times its span on each side; x and y are exchanged for latitude/longitude plots. With
      no x value or no y value at all, Python's min raises ValueError. */
  method DefaultBoundingBox(inp: BoxInputs, edgeWidth: real, latLonFlag: bool)
    returns (r: Result<(real, real, real, real)>, ghost xLo: real, ghost xHi: real, ghost yLo: real, ghost yHi: real)
    ensures r.Err? <==> !HasX(inp) || !HasY(inp)
    ensures r.Err? ==> r.error.ValueError?
    ensures r.Ok? ==> SuppliedX(inp, xLo) && SuppliedX(inp, xHi) && (forall v :: SuppliedX(inp, v) ==> xLo <= v <= xHi)
    ensures r.Ok? ==> SuppliedY(inp, yLo) && SuppliedY(inp, yHi) && (forall v :: SuppliedY(inp, v) ==> yLo <= v <= yHi)
    ensures r.Ok? ==> (Oriented(r.value, latLonFlag) ==
      (Widen(xLo, xHi, edgeWidth).0, Widen(xLo, xHi, edgeWidth).1, Widen(yLo, yHi, edgeWidth).0, Widen(yLo, yHi, edgeWidth).1))
    ensures r.Ok? && edgeWidth >= 0.0 ==> (
      var b := Oriented(r.value, latLonFlag);
      b.0 <= b.1 && b.2 <= b.3 &&
      (forall v :: SuppliedX(inp, v) ==> b.0 <= v <= b.1) &&
      (forall v :: SuppliedY(inp, v) ==> b.2 <= v <= b.3))
  {
    xLo, xHi, yLo, yHi := 0.0, 0.0, 0.0, 0.0;
    var found := CollectPoints(inp);
    var allX := Given(inp.xMin, inp.xMax) + seq(|found|, i requires 0 <= i < |found| => found[i].x);
    var allY := Given(inp.yMin, inp.yMax) + seq(|found|, i requires 0 <= i < |found| => found[i].y);
    CoordsOf(inp, found, allX, allY);
    if |allX| == 0 || |allY| == 0 {
      if |allX| == 0 {
        assert !HasX(inp);
      } else {
        assert !HasY(inp);
      }
      return Err(ValueError("min() arg is an empty sequence")), xLo, xHi, yLo, yHi;
    }
    assert SuppliedX(inp, allX[0]) && SuppliedY(inp, allY[0]);
    var minX := SeqMin(allX);
    var maxX := SeqMax(allX);
    var minY := SeqMin(allY);
    var maxY := SeqMax(allY);
    xLo, xHi, yLo, yHi := minX, maxX, minY, maxY;
    var wx, wy := Widen(minX, maxX, edgeWidth), Widen(minY, maxY, edgeWidth);
    if edgeWidth >= 0.0 {
      WidenEncloses(minX, maxX, edgeWidth);
      WidenEncloses(minY, maxY, edgeWidth);
    }
    r := Ok(Oriented((wx.0, wx.1, wy.0, wy.1), latLonFlag));
  }

  // ---- defaultFigSize ----

  /** The ratio a / b of Python float division, which raises ZeroDivisionError on b == 0. */
  function Ratio(a: real, b: real): (r: Result<real>)
    ensures r.Err? <==> b == 0.0
    ensures r.Err? ==> r.error.ZeroDivisionError?
    ensures r.Ok? ==> r.value * b == a
  {
    if b == 0.0 then Err(ZeroDivisionError) else Ok(a / b)
  }

  /** defaultFigSize for planar plots: a missing width or height follows the bounding box's
      aspect ratio, and with neither given the longer side gets 5. */
  function DefaultFigSize(box: (real, real, real, real), width: Option<real>, height: Option<real>): (r: Result<(real, real)>)
    ensures r.Err? ==> r.error.ZeroDivisionError?
    ensures r.Ok? && width.Some? ==> r.value.0 == width.value
    ensures r.Ok? && height.Some? ==> r.value.1 == height.value
    ensures r.Ok? && width.None? && height.None? ==>
      (if box.1 - box.0 > box.3 - box.2 then r.value.0 == 5.0 else r.value.1 == 5.0)
    ensures r.Ok? && (width.None? || height.None?) ==>
      r.value.0 * (box.3 - box.2) == r.value.1 * (box.1 - box.0)
  {
    var xSpan, ySpan := box.1 - box.0, box.3 - box.2;
    if width.None? && height.None? then
      if xSpan > ySpan then
        match Ratio(ySpan, xSpan)
        case Err(e) => Err(e)
        case Ok(q) => Ok((5.0, 5.0 * q))
      else
        match Ratio(xSpan, ySpan)
        case Err(e) => Err(e)
        case Ok(q) => Ok((5.0 * q, 5.0))
    else if width.Some? && height.None? then
      match Ratio(ySpan, xSpan)
      case Err(e) => Err(e)
      case Ok(q) => Ok((width.value, width.value * q))
    else if width.None? && height.Some? then
      match Ratio(xSpan, ySpan)
      case Err(e) => Err(e)
      case Ok(q) => Ok((height.value * q, height.value))
    else
      Ok((width.value, height.value))
  }

  /** For a box with positive spans and no size given, the figure fits in 5 x 5, its longer
      side is 5, and it keeps the box's proportions. */
  lemma FigSizeFits(box: (real, real, real, real))
    requires box.1 - box.0 > 0.0 && box.3 - box.2 > 0.0
    ensures DefaultFigSize(box, None, None).Ok?
    ensures var (w, h) := DefaultFigSize(box, None, None).value;
      0.0 < w <= 5.0 && 0.0 < h <= 5.0 && (w == 5.0 || h == 5.0) &&
      w * (box.3 - box.2) == h * (box.1 - box.0)
  {
    var xSpan, ySpan := box.1 - box.0, box.3 - box.2;
    if xSpan > ySpan {
      FractionBounds(ySpan, xSpan);
    } else {
      FractionBounds(xSpan, ySpan);
    }
  }

  lemma FractionBounds(a: real, b: real)
    requires 0.0 < a <= b
    ensures 0.0 < a / b <= 1.0
  {
  }

}
