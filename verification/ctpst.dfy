/**
 * geoVeRoPy/ctpst.py, solveCTPST without its solver: the bookkeeping that feeds the
 * second-order cone formulation and reads its solution back.
 *
 * A visit sequence lists node ids; a node that is entered and left again appears
 * twice. Every node i has two point variables, index i for its first occurrence in the
 * sequence and index i + len(nodes) for a repeat occurrence. The solver itself (the
 * Gurobi model, its bounds and its status) is not modelled: its solution enters as the
 * map `sol` from variable index to point, and its status as `SolveStatus`.
 */
module Ctpst {
  import opened Wrappers
  import opened Geom

  // ---- insideSet ----

  /** The visits right of position k that repeat node vs[left], in order, as copies of
      vs[left]: the inner `right` loop for one `left`. */
  function RightMatches(vs: seq<int>, left: nat, lo: nat, hi: nat): (r: seq<int>)
    requires left < |vs| && hi <= |vs|
    ensures forall x :: x in r ==> x == vs[left]
    decreases hi
  {
    if hi <= lo then [] else RightMatches(vs, left, lo, hi - 1) + (if vs[hi - 1] == vs[left] then [vs[left]] else [])
  }

  /** insideSet[k] after the first `lefts` iterations of the `left` loop. */
  function InsideUpTo(vs: seq<int>, k: nat, lefts: nat): seq<int>
    requires lefts <= k < |vs|
  {
    if lefts == 0 then [] else InsideUpTo(vs, k, lefts - 1) + RightMatches(vs, lefts - 1, k + 1, |vs|)
  }

  /** insideSet[k]: the nodes whose two visits enclose position k, one copy per
      enclosing pair of positions. */
  function InsideAt(vs: seq<int>, k: nat): seq<int>
    requires k < |vs|
  {
    InsideUpTo(vs, k, k)
  }

  lemma {:induction false} RightMatchesMeaning(vs: seq<int>, left: nat, lo: nat, hi: nat, x: int)
    requires left < |vs| && lo <= hi <= |vs|
    ensures x in RightMatches(vs, left, lo, hi) <==> x == vs[left] && x in vs[lo..hi]
    decreases hi
  {
    if hi > lo {
      RightMatchesMeaning(vs, left, lo, hi - 1, x);
      assert vs[lo..hi] == vs[lo..hi - 1] + [vs[hi - 1]];
    }
  }

  lemma {:induction false} InsideUpToMeaning(vs: seq<int>, k: nat, lefts: nat, x: int)
    requires lefts <= k < |vs|
    ensures x in InsideUpTo(vs, k, lefts) <==> x in vs[..lefts] && x in vs[k + 1..]
  {
    if lefts > 0 {
      var earlier, here := InsideUpTo(vs, k, lefts - 1), RightMatches(vs, lefts - 1, k + 1, |vs|);
      assert InsideUpTo(vs, k, lefts) == earlier + here;
      InsideUpToMeaning(vs, k, lefts - 1, x);
      RightMatchesMeaning(vs, lefts - 1, k + 1, |vs|, x);
      assert vs[k + 1..|vs|] == vs[k + 1..];
      assert x in vs[..lefts] <==> x in vs[..lefts - 1] || x == vs[lefts - 1] by {
        assert vs[..lefts] == vs[..lefts - 1] + [vs[lefts - 1]];
      }
    }
  }

  /** A node is in insideSet[k] exactly when one of its visits is before position k and
      another after it. */
  lemma InsideAtMeaning(vs: seq<int>, k: nat, x: int)
    requires k < |vs|
    ensures x in InsideAt(vs, k) <==> x in vs[..k] && x in vs[k + 1..]
  {
    InsideUpToMeaning(vs, k, k, x);
  }

  /** The `right` loop for one `left`. */
  method MatchRight(vs: seq<int>, k: nat, left: nat) returns (found: seq<int>)
    requires left < k < |vs|
    ensures found == RightMatches(vs, left, k + 1, |vs|)
  {
    found := [];
    for right := k + 1 to |vs|
      invariant found == RightMatches(vs, left, k + 1, right)
    {
      if vs[left] == vs[right] {
        found := found + [vs[left]];
      }
    }
  }

  /** One entry of insideSet. */
  method InsideOf(vs: seq<int>, k: nat) returns (inside: seq<int>)
    requires k < |vs|
    ensures inside == InsideAt(vs, k)
  {
    inside := [];
    for left := 0 to k
      invariant inside == InsideUpTo(vs, k, left)
    {
      var found := MatchRight(vs, k, left);
      inside := inside + found;
    }
  }

  /** insideSet: an empty entry first, insideSet[k] for every interior position, an
      empty entry last; so one entry per position when there are at least two visits,
      and two entries otherwise. */
  method InsideSet(vs: seq<int>) returns (insideSet: seq<seq<int>>)
    ensures |insideSet| == if |vs| >= 2 then |vs| else 2
    ensures insideSet[0] == [] && insideSet[|insideSet| - 1] == []
    ensures forall k :: 0 < k < |insideSet| - 1 ==> insideSet[k] == InsideAt(vs, k)
  {
    insideSet := [[]];
    var k := 1;
    while k < |vs| - 1
      invariant 1 <= k && |insideSet| == k && (|vs| >= 2 ==> k <= |vs| - 1) && (|vs| < 2 ==> k == 1)
      invariant insideSet[0] == []
      invariant forall j :: 0 < j < k ==> insideSet[j] == InsideAt(vs, j)
    {
      var inside := InsideOf(vs, k);
      insideSet := insideSet + [inside];
      k := k + 1;
    }
    insideSet := insideSet + [[]];
  }

  lemma {:induction false} InsideUpToLast(vs: seq<int>, lefts: nat)
    requires |vs| >= 1 && lefts <= |vs| - 1
    ensures InsideUpTo(vs, |vs| - 1, lefts) == []
  {
    if lefts > 0 {
      InsideUpToLast(vs, lefts - 1);
    }
  }

  /** The first and last entries are empty even when a node's visits enclose those
      positions: no visit is before the first position or after the last. */
  lemma InsideAtEnds(vs: seq<int>)
    requires |vs| >= 1
    ensures InsideAt(vs, 0) == [] && InsideAt(vs, |vs| - 1) == []
  {
    InsideUpToLast(vs, |vs| - 1);
  }

  // ---- First and repeat occurrences ----

  /** Whether visit k repeats an earlier visit: the `for j in range(k)` flag loops. */
  method SeenBefore(vs: seq<int>, k: nat) returns (flag: bool)
    requires k < |vs|
    ensures flag <==> vs[k] in vs[..k]
  {
    flag := false;
    var j := 0;
    while j < k
      invariant 0 <= j <= k
      invariant !flag && vs[k] !in vs[..j]
    {
      if vs[k] == vs[j] {
        assert vs[j] in vs[..k];
        return true;
      }
      assert vs[..j + 1] == vs[..j] + [vs[j]];
      j := j + 1;
    }
    assert vs[..j] == vs[..k];
  }

  /** The point variable of visit k: the node's own index on its first occurrence and
      the index shifted by the number of nodes on a repeat. */
  function VarIndex(vs: seq<int>, nodeCount: int, k: nat): int
    requires k < |vs|
  {
    if vs[k] in vs[..k] then vs[k] + nodeCount else vs[k]
  }

  /** The first visit of a node uses its own variable, a later one the shifted
      variable, and the two are different whenever there is at least one node. */
  lemma VarIndexOccurrences(vs: seq<int>, nodeCount: int, j: nat, k: nat)
    requires j < k < |vs| && vs[j] == vs[k] && vs[j] !in vs[..j] && nodeCount > 0
    ensures VarIndex(vs, nodeCount, j) == vs[j] && VarIndex(vs, nodeCount, k) == vs[k] + nodeCount
    ensures VarIndex(vs, nodeCount, j) != VarIndex(vs, nodeCount, k)
  {
    assert vs[k] == vs[..k][j];
  }

  datatype Var = StartPt | EndPt | X(index: int)

  /** The two ends of leg k of the tour, as the dx/dy constraints write them: the start
      point to visit 0, visit k-1 to visit k, and the shifted variable of the last
      visit to the end point. */
  function LegAt(vs: seq<int>, nodeCount: int, k: nat): (Var, Var)
    requires 1 <= |vs| && k <= |vs|
  {
    if k == 0 then (StartPt, X(vs[0]))
    else if k == |vs| then (X(vs[|vs| - 1] + nodeCount), EndPt)
    else (X(VarIndex(vs, nodeCount, k - 1)), X(VarIndex(vs, nodeCount, k)))
  }

  /** The dx/dy constraints: one leg per gap, each picking between the own and the
      shifted variable of its two visits by the two repeat flags. */
  method BuildLegs(vs: seq<int>, nodeCount: int) returns (r: Result<seq<(Var, Var)>>)
    ensures r.Err? <==> vs == []
    ensures r.Err? ==> r.error == IndexError
    ensures r.Ok? ==> |r.value| == |vs| + 1 && forall k :: 0 <= k <= |vs| ==> r.value[k] == LegAt(vs, nodeCount, k)
  {
    if vs == [] {
      // x[visitSeq[0]] of the first leg
      return Err(IndexError);
    }
    var legs := [(StartPt, X(vs[0]))];
    for k := 1 to |vs|
      invariant |legs| == k && forall j :: 0 <= j < k ==> legs[j] == LegAt(vs, nodeCount, j)
    {
      var isFirstPrime := SeenBefore(vs, k);
      var isSecondPrime := SeenBefore(vs, k - 1);
      var leg;
      if !isFirstPrime && !isSecondPrime {
        leg := (X(vs[k - 1]), X(vs[k]));
      } else if isFirstPrime && !isSecondPrime {
        leg := (X(vs[k - 1]), X(vs[k] + nodeCount));
      } else if !isFirstPrime && isSecondPrime {
        leg := (X(vs[k - 1] + nodeCount), X(vs[k]));
      } else {
        leg := (X(vs[k - 1] + nodeCount), X(vs[k] + nodeCount));
      }
      legs := legs + [leg];
    }
    legs := legs + [(X(vs[|vs| - 1] + nodeCount), EndPt)];
    r := Ok(legs);
  }

  /** Every node is visited exactly twice, as the formulation expects. */
  ghost predicate VisitedTwice(vs: seq<int>)
  {
    forall k :: 0 <= k < |vs| ==> multiset(vs)[vs[k]] == 2
  }

  /** When every node is visited twice the legs chain up through the visits: the leg
      into visit k and the leg out of it both use visit k's variable, the one its centre
      constraint places and the path reads back (the last visit being a repeat, the
      unconditionally shifted variable of the final leg is that variable). */
  lemma LegsChain(vs: seq<int>, nodeCount: int)
    requires |vs| >= 1 && VisitedTwice(vs)
    ensures forall k :: 0 <= k < |vs| ==>
      LegAt(vs, nodeCount, k).1 == X(VarIndex(vs, nodeCount, k)) && LegAt(vs, nodeCount, k + 1).0 == X(VarIndex(vs, nodeCount, k))
  {
    var last := |vs| - 1;
    assert vs == vs[..last] + [vs[last]];
    assert multiset(vs)[vs[last]] == multiset(vs[..last])[vs[last]] + 1;
    assert vs[last] in vs[..last];
    assert !(vs[0] in vs[..0]);
  }

  /** The centre constraints: visit k's variable and the node it must lie within. */
  method CentreVars(vs: seq<int>, nodeCount: int) returns (pairs: seq<(int, int)>)
    ensures |pairs| == |vs| && forall k :: 0 <= k < |vs| ==> pairs[k] == (VarIndex(vs, nodeCount, k), vs[k])
  {
    pairs := [];
    for k := 0 to |vs|
      invariant |pairs| == k && forall j :: 0 <= j < k ==> pairs[j] == (VarIndex(vs, nodeCount, j), vs[j])
    {
      var isPrime := SeenBefore(vs, k);
      if !isPrime {
        pairs := pairs + [(vs[k], vs[k])];
      } else {
        pairs := pairs + [(vs[k] + nodeCount, vs[k])];
      }
    }
  }

  /** The overlap constraints of the first `upto` visits: visit k's variable paired
      with every node of insideSet[k], whose disk it must also lie in. */
  function Overlaps(vs: seq<int>, nodeCount: int, insideSet: seq<seq<int>>, upto: nat): seq<(int, int)>
    requires upto <= |vs| <= |insideSet|
  {
    if upto == 0 then []
    else
      var k := upto - 1;
      Overlaps(vs, nodeCount, insideSet, k) + seq(|insideSet[k]|, j requires 0 <= j < |insideSet[k]| => (VarIndex(vs, nodeCount, k), insideSet[k][j]))
  }

  lemma {:induction false} OverlapsMeaning(vs: seq<int>, nodeCount: int, insideSet: seq<seq<int>>, upto: nat, v: int, y: int)
    requires upto <= |vs| <= |insideSet|
    ensures (v, y) in Overlaps(vs, nodeCount, insideSet, upto) <==>
      exists k :: 0 <= k < upto && v == VarIndex(vs, nodeCount, k) && y in insideSet[k]
  {
    if upto > 0 {
      var k := upto - 1;
      var row := seq(|insideSet[k]|, j requires 0 <= j < |insideSet[k]| => (VarIndex(vs, nodeCount, k), insideSet[k][j]));
      OverlapsMeaning(vs, nodeCount, insideSet, k, v, y);
      assert Overlaps(vs, nodeCount, insideSet, upto) == Overlaps(vs, nodeCount, insideSet, k) + row;
      if v == VarIndex(vs, nodeCount, k) && y in insideSet[k] {
        var j :| 0 <= j < |insideSet[k]| && insideSet[k][j] == y;
        assert row[j] == (v, y);
      }
    }
  }

  /** The overlap constraints for insideSet as built: visit k's variable is paired with
      node y exactly when y is visited both before and after position k. */
  lemma OverlapsOfInsideSet(vs: seq<int>, nodeCount: int, insideSet: seq<seq<int>>, v: int, y: int)
    requires |vs| >= 2 && |insideSet| == |vs| && insideSet[0] == [] && insideSet[|vs| - 1] == []
    requires forall k :: 0 < k < |vs| - 1 ==> insideSet[k] == InsideAt(vs, k)
    ensures (v, y) in Overlaps(vs, nodeCount, insideSet, |vs|) <==>
      exists k :: 0 <= k < |vs| && v == VarIndex(vs, nodeCount, k) && y in vs[..k] && y in vs[k + 1..]
  {
    OverlapsMeaning(vs, nodeCount, insideSet, |vs|, v, y);
    forall k | 0 <= k < |vs|
      ensures y in insideSet[k] <==> y in vs[..k] && y in vs[k + 1..]
    {
      if k == 0 {
        assert vs[..0] == [];
      } else if k == |vs| - 1 {
        assert vs[k + 1..] == [];
      } else {
        InsideAtMeaning(vs, k, y);
      }
    }
  }

  /** The overlap loop: for every visit and every node of its insideSet entry, the
      visit's variable (picked by the repeat flag) and that node. */
  method OverlapVars(vs: seq<int>, nodeCount: int, insideSet: seq<seq<int>>) returns (pairs: seq<(int, int)>)
    requires |vs| <= |insideSet|
    ensures pairs == Overlaps(vs, nodeCount, insideSet, |vs|)
  {
    pairs := [];
    for k := 0 to |vs|
      invariant pairs == Overlaps(vs, nodeCount, insideSet, k)
    {
      var row: seq<(int, int)> := [];
      for j := 0 to |insideSet[k]|
        invariant |row| == j && forall i :: 0 <= i < j ==> row[i] == (VarIndex(vs, nodeCount, k), insideSet[k][i])
      {
        var isKPrime := SeenBefore(vs, k);
        if !isKPrime {
          row := row + [(vs[k], insideSet[k][j])];
        } else {
          row := row + [(vs[k] + nodeCount, insideSet[k][j])];
        }
      }
      pairs := pairs + row;
    }
  }

  // ---- Reading the solution back ----

  datatype SolveStatus = Optimal | TimeLimit | Other

  datatype CtpstResult = CtpstResult(
    path: seq<Point>, time: Option<real>, dist: Option<real>, trueDistBtw: seq<real>, nodePts: map<int, Point>)

  /** Visit k's point in the solution. */
  function VisitPt(vs: seq<int>, nodeCount: int, sol: map<int, Point>, k: nat): Point
    requires k < |vs| && VarIndex(vs, nodeCount, k) in sol
  {
    sol[VarIndex(vs, nodeCount, k)]
  }

  function Sum(xs: seq<real>): real
  {
    if xs == [] then 0.0 else Sum(xs[..|xs| - 1]) + xs[|xs| - 1]
  }

  /** Every visit's variable has a value in the solution. */
  ghost predicate Covers(vs: seq<int>, nodeCount: int, sol: map<int, Point>)
  {
    forall k :: 0 <= k < |vs| ==> VarIndex(vs, nodeCount, k) in sol
  }

  /** The path loop: the start point, one point per visit, the end point. */
  method VisitPath(startPt: Point, endPt: Point, vs: seq<int>, nodeCount: int, sol: map<int, Point>) returns (path: seq<Point>)
    requires Covers(vs, nodeCount, sol)
    ensures |path| == |vs| + 2 && path[0] == startPt && path[|vs| + 1] == endPt
    ensures forall k :: 0 <= k < |vs| ==> path[k + 1] == VisitPt(vs, nodeCount, sol, k)
  {
    path := [startPt];
    for k := 0 to |vs|
      invariant |path| == k + 1 && path[0] == startPt
      invariant forall j :: 0 <= j < k ==> path[j + 1] == VisitPt(vs, nodeCount, sol, j)
    {
      var isPrime := SeenBefore(vs, k);
      assert VarIndex(vs, nodeCount, k) in sol;
      if !isPrime {
        path := path + [sol[vs[k]]];
      } else {
        path := path + [sol[vs[k] + nodeCount]];
      }
    }
    path := path + [endPt];
  }

  /** The distance loop: the length of every leg of the path and their total. */
  method PathDistances(path: seq<Point>, dist: DistFn) returns (total: real, legs: seq<real>)
    ensures |legs| == if |path| == 0 then 0 else |path| - 1
    ensures forall i :: 0 <= i < |legs| ==> legs[i] == dist(path[i], path[i + 1])
    ensures total == PathLength(dist, path) && total == Sum(legs)
  {
    total, legs := 0.0, [];
    if |path| == 0 {
      return;
    }
    for i := 0 to |path| - 1
      invariant |legs| == i && total == PathLength(dist, path[..i + 1]) && total == Sum(legs)
      invariant forall j :: 0 <= j < i ==> legs[j] == dist(path[j], path[j + 1])
    {
      var d := dist(path[i], path[i + 1]);
      assert path[..i + 2][..i + 1] == path[..i + 1];
      assert (legs + [d])[..i] == legs;
      total := total + d;
      legs := legs + [d];
    }
    assert path[..|path|] == path;
  }

  /** The solution's points for every node: its own and its shifted variable. */
  method NodePts(nodeIds: seq<int>, nodeCount: int, sol: map<int, Point>) returns (nodePts: map<int, Point>)
    requires forall i :: i in nodeIds ==> i in sol && i + nodeCount in sol
    ensures forall i :: i in nodeIds ==> i in nodePts && i + nodeCount in nodePts
    ensures forall v :: v in nodePts ==> (v in nodeIds || v - nodeCount in nodeIds) && v in sol && nodePts[v] == sol[v]
  {
    nodePts := map[];
    for a := 0 to |nodeIds|
      invariant forall i :: i in nodeIds[..a] ==> i in nodePts && i + nodeCount in nodePts
      invariant forall v :: v in nodePts ==> (v in nodeIds[..a] || v - nodeCount in nodeIds[..a]) && v in sol && nodePts[v] == sol[v]
    {
      var n := nodeIds[a];
      assert nodeIds[..a + 1] == nodeIds[..a] + [n];
      nodePts := nodePts[n := sol[n]][n + nodeCount := sol[n + nodeCount]];
    }
    assert nodeIds[..|nodeIds|] == nodeIds;
  }

  /** The post-processing of solveCTPST: for an optimal or time-limited solve, the path
      through every visit's point, its length and leg lengths, and (optimal only) every
      node's two points; otherwise only the start point and no values. */
  method PostProcess(startPt: Point, endPt: Point, nodeIds: seq<int>, vs: seq<int>, status: SolveStatus,
                     objVal: real, sol: map<int, Point>, dist: DistFn)
    returns (r: CtpstResult)
    requires Covers(vs, |nodeIds|, sol)
    requires forall i :: i in nodeIds ==> i in sol && i + |nodeIds| in sol
    ensures status == Other ==> r == CtpstResult([startPt], None, None, [], map[])
    ensures status != Other ==>
      |r.path| == |vs| + 2 && r.path[0] == startPt && r.path[|vs| + 1] == endPt &&
      (forall k :: 0 <= k < |vs| ==> r.path[k + 1] == VisitPt(vs, |nodeIds|, sol, k)) &&
      r.time == Some(objVal) && r.dist == Some(PathLength(dist, r.path)) && r.dist.value == Sum(r.trueDistBtw) &&
      |r.trueDistBtw| == |vs| + 1 && (forall i :: 0 <= i <= |vs| ==> r.trueDistBtw[i] == dist(r.path[i], r.path[i + 1]))
    ensures status == TimeLimit ==> r.nodePts == map[]
    ensures status == Optimal ==> forall i :: i in nodeIds ==> i in r.nodePts && i + |nodeIds| in r.nodePts
    ensures status == Optimal ==> forall v :: v in r.nodePts ==> (v in nodeIds || v - |nodeIds| in nodeIds) && v in sol && r.nodePts[v] == sol[v]
  {
    if status == Other {
      return CtpstResult([startPt], None, None, [], map[]);
    }
    var path := VisitPath(startPt, endPt, vs, |nodeIds|, sol);
    var nodePts: map<int, Point> := map[];
    if status == Optimal {
      nodePts := NodePts(nodeIds, |nodeIds|, sol);
    }
    var total, legs := PathDistances(path, dist);
    r := CtpstResult(path, Some(objVal), Some(total), legs, nodePts);
  }
}
