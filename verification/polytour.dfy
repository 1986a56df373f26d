/**
 * polyTour.py: simplifying a polyline to its turning points (pathRemoveDegen), and
 * cutting a polyline into the pieces that lie inside polygons or circles
 * (ptSetPath2Poly, segSetPath2Poly, segSetPath2Circle).
 *
 * The geometric primitives of the library's geometry file (is2PtsSame, distPt2Seg,
 * intSeg2Poly, intSeg2Circle, isPtInPoly, distPt2Path) are not part of this model:
 * they are passed in as function values.
 */
module PolyTour {
  import opened Wrappers
  import opened Geom
  import opened Common
  import Sorting

  /** is2PtsSame */
  type SameFn = (Point, Point) -> bool
  /** distPt2Seg(cur, [pre, suc]) */
  type DevFn = (Point, Point, Point) -> real

  /** A group closer than this to a neighbouring group is always kept. */
  const NearTurn: real := 0.2

  // ---- pathRemoveDegen, step 1: groups of coinciding consecutive points ----

  function Range(n: nat): (r: seq<nat>)
    ensures |r| == n && forall k :: 0 <= k < n ==> r[k] == k
  {
    seq(n, k => k)
  }

  /** Index i coincides with a point already in the group cur. */
  predicate Joins(path: seq<Point>, same: SameFn, cur: seq<nat>, i: nat)
    requires i < |path| && forall k :: 0 <= k < |cur| ==> cur[k] < |path|
  {
    exists k :: 0 <= k < |cur| && same(path[cur[k]], path[i])
  }

  /** Every group is non-empty and holds indices of the path. */
  ghost predicate InRange(path: seq<Point>, groups: seq<seq<nat>>)
  {
    forall j :: 0 <= j < |groups| ==> |groups[j]| > 0 && forall t :: 0 <= t < |groups[j]| ==> groups[j][t] < |path|
  }

  /** The groups are consecutive runs: every member after the first coincides with an
      earlier member, and the first member of a group coincides with no member of the
      group before it. */
  ghost predicate Grouped(path: seq<Point>, same: SameFn, groups: seq<seq<nat>>)
  {
    InRange(path, groups) &&
    (forall j, t :: 0 <= j < |groups| && 0 < t < |groups[j]| ==> Joins(path, same, groups[j][..t], groups[j][t])) &&
    (forall j :: 0 < j < |groups| ==> !Joins(path, same, groups[j - 1], groups[j][0]))
  }

  /** Every index in the groups is below i. */
  ghost predicate Below(groups: seq<seq<nat>>, i: nat)
  {
    forall j, t :: 0 <= j < |groups| && 0 <= t < |groups[j]| ==> groups[j][t] < i
  }

  /** The first group starts at index 0 and the groups' first indices increase. */
  ghost predicate LeadsAscend(groups: seq<seq<nat>>)
    requires forall j :: 0 <= j < |groups| ==> |groups[j]| > 0
  {
    (|groups| > 0 ==> groups[0][0] == 0) &&
    forall j, j' :: 0 <= j < j' < |groups| ==> groups[j][0] < groups[j'][0]
  }

  /** The closed groups and the open group after indices 0..i-1 have been read. */
  function AggFrom(path: seq<Point>, same: SameFn, i: nat): (r: (seq<seq<nat>>, seq<nat>))
    requires 1 <= i <= |path|
    ensures |r.1| > 0 && forall t :: 0 <= t < |r.1| ==> r.1[t] < i
  {
    if i == 1 then ([], [0])
    else
      var (agg, cur) := AggFrom(path, same, i - 1);
      if Joins(path, same, cur, i - 1) then (agg, cur + [i - 1]) else (agg + [cur], [i - 1])
  }

  /** A coinciding index joins the open group. */
  lemma GroupedJoin(path: seq<Point>, same: SameFn, agg: seq<seq<nat>>, cur: seq<nat>, i: nat)
    requires i < |path| && Grouped(path, same, agg + [cur])
    requires forall k :: 0 <= k < |cur| ==> cur[k] < |path|
    requires Joins(path, same, cur, i)
    ensures Grouped(path, same, agg + [cur + [i]])
    ensures Flatten(agg + [cur + [i]]) == Flatten(agg + [cur]) + [i]
  {
    var gs, gs' := agg + [cur], agg + [cur + [i]];
    var n := |agg|;
    assert gs[n] == cur && gs'[n] == cur + [i];
    assert forall j :: 0 <= j < n ==> gs'[j] == gs[j];
    assert InRange(path, gs');
    forall j, t | 0 <= j < |gs'| && 0 < t < |gs'[j]|
      ensures Joins(path, same, gs'[j][..t], gs'[j][t])
    {
      if j == n {
        if t < |cur| {
          assert gs'[j][..t] == gs[j][..t] && gs'[j][t] == gs[j][t];
        } else {
          assert gs'[j][..t] == cur;
        }
      }
    }
    forall j | 0 < j < |gs'|
      ensures !Joins(path, same, gs'[j - 1], gs'[j][0])
    {
      assert gs'[j - 1] == gs[j - 1] && gs'[j][0] == gs[j][0];
    }
    FlattenSnoc(agg, cur);
    FlattenSnoc(agg, cur + [i]);
  }

  /** Any other index closes the open group and opens a new one. */
  lemma GroupedSplit(path: seq<Point>, same: SameFn, agg: seq<seq<nat>>, cur: seq<nat>, i: nat)
    requires i < |path| && Grouped(path, same, agg + [cur])
    requires forall k :: 0 <= k < |cur| ==> cur[k] < |path|
    requires !Joins(path, same, cur, i)
    ensures Grouped(path, same, agg + [cur] + [[i]])
    ensures Flatten(agg + [cur] + [[i]]) == Flatten(agg + [cur]) + [i]
  {
    var gs := agg + [cur];
    var gs' := gs + [[i]];
    var n := |gs|;
    assert gs[n - 1] == cur && gs'[n] == [i];
    assert forall j :: 0 <= j < n ==> gs'[j] == gs[j];
    assert InRange(path, gs');
    forall j | 0 < j < |gs'|
      ensures !Joins(path, same, gs'[j - 1], gs'[j][0])
    {
      if j < n {
        assert gs'[j - 1] == gs[j - 1] && gs'[j][0] == gs[j][0];
      }
    }
    FlattenSnoc(gs, [i]);
  }

  /** Growing the open group keeps the indices below the next one and the leads in order. */
  lemma JoinOrdered(agg: seq<seq<nat>>, cur: seq<nat>, i: nat)
    requires |cur| > 0 && forall j :: 0 <= j < |agg| ==> |agg[j]| > 0
    requires Below(agg + [cur], i) && LeadsAscend(agg + [cur])
    ensures Below(agg + [cur + [i]], i + 1) && LeadsAscend(agg + [cur + [i]])
  {
    var gs, gs' := agg + [cur], agg + [cur + [i]];
    assert forall j :: 0 <= j < |agg| ==> gs'[j] == gs[j];
    assert gs[|agg|] == cur && gs'[|agg|] == cur + [i];
    assert forall j :: 0 <= j < |gs| ==> gs'[j][0] == gs[j][0];
  }

  /** Opening a new group at i keeps the indices below the next one and the leads in order. */
  lemma SplitOrdered(gs: seq<seq<nat>>, i: nat)
    requires forall j :: 0 <= j < |gs| ==> |gs[j]| > 0
    requires |gs| > 0 && Below(gs, i) && LeadsAscend(gs)
    ensures Below(gs + [[i]], i + 1) && LeadsAscend(gs + [[i]])
  {
    var gs' := gs + [[i]];
    assert forall j :: 0 <= j < |gs| ==> gs'[j] == gs[j];
    forall j, j' | 0 <= j < j' < |gs'| ensures gs'[j][0] < gs'[j'][0] {
      if j' == |gs| {
        assert gs[j][0] < i;
      }
    }
  }

  /** The groups read so far are consecutive runs that cover 0..i-1 in order. */
  lemma {:induction false} AggFromGrouped(path: seq<Point>, same: SameFn, i: nat)
    requires 1 <= i <= |path|
    ensures Grouped(path, same, AggFrom(path, same, i).0 + [AggFrom(path, same, i).1])
    ensures Flatten(AggFrom(path, same, i).0 + [AggFrom(path, same, i).1]) == Range(i)
    ensures Below(AggFrom(path, same, i).0 + [AggFrom(path, same, i).1], i)
    ensures LeadsAscend(AggFrom(path, same, i).0 + [AggFrom(path, same, i).1])
  {
    if i == 1 {
      assert Flatten([[0]]) == Flatten([]) + [0];
      assert [0] == Range(1);
    } else {
      AggFromGrouped(path, same, i - 1);
      var (agg, cur) := AggFrom(path, same, i - 1);
      assert Range(i) == Range(i - 1) + [i - 1];
      if Joins(path, same, cur, i - 1) {
        GroupedJoin(path, same, agg, cur, i - 1);
        JoinOrdered(agg, cur, i - 1);
      } else {
        GroupedSplit(path, same, agg, cur, i - 1);
        SplitOrdered(agg + [cur], i - 1);
      }
    }
  }

  /** aggNodeList: the groups of a non-empty path. */
  function Groups(path: seq<Point>, same: SameFn): (groups: seq<seq<nat>>)
    requires |path| > 0
    ensures |groups| > 0 && Grouped(path, same, groups) && LeadsAscend(groups)
    ensures Flatten(groups) == Range(|path|)
  {
    AggFromGrouped(path, same, |path|);
    var (agg, cur) := AggFrom(path, same, |path|);
    agg + [cur]
  }

  /** The first point of a group stands for the group. */
  function Lead(path: seq<Point>, g: seq<nat>): Point
    requires |g| > 0 && g[0] < |path|
  {
    path[g[0]]
  }

  // ---- step 2: which groups are not turning points ----

  /** A middle group is removed when its neighbours differ, it is not within 0.2 of
      either, and it lies within segTol of the segment between them. */
  function Removal(pre: Point, cur: Point, suc: Point, same: SameFn, dist: DistFn, dev: DevFn, segTol: real): bool
  {
    if same(pre, suc) then false
    else if dist(pre, cur) <= NearTurn then false
    else if dist(cur, suc) <= NearTurn then false
    else dev(cur, pre, suc) <= segTol
  }

  ghost predicate WellGrouped(path: seq<Point>, groups: seq<seq<nat>>)
  {
    forall j :: 0 <= j < |groups| ==> |groups[j]| > 0 && groups[j][0] < |path|
  }

  /** The removal test of middle group j against groups j-1 and j+1. */
  function MiddleFlag(path: seq<Point>, groups: seq<seq<nat>>, same: SameFn, dist: DistFn, dev: DevFn, segTol: real, j: nat): bool
    requires WellGrouped(path, groups) && 0 < j < |groups| - 1
  {
    Removal(Lead(path, groups[j - 1]), Lead(path, groups[j]), Lead(path, groups[j + 1]), same, dist, dev, segTol)
  }

  /** removedFlag: False for the first group, the removal test for every middle group,
      then one more False. */
  function RemovedFlags(path: seq<Point>, groups: seq<seq<nat>>, same: SameFn, dist: DistFn, dev: DevFn, segTol: real): (removed: seq<bool>)
    requires WellGrouped(path, groups)
    ensures |removed| == if |groups| >= 2 then |groups| else 2
    ensures !removed[0] && !removed[|removed| - 1]
    ensures forall i :: 0 <= i < |removed| && removed[i] ==> 0 < i < |groups| - 1
  {
    var middle := if |groups| >= 2 then |groups| - 2 else 0;
    [false] +
    seq(middle, j requires 0 <= j < middle => MiddleFlag(path, groups, same, dist, dev, segTol, j + 1)) +
    [false]
  }

  // ---- step 3: the simplified path ----

  /** newPath over the first n groups: the lead point of each kept group. */
  function KeptPath(path: seq<Point>, groups: seq<seq<nat>>, removed: seq<bool>, n: nat): seq<Point>
    requires WellGrouped(path, groups) && n <= |groups| <= |removed|
  {
    if n == 0 then []
    else KeptPath(path, groups, removed, n - 1) + (if removed[n - 1] then [] else [Lead(path, groups[n - 1])])
  }

  /** The first indices of the kept groups among the first n. */
  function KeptLeads(groups: seq<seq<nat>>, removed: seq<bool>, n: nat): (idx: seq<nat>)
    requires (forall j :: 0 <= j < |groups| ==> |groups[j]| > 0) && LeadsAscend(groups)
    requires n <= |groups| <= |removed|
    ensures n > 0 ==> forall k :: 0 <= k < |idx| ==> idx[k] <= groups[n - 1][0]
    ensures forall k, k' :: 0 <= k < k' < |idx| ==> idx[k] < idx[k']
    ensures n > 0 && !removed[0] ==> |idx| > 0 && idx[0] == groups[0][0]
  {
    if n == 0 then []
    else
      var prev := KeptLeads(groups, removed, n - 1);
      assert n > 1 ==> groups[n - 2][0] < groups[n - 1][0];
      prev + (if removed[n - 1] then [] else [groups[n - 1][0]])
  }

  /** newPath is the path read at strictly increasing indices, and (the first group
      never being removed) it starts with path[0]. */
  lemma {:induction false} KeptPathIsSubsequence(path: seq<Point>, groups: seq<seq<nat>>, removed: seq<bool>, n: nat)
    requires WellGrouped(path, groups) && LeadsAscend(groups) && n <= |groups| <= |removed|
    ensures |KeptPath(path, groups, removed, n)| == |KeptLeads(groups, removed, n)|
    ensures forall k :: 0 <= k < |KeptLeads(groups, removed, n)| ==>
      KeptLeads(groups, removed, n)[k] < |path| &&
      KeptPath(path, groups, removed, n)[k] == path[KeptLeads(groups, removed, n)[k]]
  {
    if n > 0 {
      KeptPathIsSubsequence(path, groups, removed, n - 1);
      var p, l := KeptPath(path, groups, removed, n - 1), KeptLeads(groups, removed, n - 1);
      if !removed[n - 1] {
        var p', l' := KeptPath(path, groups, removed, n), KeptLeads(groups, removed, n);
        assert p' == p + [path[groups[n - 1][0]]] && l' == l + [groups[n - 1][0]];
        assert forall k :: 0 <= k < |l| ==> p'[k] == p[k] && l'[k] == l[k];
      }
    }
  }

  /** The first group is never removed, so newPath starts with path[0]. */
  lemma KeptPathStart(path: seq<Point>, groups: seq<seq<nat>>, removed: seq<bool>)
    requires WellGrouped(path, groups) && LeadsAscend(groups) && 0 < |groups| <= |removed| && !removed[0]
    ensures |KeptPath(path, groups, removed, |groups|)| > 0 && KeptPath(path, groups, removed, |groups|)[0] == path[0]
  {
    KeptPathIsSubsequence(path, groups, removed, |groups|);
  }

  // ---- step 4: the segment each removed group lies on ----

  /** The nearest kept index at or before i. */
  function PrevKept(removed: seq<bool>, i: nat): (p: nat)
    requires i < |removed| && !removed[0]
    ensures p <= i && !removed[p] && forall k :: p < k <= i ==> removed[k]
  {
    if !removed[i] then i else PrevKept(removed, i - 1)
  }

  /** The nearest kept index at or after i. */
  function NextKept(removed: seq<bool>, i: nat): (s: nat)
    requires i < |removed| && !removed[|removed| - 1]
    ensures i <= s < |removed| && !removed[s] && forall k :: i <= k < s ==> removed[k]
    decreases |removed| - i
  {
    if !removed[i] then i else NextKept(removed, i + 1)
  }

  /** When only indices below n - 1 are ever removed, the next kept index from i < n is below n. */
  lemma NextKeptBelow(removed: seq<bool>, n: nat, i: nat)
    requires i < |removed| && !removed[|removed| - 1] && i < n
    requires forall k :: 0 <= k < |removed| && removed[k] ==> k < n - 1
    ensures NextKept(removed, i) < n
    decreases |removed| - i
  {
    if removed[i] {
      NextKeptBelow(removed, n, i + 1);
    }
  }

  datatype Degen = Degen(newPath: seq<Point>, aggNodeList: seq<seq<nat>>, removedFlag: seq<bool>, locatedSeg: seq<Option<(Point, Point)>>)

  /** locatedSeg[i]: nothing for a kept group; for a removed one, the lead points of the
      nearest kept groups on either side. */
  function Located(path: seq<Point>, groups: seq<seq<nat>>, removed: seq<bool>, i: nat): Option<(Point, Point)>
    requires WellGrouped(path, groups) && i < |removed| && !removed[0] && !removed[|removed| - 1]
    requires forall k :: 0 <= k < |removed| && removed[k] ==> 0 < k < |groups| - 1
  {
    if !removed[i] then None
    else
      var p, s := PrevKept(removed, i), NextKept(removed, i);
      NextKeptBelow(removed, |groups|, i);
      Some((Lead(path, groups[p]), Lead(path, groups[s])))
  }

  function LocatedSegs(path: seq<Point>, groups: seq<seq<nat>>, removed: seq<bool>): (located: seq<Option<(Point, Point)>>)
    requires WellGrouped(path, groups) && |removed| > 0 && !removed[0] && !removed[|removed| - 1]
    requires forall k :: 0 <= k < |removed| && removed[k] ==> 0 < k < |groups| - 1
  {
    seq(|removed|, i requires 0 <= i < |removed| => Located(path, groups, removed, i))
  }

  lemma GroupsWell(path: seq<Point>, same: SameFn)
    requires |path| > 0
    ensures WellGrouped(path, Groups(path, same))
  {
    var groups := Groups(path, same);
    forall j | 0 <= j < |groups|
      ensures |groups[j]| > 0 && groups[j][0] < |path|
    {
      assert InRange(path, groups);
    }
  }

  /** Steps 2 to 4 on a given grouping. */
  function DegenOfGroups(path: seq<Point>, groups: seq<seq<nat>>, same: SameFn, dist: DistFn, dev: DevFn, segTol: real): (d: Degen)
    requires WellGrouped(path, groups)
  {
    var removed := RemovedFlags(path, groups, same, dist, dev, segTol);
    Degen(KeptPath(path, groups, removed, |groups|), groups, removed, LocatedSegs(path, groups, removed))
  }

  /** The whole result of pathRemoveDegen on a non-empty path. */
  function DegenOf(path: seq<Point>, same: SameFn, dist: DistFn, dev: DevFn, segTol: real): (d: Degen)
    requires |path| > 0
  {
    var groups := Groups(path, same);
    GroupsWell(path, same);
    DegenOfGroups(path, groups, same, dist, dev, segTol)
  }

  /** The reduced path is never empty and starts where the path starts. */
  lemma DegenStart(path: seq<Point>, same: SameFn, dist: DistFn, dev: DevFn, segTol: real)
    requires |path| > 0
    ensures |DegenOf(path, same, dist, dev, segTol).newPath| > 0
    ensures DegenOf(path, same, dist, dev, segTol).newPath[0] == path[0]
  {
    var groups := Groups(path, same);
    GroupsWell(path, same);
    KeptPathStart(path, groups, RemovedFlags(path, groups, same, dist, dev, segTol));
  }

  /** A removed group lies between its nearest kept neighbours, and locatedSeg names
      their lead points; a kept group has no located segment. */
  lemma LocatedMeaning(path: seq<Point>, groups: seq<seq<nat>>, removed: seq<bool>, i: nat)
    requires WellGrouped(path, groups) && i < |removed| && !removed[0] && !removed[|removed| - 1]
    requires forall k :: 0 <= k < |removed| && removed[k] ==> 0 < k < |groups| - 1
    ensures Located(path, groups, removed, i).None? <==> !removed[i]
    ensures removed[i] ==> exists p, q :: (0 <= p < i < q < |groups| && q < |removed| &&
      !removed[p] && !removed[q] && (forall k :: p < k < q ==> removed[k]) &&
      Located(path, groups, removed, i) == Some((path[groups[p][0]], path[groups[q][0]])))
  {
    if removed[i] {
      var p, q := PrevKept(removed, i), NextKept(removed, i);
      assert p != i && q != i;
      NextKeptBelow(removed, |groups|, i);
    }
  }

  // ---- the loops of pathRemoveDegen ----

  /** The inner `for pt in curPtList` search of step 1. */
  method FindSame(pts: seq<Point>, q: Point, same: SameFn) returns (found: bool)
    ensures found <==> exists k :: 0 <= k < |pts| && same(pts[k], q)
  {
    found := false;
    for j := 0 to |pts|
      invariant !found && forall k :: 0 <= k < j ==> !same(pts[k], q)
    {
      if same(pts[j], q) {
        found := true;
        break;
      }
    }
  }

  /** Step 1: aggNodeList, grown by the "sausage" loop over the path. */
  method AggregatePoints(path: seq<Point>, same: SameFn) returns (aggNodeList: seq<seq<nat>>)
    requires |path| > 0
    ensures aggNodeList == Groups(path, same)
  {
    var curPtList := [path[0]];
    var curAgg: seq<nat> := [0];
    aggNodeList := [];
    for i := 1 to |path|
      invariant (aggNodeList, curAgg) == AggFrom(path, same, i)
      invariant |curPtList| == |curAgg| && forall k :: 0 <= k < |curAgg| ==> curPtList[k] == path[curAgg[k]]
    {
      var samePtFlag := FindSame(curPtList, path[i], same);
      if samePtFlag {
        assert Joins(path, same, curAgg, i) by {
          var k :| 0 <= k < |curPtList| && same(curPtList[k], path[i]);
        }
        curAgg := curAgg + [i];
        curPtList := curPtList + [path[i]];
      } else {
        assert !Joins(path, same, curAgg, i);
        aggNodeList := aggNodeList + [curAgg];
        curAgg := [i];
        curPtList := [path[i]];
      }
    }
    aggNodeList := aggNodeList + [curAgg];
  }

  /** Step 2: removedFlag. */
  method FlagTurns(path: seq<Point>, groups: seq<seq<nat>>, same: SameFn, dist: DistFn, dev: DevFn, segTol: real)
    returns (removedFlag: seq<bool>)
    requires WellGrouped(path, groups)
    ensures removedFlag == RemovedFlags(path, groups, same, dist, dev, segTol)
  {
    removedFlag := [false];
    var i := 1;
    while i < |groups| - 1
      invariant 1 <= i <= (if |groups| >= 2 then |groups| - 1 else 1)
      invariant |removedFlag| == i && !removedFlag[0]
      invariant forall j :: 0 < j < i ==> removedFlag[j] == MiddleFlag(path, groups, same, dist, dev, segTol, j)
    {
      var prePt, curPt, sucPt := path[groups[i - 1][0]], path[groups[i][0]], path[groups[i + 1][0]];
      var flag;
      if same(prePt, sucPt) {
        flag := false;
      } else if dist(prePt, curPt) <= NearTurn {
        flag := false;
      } else if dist(curPt, sucPt) <= NearTurn {
        flag := false;
      } else {
        var d := dev(curPt, prePt, sucPt);
        flag := d <= segTol;
      }
      assert flag == MiddleFlag(path, groups, same, dist, dev, segTol, i);
      removedFlag := removedFlag + [flag];
      i := i + 1;
    }
    removedFlag := removedFlag + [false];
    ghost var spec := RemovedFlags(path, groups, same, dist, dev, segTol);
    assert forall j :: 0 < j < |spec| - 1 ==> spec[j] == MiddleFlag(path, groups, same, dist, dev, segTol, j);
  }

  /** Step 3: newPath. */
  method KeepTurns(path: seq<Point>, groups: seq<seq<nat>>, removedFlag: seq<bool>) returns (newPath: seq<Point>)
    requires WellGrouped(path, groups) && |groups| <= |removedFlag|
    ensures newPath == KeptPath(path, groups, removedFlag, |groups|)
  {
    newPath := [];
    for i := 0 to |groups|
      invariant newPath == KeptPath(path, groups, removedFlag, i)
    {
      if removedFlag[i] == false {
        newPath := newPath + [path[groups[i][0]]];
      }
    }
  }

  /** Step 4: pathPre and pathSuc, the nearest kept index on each side, filled from
      both ends in one pass. */
  method NearestKept(removedFlag: seq<bool>) returns (pathPre: seq<nat>, pathSuc: seq<nat>)
    requires |removedFlag| > 0 && !removedFlag[0] && !removedFlag[|removedFlag| - 1]
    ensures |pathPre| == |removedFlag| && |pathSuc| == |removedFlag|
    ensures forall k :: 0 <= k < |removedFlag| ==> pathPre[k] == PrevKept(removedFlag, k) && pathSuc[k] == NextKept(removedFlag, k)
  {
    var n := |removedFlag|;
    pathPre, pathSuc := [], [];
    for i := 0 to n
      invariant |pathPre| == i && forall k :: 0 <= k < i ==> pathPre[k] == PrevKept(removedFlag, k)
      invariant |pathSuc| == i && forall k :: 0 <= k < i ==> pathSuc[k] == NextKept(removedFlag, n - i + k)
    {
      if removedFlag[i] == false {
        pathPre := pathPre + [i];
      } else {
        pathPre := pathPre + [pathPre[|pathPre| - 1]];
      }
      if removedFlag[n - 1 - i] == false {
        pathSuc := [n - 1 - i] + pathSuc;
      } else {
        pathSuc := [pathSuc[0]] + pathSuc;
      }
    }
  }

  /** Step 5: locatedSeg. */
  method LocateSegs(path: seq<Point>, groups: seq<seq<nat>>, removedFlag: seq<bool>, pathPre: seq<nat>, pathSuc: seq<nat>)
    returns (locatedSeg: seq<Option<(Point, Point)>>)
    requires WellGrouped(path, groups) && |removedFlag| > 0 && !removedFlag[0] && !removedFlag[|removedFlag| - 1]
    requires |pathPre| == |removedFlag| && |pathSuc| == |removedFlag|
    requires forall k :: 0 <= k < |removedFlag| ==> pathPre[k] == PrevKept(removedFlag, k) && pathSuc[k] == NextKept(removedFlag, k)
    requires forall k :: 0 <= k < |removedFlag| && removedFlag[k] ==> 0 < k < |groups| - 1
    ensures locatedSeg == LocatedSegs(path, groups, removedFlag)
  {
    locatedSeg := [];
    for i := 0 to |removedFlag|
      invariant |locatedSeg| == i
      invariant forall k :: 0 <= k < i ==> locatedSeg[k] == Located(path, groups, removedFlag, k)
    {
      if removedFlag[i] == false {
        locatedSeg := locatedSeg + [None];
      } else {
        NextKeptBelow(removedFlag, |groups|, i);
        var startPt := path[groups[pathPre[i]][0]];
        var endPt := path[groups[pathSuc[i]][0]];
        locatedSeg := locatedSeg + [Some((startPt, endPt))];
      }
    }
  }

  /** pathRemoveDegen: the path reduced to its turning points, with the bookkeeping that
      explains each removal; an empty path fails on path[0]. */
  method PathRemoveDegen(path: seq<Point>, same: SameFn, dist: DistFn, dev: DevFn, segTol: real) returns (r: Result<Degen>)
    ensures path == [] <==> r.Err?
    ensures r.Err? ==> r.error == IndexError
    ensures r.Ok? ==> r.value == DegenOf(path, same, dist, dev, segTol)
  {
    if path == [] {
      return Err(IndexError);
    }
    var aggNodeList := AggregatePoints(path, same);
    var removedFlag := FlagTurns(path, aggNodeList, same, dist, dev, segTol);
    var newPath := KeepTurns(path, aggNodeList, removedFlag);
    var pathPre, pathSuc := NearestKept(removedFlag);
    var locatedSeg := LocateSegs(path, aggNodeList, removedFlag, pathPre, pathSuc);
    r := Ok(Degen(newPath, aggNodeList, removedFlag, locatedSeg));
  }
}
