/**
 * The worked example of pathRemoveDegen's documentation: a path that runs right along
 * the x-axis with a doubled point, turns up, left and down, and passes a point it
 * visited before.
 */
module PolyTourExample {
  import opened Wrappers
  import opened Geom
  import opened Common
  import opened PolyTour

  function ExamplePath(): seq<Point>
  {
    [Point(-1.0, 0.0), Point(0.0, 0.0), Point(0.0, 0.0), Point(1.0, 0.0), Point(2.0, 0.0),
     Point(2.0, 1.0), Point(1.0, 1.0), Point(1.0, 0.0), Point(1.0, -1.0)]
  }

  /** Exact coincidence stands in for is2PtsSame. */
  function SameAt(p: Point, q: Point): bool
  {
    p == q
  }

  /** The squared Euclidean distance: every pair of neighbours the removal test asks about
      on this path is at least 1 apart, where squaring changes no comparison with 0.2. */
  function SqDist(p: Point, q: Point): real
  {
    (p.x - q.x) * (p.x - q.x) + (p.y - q.y) * (p.y - q.y)
  }

  /** The path runs along grid lines only, so a point is on the segment between its
      neighbours exactly when the three share a row or a column: the deviation is 0 then
      and 1 otherwise, as far as the removal test can tell. */
  function Deviation(cur: Point, pre: Point, suc: Point): real
  {
    if (pre.x == cur.x == suc.x) || (pre.y == cur.y == suc.y) then 0.0 else 1.0
  }

  /** One step of the grouping loop on a point that coincides with the open group. */
  lemma AggJoin(path: seq<Point>, same: SameFn, i: nat, agg: seq<seq<nat>>, cur: seq<nat>, grown: seq<nat>)
    requires 2 <= i <= |path| && AggFrom(path, same, i - 1) == (agg, cur)
    requires Joins(path, same, cur, i - 1) && grown == cur + [i - 1]
    ensures AggFrom(path, same, i) == (agg, grown)
  {
  }

  /** One step of the grouping loop on a point that does not. */
  lemma AggSplit(path: seq<Point>, same: SameFn, i: nat, agg: seq<seq<nat>>, cur: seq<nat>, closed: seq<seq<nat>>)
    requires 2 <= i <= |path| && AggFrom(path, same, i - 1) == (agg, cur)
    requires !Joins(path, same, cur, i - 1) && closed == agg + [cur]
    ensures AggFrom(path, same, i) == (closed, [i - 1])
  {
  }

  /** Only path[1] and path[2] coincide among neighbours. */
  lemma ExampleGroups()
    ensures Groups(ExamplePath(), SameAt) == [[0], [1, 2], [3], [4], [5], [6], [7], [8]]
  {
    var path, same := ExamplePath(), SameAt;
    AggSplit(path, same, 2, [], [0], [[0]]);
    assert Joins(path, same, [1], 2) by {
      var cur := [1];
      assert same(path[cur[0]], path[2]);
    }
    AggJoin(path, same, 3, [[0]], [1], [1, 2]);
    AggSplit(path, same, 4, [[0]], [1, 2], [[0], [1, 2]]);
    AggSplit(path, same, 5, [[0], [1, 2]], [3], [[0], [1, 2], [3]]);
    AggSplit(path, same, 6, [[0], [1, 2], [3]], [4], [[0], [1, 2], [3], [4]]);
    AggSplit(path, same, 7, [[0], [1, 2], [3], [4]], [5], [[0], [1, 2], [3], [4], [5]]);
    AggSplit(path, same, 8, [[0], [1, 2], [3], [4], [5]], [6], [[0], [1, 2], [3], [4], [5], [6]]);
    AggSplit(path, same, 9, [[0], [1, 2], [3], [4], [5], [6]], [7], [[0], [1, 2], [3], [4], [5], [6], [7]]);
  }

  /** The lead points of the eight groups. */
  function ExampleLeads(): seq<Point>
  {
    [Point(-1.0, 0.0), Point(0.0, 0.0), Point(1.0, 0.0), Point(2.0, 0.0),
     Point(2.0, 1.0), Point(1.0, 1.0), Point(1.0, 0.0), Point(1.0, -1.0)]
  }

  function ExampleFlagValues(): seq<bool>
  {
    [false, true, true, false, false, false, true, false]
  }

  /** The removal test on each middle group's lead point and its neighbours' lead points:
      the middle points of the three straight stretches are removed, the three corners kept. */
  lemma ExampleRemoval(j: nat)
    requires 0 < j < 7
    ensures Removal(ExampleLeads()[j - 1], ExampleLeads()[j], ExampleLeads()[j + 1], SameAt, SqDist, Deviation, 0.05)
      == ExampleFlagValues()[j]
  {
    if j == 1 {
      RemovalCase(j, Point(-1.0, 0.0), Point(0.0, 0.0), Point(1.0, 0.0), true);
    } else if j == 2 {
      RemovalCase(j, Point(0.0, 0.0), Point(1.0, 0.0), Point(2.0, 0.0), true);
    } else if j == 3 {
      RemovalCase(j, Point(1.0, 0.0), Point(2.0, 0.0), Point(2.0, 1.0), false);
    } else if j == 4 {
      RemovalCase(j, Point(2.0, 0.0), Point(2.0, 1.0), Point(1.0, 1.0), false);
    } else if j == 5 {
      RemovalCase(j, Point(2.0, 1.0), Point(1.0, 1.0), Point(1.0, 0.0), false);
    } else {
      RemovalCase(j, Point(1.0, 1.0), Point(1.0, 0.0), Point(1.0, -1.0), true);
    }
  }

  /** One middle group of the example: its lead point and its neighbours' are the given
      points, and the removal test on them gives the expected flag. */
  lemma RemovalCase(j: nat, pre: Point, cur: Point, suc: Point, flag: bool)
    requires 0 < j < 7
    requires ExampleLeads()[j - 1] == pre && ExampleLeads()[j] == cur && ExampleLeads()[j + 1] == suc
    requires ExampleFlagValues()[j] == flag
    requires Removal(pre, cur, suc, SameAt, SqDist, Deviation, 0.05) == flag
    ensures Removal(ExampleLeads()[j - 1], ExampleLeads()[j], ExampleLeads()[j + 1], SameAt, SqDist, Deviation, 0.05)
      == ExampleFlagValues()[j]
  {
  }

  /** The flags are determined by the middle groups' tests. */
  lemma FlagsFromMiddle(path: seq<Point>, groups: seq<seq<nat>>, same: SameFn, dist: DistFn, dev: DevFn, segTol: real, expected: seq<bool>)
    requires WellGrouped(path, groups) && |groups| >= 2 && |expected| == |groups|
    requires !expected[0] && !expected[|groups| - 1]
    requires forall j :: 0 < j < |groups| - 1 ==> MiddleFlag(path, groups, same, dist, dev, segTol, j) == expected[j]
    ensures RemovedFlags(path, groups, same, dist, dev, segTol) == expected
  {
    var flags := RemovedFlags(path, groups, same, dist, dev, segTol);
    assert forall j :: 0 < j < |groups| - 1 ==> flags[j] == MiddleFlag(path, groups, same, dist, dev, segTol, j);
  }

  lemma ExampleFlags(path: seq<Point>, groups: seq<seq<nat>>)
    requires path == ExamplePath() && groups == [[0], [1, 2], [3], [4], [5], [6], [7], [8]]
    ensures WellGrouped(path, groups)
    ensures RemovedFlags(path, groups, SameAt, SqDist, Deviation, 0.05) == ExampleFlagValues()
  {
    assert WellGrouped(path, groups);
    var leads := ExampleLeads();
    assert forall k :: 0 <= k < 8 ==> Lead(path, groups[k]) == leads[k];
    forall j | 0 < j < 7
      ensures MiddleFlag(path, groups, SameAt, SqDist, Deviation, 0.05, j) == ExampleFlagValues()[j]
    {
      ExampleRemoval(j);
    }
    FlagsFromMiddle(path, groups, SameAt, SqDist, Deviation, 0.05, ExampleFlagValues());
  }

  /** newPath keeps the lead points of groups 0, 3, 4, 5 and 7. */
  lemma ExampleKept(path: seq<Point>, groups: seq<seq<nat>>, removed: seq<bool>)
    requires path == ExamplePath() && groups == [[0], [1, 2], [3], [4], [5], [6], [7], [8]]
    requires removed == ExampleFlagValues()
    ensures WellGrouped(path, groups)
    ensures KeptPath(path, groups, removed, 8) ==
      [Point(-1.0, 0.0), Point(2.0, 0.0), Point(2.0, 1.0), Point(1.0, 1.0), Point(1.0, -1.0)]
  {
    assert WellGrouped(path, groups);
    assert KeptPath(path, groups, removed, 1) == [Point(-1.0, 0.0)];
    assert KeptPath(path, groups, removed, 3) == [Point(-1.0, 0.0)];
    assert KeptPath(path, groups, removed, 4) == [Point(-1.0, 0.0), Point(2.0, 0.0)];
    assert KeptPath(path, groups, removed, 5) == [Point(-1.0, 0.0), Point(2.0, 0.0), Point(2.0, 1.0)];
    assert KeptPath(path, groups, removed, 7) == [Point(-1.0, 0.0), Point(2.0, 0.0), Point(2.0, 1.0), Point(1.0, 1.0)];
  }

  function ExampleLocated(): seq<Option<(Point, Point)>>
  {
    [None, Some((Point(-1.0, 0.0), Point(2.0, 0.0))), Some((Point(-1.0, 0.0), Point(2.0, 0.0))),
     None, None, None, Some((Point(1.0, 1.0), Point(1.0, -1.0))), None]
  }

  /** Groups 1 and 2 lie on the segment from group 0 to group 3, group 6 on the one from
      group 5 to group 7. */
  lemma ExampleLocatedSegs(path: seq<Point>, groups: seq<seq<nat>>, removed: seq<bool>)
    requires path == ExamplePath() && groups == [[0], [1, 2], [3], [4], [5], [6], [7], [8]]
    requires removed == ExampleFlagValues()
    ensures WellGrouped(path, groups)
    ensures forall k :: 0 <= k < |removed| && removed[k] ==> 0 < k < |groups| - 1
    ensures LocatedSegs(path, groups, removed) == ExampleLocated()
  {
    assert WellGrouped(path, groups);
    var leads := ExampleLeads();
    assert forall k :: 0 <= k < 8 ==> Lead(path, groups[k]) == leads[k];
    forall i | 0 <= i < 8
      ensures Located(path, groups, removed, i) == ExampleLocated()[i]
    {
      if i == 1 || i == 2 {
        assert PrevKept(removed, i) == 0 && NextKept(removed, i) == 3;
      } else if i == 6 {
        assert PrevKept(removed, i) == 5 && NextKept(removed, i) == 7;
      }
    }
  }

  /** The documented result: groups 1, 2 and 6 (path[1] to path[3], and path[7]) lie on
      straight stretches and are dropped, the doubled point path[1] = path[2] forms one
      group, and path[3] and path[7] stay apart although they coincide, since they are not
      neighbours. */
  lemma PathRemoveDegenExample()
    ensures DegenOf(ExamplePath(), SameAt, SqDist, Deviation, 0.05) ==
      Degen([Point(-1.0, 0.0), Point(2.0, 0.0), Point(2.0, 1.0), Point(1.0, 1.0), Point(1.0, -1.0)],
            [[0], [1, 2], [3], [4], [5], [6], [7], [8]],
            [false, true, true, false, false, false, true, false],
            [None, Some((Point(-1.0, 0.0), Point(2.0, 0.0))), Some((Point(-1.0, 0.0), Point(2.0, 0.0))),
             None, None, None, Some((Point(1.0, 1.0), Point(1.0, -1.0))), None])
  {
    var path: seq<Point>, groups: seq<seq<nat>> := ExamplePath(), [[0], [1, 2], [3], [4], [5], [6], [7], [8]];
    ExampleGroups();
    ExampleFlags(path, groups);
    var removed := ExampleFlagValues();
    ExampleKept(path, groups, removed);
    ExampleLocatedSegs(path, groups, removed);
  }
}
