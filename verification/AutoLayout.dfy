/** The shape of the automatic layout (layout.rs:497-570). */
module AutoLayout {
  import opened Prelude
  import opened SplitTree
  import opened Proportions

  lemma ChunksByFour(panes: seq<PaneId>)
    ensures panes == [] ==> Chunks(panes) == []
    ensures 1 <= |panes| <= 4 ==> Chunks(panes) == [panes]
    ensures |panes| > 4 ==> Chunks(panes) == [panes[..4]] + Chunks(panes[4..])
  {
  }

  /** Up to five panes stand as one beside the rest; more fill columns of four from the right, and the first column
      takes what is left over. */
  lemma FirstColumnTakesTheRest(panes: seq<PaneId>)
    requires 2 <= |panes| <= 12
    ensures var groups := ColumnGroups(panes);
            && (|panes| <= 5 ==> groups == [panes[..1], panes[1..]])
            && (6 <= |panes| <= 8 ==> groups == [panes[..|panes| - 4], panes[|panes| - 4..]])
            && (9 <= |panes| ==>
                  groups == [panes[..|panes| - 8], panes[|panes| - 8..|panes| - 4], panes[|panes| - 4..]])
  {
    hide Chunks, ColumnGroups;
    var n := |panes|;
    if n <= 5 {
      TwoGroups(panes, 1);
    } else if n <= 8 {
      TwoGroups(panes, n - 4);
    } else {
      ThreeGroups(panes);
    }
  }

  lemma TwoGroups(panes: seq<PaneId>, first: nat)
    requires 2 <= |panes| <= 8 && first == FirstColumnLen(|panes|) && 1 <= |panes| - first <= 4
    ensures ColumnGroups(panes) == [panes[..first], panes[first..]]
  {
    hide Chunks;
    ChunksByFour(panes[first..]);
  }

  lemma ThreeGroups(panes: seq<PaneId>)
    requires 9 <= |panes| <= 12
    ensures ColumnGroups(panes)
            == [panes[..|panes| - 8], panes[|panes| - 8..|panes| - 4], panes[|panes| - 4..]]
  {
    hide Chunks;
    var first := |panes| - 8;
    assert first == FirstColumnLen(|panes|);
    ChunksByFour(panes[first..]);
    ChunksByFour(panes[first..][4..]);
    assert panes[first..][..4] == panes[first..first + 4] && panes[first..][4..] == panes[first + 4..];
  }

  /** A column of leaves, or a row of columns, as a list of nodes side by side. */
  predicate Beside(node: Node, dir: SplitDir, parts: seq<Node>)
    decreases |parts|
  {
    if |parts| == 0 then false
    else if |parts| == 1 then node == parts[0]
    else node.Split? && node.dir == dir && node.a == parts[0] && Beside(node.b, dir, parts[1..])
  }

  lemma {:induction false} EqualNodesBeside(nodes: seq<Node>, dir: SplitDir, nextId: SplitId)
    requires |nodes| > 0
    ensures Beside(EqualNodes(nodes, dir, nextId).node, dir, nodes)
  {
    if |nodes| > 1 {
      EqualNodesBeside(nodes[1..], dir, nextId + 1);
    }
  }

  /** The node is a column of exactly these panes. */
  ghost predicate IsColumn(node: Node, group: seq<PaneId>) {
    Beside(node, Down, Leaves(group))
  }

  lemma {:induction false} BuiltColumnsAreColumns(groups: seq<seq<PaneId>>, nextId: SplitId)
    requires forall g :: g in groups ==> |g| > 0
    ensures var nodes := BuildColumns(groups, nextId).nodes;
            |nodes| == |groups| && forall i :: 0 <= i < |groups| ==> IsColumn(nodes[i], groups[i])
  {
    hide EqualNodes, Beside, Leaves;
    if groups != [] {
      var first := EqualNodes(Leaves(groups[0]), Down, nextId);
      EqualNodesBeside(Leaves(groups[0]), Down, nextId);
      BuiltColumnsAreColumns(groups[1..], first.nextId);
    }
  }

  /** Main result: two to twelve panes stand in columns side by side, each column its group from top to bottom; more
      stand as the first pane beside a stack of the others that shows the last, in halves. */
  lemma AutoLayoutShape(panes: seq<PaneId>, nextId: SplitId) returns (columns: seq<Node>)
    requires |panes| >= 1
    ensures ZellijLayout(panes, nextId).Some?
    ensures var node := ZellijLayout(panes, nextId).value.node;
            && (|panes| == 1 ==> node == Leaf(panes[0]))
            && (2 <= |panes| <= 12 ==>
                  && Beside(node, Right, columns) && |columns| == |ColumnGroups(panes)|
                  && forall i :: 0 <= i < |columns| ==> IsColumn(columns[i], ColumnGroups(panes)[i]))
            && (|panes| > 12 ==>
                  node == Split(nextId, Right, 0.5, Leaf(panes[0]), Stack(panes[1..], panes[|panes| - 1])))
  {
    hide EqualNodes, BuildColumns, ColumnGroups, Beside;
    columns := [];
    if 2 <= |panes| <= 12 {
      GroupsOfFour(panes);
      var built := BuildColumns(ColumnGroups(panes), nextId);
      columns := built.nodes;
      BuiltColumnsAreColumns(ColumnGroups(panes), nextId);
      EqualNodesBeside(columns, Right, built.nextId);
    }
  }

  // ----- Split ids -----

  /** Consecutive ids. */
  function IdRange(low: SplitId, count: nat): multiset<SplitId>
    decreases count
  {
    if count == 0 then multiset{} else multiset{low} + IdRange(low + 1, count - 1)
  }

  lemma {:induction false} IdRangeSplits(low: SplitId, m: nat, n: nat)
    ensures IdRange(low, m + n) == IdRange(low, m) + IdRange(low + m, n)
    decreases m
  {
    hide IdRange;
    if m > 0 {
      FirstOfRange(low, m + n);
      FirstOfRange(low, m);
      IdRangeSplits(low + 1, m - 1, n);
    } else {
      NoIds(low);
    }
  }

  lemma FirstOfRange(low: SplitId, count: nat)
    requires count > 0
    ensures IdRange(low, count) == multiset{low} + IdRange(low + 1, count - 1)
  {
  }

  function AllSplitIds(nodes: seq<Node>): multiset<SplitId> {
    if nodes == [] then multiset{} else multiset(SplitIds(nodes[0])) + AllSplitIds(nodes[1..])
  }

  lemma {:induction false} EqualNodesIds(nodes: seq<Node>, dir: SplitDir, nextId: SplitId)
    requires |nodes| > 0
    ensures EqualNodes(nodes, dir, nextId).nextId == nextId + |nodes| - 1
    ensures multiset(SplitIds(EqualNodes(nodes, dir, nextId).node))
            == IdRange(nextId, |nodes| - 1) + AllSplitIds(nodes)
  {
    hide SplitIds;
    if |nodes| > 1 {
      EqualNodesIds(nodes[1..], dir, nextId + 1);
      IdsOf(EqualNodes(nodes, dir, nextId).node);
    } else {
      assert AllSplitIds(nodes[1..]) == multiset{};
    }
  }

  lemma IdsOf(node: Node)
    requires node.Split?
    ensures multiset(SplitIds(node)) == multiset{node.id} + multiset(SplitIds(node.a)) + multiset(SplitIds(node.b))
  {
  }

  lemma {:induction false} LeavesHaveNoSplits(panes: seq<PaneId>)
    ensures AllSplitIds(Leaves(panes)) == multiset{}
  {
    if panes != [] {
      assert Leaves(panes)[1..] == Leaves(panes[1..]);
      LeavesHaveNoSplits(panes[1..]);
    }
  }

  lemma {:induction false} BuiltColumnsIds(groups: seq<seq<PaneId>>, nextId: SplitId)
    requires forall g :: g in groups ==> |g| > 0
    ensures |Flatten(groups)| >= |groups|
    ensures BuildColumns(groups, nextId).nextId == nextId + |Flatten(groups)| - |groups|
    ensures AllSplitIds(BuildColumns(groups, nextId).nodes) == IdRange(nextId, |Flatten(groups)| - |groups|)
  {
    hide EqualNodes, SplitIds, IdRange;
    if groups == [] {
      NoIds(nextId);
    } else {
      var leaves := Leaves(groups[0]);
      var first := EqualNodes(leaves, Down, nextId);
      EqualNodesIds(leaves, Down, nextId);
      LeavesHaveNoSplits(groups[0]);
      BuiltColumnsIds(groups[1..], first.nextId);
      IdRangeSplits(nextId, |groups[0]| - 1, |Flatten(groups[1..])| - |groups[1..]|);
      assert BuildColumns(groups, nextId).nodes[1..] == BuildColumns(groups[1..], first.nextId).nodes;
    }
  }

  lemma NoIds(nextId: SplitId)
    ensures IdRange(nextId, 0) == multiset{}
  {
  }

  /** The layout of n panes up to twelve uses the next n - 1 split ids, each once; of more than twelve, the next one. */
  lemma FreshIdsAreUsedOnce(panes: seq<PaneId>, nextId: SplitId)
    requires |panes| >= 1
    ensures var built := ZellijLayout(panes, nextId);
            && built.Some?
            && var count := if |panes| > 12 then 1 else |panes| - 1;
               built.value.nextId == nextId + count
               && multiset(SplitIds(built.value.node)) == IdRange(nextId, count)
  {
    if |panes| == 1 {
      NoIds(nextId);
    } else if |panes| > 12 {
      assert IdRange(nextId, 1) == multiset{nextId};
      IdsOf(ZellijLayout(panes, nextId).value.node);
    } else {
      ColumnIds(panes, nextId);
    }
  }

  lemma ColumnIds(panes: seq<PaneId>, nextId: SplitId)
    requires 2 <= |panes| <= 12
    ensures ZellijLayout(panes, nextId).Some?
    ensures var built := ZellijLayout(panes, nextId).value;
            && built.nextId == nextId + |panes| - 1
            && multiset(SplitIds(built.node)) == IdRange(nextId, |panes| - 1)
  {
    hide SplitIds, IdRange, EqualNodes, BuildColumns, ColumnGroups, AllSplitIds;
    GroupsOfFour(panes);
    var groups := ColumnGroups(panes);
    var columns := BuildColumns(groups, nextId);
    BuiltColumnsIds(groups, nextId);
    EqualNodesIds(columns.nodes, Right, columns.nextId);
    IdRangeSplits(nextId, |panes| - |groups|, |groups| - 1);
  }
}
