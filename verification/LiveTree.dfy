/** The split tree while it is edited: nodes own their children and change in place (model.rs:233-309, 401-414). */
module LiveTree {
  import opened Prelude
  import opened SplitTree

  datatype Shape =
    | LeafShape(pane: PaneId)
    | SplitShape(id: SplitId, dir: SplitDir, ratio: real, a: TreeNode, b: TreeNode)
    | StackShape(panes: StackPanes, expanded: PaneId)

  class TreeNode {
    var shape: Shape
    ghost var repr: set<TreeNode>
    ghost var tree: Node

    /** `repr` holds the nodes of this subtree, no node twice; `tree` is the value it stands for. */
    ghost predicate Valid()
      reads this, repr
      decreases repr
    {
      && this in repr
      && match shape
         case LeafShape(pane) => tree == Leaf(pane)
         case StackShape(panes, expanded) => tree == Stack(panes, expanded)
         case SplitShape(id, dir, ratio, a, b) =>
           && a in repr && a.repr <= repr - {this} && b in repr && b.repr <= repr - {this} && a.repr !! b.repr
           && a.Valid() && b.Valid()
           && tree == Split(id, dir, ratio, a.tree, b.tree)
    }

    constructor NewLeaf(pane: PaneId)
      ensures Valid() && fresh(repr) && tree == Leaf(pane)
    {
      shape, tree := LeafShape(pane), Leaf(pane);
      new;
      repr := {this};
    }

    constructor NewStack(panes: StackPanes, expanded: PaneId)
      ensures Valid() && fresh(repr) && tree == Stack(panes, expanded)
    {
      shape, tree := StackShape(panes, expanded), Stack(panes, expanded);
      new;
      repr := {this};
    }

    method HasPane(target: PaneId) returns (found: bool)
      requires Valid()
      ensures found <==> Contains(tree, target)
      decreases repr
    {
      match shape
      case LeafShape(pane) => found := pane == target;
      case StackShape(panes, _) => found := target in panes;
      case SplitShape(_, _, _, a, b) =>
        found := a.HasPane(target);
        if !found {
          found := b.HasPane(target);
        }
    }

    method ExchangePanes(first: PaneId, second: PaneId)
      requires Valid()
      modifies repr
      ensures Valid() && fresh(repr - old(repr)) && tree == SwapLeafIds(old(tree), first, second)
      decreases repr
    {
      match shape
      case LeafShape(pane) =>
        if pane == first {
          shape := LeafShape(second);
        } else if pane == second {
          shape := LeafShape(first);
        }
        tree := Leaf(shape.pane);
      case StackShape(panes, expanded) =>
        var crosses := (first in panes) != (second in panes);
        var exchanged := ExchangeMembers(panes, first, second);
        var shown := if crosses then SwapId(expanded, first, second) else expanded;
        shape := StackShape(exchanged, shown);
        tree := Stack(exchanged, shown);
      case SplitShape(id, dir, ratio, a, b) =>
        a.ExchangePanes(first, second);
        b.ExchangePanes(first, second);
        repr := repr + a.repr + b.repr;
        tree := Split(id, dir, ratio, a.tree, b.tree);
    }

    method Swap(first: PaneId, second: PaneId) returns (done: bool)
      requires Valid()
      modifies repr
      ensures Valid() && fresh(repr - old(repr)) && Edit(tree, done) == SwapLeaves(old(tree), first, second)
    {
      if first == second {
        return false;
      }
      var hasFirst := HasPane(first);
      var hasSecond := HasPane(second);
      if !hasFirst || !hasSecond {
        return false;
      }
      ExchangePanes(first, second);
      return true;
    }

    method SplitPane(target: PaneId, splitId: SplitId, dir: SplitDir, newPane: PaneId) returns (done: bool)
      requires Valid()
      modifies repr
      ensures Valid() && fresh(repr - old(repr))
      ensures Edit(tree, done) == SplitLeaf(old(tree), target, splitId, dir, newPane)
      decreases repr
    {
      if shape.SplitShape? {
        var SplitShape(id, d, ratio, a, b) := shape;
        done := a.SplitPane(target, splitId, dir, newPane);
        if !done {
          UnchangedBySplit(old(a.tree), target, splitId, dir, newPane);
          done := b.SplitPane(target, splitId, dir, newPane);
        }
        repr := repr + a.repr + b.repr;
        tree := Split(id, d, ratio, a.tree, b.tree);
      } else if shape.LeafShape? && shape.pane == target {
        var before := new TreeNode.NewLeaf(shape.pane);
        Divide(before, splitId, dir, newPane);
        done := true;
      } else if shape.StackShape? && target in shape.panes {
        var before := new TreeNode.NewStack(shape.panes, target);
        Divide(before, splitId, dir, newPane);
        done := true;
      } else {
        done := false;
      }
    }

    /** Becomes a half-and-half split of what stood here and a new leaf. */
    method Divide(before: TreeNode, splitId: SplitId, dir: SplitDir, newPane: PaneId)
      requires before.Valid() && this !in before.repr
      modifies this
      ensures Valid() && fresh(repr - before.repr - {this})
      ensures tree == Split(splitId, dir, 0.5, before.tree, Leaf(newPane))
    {
      var added := new TreeNode.NewLeaf(newPane);
      shape := SplitShape(splitId, dir, 0.5, before, added);
      repr := {this} + before.repr + added.repr;
      tree := Split(splitId, dir, 0.5, before.tree, added.tree);
    }

    method SetRatio(target: SplitId, newRatio: real) returns (done: bool)
      requires Valid()
      modifies repr
      ensures Valid() && fresh(repr - old(repr)) && Edit(tree, done) == SetSplitRatio(old(tree), target, newRatio)
      decreases repr
    {
      match shape
      case LeafShape(_) => done := false;
      case StackShape(_, _) => done := false;
      case SplitShape(id, dir, ratio, a, b) =>
        if id == target {
          shape := SplitShape(id, dir, newRatio, a, b);
          tree := Split(id, dir, newRatio, a.tree, b.tree);
          return true;
        }
        done := a.SetRatio(target, newRatio);
        if !done {
          UnchangedByRatio(old(a.tree), target, newRatio);
          done := b.SetRatio(target, newRatio);
        }
        repr := repr + a.repr + b.repr;
        tree := Split(id, dir, ratio, a.tree, b.tree);
    }
  }

  method ExchangeMembers(panes: StackPanes, first: PaneId, second: PaneId) returns (exchanged: StackPanes)
    ensures exchanged == SwapAll(panes, first, second)
  {
    exchanged := panes;
    var i := 0;
    while i < |panes|
      invariant 0 <= i <= |panes| && |exchanged| == |panes|
      invariant forall j :: 0 <= j < i ==> exchanged[j] == SwapId(panes[j], first, second)
      invariant forall j :: i <= j < |panes| ==> exchanged[j] == panes[j]
    {
      if exchanged[i] == first {
        exchanged := exchanged[i := second];
      } else if exchanged[i] == second {
        exchanged := exchanged[i := first];
      }
      i := i + 1;
    }
  }

  lemma UnchangedBySplit(node: Node, target: PaneId, splitId: SplitId, dir: SplitDir, newPane: PaneId)
    ensures !SplitLeaf(node, target, splitId, dir, newPane).done ==>
              SplitLeaf(node, target, splitId, dir, newPane).node == node
  {
    SplitLeafSucceeds(node, target, splitId, dir, newPane);
  }

  lemma UnchangedByRatio(node: Node, target: SplitId, ratio: real)
    ensures !SetSplitRatio(node, target, ratio).done ==> SetSplitRatio(node, target, ratio).node == node
  {
    SplitRatioAfterSet(node, target, ratio, target);
  }
}
