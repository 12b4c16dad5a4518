/** The binary split tree of one screen (model.rs) and the edits applied to it. */
module SplitTree {
  import opened Prelude

  type PaneId = nat
  type SplitId = nat

  datatype SplitDir = Right | Down

  /** Construction rejects an empty stack, so membership is a nonempty sequence. */
  type StackPanes = s: seq<PaneId> | |s| > 0 witness [0]

  datatype Node =
    | Leaf(pane: PaneId)
    | Split(id: SplitId, dir: SplitDir, ratio: real, a: Node, b: Node)
    | Stack(panes: StackPanes, expanded: PaneId)

  /** Panes in layout order. */
  function PaneIds(node: Node): (panes: seq<PaneId>)
    ensures |panes| > 0
  {
    match node
    case Leaf(pane) => [pane]
    case Split(_, _, _, a, b) => PaneIds(a) + PaneIds(b)
    case Stack(panes, _) => panes
  }

  /** The recursive search agrees with membership in the pane list. */
  predicate Contains(node: Node, target: PaneId)
    ensures Contains(node, target) <==> target in PaneIds(node)
  {
    match node
    case Leaf(pane) => pane == target
    case Split(_, _, _, a, b) => Contains(a, target) || Contains(b, target)
    case Stack(panes, _) => target in panes
  }

  function SplitIds(node: Node): seq<SplitId> {
    match node
    case Leaf(_) => []
    case Split(id, _, _, a, b) => [id] + SplitIds(a) + SplitIds(b)
    case Stack(_, _) => []
  }

  predicate ContainsSplit(node: Node, target: SplitId)
    ensures ContainsSplit(node, target) <==> target in SplitIds(node)
  {
    match node
    case Leaf(_) => false
    case Split(id, _, _, a, b) => id == target || ContainsSplit(a, target) || ContainsSplit(b, target)
    case Stack(_, _) => false
  }

  /** What both stack constructors establish: the expanded pane is a member. */
  predicate StacksExpandMembers(node: Node) {
    match node
    case Leaf(_) => true
    case Split(_, _, _, a, b) => StacksExpandMembers(a) && StacksExpandMembers(b)
    case Stack(panes, expanded) => expanded in panes
  }

  // ----- Removing a pane -----

  function Without(panes: seq<PaneId>, target: PaneId): (r: seq<PaneId>)
    ensures target !in r
    ensures forall p :: p in r <==> p in panes && p != target
  {
    if panes == [] then []
    else if panes[0] == target then Without(panes[1..], target)
    else [panes[0]] + Without(panes[1..], target)
  }

  lemma {:induction false} WithoutAppend(s: seq<PaneId>, t: seq<PaneId>, target: PaneId)
    ensures Without(s + t, target) == Without(s, target) + Without(t, target)
  {
    if s == [] {
      assert s + t == t;
    } else {
      assert (s + t)[1..] == s[1..] + t;
      WithoutAppend(s[1..], t, target);
    }
  }

  lemma {:induction false} WithoutAbsent(panes: seq<PaneId>, target: PaneId)
    requires target !in panes
    ensures Without(panes, target) == panes
  {
    if panes != [] {
      WithoutAbsent(panes[1..], target);
    }
  }

  /** Removes a leaf, collapsing its parent split; a stack of one becomes a leaf. */
  function RemoveLeaf(node: Node, target: PaneId): Option<Node> {
    match node
    case Leaf(pane) => if pane == target then None else Some(node)
    case Split(id, dir, ratio, a, b) => (
      match (RemoveLeaf(a, target), RemoveLeaf(b, target))
      case (Some(a'), Some(b')) => Some(Split(id, dir, ratio, a', b'))
      case (Some(a'), None) => Some(a')
      case (None, Some(b')) => Some(b')
      case (None, None) => None
    )
    case Stack(panes, expanded) =>
      if target !in panes then Some(node)
      else
        var kept := Without(panes, target);
        if |kept| == 0 then None
        else if |kept| == 1 then Some(Leaf(kept[0]))
        else Some(Stack(kept, if expanded == target then kept[|kept| - 1] else expanded))
  }

  /** Removal yields the pane order minus the target, and nothing only when nothing remains. */
  lemma {:induction false} RemoveLeafKeepsOrder(node: Node, target: PaneId)
    ensures RemoveLeaf(node, target).None? <==> Without(PaneIds(node), target) == []
    ensures RemoveLeaf(node, target).Some? ==>
              PaneIds(RemoveLeaf(node, target).value) == Without(PaneIds(node), target)
    ensures RemoveLeaf(node, target).Some? && StacksExpandMembers(node) ==>
              StacksExpandMembers(RemoveLeaf(node, target).value)
  {
    match node
    case Leaf(pane) =>
    case Split(_, _, _, a, b) =>
      RemoveLeafKeepsOrder(a, target);
      RemoveLeafKeepsOrder(b, target);
      WithoutAppend(PaneIds(a), PaneIds(b), target);
    case Stack(panes, _) =>
      if target !in panes {
        WithoutAbsent(panes, target);
      }
  }

  lemma {:induction false} RemoveAbsentLeaf(node: Node, target: PaneId)
    requires target !in PaneIds(node)
    ensures RemoveLeaf(node, target) == Some(node)
  {
    match node
    case Leaf(_) =>
    case Split(_, _, _, a, b) =>
      RemoveAbsentLeaf(a, target);
      RemoveAbsentLeaf(b, target);
    case Stack(_, _) =>
  }

  // ----- Splitting a pane -----

  datatype Edit = Edit(node: Node, done: bool)

  /** Splits the first leaf or stack holding `target`; the fresh pane takes the second half. */
  function SplitLeaf(node: Node, target: PaneId, splitId: SplitId, dir: SplitDir, newPane: PaneId): Edit {
    match node
    case Leaf(pane) =>
      if pane == target then Edit(Split(splitId, dir, 0.5, node, Leaf(newPane)), true) else Edit(node, false)
    case Split(id, d, ratio, a, b) =>
      var first := SplitLeaf(a, target, splitId, dir, newPane);
      if first.done then Edit(Split(id, d, ratio, first.node, b), true)
      else
        var second := SplitLeaf(b, target, splitId, dir, newPane);
        Edit(Split(id, d, ratio, a, second.node), second.done)
    case Stack(panes, _) =>
      if target in panes then Edit(Split(splitId, dir, 0.5, Stack(panes, target), Leaf(newPane)), true)
      else Edit(node, false)
  }

  /** The tree with `target` expanded in the first stack that holds it, unless a leaf holds it first. */
  function Expanding(node: Node, target: PaneId): Node {
    match node
    case Leaf(_) => node
    case Split(id, d, ratio, a, b) =>
      if target in PaneIds(a) then Split(id, d, ratio, Expanding(a, target), b)
      else Split(id, d, ratio, a, Expanding(b, target))
    case Stack(panes, expanded) => if target in panes then Stack(panes, target) else node
  }

  /** Index just past the leaf or stack that `SplitLeaf` divides. */
  function SplitPoint(node: Node, target: PaneId): (k: nat)
    ensures k <= |PaneIds(node)|
  {
    match node
    case Leaf(_) => 1
    case Split(_, _, _, a, b) =>
      if target in PaneIds(a) then SplitPoint(a, target) else |PaneIds(a)| + SplitPoint(b, target)
    case Stack(panes, _) => |panes|
  }

  /** A split succeeds exactly for a present pane, and leaves an absent target's tree alone. */
  lemma {:induction false} SplitLeafSucceeds(
      node: Node, target: PaneId, splitId: SplitId, dir: SplitDir, newPane: PaneId)
    ensures var r := SplitLeaf(node, target, splitId, dir, newPane);
            && (r.done <==> target in PaneIds(node))
            && (!r.done ==> r.node == node)
            && (StacksExpandMembers(node) ==> StacksExpandMembers(r.node))
  {
    match node
    case Leaf(_) =>
    case Stack(_, _) =>
    case Split(_, _, _, a, b) =>
      SplitLeafSucceeds(a, target, splitId, dir, newPane);
      SplitLeafSucceeds(b, target, splitId, dir, newPane);
  }

  function InsertAt<T>(s: seq<T>, k: nat, x: T): seq<T>
    requires k <= |s|
  {
    s[..k] + [x] + s[k..]
  }

  lemma InsertAtLeft<T>(s: seq<T>, t: seq<T>, k: nat, x: T)
    requires k <= |s|
    ensures InsertAt(s + t, k, x) == InsertAt(s, k, x) + t
  {
    assert (s + t)[..k] == s[..k] && (s + t)[k..] == s[k..] + t;
  }

  lemma InsertAtRight<T>(s: seq<T>, t: seq<T>, k: nat, x: T)
    requires k <= |t|
    ensures InsertAt(s + t, |s| + k, x) == s + InsertAt(t, k, x)
  {
    assert (s + t)[..|s| + k] == s + t[..k] && (s + t)[|s| + k..] == t[k..];
  }

  /** The new pane enters the order directly after the leaf or stack that held the target. */
  lemma {:induction false} SplitLeafInserts(
      node: Node, target: PaneId, splitId: SplitId, dir: SplitDir, newPane: PaneId)
    requires target in PaneIds(node)
    ensures target in PaneIds(node)[..SplitPoint(node, target)]
    ensures PaneIds(SplitLeaf(node, target, splitId, dir, newPane).node)
            == InsertAt(PaneIds(node), SplitPoint(node, target), newPane)
  {
    hide InsertAt;
    match node
    case Leaf(_) => SplitHere(node, target, splitId, dir, newPane);
    case Stack(_, _) => SplitHere(node, target, splitId, dir, newPane);
    case Split(_, _, _, a, b) =>
      SplitLeafSucceeds(a, target, splitId, dir, newPane);
      var pa, pb := PaneIds(a), PaneIds(b);
      if target in pa {
        SplitLeafInserts(a, target, splitId, dir, newPane);
        InsertAtLeft(pa, pb, SplitPoint(a, target), newPane);
        assert (pa + pb)[..SplitPoint(a, target)] == pa[..SplitPoint(a, target)];
      } else {
        SplitLeafInserts(b, target, splitId, dir, newPane);
        InsertAtRight(pa, pb, SplitPoint(b, target), newPane);
        assert (pa + pb)[..|pa| + SplitPoint(b, target)] == pa + pb[..SplitPoint(b, target)];
      }
  }

  lemma SplitHere(node: Node, target: PaneId, splitId: SplitId, dir: SplitDir, newPane: PaneId)
    requires target in PaneIds(node) && !node.Split?
    ensures target in PaneIds(node)[..SplitPoint(node, target)]
    ensures PaneIds(SplitLeaf(node, target, splitId, dir, newPane).node)
            == InsertAt(PaneIds(node), SplitPoint(node, target), newPane)
  {
    assert PaneIds(node)[..|PaneIds(node)|] == PaneIds(node);
  }

  /** Splitting a pane and removing the fresh pane restores the tree up to the stack's expanded member. */
  lemma {:induction false} SplitThenRemoveRestores(
      node: Node, target: PaneId, splitId: SplitId, dir: SplitDir, newPane: PaneId)
    requires newPane !in PaneIds(node)
    ensures RemoveLeaf(SplitLeaf(node, target, splitId, dir, newPane).node, newPane) == Some(Expanding(node, target))
  {
    match node
    case Leaf(_) =>
    case Stack(panes, _) =>
    case Split(_, _, _, a, b) =>
      SplitThenRemoveRestores(a, target, splitId, dir, newPane);
      SplitThenRemoveRestores(b, target, splitId, dir, newPane);
      SplitLeafSucceeds(a, target, splitId, dir, newPane);
      RemoveAbsentLeaf(a, newPane);
      RemoveAbsentLeaf(b, newPane);
  }

  // ----- Swapping two panes -----

  function SwapId(pane: PaneId, first: PaneId, second: PaneId): PaneId {
    if pane == first then second else if pane == second then first else pane
  }

  function SwapAll(panes: seq<PaneId>, first: PaneId, second: PaneId): (r: seq<PaneId>)
    ensures |r| == |panes|
    ensures forall i :: 0 <= i < |panes| ==> r[i] == SwapId(panes[i], first, second)
  {
    seq(|panes|, i requires 0 <= i < |panes| => SwapId(panes[i], first, second))
  }

  function SwapLeafIds(node: Node, first: PaneId, second: PaneId): Node {
    match node
    case Leaf(pane) => Leaf(SwapId(pane, first, second))
    case Split(id, dir, ratio, a, b) =>
      Split(id, dir, ratio, SwapLeafIds(a, first, second), SwapLeafIds(b, first, second))
    case Stack(panes, expanded) =>
      var crosses := (first in panes) != (second in panes);
      Stack(SwapAll(panes, first, second), if crosses then SwapId(expanded, first, second) else expanded)
  }

  function SwapLeaves(node: Node, first: PaneId, second: PaneId): Edit {
    if first == second || !Contains(node, first) || !Contains(node, second) then Edit(node, false)
    else Edit(SwapLeafIds(node, first, second), true)
  }

  lemma SwapAllMembers(panes: seq<PaneId>, first: PaneId, second: PaneId)
    ensures forall p :: p in SwapAll(panes, first, second) <==> SwapId(p, first, second) in panes
  {
    var swapped := SwapAll(panes, first, second);
    forall p ensures p in swapped <==> SwapId(p, first, second) in panes {
      if p in swapped {
        var i :| 0 <= i < |swapped| && swapped[i] == p;
        assert SwapId(p, first, second) == panes[i];
      }
      if SwapId(p, first, second) in panes {
        var i :| 0 <= i < |panes| && panes[i] == SwapId(p, first, second);
        assert swapped[i] == p;
      }
    }
  }

  lemma {:induction false} SwapLeafIdsOrder(node: Node, first: PaneId, second: PaneId)
    ensures PaneIds(SwapLeafIds(node, first, second)) == SwapAll(PaneIds(node), first, second)
    ensures SplitIds(SwapLeafIds(node, first, second)) == SplitIds(node)
    ensures StacksExpandMembers(node) ==> StacksExpandMembers(SwapLeafIds(node, first, second))
  {
    match node
    case Leaf(_) =>
    case Split(_, _, _, a, b) =>
      SwapLeafIdsOrder(a, first, second);
      SwapLeafIdsOrder(b, first, second);
    case Stack(panes, _) =>
      SwapAllMembers(panes, first, second);
  }

  lemma {:induction false} SwapLeafIdsInvolution(node: Node, first: PaneId, second: PaneId)
    ensures SwapLeafIds(SwapLeafIds(node, first, second), first, second) == node
  {
    match node
    case Leaf(_) =>
    case Split(_, _, _, a, b) =>
      SwapLeafIdsInvolution(a, first, second);
      SwapLeafIdsInvolution(b, first, second);
    case Stack(panes, _) =>
      SwapAllMembers(panes, first, second);
      assert SwapAll(SwapAll(panes, first, second), first, second) == panes;
  }

  /** One swap exchanges the two panes in the order, keeps every split id, and is refused exactly when the panes
      coincide or one is missing. */
  lemma SwapExchanges(node: Node, first: PaneId, second: PaneId)
    ensures var once := SwapLeaves(node, first, second);
            && (once.done <==> first != second && first in PaneIds(node) && second in PaneIds(node))
            && PaneIds(once.node) == (if once.done then SwapAll(PaneIds(node), first, second) else PaneIds(node))
            && SplitIds(once.node) == SplitIds(node)
  {
    SwapLeafIdsOrder(node, first, second);
  }

  /** Swapping twice is the identity. */
  lemma SwapLeavesTwice(node: Node, first: PaneId, second: PaneId)
    ensures SwapLeaves(SwapLeaves(node, first, second).node, first, second).node == node
  {
    SwapLeafIdsInvolution(node, first, second);
    SwapExchanges(node, first, second);
    SwapAllMembers(PaneIds(node), first, second);
  }

  // ----- Ratios -----

  /** Sets the ratio of the first split carrying the id. */
  function SetSplitRatio(node: Node, target: SplitId, ratio: real): Edit {
    match node
    case Leaf(_) => Edit(node, false)
    case Split(id, dir, current, a, b) =>
      if id == target then Edit(Split(id, dir, ratio, a, b), true)
      else
        var first := SetSplitRatio(a, target, ratio);
        if first.done then Edit(Split(id, dir, current, first.node, b), true)
        else
          var second := SetSplitRatio(b, target, ratio);
          Edit(Split(id, dir, current, a, second.node), second.done)
    case Stack(_, _) => Edit(node, false)
  }

  function SplitRatio(node: Node, target: SplitId): Option<real> {
    match node
    case Leaf(_) => None
    case Split(id, _, ratio, a, b) =>
      if id == target then Some(ratio)
      else if SplitRatio(a, target).Some? then SplitRatio(a, target)
      else SplitRatio(b, target)
    case Stack(_, _) => None
  }

  /** Reading a ratio returns what was last written to that id, and no other id's ratio moves. */
  lemma {:induction false} SplitRatioAfterSet(node: Node, target: SplitId, ratio: real, other: SplitId)
    ensures var r := SetSplitRatio(node, target, ratio);
            && (r.done <==> target in SplitIds(node))
            && (!r.done ==> r.node == node)
            && PaneIds(r.node) == PaneIds(node) && SplitIds(r.node) == SplitIds(node)
            && SplitRatio(r.node, other)
               == (if other == target && r.done then Some(ratio) else SplitRatio(node, other))
    ensures SplitRatio(node, target).Some? <==> target in SplitIds(node)
  {
    match node
    case Leaf(_) =>
    case Split(_, _, _, a, b) =>
      SplitRatioAfterSet(a, target, ratio, other);
      SplitRatioAfterSet(b, target, ratio, other);
    case Stack(_, _) =>
  }
}
