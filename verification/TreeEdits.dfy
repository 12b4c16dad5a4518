/** Where an edit takes place in the tree, and what it leaves alone (model.rs:233-361). */
module TreeEdits {
  import opened Prelude
  import opened SplitTree
  import opened Layout
  import opened Tiling

  // ----- Splitting a pane -----

  /** The first leaf or stack that holds a pane, in tree order. */
  function HolderOf(node: Node, target: PaneId): (holder: Node)
    requires target in PaneIds(node)
    ensures !holder.Split? && target in PaneIds(holder)
  {
    if !node.Split? then node
    else if target in PaneIds(node.a) then HolderOf(node.a, target)
    else HolderOf(node.b, target)
  }

  /** The area in which it is laid out. */
  function HolderArea(node: Node, target: PaneId, area: Rect, grid: Grid): Rect
    requires target in PaneIds(node)
  {
    if !node.Split? then area
    else
      var (first, second) := ChildAreas(area, node.dir, node.ratio, grid);
      if target in PaneIds(node.a) then HolderArea(node.a, target, first, grid)
      else HolderArea(node.b, target, second, grid)
  }

  /** A stack comes to expand the pane that is divided. */
  function ShowingTarget(holder: Node, target: PaneId): Node {
    if holder.Stack? then Stack(holder.panes, target) else holder
  }

  /** The holder's panes in the first half of its area, the new pane in the second. */
  function Halved(
      holder: Node, target: PaneId, newPane: PaneId, dir: SplitDir, area: Rect, active: Option<PaneId>, grid: Grid)
    : seq<Placed>
  {
    var (first, second) := ChildAreas(area, dir, 0.5, grid);
    Placements(ShowingTarget(holder, target), first, active, grid) + [Placed(newPane, second)]
  }

  lemma SplitHereHalves(
      node: Node, target: PaneId, splitId: SplitId, dir: SplitDir, newPane: PaneId, area: Rect,
      active: Option<PaneId>, grid: Grid)
    requires target in PaneIds(node) && !node.Split?
    ensures SplitLeaf(node, target, splitId, dir, newPane).node
            == Split(splitId, dir, 0.5, ShowingTarget(node, target), Leaf(newPane))
    ensures Placements(SplitLeaf(node, target, splitId, dir, newPane).node, area, active, grid)
            == Halved(node, target, newPane, dir, area, active, grid)
  {
  }

  /** Splitting a pane divides exactly the part of the area that its leaf or stack had, in halves and in the given
      direction; every other rectangle stays as it was. */
  lemma {:induction false} SplitIsLocal(
      node: Node, target: PaneId, splitId: SplitId, dir: SplitDir, newPane: PaneId, area: Rect,
      active: Option<PaneId>, grid: Grid)
    returns (pre: seq<Placed>, post: seq<Placed>)
    requires target in PaneIds(node)
    ensures var (holder, own) := (HolderOf(node, target), HolderArea(node, target, area, grid));
            && Placements(node, area, active, grid) == Frame(pre, Placements(holder, own, active, grid), post)
            && Placements(SplitLeaf(node, target, splitId, dir, newPane).node, area, active, grid)
               == Frame(pre, Halved(holder, target, newPane, dir, own, active, grid), post)
    decreases node
  {
    hide Placements, SplitLeaf, ChildAreas, Frame, Halved;
    var split := SplitLeaf(node, target, splitId, dir, newPane).node;
    if !node.Split? {
      pre, post := [], [];
      BareFrame(Placements(node, area, active, grid));
      BareFrame(Halved(node, target, newPane, dir, area, active, grid));
      SplitHereHalves(node, target, splitId, dir, newPane, area, active, grid);
    } else {
      var (first, second) := ChildAreas(area, node.dir, node.ratio, grid);
      SplitInto(node, target, splitId, dir, newPane);
      SplitPlacements(node, area, active, grid);
      SplitPlacements(split, area, active, grid);
      var (holder, own) := (HolderOf(node, target), HolderArea(node, target, area, grid));
      if target in PaneIds(node.a) {
        var after := Placements(node.b, second, active, grid);
        pre, post := SplitIsLocal(node.a, target, splitId, dir, newPane, first, active, grid);
        ExtendFrame(pre, Placements(holder, own, active, grid), post, after);
        ExtendFrame(pre, Halved(holder, target, newPane, dir, own, active, grid), post, after);
        post := post + after;
      } else {
        var before := Placements(node.a, first, active, grid);
        pre, post := SplitIsLocal(node.b, target, splitId, dir, newPane, second, active, grid);
        ExtendFrame(pre, Placements(holder, own, active, grid), post, before);
        ExtendFrame(pre, Halved(holder, target, newPane, dir, own, active, grid), post, before);
        pre := before + pre;
      }
    }
  }

  /** The split goes into the first side that holds the pane. */
  lemma SplitInto(node: Node, target: PaneId, splitId: SplitId, dir: SplitDir, newPane: PaneId)
    requires node.Split? && target in PaneIds(node)
    ensures SplitLeaf(node, target, splitId, dir, newPane).node
            == if target in PaneIds(node.a) then node.(a := SplitLeaf(node.a, target, splitId, dir, newPane).node)
               else node.(b := SplitLeaf(node.b, target, splitId, dir, newPane).node)
  {
    SplitLeafSucceeds(node.a, target, splitId, dir, newPane);
  }

  /** The tree gains the new split and no other, right above the leaf or stack that held the pane. */
  lemma {:induction false} SplitAddsOneSplit(
      node: Node, target: PaneId, splitId: SplitId, dir: SplitDir, newPane: PaneId)
    requires target in PaneIds(node) && splitId !in SplitIds(node)
    ensures var split := SplitLeaf(node, target, splitId, dir, newPane).node;
            && multiset(SplitIds(split)) == multiset(SplitIds(node)) + multiset{splitId}
            && SubtreeAt(split, splitId)
               == Split(splitId, dir, 0.5, ShowingTarget(HolderOf(node, target), target), Leaf(newPane))
  {
    hide SplitLeaf, SplitIds;
    var split := SplitLeaf(node, target, splitId, dir, newPane).node;
    if node.Split? {
      SplitInto(node, target, splitId, dir, newPane);
      IdsOfSplit(node);
      IdsOfSplit(split);
      if target in PaneIds(node.a) {
        SplitAddsOneSplit(node.a, target, splitId, dir, newPane);
      } else {
        SplitAddsOneSplit(node.b, target, splitId, dir, newPane);
      }
    } else {
      SplitHereIs(node, target, splitId, dir, newPane);
    }
  }

  lemma IdsOfSplit(node: Node)
    requires node.Split?
    ensures multiset(SplitIds(node)) == multiset{node.id} + multiset(SplitIds(node.a)) + multiset(SplitIds(node.b))
    ensures forall id :: id in SplitIds(node) <==> id == node.id || id in SplitIds(node.a) || id in SplitIds(node.b)
    ensures forall id :: id in SplitIds(node) <==> id in multiset(SplitIds(node))
  {
  }

  lemma SplitHereIs(node: Node, target: PaneId, splitId: SplitId, dir: SplitDir, newPane: PaneId)
    requires target in PaneIds(node) && !node.Split?
    ensures var split := SplitLeaf(node, target, splitId, dir, newPane).node;
            && split == Split(splitId, dir, 0.5, ShowingTarget(node, target), Leaf(newPane))
            && multiset(SplitIds(split)) == multiset{splitId} && multiset(SplitIds(node)) == multiset{}
  {
  }

  // ----- Parts of a tree under removal and exchange -----

  predicate Occurs(part: Node, node: Node) {
    part == node || (node.Split? && (Occurs(part, node.a) || Occurs(part, node.b)))
  }

  /** What removal does to a part it does in the whole tree. */
  lemma {:induction false} RemovalInParts(part: Node, node: Node, target: PaneId)
    requires Occurs(part, node) && RemoveLeaf(part, target).Some?
    ensures RemoveLeaf(node, target).Some?
    ensures Occurs(RemoveLeaf(part, target).value, RemoveLeaf(node, target).value)
  {
    if part != node {
      if Occurs(part, node.a) {
        RemovalInParts(part, node.a, target);
      } else {
        RemovalInParts(part, node.b, target);
      }
    }
  }

  /** Whichever pane goes, a stack of which two panes stay keeps them in order and keeps its expanded pane, or expands
      the last that stays if the expanded one went; of which one stays, it becomes that pane's leaf. */
  lemma StacksAfterRemoval(panes: StackPanes, expanded: PaneId, node: Node, target: PaneId)
    requires Occurs(Stack(panes, expanded), node) && expanded in panes
    ensures var (kept, left) := (Without(panes, target), RemoveLeaf(node, target));
            && (|kept| >= 2 ==>
                  var shown := if target == expanded then kept[|kept| - 1] else expanded;
                  left.Some? && Occurs(Stack(kept, shown), left.value))
            && (|kept| == 1 && target in panes ==> left.Some? && Occurs(Leaf(kept[0]), left.value))
            && (target !in panes ==> left.Some? && Occurs(Stack(panes, expanded), left.value))
  {
    WithoutSome(panes, target);
    if target !in panes {
      WithoutAbsent(panes, target);
    }
    if RemoveLeaf(Stack(panes, expanded), target).Some? {
      RemovalInParts(Stack(panes, expanded), node, target);
    }
  }

  lemma WithoutSome(panes: seq<PaneId>, target: PaneId)
    ensures |Without(panes, target)| == 0 <==> forall p :: p in panes ==> p == target
  {
    if |Without(panes, target)| > 0 {
      assert Without(panes, target)[0] in Without(panes, target);
    }
  }

  /** A split whose two sides keep panes keeps its id, direction and ratio; one that loses a side gives way to the
      other. */
  lemma SplitsAfterRemoval(part: Node, node: Node, target: PaneId)
    requires part.Split? && Occurs(part, node)
    ensures var (a, b, left) := (RemoveLeaf(part.a, target), RemoveLeaf(part.b, target), RemoveLeaf(node, target));
            && (a.Some? && b.Some? ==> left.Some? && Occurs(part.(a := a.value, b := b.value), left.value))
            && (a.Some? && b.None? ==> left.Some? && Occurs(a.value, left.value))
            && (a.None? && b.Some? ==> left.Some? && Occurs(b.value, left.value))
  {
    if RemoveLeaf(part, target).Some? {
      RemovalInParts(part, node, target);
    }
  }

  lemma {:induction false} ExchangeInParts(part: Node, node: Node, first: PaneId, second: PaneId)
    requires Occurs(part, node)
    ensures Occurs(SwapLeafIds(part, first, second), SwapLeafIds(node, first, second))
  {
    if part != node {
      if Occurs(part, node.a) {
        ExchangeInParts(part, node.a, first, second);
      } else {
        ExchangeInParts(part, node.b, first, second);
      }
    }
  }

  /** A stack's pane at one place after an exchange. */
  function Exchanged(pane: PaneId, first: PaneId, second: PaneId): PaneId {
    if pane == first then second else if pane == second then first else pane
  }

  /** After an exchange a stack expands what stands where its expanded pane stood, unless both panes are its own: then
      it still expands the same pane, wherever that stands now. */
  lemma StacksAfterExchange(panes: StackPanes, expanded: PaneId, node: Node, first: PaneId, second: PaneId)
    returns (swapped: StackPanes)
    requires Occurs(Stack(panes, expanded), node)
    ensures |swapped| == |panes|
    ensures forall i :: 0 <= i < |panes| ==> swapped[i] == Exchanged(panes[i], first, second)
    ensures Occurs(Stack(swapped, if first in panes && second in panes then expanded
                                  else if first in panes || second in panes then Exchanged(expanded, first, second)
                                  else expanded), SwapLeafIds(node, first, second))
  {
    swapped := SwapAll(panes, first, second);
    ExchangeInParts(Stack(panes, expanded), node, first, second);
  }

  /** Splits keep id, direction and ratio through an exchange. */
  lemma SplitsAfterExchange(part: Node, node: Node, first: PaneId, second: PaneId)
    requires part.Split? && Occurs(part, node)
    ensures Occurs(part.(a := SwapLeafIds(part.a, first, second), b := SwapLeafIds(part.b, first, second)),
                   SwapLeafIds(node, first, second))
  {
    ExchangeInParts(part, node, first, second);
  }
}
