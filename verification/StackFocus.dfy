/** Which pane of a stack is shown in full, in whole screens (layout.rs:593-597, 745-782). */
module StackFocus {
  import opened Prelude
  import opened SplitTree
  import opened Layout
  import opened Tiling

  /** The walk reaches this part of the tree with this area. */
  predicate LaidOutAt(part: Node, partArea: Rect, node: Node, area: Rect, grid: Grid)
    decreases node
  {
    || (part == node && partArea == area)
    || (node.Split? &&
        var (first, second) := ChildAreas(area, node.dir, node.ratio, grid);
        LaidOutAt(part, partArea, node.a, first, grid) || LaidOutAt(part, partArea, node.b, second, grid))
  }

  /** The rows a stack has for its expanded pane once as many headers as possible have one row each. */
  function FullRows(height: nat, panes: nat): int {
    height - Min(height - 1, panes - 1)
  }

  /** The pane has the whole width and all rows that headers leave, and is not reported as a header. */
  ghost predicate ShownInFull(
      pane: PaneId, stack: Node, stackArea: Rect, placed: seq<Placed>, headers: set<PaneId>)
    requires stack.Stack?
  {
    && pane !in headers
    && exists rect ::
         && Placed(pane, rect) in placed
         && rect.x == stackArea.x && rect.width == stackArea.width
         && rect.height == FullRows(stackArea.height, |stack.panes|)
  }

  /** Every other member is a header of one row, or hidden with none. */
  ghost predicate OthersAreHeaders(pane: PaneId, stack: Node, placed: seq<Placed>, headers: set<PaneId>)
    requires stack.Stack?
  {
    forall other :: other in stack.panes && other != pane ==> HeaderOrHidden(other, placed, headers)
  }

  ghost predicate HeaderOrHidden(other: PaneId, placed: seq<Placed>, headers: set<PaneId>) {
    exists rect ::
      && Placed(other, rect) in placed
      && rect.height == if other in headers then 1 else 0
  }

  lemma {:induction false} HeadersArePanes(node: Node, area: Rect, active: Option<PaneId>, grid: Grid)
    ensures forall p :: p in Headers(node, area, active, grid) ==> p in PaneIds(node)
    decreases node
  {
    hide ChildAreas;
    match node
    case Leaf(_) =>
    case Split(_, dir, ratio, a, b) =>
      var (first, second) := ChildAreas(area, dir, ratio, grid);
      HeadersArePanes(a, first, active, grid);
      HeadersArePanes(b, second, active, grid);
    case Stack(panes, expanded) =>
      HeaderPanesMembers(panes, PlanFor(panes, ShownMember(panes, expanded, active), area), |panes|);
  }

  lemma {:induction false} PartsHavePanes(part: Node, partArea: Rect, node: Node, area: Rect, grid: Grid)
    requires LaidOutAt(part, partArea, node, area, grid)
    ensures forall p :: p in PaneIds(part) ==> p in PaneIds(node)
    decreases node
  {
    if part != node || partArea != area {
      var (first, second) := ChildAreas(area, node.dir, node.ratio, grid);
      if LaidOutAt(part, partArea, node.a, first, grid) {
        PartsHavePanes(part, partArea, node.a, first, grid);
      } else {
        PartsHavePanes(part, partArea, node.b, second, grid);
      }
    }
  }

  /** Among distinct panes, what a part of the tree places and reports is what the screen does with its panes. */
  lemma {:induction false} PartOfScreen(
      part: Node, partArea: Rect, node: Node, area: Rect, active: Option<PaneId>, grid: Grid)
    requires LaidOutAt(part, partArea, node, area, grid) && Distinct(PaneIds(node))
    ensures forall p :: p in Placements(part, partArea, active, grid) ==> p in Placements(node, area, active, grid)
    ensures forall p :: p in PaneIds(part) ==>
              (p in Headers(node, area, active, grid) <==> p in Headers(part, partArea, active, grid))
    decreases node
  {
    hide ChildAreas, StackRows, StackHeaders;
    if part != node || partArea != area {
      var (first, second) := ChildAreas(area, node.dir, node.ratio, grid);
      DistinctAppend(PaneIds(node.a), PaneIds(node.b));
      HeadersArePanes(node.a, first, active, grid);
      HeadersArePanes(node.b, second, active, grid);
      if LaidOutAt(part, partArea, node.a, first, grid) {
        PartsHavePanes(part, partArea, node.a, first, grid);
        PartOfScreen(part, partArea, node.a, first, active, grid);
      } else {
        PartsHavePanes(part, partArea, node.b, second, grid);
        PartOfScreen(part, partArea, node.b, second, active, grid);
      }
    }
  }

  /** The rows of one stack, when a member is expanded. */
  lemma StackRowsByMember(panes: StackPanes, expanded: PaneId, area: Rect)
    requires area.height > 0 && expanded in panes && Distinct(panes)
    ensures var (rows, headers) := (StackRows(panes, expanded, area), StackHeaders(panes, expanded, area));
            && ShownInFull(expanded, Stack(panes, expanded), area, rows, headers)
            && OthersAreHeaders(expanded, Stack(panes, expanded), rows, headers)
  {
    var plan := PlanFor(panes, expanded, area);
    var (rows, headers) := (StackRows(panes, expanded, area), StackHeaders(panes, expanded, area));
    HeaderPanesMembers(panes, plan, |panes|);
    RowsAt(panes, plan, area, |panes|, plan.index);
    assert rows[plan.index] in rows;
    assert ShownInFull(expanded, Stack(panes, expanded), area, rows, headers) by {
      var rect := rows[plan.index].rect;
      assert Placed(expanded, rect) in rows;
    }
    forall other | other in panes && other != expanded ensures HeaderOrHidden(other, rows, headers) {
      var i :| 0 <= i < |panes| && panes[i] == other;
      RowsAt(panes, plan, area, |panes|, i);
      assert rows[i] in rows && Placed(other, rows[i].rect) == rows[i];
    }
  }

  /** Main result: in a laid-out screen with distinct panes, the pane a stack shows in full is the active pane if that
      is one of its members, and otherwise the one the stack itself expands; every other member is a header. */
  lemma {:induction false} FocusedMemberIsExpanded(
      root: Node, area: Rect, active: Option<PaneId>, grid: Grid, stack: Node, stackArea: Rect, pane: PaneId)
    requires Distinct(PaneIds(root)) && StacksExpandMembers(stack)
    requires stack.Stack? && LaidOutAt(stack, stackArea, root, area, grid) && stackArea.height > 0
    requires pane in stack.panes
    requires active == Some(pane) || (pane == stack.expanded && (active.Some? ==> active.value !in stack.panes))
    ensures var (placed, headers) := (Placements(root, area, active, grid), Headers(root, area, active, grid));
            && ShownInFull(pane, stack, stackArea, placed, headers)
            && OthersAreHeaders(pane, stack, placed, headers)
  {
    hide Placements, Headers, LaidOutAt;
    PartOfScreen(stack, stackArea, root, area, active, grid);
    StackIsDistinct(stack, stackArea, root, area, grid);
    StackRowsByMember(stack.panes, pane, stackArea);
    StackOnItsOwn(stack, stackArea, active, grid, pane);
    var (own, ownHeaders) := (Placements(stack, stackArea, active, grid), Headers(stack, stackArea, active, grid));
    assert ShownInFull(pane, stack, stackArea, own, ownHeaders);
    forall other | other in stack.panes && other != pane
      ensures HeaderOrHidden(other, Placements(root, area, active, grid), Headers(root, area, active, grid))
    {
      assert HeaderOrHidden(other, own, ownHeaders);
    }
  }

  lemma StackOnItsOwn(stack: Node, stackArea: Rect, active: Option<PaneId>, grid: Grid, pane: PaneId)
    requires stack.Stack? && pane in stack.panes
    requires active == Some(pane) || (pane == stack.expanded && (active.Some? ==> active.value !in stack.panes))
    ensures Placements(stack, stackArea, active, grid) == StackRows(stack.panes, pane, stackArea)
    ensures Headers(stack, stackArea, active, grid) == StackHeaders(stack.panes, pane, stackArea)
  {
  }

  lemma {:induction false} StackIsDistinct(part: Node, partArea: Rect, node: Node, area: Rect, grid: Grid)
    requires LaidOutAt(part, partArea, node, area, grid) && Distinct(PaneIds(node))
    ensures Distinct(PaneIds(part))
    decreases node
  {
    if part != node || partArea != area {
      var (first, second) := ChildAreas(area, node.dir, node.ratio, grid);
      DistinctAppend(PaneIds(node.a), PaneIds(node.b));
      if LaidOutAt(part, partArea, node.a, first, grid) {
        StackIsDistinct(part, partArea, node.a, first, grid);
      } else {
        StackIsDistinct(part, partArea, node.b, second, grid);
      }
    }
  }

  /** A side for which there is no room collapses to nothing: none of its panes has any width or height. */
  lemma {:induction false} NothingWithoutRoom(node: Node, area: Rect, active: Option<PaneId>, grid: Grid)
    requires area.width == 0 && area.height == 0
    ensures forall p :: p in Placements(node, area, active, grid) ==> p.rect.width == 0 && p.rect.height == 0
    decreases node
  {
    hide StackRows;
    match node
    case Leaf(_) =>
    case Split(_, dir, ratio, a, b) =>
      NothingWithoutRoom(a, area, active, grid);
      NothingWithoutRoom(b, area, active, grid);
      assert ChildAreas(area, dir, ratio, grid) == (area, area);
    case Stack(panes, expanded) =>
      NoRowsWithoutHeight(panes, ShownMember(panes, expanded, active), area);
  }

  lemma NoRowsWithoutHeight(panes: StackPanes, expanded: PaneId, area: Rect)
    requires area.height == 0
    ensures forall p :: p in StackRows(panes, expanded, area) ==> p.rect.width == area.width && p.rect.height == 0
  {
    var (plan, rows) := (PlanFor(panes, expanded, area), StackRows(panes, expanded, area));
    forall i | 0 <= i < |rows| ensures rows[i].rect.width == area.width && rows[i].rect.height == 0 {
      RowsAt(panes, plan, area, |panes|, i);
      assert plan.HeightAt(i) == 0;
    }
  }

  /** In an area less than two cells wide (or high) a split gives everything to its first side. */
  lemma NoRoomForTwo(node: Node, area: Rect, active: Option<PaneId>, grid: Grid)
    requires node.Split? && (if node.dir.Right? then area.width else area.height) < 2
    ensures var (first, second) := (Placements(node.a, area, active, grid),
                                    Placements(node, area, active, grid)[|Placements(node.a, area, active, grid)|..]);
            && Placements(node, area, active, grid) == first + second
            && Panes(second) == PaneIds(node.b)
            && forall p :: p in second ==> p.rect.width == 0 && p.rect.height == 0
  {
    hide Placements;
    SplitPlacements(node, area, active, grid);
    NothingWithoutRoom(node.b, Collapsed(area), active, grid);
    PlacementsOrder(node.b, Collapsed(area), active, grid);
  }
}
