/** The rectangles of a layout tile its area: every cell belongs to exactly one pane (layout.rs:447-598). */
module Tiling {
  import opened Prelude
  import opened SplitTree
  import opened Layout

  /** Number of rectangles that cover one cell. */
  function CoverCount(placed: seq<Placed>, px: int, py: int): nat {
    if placed == [] then 0
    else CoverCount(placed[..|placed| - 1], px, py)
         + (if placed[|placed| - 1].rect.Contains(px, py) then 1 else 0)
  }

  function Panes(placed: seq<Placed>): (panes: seq<PaneId>)
    ensures |panes| == |placed|
    ensures forall i :: 0 <= i < |placed| ==> panes[i] == placed[i].pane
  {
    seq(|placed|, i requires 0 <= i < |placed| => placed[i].pane)
  }

  /** Pairwise disjoint, and together exactly the cells of `area`. */
  ghost predicate Tiles(placed: seq<Placed>, area: Rect) {
    && (forall i, j, px, py :: 0 <= i < j < |placed| && placed[i].rect.Contains(px, py) ==>
          !placed[j].rect.Contains(px, py))
    && (forall px, py :: area.Contains(px, py) <==> Covered(placed, px, py))
    && (forall i :: 0 <= i < |placed| ==> placed[i].rect.Within(area))
  }

  ghost predicate Covered(placed: seq<Placed>, px: int, py: int) {
    exists i :: 0 <= i < |placed| && placed[i].rect.Contains(px, py)
  }

  lemma {:induction false} CoverAppend(s: seq<Placed>, t: seq<Placed>, px: int, py: int)
    ensures CoverCount(s + t, px, py) == CoverCount(s, px, py) + CoverCount(t, px, py)
    decreases |t|
  {
    if t == [] {
      assert s + t == s;
    } else {
      assert (s + t)[..|s + t| - 1] == s + t[..|t| - 1];
      CoverAppend(s, t[..|t| - 1], px, py);
    }
  }

  /** A count of zero or one means no rectangle or exactly one. */
  lemma {:induction false} CountIsMultiplicity(placed: seq<Placed>, px: int, py: int)
    ensures CoverCount(placed, px, py) == 0 <==> !Covered(placed, px, py)
    ensures CoverCount(placed, px, py) <= 1 ==>
              forall i, j :: 0 <= i < j < |placed| && placed[i].rect.Contains(px, py) ==>
                               !placed[j].rect.Contains(px, py)
  {
    if placed != [] {
      var last := |placed| - 1;
      CountIsMultiplicity(placed[..last], px, py);
      if Covered(placed[..last], px, py) {
        var i :| 0 <= i < last && placed[..last][i].rect.Contains(px, py);
        assert placed[i].rect.Contains(px, py);
      }
      if Covered(placed, px, py) && !placed[last].rect.Contains(px, py) {
        var i :| 0 <= i < |placed| && placed[i].rect.Contains(px, py);
        assert placed[..last][i].rect.Contains(px, py);
      }
      forall i, j | 0 <= i < j < |placed| && placed[i].rect.Contains(px, py) && CoverCount(placed, px, py) <= 1
        ensures !placed[j].rect.Contains(px, py)
      {
        assert placed[..last][i].rect.Contains(px, py);
        if j < last {
          assert placed[..last][j] == placed[j];
        }
      }
    }
  }

  // ----- Rows of a stack -----

  /** Closed form of the row tops: a run of headers, the expanded row, a run of headers. */
  lemma {:induction false} RowTopClosedForm(plan: StackPlan, y: nat, n: nat)
    requires plan.before <= plan.index
    requires y + plan.before + plan.expandedHeight + plan.after <= U16_MAX
    ensures RowTop(plan, y, n) == y + (
              if n <= plan.index then SatSub(n, plan.index - plan.before)
              else plan.before + plan.expandedHeight + Min(n - plan.index - 1, plan.after))
  {
    if n > 0 {
      RowTopClosedForm(plan, y, n - 1);
    }
  }

  lemma {:induction false} RowsAt(panes: seq<PaneId>, plan: StackPlan, area: Rect, n: nat, i: nat)
    requires i < n <= |panes|
    ensures Rows(panes, plan, area, n)[i]
            == Placed(panes[i], area.(y := RowTop(plan, area.y, i), height := plan.HeightAt(i)))
  {
    if i < n - 1 {
      RowsAt(panes, plan, area, n - 1, i);
    }
  }

  /** No row top saturates. */
  lemma TopsFollow(plan: StackPlan, y: nat, n: nat)
    requires plan.before <= plan.index
    requires y + plan.before + plan.expandedHeight + plan.after <= U16_MAX
    ensures RowTop(plan, y, n + 1) == RowTop(plan, y, n) + plan.HeightAt(n)
  {
    RowTopClosedForm(plan, y, n);
    RowTopClosedForm(plan, y, n + 1);
  }

  lemma {:induction false} RowsCover(panes: seq<PaneId>, plan: StackPlan, area: Rect, n: nat, px: int, py: int)
    requires n <= |panes| && plan.before <= plan.index
    requires area.y + plan.before + plan.expandedHeight + plan.after <= U16_MAX
    ensures area.y <= RowTop(plan, area.y, n)
    ensures CoverCount(Rows(panes, plan, area, n), px, py)
            == if area.x <= px < area.x + area.width && area.y <= py < RowTop(plan, area.y, n) then 1 else 0
  {
    if n > 0 {
      RowsCover(panes, plan, area, n - 1, px, py);
      TopsFollow(plan, area.y, n - 1);
      var before, row := Rows(panes, plan, area, n - 1), Rows(panes, plan, area, n)[n - 1];
      assert Rows(panes, plan, area, n)[..n - 1] == before;
    }
  }

  // ----- Whole trees -----

  lemma {:induction false} PlacementsCover(
      node: Node, area: Rect, active: Option<PaneId>, grid: Grid, px: int, py: int)
    requires Fits(area, grid)
    ensures CoverCount(Placements(node, area, active, grid), px, py) == if area.Contains(px, py) then 1 else 0
    decreases node
  {
    match node
    case Leaf(pane) =>
      assert Placements(node, area, active, grid)[..0] == [];
    case Split(_, dir, ratio, a, b) =>
      var (first, second) := ChildAreas(area, dir, ratio, grid);
      PlacementsCover(a, first, active, grid, px, py);
      PlacementsCover(b, second, active, grid, px, py);
      CoverAppend(Placements(a, first, active, grid), Placements(b, second, active, grid), px, py);
    case Stack(panes, expanded) =>
      var shown := ShownMember(panes, expanded, active);
      var plan := PlanFor(panes, shown, area);
      RowsCover(panes, plan, area, |panes|, px, py);
      RowTopClosedForm(plan, area.y, |panes|);
  }

  lemma {:induction false} PlacementsWithin(node: Node, area: Rect, active: Option<PaneId>, grid: Grid)
    requires Fits(area, grid)
    ensures forall placed :: placed in Placements(node, area, active, grid) ==> placed.rect.Within(area)
    decreases node
  {
    match node
    case Leaf(_) =>
    case Split(_, dir, ratio, a, b) =>
      var (first, second) := ChildAreas(area, dir, ratio, grid);
      PlacementsWithin(a, first, active, grid);
      PlacementsWithin(b, second, active, grid);
      AreasWithin(area, dir, ratio, grid);
    case Stack(panes, expanded) => StackWithin(panes, ShownMember(panes, expanded, active), area);
  }

  lemma AreasWithin(area: Rect, dir: SplitDir, ratio: real, grid: Grid)
    requires Fits(area, grid)
    ensures var (first, second) := ChildAreas(area, dir, ratio, grid);
            forall rect: Rect :: rect.Within(first) || rect.Within(second) ==> rect.Within(area)
  {
  }

  lemma StackWithin(panes: StackPanes, expanded: PaneId, area: Rect)
    requires area.y + area.height <= U16_MAX
    ensures forall placed :: placed in StackRows(panes, expanded, area) ==> placed.rect.Within(area)
  {
    var plan := PlanFor(panes, expanded, area);
    var rows := StackRows(panes, expanded, area);
    forall i | 0 <= i < |rows| ensures rows[i].rect.Within(area) {
      RowsAt(panes, plan, area, |panes|, i);
      RowTopClosedForm(plan, area.y, i);
    }
  }

  lemma {:induction false} RowsPanes(panes: seq<PaneId>, plan: StackPlan, area: Rect, n: nat)
    requires n <= |panes|
    ensures Panes(Rows(panes, plan, area, n)) == panes[..n]
  {
    forall i | 0 <= i < n ensures Rows(panes, plan, area, n)[i].pane == panes[i] {
      RowsAt(panes, plan, area, n, i);
    }
  }

  lemma {:induction false} PlacementsOrder(node: Node, area: Rect, active: Option<PaneId>, grid: Grid)
    ensures Panes(Placements(node, area, active, grid)) == PaneIds(node)
    decreases node
  {
    hide ChildAreas, StackRows;
    match node
    case Leaf(_) =>
    case Split(_, dir, ratio, a, b) =>
      var (first, second) := ChildAreas(area, dir, ratio, grid);
      PlacementsOrder(a, first, active, grid);
      PlacementsOrder(b, second, active, grid);
      PanesAppend(Placements(a, first, active, grid), Placements(b, second, active, grid));
    case Stack(panes, expanded) =>
      StackPanesInOrder(panes, ShownMember(panes, expanded, active), area);
  }

  lemma PanesAppend(s: seq<Placed>, t: seq<Placed>)
    ensures Panes(s + t) == Panes(s) + Panes(t)
  {
  }

  lemma StackPanesInOrder(panes: StackPanes, expanded: PaneId, area: Rect)
    ensures Panes(StackRows(panes, expanded, area)) == panes
  {
    RowsPanes(panes, PlanFor(panes, expanded, area), area, |panes|);
  }

  lemma TilesFromCounts(placed: seq<Placed>, area: Rect)
    requires forall px, py :: CoverCount(placed, px, py) == if area.Contains(px, py) then 1 else 0
    requires forall i :: 0 <= i < |placed| ==> placed[i].rect.Within(area)
    ensures Tiles(placed, area)
  {
    forall px, py ensures area.Contains(px, py) <==> Covered(placed, px, py) {
      CountIsMultiplicity(placed, px, py);
    }
    forall i, j, px, py | 0 <= i < j < |placed| && placed[i].rect.Contains(px, py)
      ensures !placed[j].rect.Contains(px, py)
    {
      CountIsMultiplicity(placed, px, py);
    }
  }

  /** Main result: panes tile the area exactly, in pane order, for every tree, ratio, rounding and rectangle. */
  lemma LayoutTilesScreen(root: Node, area: Rect, active: Option<PaneId>, grid: Grid)
    requires Fits(area, grid)
    ensures Tiles(Placements(root, area, active, grid), area)
    ensures Panes(Placements(root, area, active, grid)) == PaneIds(root)
  {
    hide Placements, CoverCount, Tiles, Fits, Panes, PaneIds;
    PlacementsWithin(root, area, active, grid);
    PlacementsOrder(root, area, active, grid);
    forall px, py
      ensures CoverCount(Placements(root, area, active, grid), px, py) == if area.Contains(px, py) then 1 else 0
    {
      PlacementsCover(root, area, active, grid, px, py);
    }
    TilesFromCounts(Placements(root, area, active, grid), area);
  }

  /** Hit testing: a cell of the area finds the one pane that covers it, any other cell finds none. */
  lemma {:induction false} PaneAtFindsFirst(placed: seq<Placed>, px: nat, py: nat)
    ensures PaneAt(placed, px, py).Some? <==> Covered(placed, px, py)
    ensures PaneAt(placed, px, py).Some? ==>
              exists i :: 0 <= i < |placed| && placed[i] == Placed(PaneAt(placed, px, py).value, placed[i].rect)
                          && placed[i].rect.Contains(px, py)
  {
    if placed != [] && !placed[0].rect.Contains(px, py) {
      var rest := placed[1..];
      PaneAtFindsFirst(rest, px, py);
      if Covered(rest, px, py) {
        var i :| 0 <= i < |rest| && rest[i] == Placed(PaneAt(rest, px, py).value, rest[i].rect)
                 && rest[i].rect.Contains(px, py);
        assert placed[i + 1] == rest[i];
      }
      if Covered(placed, px, py) {
        var i :| 0 <= i < |placed| && placed[i].rect.Contains(px, py);
        assert rest[i - 1] == placed[i];
      }
    }
  }

  lemma PaneAtIsExact(root: Node, area: Rect, active: Option<PaneId>, grid: Grid, px: nat, py: nat, i: nat)
    requires Fits(area, grid)
    ensures var placed := Placements(root, area, active, grid);
            && (PaneAt(placed, px, py).Some? <==> area.Contains(px, py))
            && (i < |placed| && placed[i].rect.Contains(px, py) ==> PaneAt(placed, px, py) == Some(placed[i].pane))
  {
    var placed := Placements(root, area, active, grid);
    LayoutTilesScreen(root, area, active, grid);
    PaneAtFindsFirst(placed, px, py);
    if i < |placed| && placed[i].rect.Contains(px, py) {
      var j :| 0 <= j < |placed| && placed[j] == Placed(PaneAt(placed, px, py).value, placed[j].rect)
               && placed[j].rect.Contains(px, py);
    }
  }

  /** The first side of a split lies wholly left of (or above) the second. */
  lemma FirstSideComesFirst(node: Node, area: Rect, active: Option<PaneId>, grid: Grid)
    requires node.Split? && Fits(area, grid) && !TooSmall(area, node.dir)
    ensures var (first, second) := ChildAreas(area, node.dir, node.ratio, grid);
            && (forall placed :: placed in Placements(node.a, first, active, grid) ==>
                  if node.dir.Right? then placed.rect.x + placed.rect.width <= second.x
                  else placed.rect.y + placed.rect.height <= second.y)
            && (forall placed :: placed in Placements(node.b, second, active, grid) ==>
                  if node.dir.Right? then second.x <= placed.rect.x else second.y <= placed.rect.y)
  {
    var (first, second) := ChildAreas(area, node.dir, node.ratio, grid);
    PlacementsWithin(node.a, first, active, grid);
    PlacementsWithin(node.b, second, active, grid);
  }

  /** In a stack of nonzero height the visible rows are one contiguous window: single-row headers around a
      nonempty expanded pane, as many headers as fit, as even on both sides as membership allows. */
  lemma StackWindow(panes: StackPanes, expanded: PaneId, area: Rect)
    requires area.height > 0
    ensures var rows := StackRows(panes, expanded, area);
            var plan := PlanFor(panes, expanded, area);
            var (low, high) := (plan.index - plan.before, plan.index + plan.after);
            && (expanded in panes ==> panes[plan.index] == expanded)
            && rows[plan.index].rect.height > 0
            && 0 <= low <= plan.index <= high < |panes|
            && (forall i :: 0 <= i < |panes| && i != plan.index ==>
                  rows[i].rect.height == if low <= i <= high then 1 else 0)
            && (StackHeaders(panes, expanded, area)
                == set i | low <= i <= high && i != plan.index :: panes[i])
            && high - low == Min(area.height - 1, |panes| - 1)
            && (plan.before > plan.after + 1 ==> high == |panes| - 1)
            && (plan.after > plan.before ==> low == 0)
  {
    var plan := PlanFor(panes, expanded, area);
    var rows := StackRows(panes, expanded, area);
    forall i | 0 <= i < |panes| ensures rows[i].rect.height == plan.HeightAt(i) {
      RowsAt(panes, plan, area, |panes|, i);
    }
    HeaderPanesMembers(panes, plan, |panes|);
  }

  lemma {:induction false} HeaderPanesMembers(panes: seq<PaneId>, plan: StackPlan, n: nat)
    requires n <= |panes|
    ensures HeaderPanes(panes, plan, n)
            == set i | 0 <= i < n && i != plan.index && plan.HeightAt(i) == 1 :: panes[i]
  {
    if n > 0 {
      HeaderPanesMembers(panes, plan, n - 1);
    }
  }

  function Frame<T>(pre: seq<T>, mid: seq<T>, post: seq<T>): seq<T> {
    pre + mid + post
  }

  lemma ExtendFrame<T>(pre: seq<T>, mid: seq<T>, post: seq<T>, more: seq<T>)
    ensures Frame(pre, mid, post) + more == Frame(pre, mid, post + more)
    ensures more + Frame(pre, mid, post) == Frame(more + pre, mid, post)
  {
  }

  /** The first split with the id, in tree order. */
  function SubtreeAt(node: Node, target: SplitId): Node {
    match node
    case Split(id, _, _, a, b) =>
      if id == target then node else if ContainsSplit(a, target) then SubtreeAt(a, target) else SubtreeAt(b, target)
    case _ => node
  }

  /** The part of the area that this split divides. */
  function AreaAt(node: Node, target: SplitId, area: Rect, grid: Grid): Rect {
    match node
    case Split(id, dir, ratio, a, b) =>
      var (first, second) := ChildAreas(area, dir, ratio, grid);
      if id == target then area
      else if ContainsSplit(a, target) then AreaAt(a, target, first, grid)
      else AreaAt(b, target, second, grid)
    case _ => area
  }

  /** Changing one split's ratio changes no rectangle outside that split's subtree. */
  lemma {:induction false} RatioChangeIsLocal(
      node: Node, target: SplitId, ratio: real, area: Rect, active: Option<PaneId>, grid: Grid)
    returns (pre: seq<Placed>, sub: Node, subArea: Rect, post: seq<Placed>)
    requires ContainsSplit(node, target)
    ensures sub == SubtreeAt(node, target) && subArea == AreaAt(node, target, area, grid)
    ensures sub.Split? && sub.id == target
    ensures Placements(node, area, active, grid) == Frame(pre, Placements(sub, subArea, active, grid), post)
    ensures Placements(SetSplitRatio(node, target, ratio).node, area, active, grid)
            == Frame(pre, Placements(sub.(ratio := ratio), subArea, active, grid), post)
    decreases node
  {
    hide Placements, SetSplitRatio, ChildAreas, Frame;
    var Split(id, dir, current, a, b) := node;
    SetRatioInto(node, target, ratio);
    if id == target {
      pre, sub, subArea, post := [], node, area, [];
      BareFrame(Placements(node, area, active, grid));
      BareFrame(Placements(node.(ratio := ratio), area, active, grid));
    } else {
      var (first, second) := ChildAreas(area, dir, current, grid);
      var before, after := Placements(a, first, active, grid), Placements(b, second, active, grid);
      SplitPlacements(node, area, active, grid);
      if ContainsSplit(a, target) {
        pre, sub, subArea, post := RatioChangeIsLocal(a, target, ratio, first, active, grid);
        SplitPlacements(node.(a := SetSplitRatio(a, target, ratio).node), area, active, grid);
        ExtendFrame(pre, Placements(sub, subArea, active, grid), post, after);
        ExtendFrame(pre, Placements(sub.(ratio := ratio), subArea, active, grid), post, after);
        post := post + after;
      } else {
        pre, sub, subArea, post := RatioChangeIsLocal(b, target, ratio, second, active, grid);
        SplitPlacements(node.(b := SetSplitRatio(b, target, ratio).node), area, active, grid);
        ExtendFrame(pre, Placements(sub, subArea, active, grid), post, before);
        ExtendFrame(pre, Placements(sub.(ratio := ratio), subArea, active, grid), post, before);
        pre := before + pre;
      }
    }
  }

  lemma SetRatioInto(node: Node, target: SplitId, ratio: real)
    requires ContainsSplit(node, target)
    ensures node.Split?
    ensures var changed := SetSplitRatio(node, target, ratio).node;
            if node.id == target then changed == node.(ratio := ratio)
            else if ContainsSplit(node.a, target) then changed == node.(a := SetSplitRatio(node.a, target, ratio).node)
            else ContainsSplit(node.b, target) && changed == node.(b := SetSplitRatio(node.b, target, ratio).node)
  {
    if node.Split? {
      SplitRatioAfterSet(node.a, target, ratio, target);
    }
  }

  lemma BareFrame<T>(mid: seq<T>)
    ensures Frame([], mid, []) == mid
  {
  }

  lemma SplitPlacements(node: Node, area: Rect, active: Option<PaneId>, grid: Grid)
    requires node.Split?
    ensures var (first, second) := ChildAreas(area, node.dir, node.ratio, grid);
            Placements(node, area, active, grid)
            == Placements(node.a, first, active, grid) + Placements(node.b, second, active, grid)
  {
  }
}
