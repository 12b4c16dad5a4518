/** From a pane border to the split that owns it (layout.rs:784-1054, model.rs:363-388). */
module EdgeLookup {
  import opened Prelude
  import opened SplitTree
  import opened Layout
  import opened Tiling

  datatype SplitEdge = LeftEdge | RightEdge | TopEdge | BottomEdge {
    function Dir(): SplitDir {
      if LeftEdge? || RightEdge? then Right else Down
    }

    predicate AfterFirst() {
      RightEdge? || BottomEdge?
    }
  }

  datatype SplitResize = SplitResize(area: Rect, setPane: PaneId)
  datatype ExactSplitResize = ExactSplitResize(area: Rect, split: SplitId)

  /** The pane's edge lies on the boundary between the two sides. */
  predicate OnBoundary(
      node: Node, second: Rect, pane: PaneId, paneRect: Rect, edge: SplitEdge)
    requires node.Split?
  {
    node.dir == edge.Dir() &&
    match edge
    case RightEdge => Contains(node.a, pane) && paneRect.x + paneRect.width == second.x
    case LeftEdge => Contains(node.b, pane) && paneRect.x == second.x
    case BottomEdge => Contains(node.a, pane) && paneRect.y + paneRect.height == second.y
    case TopEdge => Contains(node.b, pane) && paneRect.y == second.y
  }

  // ----- What the walks find -----

  function ExactFound(
      node: Node, area: Rect, pane: PaneId, paneRect: Rect, edge: SplitEdge, grid: Grid): Option<ExactSplitResize>
  {
    if !node.Split? || TooSmall(area, node.dir) then None
    else
      var (first, second) := SplitSides(area, node.dir, node.ratio, grid);
      var deeper :=
        if Contains(node.a, pane) then ExactFound(node.a, first, pane, paneRect, edge, grid)
        else if Contains(node.b, pane) then ExactFound(node.b, second, pane, paneRect, edge, grid)
        else None;
      if deeper.Some? then deeper
      else if OnBoundary(node, second, pane, paneRect, edge) then Some(ExactSplitResize(area, node.id))
      else None
  }

  function LeafWithoutCrossingDir(node: Node, dir: SplitDir, active: Option<PaneId>): Option<PaneId> {
    match node
    case Leaf(pane) => Some(pane)
    case Split(_, d, _, a, b) =>
      if d == dir then None
      else
        var first := LeafWithoutCrossingDir(a, dir, active);
        if first.Some? then first else LeafWithoutCrossingDir(b, dir, active)
    case Stack(panes, expanded) => Some(ShownMember(panes, expanded, active))
  }

  /** A pane whose deepest split in this direction is the given one, preferring the side beyond the edge. */
  function Representative(node: Node, edge: SplitEdge, active: Option<PaneId>): Option<PaneId>
    requires node.Split?
  {
    var first := LeafWithoutCrossingDir(node.a, node.dir, active);
    var second := LeafWithoutCrossingDir(node.b, node.dir, active);
    if edge.AfterFirst() then (if second.Some? then second else first)
    else (if first.Some? then first else second)
  }

  function Found(
      node: Node, area: Rect, active: Option<PaneId>, pane: PaneId, paneRect: Rect, edge: SplitEdge, grid: Grid)
    : Option<SplitResize>
  {
    if !node.Split? || TooSmall(area, node.dir) then None
    else
      var (first, second) := SplitSides(area, node.dir, node.ratio, grid);
      var deeper :=
        if Contains(node.a, pane) then Found(node.a, first, active, pane, paneRect, edge, grid)
        else if Contains(node.b, pane) then Found(node.b, second, active, pane, paneRect, edge, grid)
        else None;
      if deeper.Some? then deeper
      else if OnBoundary(node, second, pane, paneRect, edge) && Representative(node, edge, active).Some? then
        Some(SplitResize(area, Representative(node, edge, active).value))
      else None
  }

  // ----- The walks as the program runs them: each match overwrites the best so far -----

  class Best<T> {
    var value: Option<T>

    constructor ()
      ensures value == None
    {
      value := None;
    }
  }

  method ExactWalk(
      node: Node, area: Rect, pane: PaneId, paneRect: Rect, edge: SplitEdge, grid: Grid, best: Best<ExactSplitResize>)
    modifies best
    ensures var found := ExactFound(node, area, pane, paneRect, edge, grid);
            best.value == if found.Some? then found else old(best.value)
    decreases node
  {
    if !node.Split? || TooSmall(area, node.dir) {
      return;
    }
    var (first, second) := SplitSides(area, node.dir, node.ratio, grid);
    if OnBoundary(node, second, pane, paneRect, edge) {
      best.value := Some(ExactSplitResize(area, node.id));
    }
    if Contains(node.a, pane) {
      ExactWalk(node.a, first, pane, paneRect, edge, grid, best);
    } else if Contains(node.b, pane) {
      ExactWalk(node.b, second, pane, paneRect, edge, grid, best);
    }
  }

  method EdgeWalk(
      node: Node, area: Rect, active: Option<PaneId>, pane: PaneId, paneRect: Rect, edge: SplitEdge, grid: Grid,
      best: Best<SplitResize>)
    modifies best
    ensures var found := Found(node, area, active, pane, paneRect, edge, grid);
            best.value == if found.Some? then found else old(best.value)
    decreases node
  {
    if !node.Split? || TooSmall(area, node.dir) {
      return;
    }
    var (first, second) := SplitSides(area, node.dir, node.ratio, grid);
    if OnBoundary(node, second, pane, paneRect, edge) {
      var setPane := Representative(node, edge, active);
      if setPane.Some? {
        best.value := Some(SplitResize(area, setPane.value));
      }
    }
    if Contains(node.a, pane) {
      EdgeWalk(node.a, first, active, pane, paneRect, edge, grid, best);
    } else if Contains(node.b, pane) {
      EdgeWalk(node.b, second, active, pane, paneRect, edge, grid, best);
    }
  }

  function ExactTarget(
      root: Node, area: Rect, active: Option<PaneId>, pane: PaneId, edge: SplitEdge, grid: Grid)
    : Option<ExactSplitResize>
  {
    var paneRect := RectOf(Placements(root, area, active, grid), pane);
    if paneRect.None? then None else ExactFound(root, area, pane, paneRect.value, edge, grid)
  }

  function Target(
      root: Node, area: Rect, active: Option<PaneId>, pane: PaneId, edge: SplitEdge, grid: Grid): Option<SplitResize>
  {
    var paneRect := RectOf(Placements(root, area, active, grid), pane);
    if paneRect.None? then None else Found(root, area, active, pane, paneRect.value, edge, grid)
  }

  method ExactSplitForPaneEdge(
      root: Node, area: Rect, active: Option<PaneId>, pane: PaneId, edge: SplitEdge, grid: Grid)
    returns (r: Option<ExactSplitResize>)
    ensures r == ExactTarget(root, area, active, pane, edge, grid)
  {
    var layout := LayoutScreen(root, area, active, grid);
    var paneRect := RectOf(layout.panes, pane);
    if paneRect.None? {
      return None;
    }
    var best := new Best<ExactSplitResize>();
    ExactWalk(root, area, pane, paneRect.value, edge, grid, best);
    return best.value;
  }

  method SplitForPaneEdge(
      root: Node, area: Rect, active: Option<PaneId>, pane: PaneId, edge: SplitEdge, grid: Grid)
    returns (r: Option<SplitResize>)
    ensures r == Target(root, area, active, pane, edge, grid)
  {
    var layout := LayoutScreen(root, area, active, grid);
    var paneRect := RectOf(layout.panes, pane);
    if paneRect.None? {
      return None;
    }
    var best := new Best<SplitResize>();
    EdgeWalk(root, area, active, pane, paneRect.value, edge, grid, best);
    return best.value;
  }

  // ----- At most one ancestor owns an edge -----

  /** Number of ancestor splits of the pane whose boundary carries the edge. */
  function MatchCount(node: Node, area: Rect, pane: PaneId, paneRect: Rect, edge: SplitEdge, grid: Grid): nat {
    if !node.Split? || TooSmall(area, node.dir) then 0
    else
      var (first, second) := SplitSides(area, node.dir, node.ratio, grid);
      (if OnBoundary(node, second, pane, paneRect, edge) then 1 else 0)
      + (if Contains(node.a, pane) then MatchCount(node.a, first, pane, paneRect, edge, grid)
         else if Contains(node.b, pane) then MatchCount(node.b, second, pane, paneRect, edge, grid)
         else 0)
  }

  predicate StrictlyInside(paneRect: Rect, area: Rect, edge: SplitEdge) {
    match edge
    case LeftEdge => area.x < paneRect.x
    case RightEdge => paneRect.x + paneRect.width < area.x + area.width
    case TopEdge => area.y < paneRect.y
    case BottomEdge => paneRect.y + paneRect.height < area.y + area.height
  }

  /** With distinct panes, a placed pane is placed by the side that contains it. */
  lemma PlacedInItsSide(
      node: Node, area: Rect, active: Option<PaneId>, grid: Grid, pane: PaneId, paneRect: Rect)
    requires node.Split? && Distinct(PaneIds(node))
    requires Placed(pane, paneRect) in Placements(node, area, active, grid)
    ensures Distinct(PaneIds(node.a)) && Distinct(PaneIds(node.b))
    ensures var (first, second) := ChildAreas(area, node.dir, node.ratio, grid);
            if Contains(node.a, pane) then
              !Contains(node.b, pane) && Placed(pane, paneRect) in Placements(node.a, first, active, grid)
            else
              Contains(node.b, pane) && Placed(pane, paneRect) in Placements(node.b, second, active, grid)
  {
    var (first, second) := ChildAreas(area, node.dir, node.ratio, grid);
    DistinctAppend(PaneIds(node.a), PaneIds(node.b));
    PlacedPanesAreMembers(node.a, first, active, grid, pane, paneRect);
    PlacedPanesAreMembers(node.b, second, active, grid, pane, paneRect);
  }

  lemma PlacedPanesAreMembers(
      node: Node, area: Rect, active: Option<PaneId>, grid: Grid, pane: PaneId, paneRect: Rect)
    ensures Placed(pane, paneRect) in Placements(node, area, active, grid) ==> pane in PaneIds(node)
  {
    var placed := Placements(node, area, active, grid);
    PlacementsOrder(node, area, active, grid);
    if Placed(pane, paneRect) in placed {
      var i :| 0 <= i < |placed| && placed[i] == Placed(pane, paneRect);
      assert Panes(placed)[i] == pane;
    }
  }

  /** A pane edge lies on at most one ancestor boundary, and only when it is strictly inside the area. */
  lemma {:induction false} AtMostOneMatch(
      node: Node, area: Rect, active: Option<PaneId>, grid: Grid, pane: PaneId, paneRect: Rect, edge: SplitEdge)
    requires Fits(area, grid) && Distinct(PaneIds(node))
    requires Placed(pane, paneRect) in Placements(node, area, active, grid)
    ensures MatchCount(node, area, pane, paneRect, edge, grid) <= 1
    ensures MatchCount(node, area, pane, paneRect, edge, grid) > 0 ==> StrictlyInside(paneRect, area, edge)
    decreases node
  {
    if node.Split? && !TooSmall(area, node.dir) {
      var (first, second) := ChildAreas(area, node.dir, node.ratio, grid);
      PlacedInItsSide(node, area, active, grid, pane, paneRect);
      PlacementsWithin(node.a, first, active, grid);
      PlacementsWithin(node.b, second, active, grid);
      if Contains(node.a, pane) {
        AtMostOneMatch(node.a, first, active, grid, pane, paneRect, edge);
      } else {
        AtMostOneMatch(node.b, second, active, grid, pane, paneRect, edge);
      }
    }
  }

  // ----- The lookup finds exactly the inner edges -----

  /** Every node on the way to the pane whose area has the edge strictly inside is a split with room for two sides; the
      nodes below the boundary, whose areas end at the edge, do not matter. */
  predicate SplitsInside(node: Node, area: Rect, pane: PaneId, paneRect: Rect, edge: SplitEdge, grid: Grid) {
    StrictlyInside(paneRect, area, edge) ==>
      && node.Split? && !TooSmall(area, node.dir)
      && var (first, second) := SplitSides(area, node.dir, node.ratio, grid);
         if Contains(node.a, pane) then SplitsInside(node.a, first, pane, paneRect, edge, grid)
         else SplitsInside(node.b, second, pane, paneRect, edge, grid)
  }

  /** An inner edge of a split is inner to the pane's side or lies on the boundary itself. */
  lemma InnerToSideOrOnBoundary(
      node: Node, area: Rect, active: Option<PaneId>, grid: Grid, pane: PaneId, paneRect: Rect, edge: SplitEdge)
    requires node.Split? && Fits(area, grid) && !TooSmall(area, node.dir) && Distinct(PaneIds(node))
    requires Placed(pane, paneRect) in Placements(node, area, active, grid)
    requires StrictlyInside(paneRect, area, edge)
    ensures var (first, second) := ChildAreas(area, node.dir, node.ratio, grid);
            || StrictlyInside(paneRect, if Contains(node.a, pane) then first else second, edge)
            || OnBoundary(node, second, pane, paneRect, edge)
  {
    var (first, second) := ChildAreas(area, node.dir, node.ratio, grid);
    PlacedInItsSide(node, area, active, grid, pane, paneRect);
    PlacementsWithin(node.a, first, active, grid);
    PlacementsWithin(node.b, second, active, grid);
  }

  /** A boundary that carries the edge ends the pane's side there. */
  lemma OnBoundaryEndsSide(
      node: Node, area: Rect, active: Option<PaneId>, grid: Grid, pane: PaneId, paneRect: Rect, edge: SplitEdge)
    requires node.Split? && Fits(area, grid) && !TooSmall(area, node.dir) && Distinct(PaneIds(node))
    requires Placed(pane, paneRect) in Placements(node, area, active, grid)
    requires var (first, second) := ChildAreas(area, node.dir, node.ratio, grid);
             OnBoundary(node, second, pane, paneRect, edge)
    ensures var (first, second) := ChildAreas(area, node.dir, node.ratio, grid);
            !StrictlyInside(paneRect, if Contains(node.a, pane) then first else second, edge)
  {
    PlacedInItsSide(node, area, active, grid, pane, paneRect);
  }

  lemma {:induction false} MatchesExactlyInside(
      node: Node, area: Rect, active: Option<PaneId>, grid: Grid, pane: PaneId, paneRect: Rect, edge: SplitEdge)
    requires Fits(area, grid) && Distinct(PaneIds(node))
    requires Placed(pane, paneRect) in Placements(node, area, active, grid)
    ensures MatchCount(node, area, pane, paneRect, edge, grid) > 0
            <==> StrictlyInside(paneRect, area, edge) && SplitsInside(node, area, pane, paneRect, edge, grid)
    decreases node
  {
    AtMostOneMatch(node, area, active, grid, pane, paneRect, edge);
    if node.Split? && !TooSmall(area, node.dir) && StrictlyInside(paneRect, area, edge) {
      var (first, second) := ChildAreas(area, node.dir, node.ratio, grid);
      PlacedInItsSide(node, area, active, grid, pane, paneRect);
      InnerToSideOrOnBoundary(node, area, active, grid, pane, paneRect, edge);
      if Contains(node.a, pane) {
        MatchesExactlyInside(node.a, first, active, grid, pane, paneRect, edge);
      } else {
        MatchesExactlyInside(node.b, second, active, grid, pane, paneRect, edge);
      }
      if OnBoundary(node, second, pane, paneRect, edge) {
        OnBoundaryEndsSide(node, area, active, grid, pane, paneRect, edge);
      }
    }
  }

  lemma {:induction false} FoundMeansMatch(
      node: Node, area: Rect, active: Option<PaneId>, pane: PaneId, paneRect: Rect, edge: SplitEdge, grid: Grid)
    ensures ExactFound(node, area, pane, paneRect, edge, grid).Some?
            <==> MatchCount(node, area, pane, paneRect, edge, grid) > 0
    ensures Found(node, area, active, pane, paneRect, edge, grid).Some?
            ==> MatchCount(node, area, pane, paneRect, edge, grid) > 0
    decreases node
  {
    if node.Split? && !TooSmall(area, node.dir) {
      var (first, second) := SplitSides(area, node.dir, node.ratio, grid);
      FoundMeansMatch(node.a, first, active, pane, paneRect, edge, grid);
      FoundMeansMatch(node.b, second, active, pane, paneRect, edge, grid);
    }
  }

  lemma {:induction false} RectOfIsPlaced(placed: seq<Placed>, pane: PaneId)
    ensures RectOf(placed, pane).Some? <==> pane in Panes(placed)
    ensures RectOf(placed, pane).Some? ==> Placed(pane, RectOf(placed, pane).value) in placed
  {
    if placed != [] {
      RectOfIsPlaced(placed[1..], pane);
      assert Panes(placed) == [placed[0].pane] + Panes(placed[1..]);
    }
  }

  /** A pane edge has a target exactly when it is strictly inside the screen and only splits with room stand between
      the screen and the boundary that carries it: not an area too small to divide, and not a stack. */
  lemma LookupFindsInnerEdges(
      root: Node, area: Rect, active: Option<PaneId>, grid: Grid, pane: PaneId, edge: SplitEdge)
    requires Fits(area, grid) && Distinct(PaneIds(root)) && Contains(root, pane)
    ensures var paneRect := RectOf(Placements(root, area, active, grid), pane);
            && paneRect.Some?
            && (ExactTarget(root, area, active, pane, edge, grid).Some?
                <==> StrictlyInside(paneRect.value, area, edge)
                     && SplitsInside(root, area, pane, paneRect.value, edge, grid))
  {
    var placed := Placements(root, area, active, grid);
    PlacementsOrder(root, area, active, grid);
    RectOfIsPlaced(placed, pane);
    var paneRect := RectOf(placed, pane).value;
    MatchesExactlyInside(root, area, active, grid, pane, paneRect, edge);
    FoundMeansMatch(root, area, active, pane, paneRect, edge, grid);
  }

  // ----- The two lookups and the pane-addressed one agree -----

  /** The deepest split in a direction above a pane, and whether the pane was seen. */
  function DeepestWalk(node: Node, target: PaneId, dir: SplitDir): (bool, Option<SplitId>) {
    match node
    case Leaf(pane) => (pane == target, None)
    case Split(id, d, _, a, b) =>
      var (aContains, aSplit) := DeepestWalk(a, target, dir);
      if aSplit.Some? then (true, aSplit)
      else
        var (bContains, bSplit) := DeepestWalk(b, target, dir);
        if bSplit.Some? then (true, bSplit)
        else
          var contains := aContains || bContains;
          if contains && d == dir then (true, Some(id)) else (contains, None)
    case Stack(panes, _) => (target in panes, None)
  }

  function DeepestSplitForPane(node: Node, target: PaneId, dir: SplitDir): Option<SplitId> {
    DeepestWalk(node, target, dir).1
  }

  lemma {:induction false} DeepestWalkAbsent(node: Node, target: PaneId, dir: SplitDir)
    requires target !in PaneIds(node)
    ensures DeepestWalk(node, target, dir) == (false, None)
  {
    if node.Split? {
      DeepestWalkAbsent(node.a, target, dir);
      DeepestWalkAbsent(node.b, target, dir);
    }
  }

  lemma {:induction false} UncrossedLeafHasNoSplit(node: Node, dir: SplitDir, active: Option<PaneId>)
    requires Distinct(PaneIds(node)) && StacksExpandMembers(node)
    ensures var leaf := LeafWithoutCrossingDir(node, dir, active);
            leaf.Some? ==> leaf.value in PaneIds(node) && DeepestWalk(node, leaf.value, dir) == (true, None)
  {
    if node.Split? && node.dir != dir {
      DistinctAppend(PaneIds(node.a), PaneIds(node.b));
      UncrossedLeafHasNoSplit(node.a, dir, active);
      UncrossedLeafHasNoSplit(node.b, dir, active);
      var first := LeafWithoutCrossingDir(node.a, dir, active);
      var second := LeafWithoutCrossingDir(node.b, dir, active);
      if first.Some? {
        DeepestWalkAbsent(node.b, first.value, dir);
      } else if second.Some? {
        DeepestWalkAbsent(node.a, second.value, dir);
      }
    }
  }

  lemma RepresentativeAddressesSplit(node: Node, edge: SplitEdge, active: Option<PaneId>)
    requires node.Split? && Distinct(PaneIds(node)) && StacksExpandMembers(node)
    ensures var pane := Representative(node, edge, active);
            pane.Some? ==>
              pane.value in PaneIds(node) && DeepestWalk(node, pane.value, node.dir) == (true, Some(node.id))
  {
    DistinctAppend(PaneIds(node.a), PaneIds(node.b));
    UncrossedLeafHasNoSplit(node.a, node.dir, active);
    UncrossedLeafHasNoSplit(node.b, node.dir, active);
    var pane := Representative(node, edge, active);
    if pane.Some? {
      if pane.value in PaneIds(node.a) {
        DeepestWalkAbsent(node.b, pane.value, node.dir);
      } else {
        DeepestWalkAbsent(node.a, pane.value, node.dir);
      }
    }
  }

  lemma {:induction false} FoundAgrees(
      node: Node, area: Rect, active: Option<PaneId>, grid: Grid, pane: PaneId, paneRect: Rect, edge: SplitEdge)
    requires Fits(area, grid) && Distinct(PaneIds(node)) && StacksExpandMembers(node)
    requires Placed(pane, paneRect) in Placements(node, area, active, grid)
    requires Found(node, area, active, pane, paneRect, edge, grid).Some?
    ensures var found := Found(node, area, active, pane, paneRect, edge, grid).value;
            var exact := ExactFound(node, area, pane, paneRect, edge, grid);
            && exact.Some? && exact.value.area == found.area
            && found.setPane in PaneIds(node)
            && DeepestWalk(node, found.setPane, edge.Dir()) == (true, Some(exact.value.split))
    decreases node
  {
    var (first, second) := ChildAreas(area, node.dir, node.ratio, grid);
    AtMostOneMatch(node, area, active, grid, pane, paneRect, edge);
    PlacedInItsSide(node, area, active, grid, pane, paneRect);
    DistinctAppend(PaneIds(node.a), PaneIds(node.b));
    FoundMeansMatch(node.a, first, active, pane, paneRect, edge, grid);
    FoundMeansMatch(node.b, second, active, pane, paneRect, edge, grid);
    if Contains(node.a, pane) && Found(node.a, first, active, pane, paneRect, edge, grid).Some? {
      FoundAgrees(node.a, first, active, grid, pane, paneRect, edge);
    } else if !Contains(node.a, pane) && Found(node.b, second, active, pane, paneRect, edge, grid).Some? {
      FoundAgrees(node.b, second, active, grid, pane, paneRect, edge);
      DeepestWalkAbsent(node.a, Found(node.b, second, active, pane, paneRect, edge, grid).value.setPane, edge.Dir());
    } else {
      RepresentativeAddressesSplit(node, edge, active);
    }
  }

  /** Main result: whenever the pane-addressed lookup answers, the exact lookup answers with the same area,
      and asking for the representative pane's deepest split yields exactly that split. */
  lemma LookupsAgree(root: Node, area: Rect, active: Option<PaneId>, grid: Grid, pane: PaneId, edge: SplitEdge)
    requires Fits(area, grid) && Distinct(PaneIds(root)) && StacksExpandMembers(root)
    requires Target(root, area, active, pane, edge, grid).Some?
    ensures var target := Target(root, area, active, pane, edge, grid).value;
            var exact := ExactTarget(root, area, active, pane, edge, grid);
            && exact.Some? && exact.value.area == target.area
            && DeepestSplitForPane(root, target.setPane, edge.Dir()) == Some(exact.value.split)
  {
    var placed := Placements(root, area, active, grid);
    RectOfIsPlaced(placed, pane);
    FoundAgrees(root, area, active, grid, pane, RectOf(placed, pane).value, edge);
  }
}
