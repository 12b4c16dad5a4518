/** When a pane border has an answer, and which one (layout.rs:784-816, 988-1056, model.rs:363-388). */
module EdgeAnswers {
  import opened Prelude
  import opened SplitTree
  import opened Layout
  import opened Tiling
  import opened EdgeLookup

  // ----- The splits above a pane -----

  /** The splits above a pane, outermost first. */
  function SplitsAbove(node: Node, pane: PaneId): seq<Node> {
    if !node.Split? then []
    else [node] + SplitsAbove(if pane in PaneIds(node.a) then node.a else node.b, pane)
  }

  /** The last split of a direction. */
  function LastOf(splits: seq<Node>, dir: SplitDir): Option<SplitId> {
    if splits == [] then None
    else if LastOf(splits[1..], dir).Some? then LastOf(splits[1..], dir)
    else if splits[0].Split? && splits[0].dir == dir then Some(splits[0].id)
    else None
  }

  /** The id a pane and a direction address: that of the innermost such split above the pane. */
  lemma {:induction false} DeepestIsInnermost(node: Node, pane: PaneId, dir: SplitDir)
    requires Distinct(PaneIds(node)) && pane in PaneIds(node)
    ensures DeepestWalk(node, pane, dir) == (true, LastOf(SplitsAbove(node, pane), dir))
  {
    if node.Split? {
      DistinctAppend(PaneIds(node.a), PaneIds(node.b));
      var side := if pane in PaneIds(node.a) then node.a else node.b;
      DeepestIsInnermost(side, pane, dir);
      DeepestWalkAbsent(if pane in PaneIds(node.a) then node.b else node.a, pane, dir);
      assert SplitsAbove(node, pane)[1..] == SplitsAbove(side, pane);
    }
  }

  /** A pane with no split of the direction above it. */
  ghost predicate Uncrossed(node: Node, pane: PaneId, dir: SplitDir) {
    pane in PaneIds(node) && LastOf(SplitsAbove(node, pane), dir).None?
  }

  lemma UncrossedInSide(node: Node, pane: PaneId, dir: SplitDir)
    requires node.Split? && Distinct(PaneIds(node))
    ensures Uncrossed(node, pane, dir)
            <==> node.dir != dir && (Uncrossed(node.a, pane, dir) || Uncrossed(node.b, pane, dir))
  {
    DistinctAppend(PaneIds(node.a), PaneIds(node.b));
    if pane in PaneIds(node) {
      var side := if pane in PaneIds(node.a) then node.a else node.b;
      assert SplitsAbove(node, pane)[1..] == SplitsAbove(side, pane);
    }
  }

  /** The search for an uncrossed pane fails only when there is none. */
  lemma {:induction false} UncrossedIsFound(node: Node, dir: SplitDir, active: Option<PaneId>)
    requires Distinct(PaneIds(node)) && StacksExpandMembers(node)
    ensures var leaf := LeafWithoutCrossingDir(node, dir, active);
            && (leaf.Some? ==> Uncrossed(node, leaf.value, dir))
            && (leaf.None? ==> forall p :: !Uncrossed(node, p, dir))
  {
    hide Uncrossed, Distinct;
    match node
    case Leaf(pane) => UndividedIsUncrossed(node, pane, dir);
    case Stack(panes, expanded) => UndividedIsUncrossed(node, ShownMember(panes, expanded, active), dir);
    case Split(_, d, _, a, b) =>
      DistinctAppend(PaneIds(a), PaneIds(b));
      UncrossedIsFound(a, dir, active);
      UncrossedIsFound(b, dir, active);
      forall p ensures Uncrossed(node, p, dir) <==> d != dir && (Uncrossed(a, p, dir) || Uncrossed(b, p, dir)) {
        UncrossedInSide(node, p, dir);
      }
  }

  lemma UndividedIsUncrossed(node: Node, pane: PaneId, dir: SplitDir)
    requires !node.Split?
    ensures Uncrossed(node, pane, dir) <==> pane in PaneIds(node)
  {
  }

  /** The leaves and stacks, in tree order, that no split of the direction lies above. */
  function UncrossedParts(node: Node, dir: SplitDir): (parts: seq<Node>)
    ensures forall part :: part in parts ==> !part.Split?
  {
    if !node.Split? then [node]
    else if node.dir == dir then []
    else UncrossedParts(node.a, dir) + UncrossedParts(node.b, dir)
  }

  /** What is found is the first of them: a leaf's pane, or of a stack the active pane if it is a member and the
      expanded one otherwise. */
  lemma {:induction false} FirstUncrossedIsFound(node: Node, dir: SplitDir, active: Option<PaneId>)
    ensures var (leaf, parts) := (LeafWithoutCrossingDir(node, dir, active), UncrossedParts(node, dir));
            && (leaf.None? <==> parts == [])
            && (parts != [] && parts[0].Leaf? ==> leaf == Some(parts[0].pane))
            && (parts != [] && parts[0].Stack? ==>
                  leaf == if active.Some? && active.value in parts[0].panes then active else Some(parts[0].expanded))
  {
    if node.Split? {
      FirstUncrossedIsFound(node.a, dir, active);
      FirstUncrossedIsFound(node.b, dir, active);
    }
  }

  // ----- Panes that address a split -----

  ghost predicate Addresses(node: Node, pane: PaneId, dir: SplitDir, id: SplitId) {
    pane in PaneIds(node) && LastOf(SplitsAbove(node, pane), dir) == Some(id)
  }

  /** What addresses a split inside one side is on that side and addresses it there. */
  lemma AddressesInSide(node: Node, side: Node, other: Node, pane: PaneId, dir: SplitDir, id: SplitId)
    requires node.Split? && Distinct(PaneIds(node)) && Distinct(SplitIds(node))
    requires (side == node.a && other == node.b) || (side == node.b && other == node.a)
    requires id in SplitIds(side)
    ensures id != node.id && id !in SplitIds(other)
    ensures Addresses(node, pane, dir, id) <==> Addresses(side, pane, dir, id)
  {
    DistinctAppend(PaneIds(node.a), PaneIds(node.b));
    DistinctSides(node);
    if pane in PaneIds(node) {
      var own := if pane in PaneIds(node.a) then node.a else node.b;
      assert SplitsAbove(node, pane)[1..] == SplitsAbove(own, pane);
      LastIsInside(own, pane, dir);
    }
  }

  lemma DistinctSides(node: Node)
    requires node.Split? && Distinct(SplitIds(node))
    ensures Distinct(SplitIds(node.a)) && Distinct(SplitIds(node.b))
    ensures node.id !in SplitIds(node.a) && node.id !in SplitIds(node.b)
    ensures forall id :: id in SplitIds(node.a) ==> id !in SplitIds(node.b)
  {
    assert SplitIds(node) == [node.id] + (SplitIds(node.a) + SplitIds(node.b));
    DistinctAppend([node.id], SplitIds(node.a) + SplitIds(node.b));
    DistinctAppend(SplitIds(node.a), SplitIds(node.b));
    assert node.id in [node.id];
  }

  lemma {:induction false} LastIsInside(node: Node, pane: PaneId, dir: SplitDir)
    ensures var last := LastOf(SplitsAbove(node, pane), dir);
            last.Some? ==> last.value in SplitIds(node)
  {
    if node.Split? {
      var side := if pane in PaneIds(node.a) then node.a else node.b;
      LastIsInside(side, pane, dir);
      assert SplitsAbove(node, pane)[1..] == SplitsAbove(side, pane);
    }
  }

  /** A split itself is addressed exactly by the panes that no further split of its direction separates from it. */
  lemma AddressesRoot(node: Node, pane: PaneId)
    requires node.Split? && Distinct(PaneIds(node)) && Distinct(SplitIds(node))
    ensures Addresses(node, pane, node.dir, node.id)
            <==> Uncrossed(node.a, pane, node.dir) || Uncrossed(node.b, pane, node.dir)
  {
    DistinctAppend(PaneIds(node.a), PaneIds(node.b));
    DistinctSides(node);
    if pane in PaneIds(node) {
      var side := if pane in PaneIds(node.a) then node.a else node.b;
      assert SplitsAbove(node, pane)[1..] == SplitsAbove(side, pane);
      LastIsInside(side, pane, node.dir);
    }
  }

  /** The side of a split that lies beyond the edge. */
  function FarSide(split: Node, edge: SplitEdge): Node
    requires split.Split?
  {
    if edge.RightEdge? || edge.BottomEdge? then split.b else split.a
  }

  /** A pane is named for a split exactly when one addresses it, and then one beyond the edge if there is any. */
  lemma RepresentativeWhenAddressed(node: Node, edge: SplitEdge, active: Option<PaneId>)
    requires node.Split? && node.dir == edge.Dir()
    requires Distinct(PaneIds(node)) && Distinct(SplitIds(node)) && StacksExpandMembers(node)
    ensures var pane := Representative(node, edge, active);
            && (pane.Some? <==> exists p :: Addresses(node, p, node.dir, node.id))
            && (pane.Some? ==> Addresses(node, pane.value, node.dir, node.id))
            && (pane.Some?
                && (exists p :: p in PaneIds(FarSide(node, edge)) && Addresses(node, p, node.dir, node.id)) ==>
                  pane.value in PaneIds(FarSide(node, edge)))
  {
    hide Addresses, SplitsAbove, LastOf;
    DistinctAppend(PaneIds(node.a), PaneIds(node.b));
    UncrossedIsFound(node.a, node.dir, active);
    UncrossedIsFound(node.b, node.dir, active);
    forall p ensures Addresses(node, p, node.dir, node.id)
                     <==> Uncrossed(node.a, p, node.dir) || Uncrossed(node.b, p, node.dir) {
      AddressesRoot(node, p);
    }
  }

  // ----- Answers of the lookups -----

  /** The exact answer: a split of the edge's direction, with the area it divides, whose boundary carries the edge. */
  ghost predicate ExactAnswer(
      node: Node, area: Rect, grid: Grid, pane: PaneId, paneRect: Rect, edge: SplitEdge, exact: ExactSplitResize)
  {
    var split := SubtreeAt(node, exact.split);
    && ContainsSplit(node, exact.split) && exact.area == AreaAt(node, exact.split, area, grid)
    && split.Split? && split.id == exact.split && split.dir == edge.Dir()
    && var (first, second) := ChildAreas(exact.area, split.dir, split.ratio, grid);
       match edge
       case RightEdge => pane in PaneIds(split.a) && paneRect.x + paneRect.width == second.x
       case LeftEdge => pane in PaneIds(split.b) && paneRect.x == second.x
       case BottomEdge => pane in PaneIds(split.a) && paneRect.y + paneRect.height == second.y
       case TopEdge => pane in PaneIds(split.b) && paneRect.y == second.y
  }

  /** The pane-addressed answer: given exactly when some pane addresses the split, by one beyond the edge if there is
      any. */
  ghost predicate AddressedAnswer(node: Node, edge: SplitEdge, id: SplitId, answer: Option<SplitResize>) {
    var split := SubtreeAt(node, id);
    && split.Split?
    && (answer.Some? <==> exists p :: Addresses(node, p, edge.Dir(), id))
    && (answer.Some? && (exists p :: p in PaneIds(FarSide(split, edge)) && Addresses(node, p, edge.Dir(), id)) ==>
          answer.value.setPane in PaneIds(FarSide(split, edge)))
  }

  lemma AnswerInSide(
      node: Node, side: Node, other: Node, edge: SplitEdge, id: SplitId, answer: Option<SplitResize>)
    requires node.Split? && Distinct(PaneIds(node)) && Distinct(SplitIds(node))
    requires (side == node.a && other == node.b) || (side == node.b && other == node.a)
    requires id in SplitIds(side) && AddressedAnswer(side, edge, id, answer)
    ensures AddressedAnswer(node, edge, id, answer)
  {
    hide Addresses;
    AddressesInSide(node, side, other, 0, edge.Dir(), id);
    forall p ensures Addresses(node, p, edge.Dir(), id) <==> Addresses(side, p, edge.Dir(), id) {
      AddressesInSide(node, side, other, p, edge.Dir(), id);
    }
  }

  lemma {:induction false} AnswersOfWalk(
      node: Node, area: Rect, active: Option<PaneId>, grid: Grid, pane: PaneId, paneRect: Rect, edge: SplitEdge)
    requires Fits(area, grid) && StacksExpandMembers(node)
    requires Distinct(PaneIds(node)) && Distinct(SplitIds(node))
    requires Placed(pane, paneRect) in Placements(node, area, active, grid)
    ensures var exact := ExactFound(node, area, pane, paneRect, edge, grid);
            exact.Some? ==>
              && ExactAnswer(node, area, grid, pane, paneRect, edge, exact.value)
              && AddressedAnswer(node, edge, exact.value.split,
                                 Found(node, area, active, pane, paneRect, edge, grid))
    decreases node
  {
    hide AddressedAnswer, Placements, Distinct;
    if node.Split? && !TooSmall(area, node.dir) {
      var (first, second) := ChildAreas(area, node.dir, node.ratio, grid);
      DistinctAppend(PaneIds(node.a), PaneIds(node.b));
      DistinctSides(node);
      PlacedInItsSide(node, area, active, grid, pane, paneRect);
      var (side, other, own) :=
        if Contains(node.a, pane) then (node.a, node.b, first) else (node.b, node.a, second);
      AnswersOfWalk(side, own, active, grid, pane, paneRect, edge);
      FoundMeansMatch(side, own, active, pane, paneRect, edge, grid);
      AtMostOneMatch(node, area, active, grid, pane, paneRect, edge);
      var deeper := ExactFound(side, own, pane, paneRect, edge, grid);
      if deeper.Some? {
        assert !OnBoundary(node, second, pane, paneRect, edge);
        DeeperAnswer(node, side, other, area, own, active, grid, pane, paneRect, edge);
      } else if OnBoundary(node, second, pane, paneRect, edge) {
        AnswerHere(node, area, active, grid, pane, paneRect, edge);
      }
    }
  }

  /** The walk answers with this split: its boundary carries the edge and nothing deeper does. */
  lemma AnswerHere(
      node: Node, area: Rect, active: Option<PaneId>, grid: Grid, pane: PaneId, paneRect: Rect, edge: SplitEdge)
    requires node.Split? && StacksExpandMembers(node) && Distinct(PaneIds(node)) && Distinct(SplitIds(node))
    requires OnBoundary(node, ChildAreas(area, node.dir, node.ratio, grid).1, pane, paneRect, edge)
    ensures ExactAnswer(node, area, grid, pane, paneRect, edge, ExactSplitResize(area, node.id))
    ensures var named := Representative(node, edge, active);
            AddressedAnswer(node, edge, node.id, if named.Some? then Some(SplitResize(area, named.value)) else None)
  {
    hide Addresses, Representative;
    RepresentativeWhenAddressed(node, edge, active);
  }

  lemma DeeperAnswer(
      node: Node, side: Node, other: Node, area: Rect, own: Rect, active: Option<PaneId>, grid: Grid, pane: PaneId,
      paneRect: Rect, edge: SplitEdge)
    requires node.Split? && Distinct(PaneIds(node)) && Distinct(SplitIds(node)) && !TooSmall(area, node.dir)
    requires var (first, second) := ChildAreas(area, node.dir, node.ratio, grid);
             || (side == node.a && other == node.b && own == first && Contains(node.a, pane))
             || (side == node.b && other == node.a && own == second && !Contains(node.a, pane))
    requires var exact := ExactFound(side, own, pane, paneRect, edge, grid);
             && exact.Some? && ExactAnswer(side, own, grid, pane, paneRect, edge, exact.value)
             && AddressedAnswer(side, edge, exact.value.split,
                                Found(side, own, active, pane, paneRect, edge, grid))
    ensures var exact := ExactFound(side, own, pane, paneRect, edge, grid).value;
            && ExactAnswer(node, area, grid, pane, paneRect, edge, exact)
            && AddressedAnswer(node, edge, exact.split, Found(side, own, active, pane, paneRect, edge, grid))
  {
    hide AddressedAnswer, Found, ExactFound, OnBoundary;
    var exact := ExactFound(side, own, pane, paneRect, edge, grid).value;
    DistinctSides(node);
    AnswerInSide(node, side, other, edge, exact.split, Found(side, own, active, pane, paneRect, edge, grid));
  }

  /** Main result: the exact lookup answers with the split on whose boundary the pane's edge lies and the area it
      divides; and there the pane-addressed lookup answers exactly when some pane addresses that split, with one beyond
      the edge if there is any. */
  lemma AnswersAreExact(root: Node, area: Rect, active: Option<PaneId>, grid: Grid, pane: PaneId, edge: SplitEdge)
    requires Fits(area, grid) && StacksExpandMembers(root)
    requires Distinct(PaneIds(root)) && Distinct(SplitIds(root))
    ensures var (exact, paneRect) := (ExactTarget(root, area, active, pane, edge, grid),
                                      RectOf(Placements(root, area, active, grid), pane));
            exact.Some? ==>
              && paneRect.Some? && ExactAnswer(root, area, grid, pane, paneRect.value, edge, exact.value)
              && AddressedAnswer(root, edge, exact.value.split, Target(root, area, active, pane, edge, grid))
  {
    hide ExactFound, Found, Placements, ExactAnswer, AddressedAnswer, Distinct, StacksExpandMembers, RectOf;
    var placed := Placements(root, area, active, grid);
    RectOfIsPlaced(placed, pane);
    if RectOf(placed, pane).Some? {
      AnswersOfWalk(root, area, active, grid, pane, RectOf(placed, pane).value, edge);
    }
  }
}
