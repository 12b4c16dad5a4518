/**
 * When the columns of the horizontally extended layout overlap, for every tree and every set of marked splits
 * (layout.rs:455-491, 600-670).
 */
module MarkedTrees {
  import opened Prelude
  import opened SplitTree
  import opened Layout
  import opened Tiling
  import opened Columns
  import opened Viewport

  /** What stays the same all the way down a walk. */
  datatype Setting = Setting(viewportWidth: nat, active: Option<PaneId>, marks: map<SplitId, real>, vg: ViewportGrid) {
    /** A right split that appends a column instead of dividing. */
    predicate Marked(node: Node) {
      node.Split? && node.dir.Right? && node.id in marks
    }

    function CellsOf(node: Node): (cells: nat)
      requires Marked(node)
      ensures cells > 0
    {
      ColumnCells(viewportWidth, marks[node.id], vg)
    }
  }

  predicate HasColumns(node: Node, st: Setting) {
    node.Split? && (st.Marked(node) || HasColumns(node.a, st) || HasColumns(node.b, st))
  }

  /** No marked split lies in the first side of a right split that is not marked itself. */
  predicate Safe(node: Node, st: Setting) {
    node.Split? ==>
      && Safe(node.a, st) && Safe(node.b, st)
      && (node.dir.Right? && !st.Marked(node) ==> !HasColumns(node.a, st))
  }

  /** Cells that the columns of a tree add together. */
  function Growth(node: Node, st: Setting): (cells: nat)
    ensures cells == 0 <==> !HasColumns(node, st)
  {
    if !node.Split? then 0
    else Growth(node.a, st) + Growth(node.b, st) + (if st.Marked(node) then st.CellsOf(node) else 0)
  }

  /** No coordinate of the walk saturates. */
  predicate WalkFits(node: Node, area: Rect, st: Setting) {
    area.x + area.width + Growth(node, st) <= U64_MAX && area.y + area.height <= U16_MAX
  }

  /** Every extent that has to be divided above a column can be divided. */
  predicate RoomAbove(node: Node, width: nat, height: nat, st: Setting) {
    HasColumns(node, st) ==>
      if st.Marked(node) then
        RoomAbove(node.a, width, height, st) && RoomAbove(node.b, st.CellsOf(node), height, st)
      else match node.dir
        case Right =>
          var (first, second) := SplitExtent(Right, width, node.ratio, st.vg.Cells());
          width >= 2 && RoomAbove(node.a, first, height, st) && RoomAbove(node.b, second, height, st)
        case Down =>
          var (first, second) := SplitExtent(Down, height, node.ratio, st.vg.Cells());
          height >= 2 && RoomAbove(node.a, width, first, st) && RoomAbove(node.b, width, second, st)
  }

  // ----- The walk without its records -----

  datatype Laid = Laid(panes: seq<Placed>, end: nat)

  /** The areas in which the two sides of a split are walked. */
  function SideAreas(node: Node, area: Rect, st: Setting, leftEnd: nat): (Rect, Rect)
    requires node.Split?
  {
    if st.Marked(node) then (area, area.(x := leftEnd, width := st.CellsOf(node)))
    else ChildAreas(area, node.dir, node.ratio, st.vg.Cells())
  }

  function LayOut(node: Node, area: Rect, st: Setting): Laid
    decreases node
  {
    if !node.Split? then
      Laid(Placements(node, area, st.active, st.vg.Cells()), SatAdd(area.x, area.width, U64_MAX))
    else
      var left := LayOut(node.a, SideAreas(node, area, st, 0).0, st);
      var right := LayOut(node.b, SideAreas(node, area, st, left.end).1, st);
      Laid(left.panes + right.panes, if st.Marked(node) then right.end else Max(left.end, right.end))
  }

  function Walk(node: Node, area: Rect, st: Setting, owner: ViewportColumn, columns: seq<ColumnRect>): Walked {
    ViewportWalk(node, area, st.viewportWidth, st.active, st.marks, owner, st.vg, columns)
  }

  lemma {:induction false} WalkLaysOut(
      node: Node, area: Rect, st: Setting, owner: ViewportColumn, columns: seq<ColumnRect>)
    ensures var walked := Walk(node, area, st, owner, columns);
            LayOut(node, area, st) == Laid(walked.panes, walked.end)
    decreases node
  {
    hide RecordAll, RecordColumn, ChildAreas, ColumnCells, StackRows;
    if node.Split? {
      var (first, second) := SideAreas(node, area, st, LayOut(node.a, SideAreas(node, area, st, 0).0, st).end);
      var left := Walk(node.a, first, st, owner, columns);
      WalkLaysOut(node.a, first, st, owner, columns);
      WalkLaysOut(node.b, second, st, if st.Marked(node) then SplitColumn(node.id) else owner, left.columns);
    }
  }

  function FirstArea(node: Node, area: Rect, st: Setting): Rect
    requires node.Split?
  {
    SideAreas(node, area, st, 0).0
  }

  function SecondArea(node: Node, area: Rect, st: Setting): Rect
    requires node.Split?
  {
    SideAreas(node, area, st, LayOut(node.a, FirstArea(node, area, st), st).end).1
  }

  // ----- One split of the walk -----

  /** The two sides of a split that divides its area. */
  ghost predicate SharedArea(first: Rect, second: Rect, area: Rect, dir: SplitDir) {
    && first.Within(area) && second.Within(area)
    && Max(first.x + first.width, second.x + second.width) == area.x + area.width
    && (TooSmall(area, dir) ==> first == area && second.height == 0)
    && (!TooSmall(area, dir) && dir.Right? ==>
          && first.x == area.x && first.x + first.width == second.x && second.width > 0
          && second.x + second.width == area.x + area.width
          && first.y == second.y == area.y && first.height == second.height == area.height)
    && (!TooSmall(area, dir) && dir.Down? ==>
          && first.y == area.y && first.y + first.height == second.y && first.height > 0 && second.height > 0
          && second.y + second.height == area.y + area.height
          && first.x == second.x == area.x && first.width == second.width == area.width)
  }

  lemma PlainSides(node: Node, area: Rect, st: Setting)
    requires node.Split? && !st.Marked(node) && WalkFits(node, area, st)
    ensures SharedArea(FirstArea(node, area, st), SecondArea(node, area, st), area, node.dir)
    ensures WalkFits(node.a, FirstArea(node, area, st), st) && WalkFits(node.b, SecondArea(node, area, st), st)
  {
    hide LayOut;
  }

  /** The walk of a tree reaches at least the end of its area, and beyond it at most what the columns add. */
  lemma {:induction false} EndIsBounded(node: Node, area: Rect, st: Setting)
    requires WalkFits(node, area, st)
    ensures area.x + area.width <= LayOut(node, area, st).end <= area.x + area.width + Growth(node, st)
    decreases node
  {
    hide ChildAreas, Placements, ColumnCells, HasColumns, TooSmall;
    if node.Split? {
      if !st.Marked(node) {
        PlainSides(node, area, st);
      }
      EndIsBounded(node.a, FirstArea(node, area, st), st);
      EndIsBounded(node.b, SecondArea(node, area, st), st);
    }
  }

  /** Both sides of a marked split: the whole area, and a column where the walk of the first side ended. */
  lemma MarkedSides(node: Node, area: Rect, st: Setting)
    requires st.Marked(node) && WalkFits(node, area, st)
    ensures FirstArea(node, area, st) == area
    ensures var left := LayOut(node.a, area, st);
            && area.x + area.width <= left.end <= area.x + area.width + Growth(node.a, st)
            && SecondArea(node, area, st) == area.(x := left.end, width := st.CellsOf(node))
    ensures WalkFits(node.a, area, st) && WalkFits(node.b, SecondArea(node, area, st), st)
  {
    hide LayOut;
    EndIsBounded(node.a, area, st);
  }

  lemma CountOfSplit(node: Node, area: Rect, st: Setting, px: int, py: int)
    requires node.Split?
    ensures var (left, right) := (LayOut(node.a, FirstArea(node, area, st), st),
                                  LayOut(node.b, SecondArea(node, area, st), st));
            && CoverCount(LayOut(node, area, st).panes, px, py)
               == CoverCount(left.panes, px, py) + CoverCount(right.panes, px, py)
            && LayOut(node, area, st).end == if st.Marked(node) then right.end else Max(left.end, right.end)
  {
    hide SideAreas, CoverCount;
    CoverAppend(LayOut(node.a, FirstArea(node, area, st), st).panes,
                LayOut(node.b, SecondArea(node, area, st), st).panes, px, py);
  }

  // ----- Safe trees never overlap -----

  /** In a safe tree every cell is covered at most once, and only between the area's start and the walk's end. */
  lemma {:induction false} SafeCoversOnce(node: Node, area: Rect, st: Setting, px: int, py: int)
    requires WalkFits(node, area, st) && Safe(node, st)
    ensures CoverCount(LayOut(node, area, st).panes, px, py) <= 1
    ensures CoverCount(LayOut(node, area, st).panes, px, py) == 1 ==>
              area.x <= px < LayOut(node, area, st).end && area.y <= py < area.y + area.height
    decreases node
  {
    if node.Split? {
      hide LayOut, FirstArea, SecondArea, CoverCount, Growth, TooSmall;
      var (first, second) := (FirstArea(node, area, st), SecondArea(node, area, st));
      CountOfSplit(node, area, st, px, py);
      if st.Marked(node) {
        MarkedSides(node, area, st);
      } else {
        PlainSides(node, area, st);
      }
      EndIsBounded(node.a, first, st);
      EndIsBounded(node.b, second, st);
      SafeCoversOnce(node.a, first, st, px, py);
      SafeCoversOnce(node.b, second, st, px, py);
    } else {
      PlacementsCover(node, area, st.active, st.vg.Cells(), px, py);
    }
  }

  // ----- Unsafe trees overlap -----

  /** Whatever columns a tree adds, its walk covers its own area. */
  lemma {:induction false} AreaIsCovered(node: Node, area: Rect, st: Setting, px: int, py: int)
    requires WalkFits(node, area, st) && area.Contains(px, py)
    ensures CoverCount(LayOut(node, area, st).panes, px, py) >= 1
    decreases node
  {
    if node.Split? {
      hide LayOut, FirstArea, SecondArea, CoverCount, Growth, TooSmall;
      var (first, second) := (FirstArea(node, area, st), SecondArea(node, area, st));
      CountOfSplit(node, area, st, px, py);
      if st.Marked(node) {
        MarkedSides(node, area, st);
      } else {
        PlainSides(node, area, st);
      }
      if first.Contains(px, py) {
        AreaIsCovered(node.a, first, st, px, py);
      } else {
        AreaIsCovered(node.b, second, st, px, py);
      }
    } else {
      PlacementsCover(node, area, st.active, st.vg.Cells(), px, py);
    }
  }

  predicate HasRoom(node: Node, area: Rect, st: Setting) {
    RoomAbove(node, area.width, area.height, st)
  }

  lemma SidesHaveRoom(node: Node, area: Rect, st: Setting)
    requires HasRoom(node, area, st) && HasColumns(node, st) && WalkFits(node, area, st)
    ensures !st.Marked(node) ==> !TooSmall(area, node.dir)
    ensures HasRoom(node.a, FirstArea(node, area, st), st) && HasRoom(node.b, SecondArea(node, area, st), st)
  {
    hide LayOut, Growth, ColumnCells;
  }

  /** With room, the columns of a safe tree start right where its area ends. */
  lemma {:induction false} ColumnsFollowTheArea(node: Node, area: Rect, st: Setting) returns (py: int)
    requires WalkFits(node, area, st) && Safe(node, st) && HasColumns(node, st)
    requires HasRoom(node, area, st) && area.height > 0
    ensures area.y <= py < area.y + area.height
    ensures CoverCount(LayOut(node, area, st).panes, area.x + area.width, py) >= 1
    decreases node
  {
    hide LayOut, FirstArea, SecondArea, CoverCount, Growth, RoomAbove;
    var (first, second) := (FirstArea(node, area, st), SecondArea(node, area, st));
    SidesHaveRoom(node, area, st);
    if st.Marked(node) {
      MarkedSides(node, area, st);
      EndIsBounded(node.a, area, st);
      if HasColumns(node.a, st) {
        py := ColumnsFollowTheArea(node.a, area, st);
      } else {
        py := area.y;
        AreaIsCovered(node.b, second, st, area.x + area.width, py);
      }
    } else {
      PlainSides(node, area, st);
      if HasColumns(node.a, st) {
        py := ColumnsFollowTheArea(node.a, first, st);
      } else {
        py := ColumnsFollowTheArea(node.b, second, st);
      }
    }
    CountOfSplit(node, area, st, area.x + area.width, py);
  }

  /** With room, an unsafe tree covers some cell twice. */
  lemma {:induction false} UnsafeCoversTwice(node: Node, area: Rect, st: Setting) returns (px: int, py: int)
    requires WalkFits(node, area, st) && !Safe(node, st) && HasRoom(node, area, st) && area.height > 0
    ensures CoverCount(LayOut(node, area, st).panes, px, py) >= 2
    decreases node
  {
    hide LayOut, FirstArea, SecondArea, CoverCount, Growth, RoomAbove;
    var (first, second) := (FirstArea(node, area, st), SecondArea(node, area, st));
    UnsafeHasColumns(node, st);
    SidesHaveRoom(node, area, st);
    if st.Marked(node) {
      MarkedSides(node, area, st);
    } else {
      PlainSides(node, area, st);
    }
    if !Safe(node.a, st) {
      px, py := UnsafeCoversTwice(node.a, first, st);
    } else if !Safe(node.b, st) {
      px, py := UnsafeCoversTwice(node.b, second, st);
    } else {
      px := second.x;
      py := ColumnsFollowTheArea(node.a, first, st);
      AreaIsCovered(node.b, second, st, px, py);
    }
    CountOfSplit(node, area, st, px, py);
  }

  lemma {:induction false} UnsafeHasColumns(node: Node, st: Setting)
    requires !Safe(node, st)
    ensures HasColumns(node, st)
  {
    if !Safe(node.a, st) {
      UnsafeHasColumns(node.a, st);
    } else if !Safe(node.b, st) {
      UnsafeHasColumns(node.b, st);
    }
  }

  // ----- Results about the walk -----

  ghost predicate NeverOverlaps(placed: seq<Placed>) {
    forall px, py :: CoverCount(placed, px, py) <= 1
  }

  /** The panes of a safe tree never overlap, whatever room there is. */
  lemma SafeTreesNeverOverlap(node: Node, area: Rect, st: Setting, owner: ViewportColumn, columns: seq<ColumnRect>)
    requires WalkFits(node, area, st) && Safe(node, st)
    ensures NeverOverlaps(Walk(node, area, st, owner, columns).panes)
  {
    hide LayOut, Walk;
    WalkLaysOut(node, area, st, owner, columns);
    forall px, py ensures CoverCount(Walk(node, area, st, owner, columns).panes, px, py) <= 1 {
      SafeCoversOnce(node, area, st, px, py);
    }
  }

  /** Main result: where the divisions above columns have room, panes never overlap exactly when no marked split lies
      in the first side of an unmarked right split. */
  lemma PanesOverlapExactlyInUnsafeTrees(
      node: Node, area: Rect, st: Setting, owner: ViewportColumn, columns: seq<ColumnRect>)
    requires WalkFits(node, area, st) && HasRoom(node, area, st) && area.height > 0
    ensures NeverOverlaps(Walk(node, area, st, owner, columns).panes) <==> Safe(node, st)
  {
    hide LayOut, Walk, RoomAbove;
    if Safe(node, st) {
      SafeTreesNeverOverlap(node, area, st, owner, columns);
    } else {
      WalkLaysOut(node, area, st, owner, columns);
      var px, py := UnsafeCoversTwice(node, area, st);
    }
  }

  lemma {:induction false} NothingMarked(node: Node, st: Setting)
    requires Unmarked(node, st.marks)
    ensures !HasColumns(node, st)
  {
    if node.Split? {
      UnmarkedParts(node, st.marks);
      NothingMarked(node.a, st);
      NothingMarked(node.b, st);
    }
  }

  /** What a screen synchronises is safe: its columns hang on the left spine, and nothing inside them is marked. */
  lemma {:induction false} ProjectionsAreSafe(columns: seq<LayoutColumn>, st: Setting, n: nat)
    requires 1 <= n <= |columns| && MarksColumns(st.marks, columns)
    ensures Safe(Projection(columns[..n]), st)
  {
    hide Unmarked;
    NothingMarked(columns[n - 1].root, st);
    UncolumnedIsSafe(columns[n - 1].root, st);
    if n > 1 {
      ProjectionStep(columns, n);
      ProjectionsAreSafe(columns, st, n - 1);
    }
  }

  lemma {:induction false} UncolumnedIsSafe(node: Node, st: Setting)
    requires !HasColumns(node, st)
    ensures Safe(node, st)
  {
    if node.Split? {
      UncolumnedIsSafe(node.a, st);
      UncolumnedIsSafe(node.b, st);
    }
  }

  /** Room is needed for the converse: in an area one cell wide the second side gets nothing for a column to overlap. */
  lemma NoRoomHidesOverlap(area: Rect, st: Setting, ratio: real)
    requires area.width == 1 && st.marks.Keys == {2}
    requires WalkFits(Split(1, Right, ratio, Split(2, Right, ratio, Leaf(10), Leaf(11)), Leaf(12)), area, st)
    ensures var tree := Split(1, Right, ratio, Split(2, Right, ratio, Leaf(10), Leaf(11)), Leaf(12));
            !Safe(tree, st) && NeverOverlaps(Walk(tree, area, st, Base, []).panes)
  {
    var inner := Split(2, Right, ratio, Leaf(10), Leaf(11));
    var tree := Split(1, Right, ratio, inner, Leaf(12));
    assert st.Marked(inner) && !st.Marked(tree) && HasColumns(inner, st);
    forall px, py ensures CoverCount(Walk(tree, area, st, Base, []).panes, px, py) <= 1 {
      OneCellWide(tree, area, st, px, py);
    }
  }

  lemma OneCellWide(tree: Node, area: Rect, st: Setting, px: int, py: int)
    requires tree.Split? && tree.dir.Right? && !st.Marked(tree) && tree.b.Leaf? && Safe(tree.a, st)
    requires area.width == 1 && WalkFits(tree, area, st)
    ensures CoverCount(Walk(tree, area, st, Base, []).panes, px, py) <= 1
  {
    hide LayOut, Walk, Growth, FirstArea, SecondArea;
    WalkLaysOut(tree, area, st, Base, []);
    CountOfSplit(tree, area, st, px, py);
    PlainSides(tree, area, st);
    SafeCoversOnce(tree.a, FirstArea(tree, area, st), st, px, py);
    SafeCoversOnce(tree.b, SecondArea(tree, area, st), st, px, py);
  }
}
