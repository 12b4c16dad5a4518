/** Projected columns together tile one wide rectangle, so focus moves among them as on a screen (layout.rs:120-135). */
module ScrollingFocus {
  import opened Prelude
  import opened SplitTree
  import opened Layout
  import opened Tiling
  import opened Columns
  import opened Viewport
  import opened Neighbor

  /** The rectangle the first `n` columns take together. */
  function Stretch(columns: seq<LayoutColumn>, area: Rect, n: nat, vg: ViewportGrid): Rect
    requires n <= |columns|
  {
    area.(width := CellSum(columns, area.width, n, vg))
  }

  predicate StretchFits(columns: seq<LayoutColumn>, area: Rect, vg: ViewportGrid) {
    Fits(Stretch(columns, area, |columns|, vg), vg.Cells())
  }

  /** Column n lies in the columns up to it, directly behind the earlier ones. */
  lemma NextColumn(columns: seq<LayoutColumn>, area: Rect, n: nat, vg: ViewportGrid)
    requires n < |columns| && StretchFits(columns, area, vg)
    ensures var (own, earlier) := (ColumnArea(columns, area, n, vg), Stretch(columns, area, n, vg));
            && Fits(own, vg.Cells()) && own.x == earlier.x + earlier.width
            && Stretch(columns, area, n + 1, vg) == earlier.(width := earlier.width + own.width)
  {
    CellSumGrows(columns, area.width, n + 1, |columns|, vg);
  }

  lemma {:induction false} ColumnsCover(
      columns: seq<LayoutColumn>, area: Rect, active: Option<PaneId>, n: nat, vg: ViewportGrid, px: int, py: int)
    requires n <= |columns| && StretchFits(columns, area, vg)
    ensures CoverCount(ColumnwisePanes(columns, area, active, n, vg), px, py)
            == if Stretch(columns, area, n, vg).Contains(px, py) then 1 else 0
  {
    hide Placements;
    if n > 0 {
      var own := ColumnArea(columns, area, n - 1, vg);
      NextColumn(columns, area, n - 1, vg);
      ColumnsCover(columns, area, active, n - 1, vg, px, py);
      PlacementsCover(columns[n - 1].root, own, active, vg.Cells(), px, py);
      CoverAppend(ColumnwisePanes(columns, area, active, n - 1, vg),
                  Placements(columns[n - 1].root, own, active, vg.Cells()), px, py);
    }
  }

  lemma {:induction false} ColumnsWithin(
      columns: seq<LayoutColumn>, area: Rect, active: Option<PaneId>, n: nat, vg: ViewportGrid)
    requires n <= |columns| && StretchFits(columns, area, vg)
    ensures forall p :: p in ColumnwisePanes(columns, area, active, n, vg) ==>
              p.rect.Within(Stretch(columns, area, n, vg))
    ensures Panes(ColumnwisePanes(columns, area, active, n, vg)) == ColumnPanes(columns[..n])
  {
    hide Placements, PaneIds;
    if n > 0 {
      var (own, root) := (ColumnArea(columns, area, n - 1, vg), columns[n - 1].root);
      NextColumn(columns, area, n - 1, vg);
      ColumnsWithin(columns, area, active, n - 1, vg);
      PlacementsWithin(root, own, active, vg.Cells());
      PlacementsOrder(root, own, active, vg.Cells());
      PanesAppend(ColumnwisePanes(columns, area, active, n - 1, vg), Placements(root, own, active, vg.Cells()));
      assert columns[..n][..n - 1] == columns[..n - 1];
    }
  }

  /** The columns tile the rectangle they take together, in column order. */
  lemma ColumnsTile(columns: seq<LayoutColumn>, area: Rect, active: Option<PaneId>, vg: ViewportGrid)
    requires StretchFits(columns, area, vg)
    ensures var panes := ColumnwisePanes(columns, area, active, |columns|, vg);
            Tiles(panes, Stretch(columns, area, |columns|, vg)) && Panes(panes) == ColumnPanes(columns)
  {
    hide ColumnwisePanes, Stretch, StretchFits, CoverCount, Panes, Tiles;
    var panes := ColumnwisePanes(columns, area, active, |columns|, vg);
    ColumnsWithin(columns, area, active, |columns|, vg);
    assert columns[..|columns|] == columns;
    forall px, py
      ensures CoverCount(panes, px, py) == if Stretch(columns, area, |columns|, vg).Contains(px, py) then 1 else 0
    {
      ColumnsCover(columns, area, active, |columns|, vg, px, py);
    }
    TilesFromCounts(panes, Stretch(columns, area, |columns|, vg));
  }

  /** Main result: in the scrolling layout of projected columns, on screen or scrolled away, focus moves from a nonempty
      pane exactly when it does not touch the outer edge of all columns together on that side. */
  lemma {:induction false} ScrollingFocusNeverSticks(
      columns: seq<LayoutColumn>, area: Rect, active: Option<PaneId>, vg: ViewportGrid, i: nat, dx: int, dy: int,
      recency: PaneId -> int)
    requires |columns| >= 1 && IdsSeparate(columns) && Distinct(ColumnPanes(columns))
    requires area.height > 0 && StretchFits(columns, area, vg) && FromDelta(dx, dy).Some?
    ensures var panes := ScreenWalk(Projection(columns), area, active, columns[0].width, Marks(columns), vg).panes;
            && Tiles(panes, Stretch(columns, area, |columns|, vg)) && Panes(panes) == ColumnPanes(columns)
            && (i < |panes| && !panes[i].rect.Empty() ==>
                  var whole := Stretch(columns, area, |columns|, vg);
                  var inner := !TouchesOuterEdge(panes[i].rect, whole, FromDelta(dx, dy).value);
                  && (DirectionalNeighbor(panes, panes[i].pane, dx, dy, U64_MAX).Some? <==> inner)
                  && (NeighborByRecency(panes, panes[i].pane, dx, dy, U64_MAX, recency).Some? <==> inner))
  {
    hide ScreenWalk, Projection, ColumnwisePanes, Marks, Tiles, CellSum, IdsSeparate, Distinct, Panes, ColumnPanes;
    hide DirectionalNeighbor, NeighborByRecency, TouchesOuterEdge;
    var panes := ScreenWalk(Projection(columns), area, active, columns[0].width, Marks(columns), vg).panes;
    ColumnsStandSideBySide(columns, area, active, vg);
    ColumnsTile(columns, area, active, vg);
    if i < |panes| && !panes[i].rect.Empty() {
      FocusInTiling(panes, Stretch(columns, area, |columns|, vg), i, dx, dy, U64_MAX, recency);
    }
  }
}
