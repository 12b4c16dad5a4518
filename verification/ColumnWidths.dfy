/** How wide the columns of the scrolling layout are, and which pane stands for each (layout.rs:461-491, 671-698). */
module ColumnWidths {
  import opened Prelude
  import opened SplitTree
  import opened Layout
  import opened Tiling
  import opened Columns
  import opened Viewport
  import opened Proportions

  /** A stored width as it counts: at least a tenth of the viewport, at most all of it. */
  function Counted(width: real): (counted: real)
    ensures 0.1 <= counted <= 1.0
    ensures 0.1 <= width <= 1.0 ==> counted == width
    ensures width < 0.1 ==> counted == 0.1
    ensures width > 1.0 ==> counted == 1.0
  {
    if width < 0.1 then 0.1 else if width > 1.0 then 1.0 else width
  }

  /** The rounded product is taken as it is between one cell and the viewport, and as the nearer of the two
      otherwise. */
  lemma RoundedProductIsTaken(viewport: nat, width: real, vg: ViewportGrid)
    ensures var (cells, product) := (ColumnCells(viewport, width, vg), vg.roundCells(viewport, Counted(width)));
            && (1 <= product <= viewport ==> cells == product)
            && (product < 1 ==> cells == 1)
            && (product > viewport ==> cells == if viewport == 0 then 1 else viewport)
  {
  }

  /** On viewports and widths that occur, a product that is a whole number of cells is rounded to itself. */
  ghost predicate KeepsWholeColumns(vg: ViewportGrid) {
    forall viewport: nat, width: real, cells: int ::
      viewport <= U16_MAX && 0.1 <= width <= 1.0 && viewport as real * width == cells as real ==>
        Exactly(vg.roundCells(viewport, width), cells)
  }

  lemma WholeProduct(viewport: nat, width: real, cells: int)
    requires viewport > 0 && 0.1 <= width <= 1.0 && viewport as real * width == cells as real
    ensures 1 <= cells <= viewport
  {
    var v := viewport as real;
    assert v * width > 0.0;
    assert v * (1.0 - width) >= 0.0;
  }

  lemma WholeColumn(viewport: nat, width: real, vg: ViewportGrid, cells: int)
    requires KeepsWholeColumns(vg) && 0 < viewport <= U16_MAX
    requires viewport as real * Counted(width) == cells as real
    ensures ColumnCells(viewport, width, vg) == cells
  {
    hide ColumnCells, Counted;
    WholeProduct(viewport, Counted(width), cells);
    assert Exactly(vg.roundCells(viewport, Counted(width)), cells);
    RoundedProductIsTaken(viewport, width, vg);
  }

  /** Main result on widths: in the scrolling layout of projected columns, a column whose share of the viewport is a
      whole number of cells is recorded exactly that wide. */
  lemma RecordedColumnsHaveTheirShare(
      columns: seq<LayoutColumn>, area: Rect, active: Option<PaneId>, vg: ViewportGrid, i: nat, cells: int)
    requires |columns| >= 1 && IdsSeparate(columns) && i < |columns|
    requires area.height > 0 && area.y + area.height <= U16_MAX && 0 < area.width <= U16_MAX
    requires area.x + CellSum(columns, area.width, |columns|, vg) <= U64_MAX
    requires KeepsWholeColumns(vg) && area.width as real * Counted(columns[i].width) == cells as real
    ensures var recorded := ScreenWalk(Projection(columns), area, active, columns[0].width, Marks(columns), vg).columns;
            |recorded| == |columns| && recorded[i].rect.width == cells
  {
    hide ScreenWalk, Projection, Marks, CellSum, ColumnwisePanes, IdsSeparate, ColumnCells, KeepsWholeColumns, Counted;
    ColumnsStandSideBySide(columns, area, active, vg);
    WholeColumn(area.width, columns[i].width, vg, cells);
  }

  /** Rounding the exact product half away from zero keeps whole columns. */
  lemma ExactColumnsQualify(vg: ViewportGrid)
    requires forall viewport: nat, width: real ::
               vg.roundCells(viewport, width) == RoundHalfAway(viewport as real * width)
    ensures KeepsWholeColumns(vg)
  {
    forall viewport: nat, width: real, cells: int
      | viewport <= U16_MAX && 0.1 <= width <= 1.0 && viewport as real * width == cells as real
      ensures Exactly(vg.roundCells(viewport, width), cells)
    {
      RoundWhole(cells);
    }
  }

  // ----- The pane that stands for a column -----

  /** The first pane with cells. */
  function FirstShown(placed: seq<Placed>): Option<PaneId> {
    if placed == [] then None
    else if !placed[0].rect.Empty() then Some(placed[0].pane)
    else FirstShown(placed[1..])
  }

  lemma {:induction false} FirstShownMore(placed: seq<Placed>, p: Placed)
    ensures FirstShown(placed + [p])
            == if FirstShown(placed).Some? then FirstShown(placed)
               else if p.rect.Empty() then None else Some(p.pane)
  {
    if placed == [] {
      assert placed + [p] == [p];
    } else {
      assert (placed + [p])[1..] == placed[1..] + [p];
      FirstShownMore(placed[1..], p);
    }
  }

  /** One owner's panes are recorded as at most one column, named by the first of them that has cells. */
  lemma {:induction false} FirstPaneStandsForColumn(
      columns: seq<ColumnRect>, owner: ViewportColumn, placed: seq<Placed>)
    requires columns != [] ==> columns[|columns| - 1].owner != owner
    ensures var (after, first) := (RecordAll(columns, owner, placed), FirstShown(placed));
            if first.None? then after == columns
            else
              && |after| == |columns| + 1 && after[..|columns|] == columns
              && after[|columns|].owner == owner && after[|columns|].representative == first.value
  {
    hide Union;
    if placed != [] {
      var (earlier, p) := (placed[..|placed| - 1], placed[|placed| - 1]);
      assert placed == earlier + [p];
      FirstPaneStandsForColumn(columns, owner, earlier);
      FirstShownMore(earlier, p);
    }
  }

  // ----- Collapsed panes of all columns -----

  /** The headers of the first `n` columns, each as in a screen of its own. */
  function ColumnwiseHeaders(
      columns: seq<LayoutColumn>, area: Rect, active: Option<PaneId>, n: nat, vg: ViewportGrid): set<PaneId>
    requires n <= |columns|
  {
    if n == 0 then {}
    else ColumnwiseHeaders(columns, area, active, n - 1, vg)
         + Headers(columns[n - 1].root, ColumnArea(columns, area, n - 1, vg), active, vg.Cells())
  }

  /** The scrolling layout reports exactly the collapsed panes of its columns. */
  lemma {:induction false} HeadersOfColumns(
      columns: seq<LayoutColumn>, area: Rect, active: Option<PaneId>, marks: map<SplitId, real>, n: nat,
      vg: ViewportGrid)
    requires 1 <= n <= |columns| && IdsSeparate(columns) && MarksColumns(marks, columns)
    requires area.height > 0 && area.y + area.height <= U16_MAX
    requires area.x + CellSum(columns, area.width, n, vg) <= U64_MAX
    ensures ScreenWalk(Projection(columns[..n]), area, active, columns[0].width, marks, vg).headers
            == ColumnwiseHeaders(columns, area, active, n, vg)
  {
    hide ViewportWalk, Placements, Headers, Projection, SpineWalked, ColumnCells;
    CellSumGrows(columns, area.width, n - 1, n, vg);
    if n == 1 {
      FirstColumnHeaders(columns, area, active, marks, vg);
    } else {
      HeadersOfColumns(columns, area, active, marks, n - 1, vg);
      SpineWalk(columns, area, active, marks, n - 1, vg);
      var left := ScreenWalk(Projection(columns[..n - 1]), area, active, columns[0].width, marks, vg);
      NextColumnArea(left, columns, area, active, marks, n, vg);
      ProjectionStep(columns, n);
      MarkedSplitWalk(Projection(columns[..n]), BaseArea(area, columns[0].width, vg), area.width, active, marks, Base,
                      vg, []);
      UnmarkedWalk(columns[n - 1].root, ColumnArea(columns, area, n - 1, vg), area.width, active, marks,
                   OwnerOf(columns, n - 1), vg, left.columns);
    }
  }

  lemma FirstColumnHeaders(
      columns: seq<LayoutColumn>, area: Rect, active: Option<PaneId>, marks: map<SplitId, real>, vg: ViewportGrid)
    requires |columns| >= 1 && MarksColumns(marks, columns)
    requires area.y + area.height <= U16_MAX && area.x + CellSum(columns, area.width, 1, vg) <= U64_MAX
    ensures ScreenWalk(Projection(columns[..1]), area, active, columns[0].width, marks, vg).headers
            == ColumnwiseHeaders(columns, area, active, 1, vg)
  {
    hide ViewportWalk, Placements, Headers, ColumnCells;
    assert CellSum(columns, area.width, 0, vg) == 0;
    assert ColumnArea(columns, area, 0, vg) == BaseArea(area, columns[0].width, vg);
    assert ColumnwiseHeaders(columns, area, active, 0, vg) == {};
    UnmarkedWalk(columns[0].root, BaseArea(area, columns[0].width, vg), area.width, active, marks, Base, vg, []);
  }
}
