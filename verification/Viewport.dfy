/**
 * The horizontally extended layout: marked right splits append columns instead of dividing the
 * viewport (layout.rs:455-491, 600-743).  Horizontal coordinates are 64-bit, so the grid's
 * horizontal limit is that of an unsigned 64-bit integer.
 */
module Viewport {
  import opened Prelude
  import opened SplitTree
  import opened Layout
  import opened Tiling
  import opened Columns

  /** Rounding of the tiled splits and of `viewport * width` for a column; both arbitrary. */
  datatype ViewportGrid = ViewportGrid(round: (SplitDir, nat, real) -> int, roundCells: (nat, real) -> int) {
    function Cells(): Grid {
      Grid(U64_MAX, round)
    }
  }

  const MIN_VIEWPORT_PANE_WIDTH: real := 0.1
  const MAX_VIEWPORT_PANE_WIDTH: real := 1.0

  function ClampWidth(width: real): real {
    if width < MIN_VIEWPORT_PANE_WIDTH then MIN_VIEWPORT_PANE_WIDTH
    else if width > MAX_VIEWPORT_PANE_WIDTH then MAX_VIEWPORT_PANE_WIDTH
    else width
  }

  function ColumnCells(viewportWidth: nat, width: real, vg: ViewportGrid): (cells: nat)
    ensures 1 <= cells <= Max(viewportWidth, 1)
  {
    Clamp(vg.roundCells(viewportWidth, ClampWidth(width)), 1, Max(viewportWidth, 1))
  }

  // ----- Column bounds, grown pane by pane -----

  datatype ColumnRect = ColumnRect(owner: ViewportColumn, representative: PaneId, rect: Rect)

  function Union(a: Rect, b: Rect): Rect {
    var right := Max(SatAdd(a.x, a.width, U64_MAX), SatAdd(b.x, b.width, U64_MAX));
    var bottom := Max(SatAdd(a.y, a.height, U16_MAX), SatAdd(b.y, b.height, U16_MAX));
    var (x, y) := (Min(a.x, b.x), Min(a.y, b.y));
    Rect(x, y, SatSub(right, x), SatSub(bottom, y))
  }

  /** An empty pane leaves the columns alone; a pane of the current owner widens its column's box. */
  function RecordColumn(columns: seq<ColumnRect>, owner: ViewportColumn, placed: Placed): seq<ColumnRect> {
    var last := |columns| - 1;
    if placed.rect.Empty() then columns
    else if columns != [] && columns[last].owner == owner then
      columns[..last] + [columns[last].(rect := Union(columns[last].rect, placed.rect))]
    else columns + [ColumnRect(owner, placed.pane, placed.rect)]
  }

  function RecordAll(columns: seq<ColumnRect>, owner: ViewportColumn, placed: seq<Placed>): seq<ColumnRect> {
    if placed == [] then columns
    else RecordColumn(RecordAll(columns, owner, placed[..|placed| - 1]), owner, placed[|placed| - 1])
  }

  lemma {:induction false} RecordAllAppend(
      columns: seq<ColumnRect>, owner: ViewportColumn, s: seq<Placed>, t: seq<Placed>)
    ensures RecordAll(columns, owner, s + t) == RecordAll(RecordAll(columns, owner, s), owner, t)
    decreases |t|
  {
    if t == [] {
      assert s + t == s;
    } else {
      assert (s + t)[..|s + t| - 1] == s + t[..|t| - 1];
      RecordAllAppend(columns, owner, s, t[..|t| - 1]);
    }
  }

  lemma RecordNone(columns: seq<ColumnRect>, owner: ViewportColumn)
    ensures RecordAll(columns, owner, []) == columns
  {
  }

  lemma RecordOneMore(columns: seq<ColumnRect>, owner: ViewportColumn, rows: seq<Placed>, row: Placed)
    ensures RecordAll(columns, owner, rows + [row]) == RecordColumn(RecordAll(columns, owner, rows), owner, row)
  {
    assert (rows + [row])[..|rows|] == rows;
  }

  // ----- What the walk produces -----

  /** Panes, recorded columns, collapsed headers, and the first unused horizontal coordinate. */
  datatype Walked = Walked(panes: seq<Placed>, columns: seq<ColumnRect>, headers: set<PaneId>, end: nat)

  function Join(left: Walked, right: Walked, end: nat): Walked {
    Walked(left.panes + right.panes, right.columns, left.headers + right.headers, end)
  }

  function ViewportWalk(
      node: Node, area: Rect, viewportWidth: nat, active: Option<PaneId>, marks: map<SplitId, real>,
      owner: ViewportColumn, vg: ViewportGrid, columns: seq<ColumnRect>): Walked
    decreases node
  {
    match node
    case Leaf(pane) =>
      Walked([Placed(pane, area)], RecordColumn(columns, owner, Placed(pane, area)), {},
             SatAdd(area.x, area.width, U64_MAX))
    case Split(id, dir, ratio, a, b) =>
      if dir.Right? && id in marks then
        var left := ViewportWalk(a, area, viewportWidth, active, marks, owner, vg, columns);
        var column := area.(x := left.end, width := ColumnCells(viewportWidth, marks[id], vg));
        var right := ViewportWalk(b, column, viewportWidth, active, marks, SplitColumn(id), vg, left.columns);
        Join(left, right, right.end)
      else
        var (first, second) := ChildAreas(area, dir, ratio, vg.Cells());
        var left := ViewportWalk(a, first, viewportWidth, active, marks, owner, vg, columns);
        var right := ViewportWalk(b, second, viewportWidth, active, marks, owner, vg, left.columns);
        Join(left, right, Max(left.end, right.end))
    case Stack(panes, expanded) =>
      var shown := ShownMember(panes, expanded, active);
      var rows := StackRows(panes, shown, area);
      Walked(rows, RecordAll(columns, owner, rows), StackHeaders(panes, shown, area),
             SatAdd(area.x, area.width, U64_MAX))
  }

  function BaseArea(area: Rect, baseWidth: real, vg: ViewportGrid): Rect {
    area.(width := ColumnCells(area.width, baseWidth, vg))
  }

  function ScreenWalk(
      root: Node, area: Rect, active: Option<PaneId>, baseWidth: real, marks: map<SplitId, real>, vg: ViewportGrid)
    : Walked
  {
    ViewportWalk(root, BaseArea(area, baseWidth, vg), area.width, active, marks, Base, vg, [])
  }

  // ----- The walk as the program runs it -----

  class ViewportResult {
    var panes: seq<Placed>
    var columns: seq<ColumnRect>
    var stackedHeaders: set<PaneId>
    var virtualWidth: nat

    constructor ()
      ensures panes == [] && columns == [] && stackedHeaders == {} && virtualWidth == 0
    {
      panes, columns, stackedHeaders, virtualWidth := [], [], {}, 0;
    }

    method RecordViewportPane(owner: ViewportColumn, pane: PaneId, rect: Rect)
      modifies this
      ensures panes == old(panes) + [Placed(pane, rect)]
      ensures columns == RecordColumn(old(columns), owner, Placed(pane, rect))
      ensures stackedHeaders == old(stackedHeaders) && virtualWidth == old(virtualWidth)
    {
      panes := panes + [Placed(pane, rect)];
      if rect.width == 0 || rect.height == 0 {
        return;
      }
      if columns != [] && columns[|columns| - 1].owner == owner {
        var column := columns[|columns| - 1];
        var box := column.rect;
        var right := Max(SatAdd(box.x, box.width, U64_MAX), SatAdd(rect.x, rect.width, U64_MAX));
        var bottom := Max(SatAdd(box.y, box.height, U16_MAX), SatAdd(rect.y, rect.height, U16_MAX));
        box := box.(x := Min(box.x, rect.x));
        box := box.(y := Min(box.y, rect.y));
        box := box.(width := SatSub(right, box.x));
        box := box.(height := SatSub(bottom, box.y));
        columns := columns[..|columns| - 1] + [column.(rect := box)];
        return;
      }
      columns := columns + [ColumnRect(owner, pane, rect)];
    }
  }

  method LayoutScreenWithViewport(
      root: Node, area: Rect, active: Option<PaneId>, baseWidth: real, marks: map<SplitId, real>, vg: ViewportGrid)
    returns (result: ViewportResult)
    ensures fresh(result)
    ensures var walked := ScreenWalk(root, area, active, baseWidth, marks, vg);
            && result.panes == walked.panes
            && result.columns == walked.columns
            && result.stackedHeaders == walked.headers
            && result.virtualWidth == Max(SatSub(walked.end, area.x), area.width)
  {
    hide ViewportWalk;
    result := new ViewportResult();
    var end := WalkViewport(root, BaseArea(area, baseWidth, vg), area.width, active, marks, Base, vg, result);
    result.virtualWidth := Max(SatSub(end, area.x), area.width);
  }

  method WalkViewport(
      node: Node, area: Rect, viewportWidth: nat, active: Option<PaneId>, marks: map<SplitId, real>,
      owner: ViewportColumn, vg: ViewportGrid, out: ViewportResult)
    returns (end: nat)
    modifies out
    ensures var walked := ViewportWalk(node, area, viewportWidth, active, marks, owner, vg, old(out.columns));
            && out.panes == old(out.panes) + walked.panes
            && out.columns == walked.columns
            && out.stackedHeaders == old(out.stackedHeaders) + walked.headers
            && out.virtualWidth == old(out.virtualWidth)
            && end == walked.end
    decreases node
  {
    match node
    case Leaf(pane) =>
      out.RecordViewportPane(owner, pane, area);
      end := SatAdd(area.x, area.width, U64_MAX);
    case Split(id, dir, ratio, a, b) =>
      ghost var before := out.panes;
      if dir.Right? && id in marks {
        ghost var left := ViewportWalk(a, area, viewportWidth, active, marks, owner, vg, out.columns);
        var aEnd := WalkViewport(a, area, viewportWidth, active, marks, owner, vg, out);
        var width := ColumnCells(viewportWidth, marks[id], vg);
        var column := area.(x := aEnd, width := width);
        ghost var right := ViewportWalk(b, column, viewportWidth, active, marks, SplitColumn(id), vg, out.columns);
        end := WalkViewport(b, column, viewportWidth, active, marks, SplitColumn(id), vg, out);
        Regroup(before, left.panes, right.panes);
      } else {
        var first, second := area, Collapsed(area);
        if !TooSmall(area, dir) {
          var (aRect, bRect) := SplitSides(area, dir, ratio, vg.Cells());
          first, second := aRect, bRect;
        }
        assert (first, second) == ChildAreas(area, dir, ratio, vg.Cells());
        ghost var left := ViewportWalk(a, first, viewportWidth, active, marks, owner, vg, out.columns);
        var aEnd := WalkViewport(a, first, viewportWidth, active, marks, owner, vg, out);
        ghost var right := ViewportWalk(b, second, viewportWidth, active, marks, owner, vg, out.columns);
        var bEnd := WalkViewport(b, second, viewportWidth, active, marks, owner, vg, out);
        end := Max(aEnd, bEnd);
        Regroup(before, left.panes, right.panes);
      }
    case Stack(panes, expanded) =>
      WalkViewportStack(panes, ShownMember(panes, expanded, active), area, owner, out);
      end := SatAdd(area.x, area.width, U64_MAX);
  }

  method WalkViewportStack(panes: StackPanes, expanded: PaneId, area: Rect, owner: ViewportColumn, out: ViewportResult)
    modifies out
    ensures out.panes == old(out.panes) + StackRows(panes, expanded, area)
    ensures out.columns == RecordAll(old(out.columns), owner, StackRows(panes, expanded, area))
    ensures out.stackedHeaders == old(out.stackedHeaders) + StackHeaders(panes, expanded, area)
    ensures out.virtualWidth == old(out.virtualWidth)
  {
    var expandedIndex := ExpandedIndex(panes, expanded);
    var visibleHeaders := Min(SatSub(area.height, 1), |panes| - 1);
    var headersBefore, headersAfter :=
      AllocateHeaders(expandedIndex, |panes| - expandedIndex - 1, visibleHeaders);
    var expandedHeight := SatSub(area.height, headersBefore + headersAfter);
    assert PlanFor(panes, expanded, area) == StackPlan(expandedIndex, headersBefore, headersAfter, expandedHeight);
    RecordRows(panes, expandedIndex, headersBefore, headersAfter, expandedHeight, area, owner, out);
  }

  /** The recording loop of the stack walk: one row per pane, top to bottom. */
  method RecordRows(
      panes: seq<PaneId>, expandedIndex: nat, headersBefore: nat, headersAfter: nat, expandedHeight: nat, area: Rect,
      owner: ViewportColumn, out: ViewportResult)
    requires headersBefore <= expandedIndex
    modifies out
    ensures var plan := StackPlan(expandedIndex, headersBefore, headersAfter, expandedHeight);
            && out.panes == old(out.panes) + Rows(panes, plan, area, |panes|)
            && out.columns == RecordAll(old(out.columns), owner, Rows(panes, plan, area, |panes|))
            && out.stackedHeaders == old(out.stackedHeaders) + HeaderPanes(panes, plan, |panes|)
    ensures out.virtualWidth == old(out.virtualWidth)
  {
    hide Rows, RowTop, HeaderPanes, RecordAll, RecordColumn;
    ghost var plan := StackPlan(expandedIndex, headersBefore, headersAfter, expandedHeight);
    RowsStart(panes, plan, area);
    RecordNone(out.columns, owner);
    var y := area.y;
    var index := 0;
    while index < |panes|
      invariant 0 <= index <= |panes|
      invariant y == RowTop(plan, area.y, index)
      invariant out.panes == old(out.panes) + Rows(panes, plan, area, index)
      invariant out.columns == RecordAll(old(out.columns), owner, Rows(panes, plan, area, index))
      invariant out.stackedHeaders == old(out.stackedHeaders) + HeaderPanes(panes, plan, index)
      invariant out.virtualWidth == old(out.virtualWidth)
    {
      var height := RowHeight(index, expandedIndex, headersBefore, headersAfter, expandedHeight);
      var row := Placed(panes[index], area.(y := y, height := height));
      ghost var rows := Rows(panes, plan, area, index);
      RowsNext(panes, plan, area, index);
      Regroup(old(out.panes), rows, [row]);
      RecordOneMore(old(out.columns), owner, rows, row);
      out.RecordViewportPane(owner, panes[index], row.rect);
      if height == 1 && index != expandedIndex {
        out.stackedHeaders := out.stackedHeaders + {panes[index]};
      }
      y := SatAdd(y, height, U16_MAX);
      index := index + 1;
    }
  }

  // ----- A column's subtree is tiled as an ordinary screen -----

  ghost predicate Unmarked(node: Node, marks: map<SplitId, real>) {
    forall id :: ContainsSplit(node, id) ==> id !in marks
  }

  lemma {:induction false} UnmarkedWalk(
      node: Node, area: Rect, viewportWidth: nat, active: Option<PaneId>, marks: map<SplitId, real>,
      owner: ViewportColumn, vg: ViewportGrid, columns: seq<ColumnRect>)
    requires Fits(area, vg.Cells()) && Unmarked(node, marks)
    ensures var walked := ViewportWalk(node, area, viewportWidth, active, marks, owner, vg, columns);
            var placed := Placements(node, area, active, vg.Cells());
            && walked.panes == placed
            && walked.columns == RecordAll(columns, owner, placed)
            && walked.headers == Headers(node, area, active, vg.Cells())
            && walked.end == area.x + area.width
    decreases node
  {
    hide ViewportWalk, Placements, Headers, RecordAll, Unmarked, ChildAreas;
    if node.Split? {
      var (first, second) := ChildAreas(area, node.dir, node.ratio, vg.Cells());
      UnmarkedParts(node, marks);
      UnmarkedSplit(node, area, viewportWidth, active, marks, owner, vg, columns);
      UnmarkedWalk(node.a, first, viewportWidth, active, marks, owner, vg, columns);
      var middle := RecordAll(columns, owner, Placements(node.a, first, active, vg.Cells()));
      UnmarkedWalk(node.b, second, viewportWidth, active, marks, owner, vg, middle);
      RecordAllAppend(columns, owner, Placements(node.a, first, active, vg.Cells()),
                      Placements(node.b, second, active, vg.Cells()));
    } else {
      UndividedWalk(node, area, viewportWidth, active, marks, owner, vg, columns);
    }
  }

  lemma UndividedWalk(
      node: Node, area: Rect, viewportWidth: nat, active: Option<PaneId>, marks: map<SplitId, real>,
      owner: ViewportColumn, vg: ViewportGrid, columns: seq<ColumnRect>)
    requires Fits(area, vg.Cells()) && !node.Split?
    ensures var walked := ViewportWalk(node, area, viewportWidth, active, marks, owner, vg, columns);
            var placed := Placements(node, area, active, vg.Cells());
            && walked == Walked(placed, RecordAll(columns, owner, placed), Headers(node, area, active, vg.Cells()),
                                area.x + area.width)
  {
    hide StackRows, StackHeaders, ShownMember, RecordColumn, ChildAreas, ColumnCells, Join;
    match node
    case Leaf(pane) =>
      RecordOneMore(columns, owner, [], Placed(pane, area));
      assert [] + [Placed(pane, area)] == Placements(node, area, active, vg.Cells());
    case Stack(_, _) =>
  }

  /** One unmarked division, of the viewport walk and of the ordinary layout. */
  lemma UnmarkedSplit(
      node: Node, area: Rect, viewportWidth: nat, active: Option<PaneId>, marks: map<SplitId, real>,
      owner: ViewportColumn, vg: ViewportGrid, columns: seq<ColumnRect>)
    requires Fits(area, vg.Cells()) && node.Split? && node.id !in marks
    ensures var (first, second) := ChildAreas(area, node.dir, node.ratio, vg.Cells());
            var left := ViewportWalk(node.a, first, viewportWidth, active, marks, owner, vg, columns);
            var right := ViewportWalk(node.b, second, viewportWidth, active, marks, owner, vg, left.columns);
            && Fits(first, vg.Cells()) && Fits(second, vg.Cells())
            && Max(first.x + first.width, second.x + second.width) == area.x + area.width
            && ViewportWalk(node, area, viewportWidth, active, marks, owner, vg, columns)
               == Join(left, right, Max(left.end, right.end))
            && Placements(node, area, active, vg.Cells())
               == Placements(node.a, first, active, vg.Cells()) + Placements(node.b, second, active, vg.Cells())
            && Headers(node, area, active, vg.Cells())
               == Headers(node.a, first, active, vg.Cells()) + Headers(node.b, second, active, vg.Cells())
  {
    hide RecordAll, RecordColumn, StackRows, StackHeaders, ShownMember, ColumnCells;
  }

  lemma UnmarkedParts(node: Node, marks: map<SplitId, real>)
    requires node.Split? && Unmarked(node, marks)
    ensures node.id !in marks && Unmarked(node.a, marks) && Unmarked(node.b, marks)
  {
    assert ContainsSplit(node, node.id);
    forall other | ContainsSplit(node.a, other) || ContainsSplit(node.b, other) ensures other !in marks {
      assert ContainsSplit(node, other);
    }
  }

  // ----- The bounding box of a tiled column is the column -----

  /** A box that holds every nonempty pane so far and stays inside the area. */
  ghost predicate Bounds(box: Rect, placed: seq<Placed>, area: Rect) {
    && box.Within(area)
    && forall p :: p in placed && !p.rect.Empty() ==> p.rect.Within(box)
  }

  ghost predicate AllEmpty(placed: seq<Placed>) {
    forall p :: p in placed ==> p.rect.Empty()
  }

  lemma UnionBounds(box: Rect, placed: seq<Placed>, area: Rect, p: Placed)
    requires area.x + area.width <= U64_MAX && area.y + area.height <= U16_MAX
    requires Bounds(box, placed, area) && p.rect.Within(area)
    ensures Bounds(Union(box, p.rect), placed + [p], area)
  {
    var both := Union(box, p.rect);
    assert box.Within(both) && p.rect.Within(both) && both.Within(area);
  }

  lemma EmptyPaneKeepsBounds(box: Rect, placed: seq<Placed>, area: Rect, p: Placed)
    requires Bounds(box, placed, area) && p.rect.Empty()
    ensures Bounds(box, placed + [p], area)
  {
  }

  /** One more recorded column, whose box encloses the panes. */
  ghost predicate AddsBox(
      columns: seq<ColumnRect>, owner: ViewportColumn, placed: seq<Placed>, area: Rect, after: seq<ColumnRect>)
  {
    exists representative, box ::
      && after == columns + [ColumnRect(owner, representative, box)]
      && Bounds(box, placed, area) && representative in Panes(placed)
  }

  /** Recording one owner's panes adds at most one column, whose box encloses every nonempty pane. */
  lemma {:induction false} RecordRun(columns: seq<ColumnRect>, owner: ViewportColumn, placed: seq<Placed>, area: Rect)
    requires columns != [] ==> columns[|columns| - 1].owner != owner
    requires area.x + area.width <= U64_MAX && area.y + area.height <= U16_MAX
    requires forall p :: p in placed ==> p.rect.Within(area)
    ensures AllEmpty(placed) ==> RecordAll(columns, owner, placed) == columns
    ensures !AllEmpty(placed) ==> AddsBox(columns, owner, placed, area, RecordAll(columns, owner, placed))
  {
    if placed != [] {
      hide AddsBox, RecordAll, RecordColumn, Bounds;
      var last := |placed| - 1;
      var earlier, p := placed[..last], placed[last];
      assert placed == earlier + [p];
      RecordRun(columns, owner, earlier, area);
      RecordOneMore(columns, owner, earlier, p);
      AllEmptySplits(earlier, p);
      if AllEmpty(earlier) {
        RecordFirst(columns, owner, earlier, p, area);
      } else {
        RecordLater(columns, owner, earlier, p, area, RecordAll(columns, owner, earlier));
      }
    }
  }

  lemma AllEmptySplits(earlier: seq<Placed>, p: Placed)
    ensures AllEmpty(earlier + [p]) <==> AllEmpty(earlier) && p.rect.Empty()
  {
    assert (earlier + [p])[|earlier|] == p;
  }

  lemma RecordFirst(columns: seq<ColumnRect>, owner: ViewportColumn, earlier: seq<Placed>, p: Placed, area: Rect)
    requires columns != [] ==> columns[|columns| - 1].owner != owner
    requires AllEmpty(earlier) && p.rect.Within(area)
    ensures p.rect.Empty() ==> RecordColumn(columns, owner, p) == columns
    ensures !p.rect.Empty() ==> AddsBox(columns, owner, earlier + [p], area, RecordColumn(columns, owner, p))
  {
    var placed := earlier + [p];
    if !p.rect.Empty() {
      assert RecordColumn(columns, owner, p) == columns + [ColumnRect(owner, p.pane, p.rect)];
      assert placed[|earlier|] == p && Panes(placed)[|earlier|] == p.pane;
      assert Bounds(p.rect, placed, area);
    }
  }

  lemma RecordLater(
      columns: seq<ColumnRect>, owner: ViewportColumn, earlier: seq<Placed>, p: Placed, area: Rect,
      recorded: seq<ColumnRect>)
    requires area.x + area.width <= U64_MAX && area.y + area.height <= U16_MAX
    requires AddsBox(columns, owner, earlier, area, recorded) && p.rect.Within(area)
    ensures AddsBox(columns, owner, earlier + [p], area, RecordColumn(recorded, owner, p))
  {
    hide Bounds, RecordColumn;
    var representative, box :|
      && recorded == columns + [ColumnRect(owner, representative, box)]
      && Bounds(box, earlier, area) && representative in Panes(earlier);
    RecordIntoLast(columns, ColumnRect(owner, representative, box), p);
    assert Panes(earlier + [p]) == Panes(earlier) + [p.pane];
    if p.rect.Empty() {
      EmptyPaneKeepsBounds(box, earlier, area, p);
    } else {
      UnionBounds(box, earlier, area, p);
    }
  }

  lemma RecordIntoLast(columns: seq<ColumnRect>, column: ColumnRect, p: Placed)
    ensures RecordColumn(columns + [column], column.owner, p)
            == columns + [if p.rect.Empty() then column else column.(rect := Union(column.rect, p.rect))]
  {
  }

  lemma CornerInsideBox(placed: seq<Placed>, area: Rect, box: Rect, px: int, py: int)
    requires Tiles(placed, area) && area.Contains(px, py) && Bounds(box, placed, area)
    ensures box.Contains(px, py) && !AllEmpty(placed)
  {
    assert Covered(placed, px, py);
    var i :| 0 <= i < |placed| && placed[i].rect.Contains(px, py);
    assert placed[i] in placed;
  }

  /** The only box that bounds a tiling of a nonempty area from inside is the area. */
  lemma TilingIsBoundedByItsArea(placed: seq<Placed>, area: Rect, box: Rect)
    requires Tiles(placed, area) && !area.Empty() && Bounds(box, placed, area)
    ensures box == area
  {
    CornerInsideBox(placed, area, box, area.x, area.y);
    CornerInsideBox(placed, area, box, area.x + area.width - 1, area.y + area.height - 1);
  }

  /** One more column: exactly the area, with one of its panes as representative. */
  ghost predicate AppendsColumn(
      after: seq<ColumnRect>, before: seq<ColumnRect>, owner: ViewportColumn, root: Node, area: Rect,
      representative: PaneId)
  {
    Contains(root, representative) && after == before + [ColumnRect(owner, representative, area)]
  }

  /** Recording a tiled, nonempty column appends exactly that column's rectangle. */
  lemma RecordedColumnIsItsArea(
      columns: seq<ColumnRect>, owner: ViewportColumn, root: Node, area: Rect, active: Option<PaneId>, vg: ViewportGrid)
    requires columns != [] ==> columns[|columns| - 1].owner != owner
    requires Fits(area, vg.Cells()) && !area.Empty()
    ensures exists representative ::
              AppendsColumn(RecordAll(columns, owner, Placements(root, area, active, vg.Cells())),
                            columns, owner, root, area, representative)
  {
    var placed := Placements(root, area, active, vg.Cells());
    LayoutTilesScreen(root, area, active, vg.Cells());
    RecordRun(columns, owner, placed, area);
    CornerInsideBox(placed, area, area, area.x, area.y);
    var pane, box :|
      && RecordAll(columns, owner, placed) == columns + [ColumnRect(owner, pane, box)]
      && Bounds(box, placed, area) && pane in Panes(placed);
    TilingIsBoundedByItsArea(placed, area, box);
    assert AppendsColumn(RecordAll(columns, owner, placed), columns, owner, root, area, pane);
  }

  // ----- Projected columns stand side by side -----

  /** Cells taken by the first `n` columns. */
  function CellSum(columns: seq<LayoutColumn>, viewportWidth: nat, n: nat, vg: ViewportGrid): nat
    requires n <= |columns|
  {
    if n == 0 then 0
    else CellSum(columns, viewportWidth, n - 1, vg) + ColumnCells(viewportWidth, columns[n - 1].width, vg)
  }

  /** Column i: directly right of column i-1, full height, its own width. */
  function ColumnArea(columns: seq<LayoutColumn>, area: Rect, i: nat, vg: ViewportGrid): Rect
    requires i < |columns|
  {
    Rect(area.x + CellSum(columns, area.width, i, vg), area.y,
         ColumnCells(area.width, columns[i].width, vg), area.height)
  }

  /** The panes of the first `n` columns, each tiled inside its own column. */
  function ColumnwisePanes(
      columns: seq<LayoutColumn>, area: Rect, active: Option<PaneId>, n: nat, vg: ViewportGrid): seq<Placed>
    requires n <= |columns|
  {
    if n == 0 then []
    else ColumnwisePanes(columns, area, active, n - 1, vg)
         + Placements(columns[n - 1].root, ColumnArea(columns, area, n - 1, vg), active, vg.Cells())
  }

  /** The recorded columns are the column areas, in order, each named by one of its own panes. */
  ghost predicate ColumnsRecorded(
      recorded: seq<ColumnRect>, columns: seq<LayoutColumn>, area: Rect, n: nat, vg: ViewportGrid)
    requires n <= |columns|
  {
    && |recorded| == n
    && forall i :: 0 <= i < n ==>
         && recorded[i].owner == OwnerOf(columns, i)
         && recorded[i].rect == ColumnArea(columns, area, i, vg)
         && Contains(columns[i].root, recorded[i].representative)
  }

  lemma {:induction false} CellSumGrows(
      columns: seq<LayoutColumn>, viewportWidth: nat, m: nat, n: nat, vg: ViewportGrid)
    requires m <= n <= |columns|
    ensures CellSum(columns, viewportWidth, m, vg) + (n - m) <= CellSum(columns, viewportWidth, n, vg)
  {
    if m < n {
      CellSumGrows(columns, viewportWidth, m, n - 1, vg);
    }
  }

  /** One column, walked after the columns to its left. */
  lemma ColumnWalk(
      columns: seq<LayoutColumn>, area: Rect, active: Option<PaneId>, marks: map<SplitId, real>, i: nat,
      vg: ViewportGrid, recorded: seq<ColumnRect>)
    requires i < |columns| && IdsSeparate(columns) && Unmarked(columns[i].root, marks)
    requires area.height > 0 && area.y + area.height <= U16_MAX
    requires area.x + CellSum(columns, area.width, i + 1, vg) <= U64_MAX
    requires ColumnsRecorded(recorded, columns, area, i, vg)
    ensures var own := ColumnArea(columns, area, i, vg);
            var walked :=
              ViewportWalk(columns[i].root, own, area.width, active, marks, OwnerOf(columns, i), vg, recorded);
            && walked.panes == Placements(columns[i].root, own, active, vg.Cells())
            && walked.end == own.x + own.width
            && ColumnsRecorded(walked.columns, columns, area, i + 1, vg)
  {
    var own := ColumnArea(columns, area, i, vg);
    UnmarkedWalk(columns[i].root, own, area.width, active, marks, OwnerOf(columns, i), vg, recorded);
    RecordedColumnIsItsArea(recorded, OwnerOf(columns, i), columns[i].root, own, active, vg);
    var after := RecordAll(recorded, OwnerOf(columns, i), Placements(columns[i].root, own, active, vg.Cells()));
    var representative :| AppendsColumn(after, recorded, OwnerOf(columns, i), columns[i].root, own, representative);
    RecordedOneMore(recorded, columns, area, i, vg, representative);
  }

  lemma RecordedOneMore(
      recorded: seq<ColumnRect>, columns: seq<LayoutColumn>, area: Rect, i: nat, vg: ViewportGrid,
      representative: PaneId)
    requires i < |columns| && ColumnsRecorded(recorded, columns, area, i, vg)
    requires Contains(columns[i].root, representative)
    ensures ColumnsRecorded(
              recorded + [ColumnRect(OwnerOf(columns, i), representative, ColumnArea(columns, area, i, vg))],
              columns, area, i + 1, vg)
  {
  }

  lemma MarkedSplitWalk(
      node: Node, area: Rect, viewportWidth: nat, active: Option<PaneId>, marks: map<SplitId, real>,
      owner: ViewportColumn, vg: ViewportGrid, columns: seq<ColumnRect>)
    requires node.Split? && node.dir.Right? && node.id in marks
    ensures var left := ViewportWalk(node.a, area, viewportWidth, active, marks, owner, vg, columns);
            var column := area.(x := left.end, width := ColumnCells(viewportWidth, marks[node.id], vg));
            var right :=
              ViewportWalk(node.b, column, viewportWidth, active, marks, SplitColumn(node.id), vg, left.columns);
            ViewportWalk(node, area, viewportWidth, active, marks, owner, vg, columns) == Join(left, right, right.end)
  {
  }

  ghost predicate MarksColumns(marks: map<SplitId, real>, columns: seq<LayoutColumn>) {
    && (forall i :: 1 <= i < |columns| ==> columns[i].id in marks && marks[columns[i].id] == columns[i].width)
    && (forall i :: 0 <= i < |columns| ==> Unmarked(columns[i].root, marks))
  }

  /** What walking the first `n` projected columns yields. */
  ghost predicate SpineWalked(
      walked: Walked, columns: seq<LayoutColumn>, area: Rect, active: Option<PaneId>, n: nat, vg: ViewportGrid)
    requires n <= |columns|
  {
    && walked.panes == ColumnwisePanes(columns, area, active, n, vg)
    && walked.end == area.x + CellSum(columns, area.width, n, vg)
    && ColumnsRecorded(walked.columns, columns, area, n, vg)
  }

  lemma SpineStep(
      left: Walked, columns: seq<LayoutColumn>, area: Rect, active: Option<PaneId>, marks: map<SplitId, real>, n: nat,
      vg: ViewportGrid)
    requires 2 <= n <= |columns| && IdsSeparate(columns) && MarksColumns(marks, columns)
    requires area.height > 0 && area.y + area.height <= U16_MAX
    requires area.x + CellSum(columns, area.width, n, vg) <= U64_MAX
    requires SpineWalked(left, columns, area, active, n - 1, vg)
    ensures var own := ColumnArea(columns, area, n - 1, vg);
            var right := ViewportWalk(columns[n - 1].root, own, area.width, active, marks, OwnerOf(columns, n - 1), vg,
                                      left.columns);
            SpineWalked(Join(left, right, right.end), columns, area, active, n, vg)
  {
    hide ViewportWalk, Placements, ColumnsRecorded;
    ColumnWalk(columns, area, active, marks, n - 1, vg, left.columns);
  }

  lemma NextColumnArea(
      left: Walked, columns: seq<LayoutColumn>, area: Rect, active: Option<PaneId>, marks: map<SplitId, real>, n: nat,
      vg: ViewportGrid)
    requires 2 <= n <= |columns| && MarksColumns(marks, columns)
    requires SpineWalked(left, columns, area, active, n - 1, vg)
    ensures columns[n - 1].id in marks && OwnerOf(columns, n - 1) == SplitColumn(columns[n - 1].id)
    ensures BaseArea(area, columns[0].width, vg)
            .(x := left.end, width := ColumnCells(area.width, marks[columns[n - 1].id], vg))
            == ColumnArea(columns, area, n - 1, vg)
  {
  }

  lemma {:induction false} SpineWalk(
      columns: seq<LayoutColumn>, area: Rect, active: Option<PaneId>, marks: map<SplitId, real>, n: nat,
      vg: ViewportGrid)
    requires 1 <= n <= |columns| && IdsSeparate(columns) && MarksColumns(marks, columns)
    requires area.height > 0 && area.y + area.height <= U16_MAX
    requires area.x + CellSum(columns, area.width, n, vg) <= U64_MAX
    ensures SpineWalked(ScreenWalk(Projection(columns[..n]), area, active, columns[0].width, marks, vg),
                        columns, area, active, n, vg)
  {
    hide ViewportWalk, Placements, Projection, SpineWalked;
    if n == 1 {
      SpineStart(columns, area, active, marks, vg);
    } else {
      CellSumGrows(columns, area.width, n - 1, n, vg);
      SpineWalk(columns, area, active, marks, n - 1, vg);
      var left := ScreenWalk(Projection(columns[..n - 1]), area, active, columns[0].width, marks, vg);
      NextColumnArea(left, columns, area, active, marks, n, vg);
      ProjectionStep(columns, n);
      MarkedSplitWalk(Projection(columns[..n]), BaseArea(area, columns[0].width, vg), area.width, active, marks, Base,
                      vg, []);
      SpineStep(left, columns, area, active, marks, n, vg);
    }
  }

  lemma SpineStart(
      columns: seq<LayoutColumn>, area: Rect, active: Option<PaneId>, marks: map<SplitId, real>, vg: ViewportGrid)
    requires 1 <= |columns| && IdsSeparate(columns) && MarksColumns(marks, columns)
    requires area.height > 0 && area.y + area.height <= U16_MAX
    requires area.x + CellSum(columns, area.width, 1, vg) <= U64_MAX
    ensures SpineWalked(ScreenWalk(Projection(columns[..1]), area, active, columns[0].width, marks, vg),
                        columns, area, active, 1, vg)
  {
    assert CellSum(columns, area.width, 0, vg) == 0;
    assert ColumnArea(columns, area, 0, vg) == BaseArea(area, columns[0].width, vg);
    assert ColumnsRecorded([], columns, area, 0, vg);
    ColumnWalk(columns, area, active, marks, 0, vg, []);
    assert ColumnwisePanes(columns, area, active, 0, vg) == [];
  }

  lemma ProjectionStep(columns: seq<LayoutColumn>, n: nat)
    requires 2 <= n <= |columns|
    ensures var projected := Projection(columns[..n]);
            && projected.Split? && projected.dir.Right? && projected.id == columns[n - 1].id
            && projected.a == Projection(columns[..n - 1]) && projected.b == columns[n - 1].root
  {
    assert columns[..n][..n - 1] == columns[..n - 1];
  }

  /** A screen's marks cover its columns and no split inside them. */
  lemma MarksCoverColumns(columns: seq<LayoutColumn>)
    requires |columns| >= 1 && IdsSeparate(columns)
    ensures MarksColumns(Marks(columns), columns)
  {
    MarksOfDistinct(columns);
    forall i, id | 0 <= i < |columns| && ContainsSplit(columns[i].root, id) ensures id !in Marks(columns) {}
  }

  lemma AreasAdjoin(columns: seq<LayoutColumn>, area: Rect, i: nat, vg: ViewportGrid)
    requires i + 1 < |columns|
    ensures ColumnArea(columns, area, i, vg).x + ColumnArea(columns, area, i, vg).width
            == ColumnArea(columns, area, i + 1, vg).x
  {
  }

  /** Main result: for the projection a screen synchronises, columns stand side by side without gap or overlap,
      each recorded column is exactly its rectangle, and the virtual width is the larger of the sum of column
      widths and the screen width. */
  lemma ColumnsStandSideBySide(
      columns: seq<LayoutColumn>, area: Rect, active: Option<PaneId>, vg: ViewportGrid)
    requires |columns| >= 1 && IdsSeparate(columns)
    requires area.height > 0 && area.y + area.height <= U16_MAX
    requires area.x + CellSum(columns, area.width, |columns|, vg) <= U64_MAX
    ensures var walked := ScreenWalk(Projection(columns), area, active, columns[0].width, Marks(columns), vg);
            && walked.panes == ColumnwisePanes(columns, area, active, |columns|, vg)
            && ColumnsRecorded(walked.columns, columns, area, |columns|, vg)
            && walked.columns[0].rect.x == area.x
            && (forall i :: 0 <= i < |columns| - 1 ==>
                  walked.columns[i].rect.x + walked.columns[i].rect.width == walked.columns[i + 1].rect.x)
            && Max(SatSub(walked.end, area.x), area.width)
               == Max(CellSum(columns, area.width, |columns|, vg), area.width)
  {
    hide ScreenWalk, Projection, Marks, ColumnwisePanes, IdsSeparate, MarksColumns, ColumnsRecorded, CellSum;
    MarksCoverColumns(columns);
    SpineWalk(columns, area, active, Marks(columns), |columns|, vg);
    assert columns[..|columns|] == columns;
    RecordedAdjoin(
      ScreenWalk(Projection(columns), area, active, columns[0].width, Marks(columns), vg).columns, columns, area, vg);
  }

  lemma RecordedAdjoin(recorded: seq<ColumnRect>, columns: seq<LayoutColumn>, area: Rect, vg: ViewportGrid)
    requires |columns| >= 1 && ColumnsRecorded(recorded, columns, area, |columns|, vg)
    ensures recorded[0].rect.x == area.x
    ensures forall i :: 0 <= i < |columns| - 1 ==>
              recorded[i].rect.x + recorded[i].rect.width == recorded[i + 1].rect.x
  {
    hide Contains;
    forall i | 0 <= i < |columns| - 1
      ensures recorded[i].rect.x + recorded[i].rect.width == recorded[i + 1].rect.x
    {
      AreasAdjoin(columns, area, i, vg);
    }
  }
}
