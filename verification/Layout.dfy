/**
 * Pane rectangles of one screen (layout.rs).
 *
 * `Placements` is the specification: the list of rectangles a tree produces.  The methods below it push
 * into a result object step by step, as the program does, and are proved to build exactly that list.
 * Rounding is an arbitrary function, so every result here holds for single-precision, double-precision
 * and exact products alike; only the clamp that follows the rounding is relied upon.
 */
module Layout {
  import opened Prelude
  import opened SplitTree

  datatype Rect = Rect(x: nat, y: nat, width: nat, height: nat) {
    predicate Contains(px: int, py: int) {
      x <= px < x + width && y <= py < y + height
    }

    predicate Empty() {
      width == 0 || height == 0
    }

    /** Inside the closed box of `area`; an empty rectangle may sit on its border. */
    predicate Within(area: Rect) {
      && area.x <= x && x + width <= area.x + area.width
      && area.y <= y && y + height <= area.y + area.height
    }
  }

  datatype Placed = Placed(pane: PaneId, rect: Rect)

  /** Coordinate range of the horizontal axis and the rounding of `extent * ratio` on either axis. */
  datatype Grid = Grid(xLimit: nat, round: (SplitDir, nat, real) -> int)

  /** The far edges are representable, so no addition saturates. */
  predicate Fits(area: Rect, grid: Grid) {
    area.x + area.width <= grid.xLimit && area.y + area.height <= U16_MAX
  }

  // ----- Splitting one rectangle -----

  /** Both sides of a divisible extent get at least one cell and no cell is lost. */
  function SplitExtent(dir: SplitDir, extent: nat, ratio: real, grid: Grid): (sides: (nat, nat))
    ensures sides.0 + sides.1 == extent
    ensures extent >= 2 ==> sides.0 >= 1 && sides.1 >= 1
    ensures 1 <= grid.round(dir, extent, ratio) < extent ==> sides.0 == grid.round(dir, extent, ratio)
    ensures extent >= 2 && grid.round(dir, extent, ratio) < 1 ==> sides.0 == 1
    ensures extent >= 2 && grid.round(dir, extent, ratio) >= extent ==> sides.1 == 1
  {
    if extent == 0 then (0, 0)
    else
      var first := Clamp(grid.round(dir, extent, ratio), 1, Max(SatSub(extent, 1), 1));
      (first, extent - first)
  }

  function SplitSides(area: Rect, dir: SplitDir, ratio: real, grid: Grid): (Rect, Rect) {
    match dir
    case Right =>
      var (first, second) := SplitExtent(dir, area.width, ratio, grid);
      (area.(width := first), area.(x := SatAdd(area.x, first, grid.xLimit), width := second))
    case Down =>
      var (first, second) := SplitExtent(dir, area.height, ratio, grid);
      (area.(height := first), area.(y := SatAdd(area.y, first, U16_MAX), height := second))
  }

  predicate TooSmall(area: Rect, dir: SplitDir) {
    match dir
    case Right => area.width < 2
    case Down => area.height < 2
  }

  /** A pane list for which there is no room: both extents collapse to zero. */
  function Collapsed(area: Rect): Rect {
    area.(width := 0, height := 0)
  }

  // ----- Stacks -----

  function ExpandedIndex(panes: StackPanes, expanded: PaneId): (i: nat)
    ensures i < |panes|
    ensures expanded in panes ==> panes[i] == expanded && expanded !in panes[..i]
    ensures expanded !in panes ==> i == |panes| - 1
  {
    if panes[0] == expanded || |panes| == 1 then 0 else 1 + ExpandedIndex(panes[1..], expanded)
  }

  function ShownMember(panes: StackPanes, expanded: PaneId, active: Option<PaneId>): PaneId {
    if active.Some? && active.value in panes then active.value else expanded
  }

  /** Headers above the expanded pane when `visible` headers are shown: half of them, rounded up,
      corrected when either side runs out of panes. */
  function HeadersBefore(before: nat, after: nat, visible: nat): (n: nat)
    requires visible <= before + after
    ensures n <= before && n <= visible && visible - n <= after
  {
    Min(before, Max((visible + 1) / 2, SatSub(visible, after)))
  }

  /** How a stack of `count` panes divides `height` rows when the pane at `index` is expanded. */
  datatype StackPlan = StackPlan(index: nat, before: nat, after: nat, expandedHeight: nat) {
    function HeightAt(i: nat): nat {
      if i == index then expandedHeight
      else if index <= i + before && i <= index + after then 1
      else 0
    }
  }

  function PlanStack(count: nat, index: nat, height: nat): (plan: StackPlan)
    requires index < count
    ensures plan.index == index && plan.before <= index && index + plan.after < count
    ensures plan.before + plan.after == Min(SatSub(height, 1), count - 1)
    ensures plan.before + plan.expandedHeight + plan.after == height
    ensures height > 0 ==> plan.expandedHeight > 0
  {
    var visible := Min(SatSub(height, 1), count - 1);
    var before := HeadersBefore(index, count - index - 1, visible);
    StackPlan(index, before, visible - before, SatSub(height, visible))
  }

  function PlanFor(panes: StackPanes, expanded: PaneId, area: Rect): (plan: StackPlan) {
    PlanStack(|panes|, ExpandedIndex(panes, expanded), area.height)
  }

  /** Where row `n` starts when the rows are laid one under the other from `y`. */
  function RowTop(plan: StackPlan, y: nat, n: nat): nat {
    if n == 0 then y else SatAdd(RowTop(plan, y, n - 1), plan.HeightAt(n - 1), U16_MAX)
  }

  /** The first `n` rows of a stack. */
  function Rows(panes: seq<PaneId>, plan: StackPlan, area: Rect, n: nat): (rows: seq<Placed>)
    requires n <= |panes|
    ensures |rows| == n
  {
    if n == 0 then []
    else Rows(panes, plan, area, n - 1)
         + [Placed(panes[n - 1], area.(y := RowTop(plan, area.y, n - 1), height := plan.HeightAt(n - 1)))]
  }

  lemma RowsStart(panes: seq<PaneId>, plan: StackPlan, area: Rect)
    ensures RowTop(plan, area.y, 0) == area.y && Rows(panes, plan, area, 0) == [] && HeaderPanes(panes, plan, 0) == {}
  {
  }

  /** What one more row adds. */
  lemma RowsNext(panes: seq<PaneId>, plan: StackPlan, area: Rect, n: nat)
    requires n < |panes|
    ensures RowTop(plan, area.y, n + 1) == SatAdd(RowTop(plan, area.y, n), plan.HeightAt(n), U16_MAX)
    ensures Rows(panes, plan, area, n + 1)
            == Rows(panes, plan, area, n)
               + [Placed(panes[n], area.(y := RowTop(plan, area.y, n), height := plan.HeightAt(n)))]
    ensures HeaderPanes(panes, plan, n + 1)
            == HeaderPanes(panes, plan, n) + (if n != plan.index && plan.HeightAt(n) == 1 then {panes[n]} else {})
  {
  }

  function StackRows(panes: StackPanes, expanded: PaneId, area: Rect): (rows: seq<Placed>)
    ensures |rows| == |panes|
  {
    Rows(panes, PlanFor(panes, expanded, area), area, |panes|)
  }

  /** Panes reduced to one-row headers: the rows of height one other than the expanded row. */
  function StackHeaders(panes: StackPanes, expanded: PaneId, area: Rect): set<PaneId> {
    HeaderPanes(panes, PlanFor(panes, expanded, area), |panes|)
  }

  /** The panes among the first `n` whose row is a header. */
  function HeaderPanes(panes: seq<PaneId>, plan: StackPlan, n: nat): set<PaneId>
    requires n <= |panes|
  {
    if n == 0 then {}
    else HeaderPanes(panes, plan, n - 1)
         + (if n - 1 != plan.index && plan.HeightAt(n - 1) == 1 then {panes[n - 1]} else {})
  }

  // ----- Whole trees -----

  function Placements(node: Node, area: Rect, active: Option<PaneId>, grid: Grid): seq<Placed> {
    match node
    case Leaf(pane) => [Placed(pane, area)]
    case Split(_, dir, ratio, a, b) =>
      var (first, second) := ChildAreas(area, dir, ratio, grid);
      Placements(a, first, active, grid) + Placements(b, second, active, grid)
    case Stack(panes, expanded) => StackRows(panes, ShownMember(panes, expanded, active), area)
  }

  /** The areas of the two children: the first takes everything when there is no room for two. */
  function ChildAreas(area: Rect, dir: SplitDir, ratio: real, grid: Grid): (sides: (Rect, Rect))
    ensures Fits(area, grid) ==>
              && sides.0.Within(area) && sides.1.Within(area)
              && (!TooSmall(area, dir) && dir.Right? ==>
                    && sides.0.x + sides.0.width == sides.1.x && sides.0.width > 0 && sides.1.width > 0
                    && sides.0.y == sides.1.y == area.y && sides.0.height == sides.1.height == area.height
                    && sides.0.x == area.x && sides.1.x + sides.1.width == area.x + area.width)
              && (!TooSmall(area, dir) && dir.Down? ==>
                    && sides.0.y + sides.0.height == sides.1.y && sides.0.height > 0 && sides.1.height > 0
                    && sides.0.x == sides.1.x == area.x && sides.0.width == sides.1.width == area.width
                    && sides.0.y == area.y && sides.1.y + sides.1.height == area.y + area.height)
    ensures TooSmall(area, dir) ==> sides == (area, Collapsed(area))
  {
    if TooSmall(area, dir) then (area, Collapsed(area)) else SplitSides(area, dir, ratio, grid)
  }

  function Headers(node: Node, area: Rect, active: Option<PaneId>, grid: Grid): set<PaneId> {
    match node
    case Leaf(_) => {}
    case Split(_, dir, ratio, a, b) =>
      var (first, second) := ChildAreas(area, dir, ratio, grid);
      Headers(a, first, active, grid) + Headers(b, second, active, grid)
    case Stack(panes, expanded) => StackHeaders(panes, ShownMember(panes, expanded, active), area)
  }

  // ----- The layout walk as the program runs it -----

  class LayoutResult {
    var panes: seq<Placed>
    var stackedHeaders: set<PaneId>
    var virtualWidth: nat

    constructor (width: nat)
      ensures panes == [] && stackedHeaders == {} && virtualWidth == width
    {
      panes, stackedHeaders, virtualWidth := [], {}, width;
    }
  }

  method LayoutScreen(root: Node, area: Rect, active: Option<PaneId>, grid: Grid) returns (result: LayoutResult)
    ensures fresh(result)
    ensures result.panes == Placements(root, area, active, grid)
    ensures result.stackedHeaders == Headers(root, area, active, grid)
    ensures result.virtualWidth == area.width
  {
    result := new LayoutResult(area.width);
    Walk(root, area, active, grid, result);
  }

  lemma Regroup<T>(s: seq<T>, t: seq<T>, u: seq<T>)
    ensures s + t + u == s + (t + u)
  {
  }

  method Walk(node: Node, area: Rect, active: Option<PaneId>, grid: Grid, out: LayoutResult)
    modifies out
    ensures out.panes == old(out.panes) + Placements(node, area, active, grid)
    ensures out.stackedHeaders == old(out.stackedHeaders) + Headers(node, area, active, grid)
    ensures out.virtualWidth == old(out.virtualWidth)
    decreases node
  {
    match node
    case Leaf(pane) =>
      out.panes := out.panes + [Placed(pane, area)];
    case Split(_, dir, ratio, a, b) =>
      ghost var (first, second) := ChildAreas(area, dir, ratio, grid);
      Regroup(out.panes, Placements(a, first, active, grid), Placements(b, second, active, grid));
      if TooSmall(area, dir) {
        Walk(a, area, active, grid, out);
        Walk(b, Collapsed(area), active, grid, out);
      } else {
        var (aRect, bRect) := SplitSides(area, dir, ratio, grid);
        Walk(a, aRect, active, grid, out);
        Walk(b, bRect, active, grid, out);
      }
    case Stack(panes, expanded) =>
      WalkStack(panes, ShownMember(panes, expanded, active), area, out);
  }

  /** The alternating loop hands out exactly the balanced split that `HeadersBefore` states in closed form. */
  method AllocateHeaders(availableBefore: nat, availableAfter: nat, visible: nat)
    returns (before: nat, after: nat)
    requires visible <= availableBefore + availableAfter
    ensures before == HeadersBefore(availableBefore, availableAfter, visible)
    ensures before + after == visible
  {
    before, after := 0, 0;
    while before + after < visible
      invariant before + after <= visible
      invariant before == HeadersBefore(availableBefore, availableAfter, before + after)
      invariant after <= availableAfter
    {
      var canTakeBefore := before < availableBefore;
      var canTakeAfter := after < availableAfter;
      if canTakeBefore && (!canTakeAfter || before <= after) {
        before := before + 1;
      } else if canTakeAfter {
        after := after + 1;
      } else {
        break;
      }
    }
  }

  /** The height the stack walks give row `index`. */
  function RowHeight(
      index: nat, expandedIndex: nat, headersBefore: nat, headersAfter: nat, expandedHeight: nat): (height: nat)
    requires headersBefore <= expandedIndex
    ensures height == StackPlan(expandedIndex, headersBefore, headersAfter, expandedHeight).HeightAt(index)
  {
    if index == expandedIndex then expandedHeight
    else if (expandedIndex - headersBefore <= index < expandedIndex)
            || (expandedIndex < index <= expandedIndex + headersAfter) then 1
    else 0
  }

  method WalkStack(panes: StackPanes, expanded: PaneId, area: Rect, out: LayoutResult)
    modifies out
    ensures out.panes == old(out.panes) + StackRows(panes, expanded, area)
    ensures out.stackedHeaders == old(out.stackedHeaders) + StackHeaders(panes, expanded, area)
    ensures out.virtualWidth == old(out.virtualWidth)
  {
    hide Rows, RowTop, HeaderPanes;
    var expandedIndex := ExpandedIndex(panes, expanded);
    var visibleHeaders := Min(SatSub(area.height, 1), |panes| - 1);
    var headersBefore, headersAfter :=
      AllocateHeaders(expandedIndex, |panes| - expandedIndex - 1, visibleHeaders);
    var expandedHeight := SatSub(area.height, headersBefore + headersAfter);
    ghost var plan := PlanFor(panes, expanded, area);
    assert plan == StackPlan(expandedIndex, headersBefore, headersAfter, expandedHeight);

    RowsStart(panes, plan, area);
    var y := area.y;
    var index := 0;
    while index < |panes|
      invariant 0 <= index <= |panes|
      invariant y == RowTop(plan, area.y, index)
      invariant out.panes == old(out.panes) + Rows(panes, plan, area, index)
      invariant out.stackedHeaders == old(out.stackedHeaders) + HeaderPanes(panes, plan, index)
      invariant out.virtualWidth == old(out.virtualWidth)
    {
      var height := RowHeight(index, expandedIndex, headersBefore, headersAfter, expandedHeight);
      var row := Placed(panes[index], area.(y := y, height := height));
      RowsNext(panes, plan, area, index);
      Regroup(old(out.panes), Rows(panes, plan, area, index), [row]);
      out.panes := out.panes + [row];
      if height == 1 && index != expandedIndex {
        out.stackedHeaders := out.stackedHeaders + {panes[index]};
      }
      y := SatAdd(y, height, U16_MAX);
      index := index + 1;
    }
  }

  function RectOf(placed: seq<Placed>, pane: PaneId): Option<Rect> {
    if placed == [] then None
    else if placed[0].pane == pane then Some(placed[0].rect)
    else RectOf(placed[1..], pane)
  }

  function PaneAt(placed: seq<Placed>, px: nat, py: nat): Option<PaneId> {
    if placed == [] then None
    else if placed[0].rect.Contains(px, py) then Some(placed[0].pane)
    else PaneAt(placed[1..], px, py)
  }
}
