/**
 * Balanced and proportional layouts: the equal subdivision behind the Zellij auto-layout
 * (layout.rs:493-570) and the exact shares of projected columns (model.rs:753-782).
 */
module Proportions {
  import opened Prelude
  import opened SplitTree
  import opened Layout
  import opened Tiling
  import opened Columns

  // ----- Rounding assumptions, and exact rounding as their witness -----

  function EqualRatio(parts: nat): real
    requires parts > 0
  {
    1.0 / parts as real
  }

  function FloorDiv(n: nat, k: nat): nat
    requires k > 0
  {
    n / k
  }

  function CeilDiv(n: nat, k: nat): nat
    requires k > 0
  {
    (n + k - 1) / k
  }

  /** The longest extent a rectangle that fits can have. */
  function ExtentLimit(grid: Grid, dir: SplitDir): nat {
    if dir.Right? then grid.xLimit else U16_MAX
  }

  /** On extents that occur, an equal share is rounded to one of the two neighbouring whole numbers. */
  ghost predicate RoundsEqualShares(grid: Grid) {
    forall dir, extent: nat, parts: nat :: 0 < parts && extent <= ExtentLimit(grid, dir) ==>
      extent / parts <= grid.round(dir, extent, EqualRatio(parts)) <= CeilDiv(extent, parts)
  }

  /** On extents and ratios that occur, a product that is a whole number of cells is rounded to itself. */
  ghost predicate RoundsWholeCells(grid: Grid) {
    forall dir, extent: nat, ratio: real, cells: int ::
      extent <= ExtentLimit(grid, dir) && 0.0 <= ratio <= 1.0 && extent as real * ratio == cells as real ==>
        Exactly(grid.round(dir, extent, ratio), cells)
  }

  predicate Exactly(a: int, b: int) {
    a == b
  }

  /** Rounds half away from zero. */
  function RoundHalfAway(x: real): int {
    if x >= 0.0 then (x + 0.5).Floor else -((0.5 - x).Floor)
  }

  function ExactRound(dir: SplitDir, extent: nat, ratio: real): int {
    RoundHalfAway(extent as real * ratio)
  }

  lemma TimesMonotone(k: nat, a: int, b: int)
    requires a <= b
    ensures k * a <= k * b
  {
  }

  lemma DivFact(n: nat, k: nat)
    requires k > 0
    ensures k * (n / k) <= n < k * (n / k) + k
  {
    assert n == k * (n / k) + n % k;
  }

  lemma FloorAndCeil(n: nat, k: nat, q: nat, c: nat)
    requires k > 0 && k * q <= n < k * q + k && k * c <= n + k - 1 < k * c + k
    ensures n <= k * c < n + k && q <= c <= q + 1
  {
    if c < q {
      TimesMonotone(k, c + 1, q);
    }
    if q + 1 < c {
      TimesMonotone(k, q + 2, c);
    }
  }

  lemma DivBounds(n: nat, k: nat)
    requires k > 0
    ensures k * (n / k) <= n < k * (n / k) + k
    ensures n <= k * CeilDiv(n, k) < n + k
    ensures n / k <= CeilDiv(n, k) <= n / k + 1
  {
    DivFact(n, k);
    DivFact(n + k - 1, k);
    FloorAndCeil(n, k, n / k, CeilDiv(n, k));
  }

  lemma RealTimesMonotone(k: real, a: real, b: real)
    requires k > 0.0 && k * a <= k * b
    ensures a <= b
  {
  }

  lemma ShareBounds(extent: nat, parts: nat)
    requires parts > 0
    ensures (extent / parts) as real <= extent as real * EqualRatio(parts) <= CeilDiv(extent, parts) as real
  {
    hide EqualRatio;
    DivBounds(extent, parts);
    ShareBetween(extent, parts, extent / parts, CeilDiv(extent, parts));
  }

  lemma ShareBetween(extent: nat, parts: nat, low: nat, high: nat)
    requires parts > 0 && parts * low <= extent <= parts * high
    ensures low as real <= extent as real * EqualRatio(parts) <= high as real
  {
    RealProduct(parts, low);
    RealProduct(parts, high);
    assert parts as real * EqualRatio(parts) == 1.0;
    ShareOf(parts as real, EqualRatio(parts), extent as real, low as real, high as real);
  }

  lemma RealProduct(a: nat, b: nat)
    ensures a as real * b as real == (a * b) as real
  {
  }

  lemma ShareOf(k: real, r: real, e: real, low: real, high: real)
    requires k > 0.0 && k * r == 1.0 && k * low <= e <= k * high
    ensures low <= e * r <= high
  {
    assert k * (e * r) == e * (k * r) == e;
    RealTimesMonotone(k, low, e * r);
    RealTimesMonotone(k, e * r, high);
  }

  lemma RoundBetween(x: real, low: nat, high: nat)
    requires low as real <= x <= high as real
    ensures low <= RoundHalfAway(x) <= high
  {
  }

  lemma RoundWhole(cells: int)
    ensures RoundHalfAway(cells as real) == cells
  {
  }

  lemma ExactShares(xLimit: nat)
    ensures RoundsEqualShares(Grid(xLimit, ExactRound))
  {
    hide RoundHalfAway, RoundsWholeCells, EqualRatio;
    forall dir, extent: nat, parts: nat | parts > 0
      ensures extent / parts <= ExactRound(dir, extent, EqualRatio(parts)) <= CeilDiv(extent, parts)
    {
      ShareBounds(extent, parts);
      RoundBetween(extent as real * EqualRatio(parts), extent / parts, CeilDiv(extent, parts));
    }
  }

  lemma ExactCells(xLimit: nat)
    ensures RoundsWholeCells(Grid(xLimit, ExactRound))
  {
    hide RoundHalfAway, RoundsEqualShares;
    forall dir, extent: nat, ratio: real, cells: int | extent as real * ratio == cells as real
      ensures Exactly(ExactRound(dir, extent, ratio), cells)
    {
      RoundWhole(cells);
    }
  }

  /** Exact products rounded half away from zero satisfy both assumptions. */
  lemma ExactRoundingQualifies(xLimit: nat)
    ensures RoundsEqualShares(Grid(xLimit, ExactRound)) && RoundsWholeCells(Grid(xLimit, ExactRound))
  {
    hide RoundsEqualShares, RoundsWholeCells;
    ExactShares(xLimit);
    ExactCells(xLimit);
  }

  // ----- Equal subdivision -----

  datatype Built = Built(node: Node, nextId: SplitId)

  /** Nested splits whose ratios 1/k, 1/(k-1), ... give every child the same share. */
  function EqualNodes(nodes: seq<Node>, dir: SplitDir, nextId: SplitId): Built
    requires |nodes| > 0
  {
    if |nodes| == 1 then Built(nodes[0], nextId)
    else
      var rest := EqualNodes(nodes[1..], dir, nextId + 1);
      Built(Split(nextId, dir, EqualRatio(|nodes|), nodes[0], rest.node), rest.nextId)
  }

  function AllPanes(nodes: seq<Node>): seq<PaneId> {
    if nodes == [] then [] else PaneIds(nodes[0]) + AllPanes(nodes[1..])
  }

  lemma {:induction false} EqualNodesOrder(nodes: seq<Node>, dir: SplitDir, nextId: SplitId)
    requires |nodes| > 0
    ensures PaneIds(EqualNodes(nodes, dir, nextId).node) == AllPanes(nodes)
  {
    if |nodes| > 1 {
      EqualNodesOrder(nodes[1..], dir, nextId + 1);
    }
  }

  function Along(area: Rect, dir: SplitDir): nat {
    if dir.Right? then area.width else area.height
  }

  /** The first `extent` cells of an area in a direction, and what remains. */
  function Cut(area: Rect, dir: SplitDir, extent: nat): (Rect, Rect)
    requires extent <= Along(area, dir)
  {
    match dir
    case Right => (area.(width := extent), area.(x := area.x + extent, width := area.width - extent))
    case Down => (area.(height := extent), area.(y := area.y + extent, height := area.height - extent))
  }

  function Total(extents: seq<nat>): nat {
    if extents == [] then 0 else extents[0] + Total(extents[1..])
  }

  /** Children side by side in the direction, each with its own extent. */
  function PlaceAlong(
      nodes: seq<Node>, extents: seq<nat>, area: Rect, dir: SplitDir, active: Option<PaneId>, grid: Grid): seq<Placed>
    requires |nodes| == |extents| && Total(extents) <= Along(area, dir)
  {
    if nodes == [] then []
    else
      var (first, rest) := Cut(area, dir, extents[0]);
      Placements(nodes[0], first, active, grid) + PlaceAlong(nodes[1..], extents[1..], rest, dir, active, grid)
  }

  /** Nested rounding never drifts: every child receives `low` or `high` cells when the extent allows it. */
  lemma {:induction false} EqualNodesBalanced(
      nodes: seq<Node>, dir: SplitDir, nextId: SplitId, area: Rect, active: Option<PaneId>, grid: Grid,
      low: nat, high: nat)
    returns (extents: seq<nat>)
    requires |nodes| > 0 && Fits(area, grid) && RoundsEqualShares(grid)
    requires 1 <= low <= high <= low + 1
    requires |nodes| * low <= Along(area, dir) <= |nodes| * high
    ensures |extents| == |nodes| && Total(extents) == Along(area, dir)
    ensures forall e :: e in extents ==> low <= e <= high
    ensures Placements(EqualNodes(nodes, dir, nextId).node, area, active, grid)
            == PlaceAlong(nodes, extents, area, dir, active, grid)
    decreases |nodes|
  {
    hide Placements, PlaceAlong, EqualNodes;
    var extent, k := Along(area, dir), |nodes|;
    if k == 1 {
      extents := [extent];
      assert nodes == [nodes[0]];
      PlaceOnly(nodes[0], dir, nextId, area, active, grid);
    } else {
      var first := grid.round(dir, extent, EqualRatio(k));
      assert extent / k <= first <= CeilDiv(extent, k);
      FirstShare(extent, k, low, high, first);
      var (own, rest) := Cut(area, dir, first);
      CutIsSplit(area, dir, k, grid);
      var tail := EqualNodesBalanced(nodes[1..], dir, nextId + 1, rest, active, grid, low, high);
      extents := [first] + tail;
      PlaceMore(nodes, dir, nextId, area, active, grid, first, tail);
    }
  }

  lemma PlaceMore(
      nodes: seq<Node>, dir: SplitDir, nextId: SplitId, area: Rect, active: Option<PaneId>, grid: Grid,
      first: nat, tail: seq<nat>)
    requires |nodes| >= 2 && |tail| == |nodes| - 1 && first + Total(tail) == Along(area, dir)
    requires ChildAreas(area, dir, EqualRatio(|nodes|), grid) == Cut(area, dir, first)
    requires Placements(EqualNodes(nodes[1..], dir, nextId + 1).node, Cut(area, dir, first).1, active, grid)
             == PlaceAlong(nodes[1..], tail, Cut(area, dir, first).1, dir, active, grid)
    ensures Total([first] + tail) == Along(area, dir)
    ensures Placements(EqualNodes(nodes, dir, nextId).node, area, active, grid)
            == PlaceAlong(nodes, [first] + tail, area, dir, active, grid)
  {
    var extents := [first] + tail;
    assert extents[1..] == tail;
  }

  lemma PlaceOnly(node: Node, dir: SplitDir, nextId: SplitId, area: Rect, active: Option<PaneId>, grid: Grid)
    ensures Total([Along(area, dir)]) == Along(area, dir)
    ensures Placements(EqualNodes([node], dir, nextId).node, area, active, grid)
            == PlaceAlong([node], [Along(area, dir)], area, dir, active, grid)
  {
    var extents := [Along(area, dir)];
    assert Total(extents[1..]) == 0;
    assert PlaceAlong([node][1..], extents[1..], Cut(area, dir, Along(area, dir)).1, dir, active, grid) == [];
  }

  lemma CutIsSplit(area: Rect, dir: SplitDir, k: nat, grid: Grid)
    requires k >= 2 && Fits(area, grid)
    requires 1 <= grid.round(dir, Along(area, dir), EqualRatio(k)) < Along(area, dir)
    ensures ChildAreas(area, dir, EqualRatio(k), grid)
            == Cut(area, dir, grid.round(dir, Along(area, dir), EqualRatio(k)))
  {
  }

  lemma FirstShare(extent: nat, k: nat, low: nat, high: nat, first: int)
    requires k >= 2 && 1 <= low <= high <= low + 1 && k * low <= extent <= k * high
    requires extent / k <= first <= CeilDiv(extent, k)
    ensures low <= first <= high && first < extent
    ensures (k - 1) * low <= extent - first <= (k - 1) * high
  {
    QuotientBetween(extent, k, low, high);
    assert (k - 1) * low == k * low - low && (k - 1) * high == k * high - high;
    TimesMonotone(low, 1, k - 1);
    if first == high && low < high {
      if extent == k * low {
        QuotientBetween(extent, k, low, low);
      }
    } else if first == low && low < high {
      if extent == k * high {
        QuotientBetween(extent, k, high, high);
      }
    }
  }

  lemma QuotientBetween(extent: nat, k: nat, low: nat, high: nat)
    requires k > 0 && k * low <= extent <= k * high
    ensures low <= extent / k && CeilDiv(extent, k) <= high
  {
    DivBounds(extent, k);
    BoundedQuotients(extent, k, low, high, extent / k, CeilDiv(extent, k));
  }

  lemma BoundedQuotients(extent: nat, k: nat, low: nat, high: nat, q: nat, c: nat)
    requires k > 0 && k * low <= extent <= k * high
    requires extent < k * q + k && k * c < extent + k
    ensures low <= q && c <= high
  {
    if q < low {
      TimesMonotone(k, q + 1, low);
    }
    if c > high {
      TimesMonotone(k, high + 1, c);
    }
  }

  /** Every child of an equal subdivision gets the floor or the ceiling of an exact share. */
  lemma EqualNodesFloorOrCeil(
      nodes: seq<Node>, dir: SplitDir, nextId: SplitId, area: Rect, active: Option<PaneId>, grid: Grid)
    returns (extents: seq<nat>)
    requires |nodes| > 0 && Fits(area, grid) && RoundsEqualShares(grid) && Along(area, dir) >= |nodes|
    ensures |extents| == |nodes| && Total(extents) == Along(area, dir)
    ensures forall e :: e in extents ==> FloorDiv(Along(area, dir), |nodes|) <= e <= CeilDiv(Along(area, dir), |nodes|)
    ensures Placements(EqualNodes(nodes, dir, nextId).node, area, active, grid)
            == PlaceAlong(nodes, extents, area, dir, active, grid)
  {
    var (extent, k) := (Along(area, dir), |nodes|);
    var (low, high) := (extent / k, CeilDiv(extent, k));
    DivBounds(extent, k);
    TimesMonotone(extent, 1, k);
    QuotientBetween(extent, k, 1, extent);
    extents := EqualNodesBalanced(nodes, dir, nextId, area, active, grid, low, high);
  }

  // ----- Zellij's default auto-layout -----

  function Leaves(panes: seq<PaneId>): (nodes: seq<Node>)
    ensures |nodes| == |panes|
  {
    seq(|panes|, i requires 0 <= i < |panes| => Leaf(panes[i]))
  }

  function FirstColumnLen(count: nat): nat {
    if count <= 5 then 1 else if count % 4 == 0 then 4 else count % 4
  }

  function Chunks(panes: seq<PaneId>): seq<seq<PaneId>> {
    if panes == [] then []
    else if |panes| <= 4 then [panes]
    else [panes[..4]] + Chunks(panes[4..])
  }

  function ColumnGroups(panes: seq<PaneId>): seq<seq<PaneId>>
    requires |panes| >= 2
  {
    [panes[..FirstColumnLen(|panes|)]] + Chunks(panes[FirstColumnLen(|panes|)..])
  }

  datatype BuiltColumns = BuiltColumns(nodes: seq<Node>, nextId: SplitId)

  function BuildColumns(groups: seq<seq<PaneId>>, nextId: SplitId): (built: BuiltColumns)
    requires forall g :: g in groups ==> |g| > 0
    ensures |built.nodes| == |groups|
  {
    if groups == [] then BuiltColumns([], nextId)
    else
      var first := EqualNodes(Leaves(groups[0]), Down, nextId);
      var rest := BuildColumns(groups[1..], first.nextId);
      BuiltColumns([first.node] + rest.nodes, rest.nextId)
  }

  function ZellijLayout(panes: seq<PaneId>, nextId: SplitId): Option<Built> {
    if panes == [] then None
    else if |panes| == 1 then Some(Built(Leaf(panes[0]), nextId))
    else if |panes| > 12 then
      Some(Built(Split(nextId, Right, 0.5, Leaf(panes[0]), Stack(panes[1..], panes[|panes| - 1])), nextId + 1))
    else
      GroupsOfFour(panes);
      var columns := BuildColumns(ColumnGroups(panes), nextId);
      Some(EqualNodes(columns.nodes, Right, columns.nextId))
  }

  function Flatten(groups: seq<seq<PaneId>>): seq<PaneId> {
    if groups == [] then [] else groups[0] + Flatten(groups[1..])
  }

  lemma {:induction false} ChunksOfFour(panes: seq<PaneId>)
    ensures Flatten(Chunks(panes)) == panes
    ensures |Chunks(panes)| == CeilDiv(|panes|, 4)
    ensures forall g :: g in Chunks(panes) ==> 1 <= |g| <= 4
  {
    if |panes| > 4 {
      ChunksOfFour(panes[4..]);
      assert panes == panes[..4] + panes[4..];
    } else if panes != [] {
      assert Flatten([panes]) == panes + Flatten([]);
    }
  }

  /** How many columns the automatic layout makes of two to twelve panes. */
  function ColumnCount(panes: nat): nat {
    if panes <= 8 then 2 else 3
  }

  /** How many panes its tallest column holds. */
  function TallestColumn(panes: nat): nat {
    if panes <= 5 then SatSub(panes, 1) else 4
  }

  /** Up to twelve panes make at most three columns of at most four, in order. */
  lemma GroupsOfFour(panes: seq<PaneId>)
    requires 2 <= |panes| <= 12
    ensures var groups := ColumnGroups(panes);
            && |groups| == ColumnCount(|panes|)
            && (forall g :: g in groups ==> 1 <= |g| <= TallestColumn(|panes|))
            && Flatten(groups) == panes
  {
    hide Chunks;
    var first := FirstColumnLen(|panes|);
    ChunksOfFour(panes[first..]);
    assert panes == panes[..first] + panes[first..];
    assert ColumnGroups(panes)[1..] == Chunks(panes[first..]);
  }

  lemma {:induction false} LeavesOrder(panes: seq<PaneId>)
    ensures AllPanes(Leaves(panes)) == panes
  {
    if panes != [] {
      assert Leaves(panes)[1..] == Leaves(panes[1..]);
      LeavesOrder(panes[1..]);
    }
  }

  lemma {:induction false} BuildColumnsOrder(groups: seq<seq<PaneId>>, nextId: SplitId)
    requires forall g :: g in groups ==> |g| > 0
    ensures AllPanes(BuildColumns(groups, nextId).nodes) == Flatten(groups)
  {
    if groups != [] {
      var first := EqualNodes(Leaves(groups[0]), Down, nextId);
      EqualNodesOrder(Leaves(groups[0]), Down, nextId);
      LeavesOrder(groups[0]);
      BuildColumnsOrder(groups[1..], first.nextId);
      assert BuildColumns(groups, nextId).nodes[1..] == BuildColumns(groups[1..], first.nextId).nodes;
    }
  }

  /** The auto-layout exists for every nonempty list of panes and keeps their creation order. */
  lemma ZellijKeepsOrder(panes: seq<PaneId>, nextId: SplitId)
    ensures ZellijLayout(panes, nextId).Some? <==> panes != []
    ensures panes != [] ==> PaneIds(ZellijLayout(panes, nextId).value.node) == panes
    ensures panes != [] ==> StacksExpandMembers(ZellijLayout(panes, nextId).value.node)
  {
    if |panes| > 12 {
      assert panes == [panes[0]] + panes[1..];
      assert panes[1..][|panes| - 2] == panes[|panes| - 1];
    } else if |panes| >= 2 {
      GroupsOfFour(panes);
      var columns := BuildColumns(ColumnGroups(panes), nextId);
      BuildColumnsOrder(ColumnGroups(panes), nextId);
      BuildColumnsHaveNoStacks(ColumnGroups(panes), nextId);
      EqualNodesOrder(columns.nodes, Right, columns.nextId);
      EqualNodesStacks(columns.nodes, Right, columns.nextId);
    }
  }

  lemma {:induction false} EqualNodesStacks(nodes: seq<Node>, dir: SplitDir, nextId: SplitId)
    requires |nodes| > 0 && forall node :: node in nodes ==> StacksExpandMembers(node)
    ensures StacksExpandMembers(EqualNodes(nodes, dir, nextId).node)
  {
    if |nodes| > 1 {
      EqualNodesStacks(nodes[1..], dir, nextId + 1);
    }
  }

  lemma {:induction false} BuildColumnsHaveNoStacks(groups: seq<seq<PaneId>>, nextId: SplitId)
    requires forall g :: g in groups ==> |g| > 0
    ensures forall node :: node in BuildColumns(groups, nextId).nodes ==> StacksExpandMembers(node)
  {
    if groups != [] {
      var first := EqualNodes(Leaves(groups[0]), Down, nextId);
      EqualNodesStacks(Leaves(groups[0]), Down, nextId);
      BuildColumnsHaveNoStacks(groups[1..], first.nextId);
    }
  }

  /** A pane of a column: the column's width, and a floor-or-ceiling share of the height. */
  predicate BalancedIn(p: Placed, group: seq<PaneId>, area: Rect, low: nat, high: nat)
    requires |group| > 0
  {
    && p.pane in group
    && low <= p.rect.width <= high
    && FloorDiv(area.height, |group|) <= p.rect.height <= CeilDiv(area.height, |group|)
  }

  lemma {:induction false} LeavesAlongDown(
      panes: seq<PaneId>, extents: seq<nat>, area: Rect, active: Option<PaneId>, grid: Grid, p: Placed)
    requires |panes| == |extents| && Total(extents) <= area.height
    requires p in PlaceAlong(Leaves(panes), extents, area, Down, active, grid)
    ensures p.pane in panes && p.rect.width == area.width && p.rect.height in extents
  {
    if panes != [] {
      var (first, rest) := Cut(area, Down, extents[0]);
      assert Leaves(panes)[1..] == Leaves(panes[1..]);
      if p !in Placements(Leaf(panes[0]), first, active, grid) {
        LeavesAlongDown(panes[1..], extents[1..], rest, active, grid, p);
      }
    }
  }

  lemma FirstColumnBalanced(
      group: seq<PaneId>, nextId: SplitId, own: Rect, active: Option<PaneId>, grid: Grid, low: nat, high: nat,
      p: Placed)
    requires RoundsEqualShares(grid) && Fits(own, grid) && 1 <= |group| <= own.height && low <= own.width <= high
    requires p in Placements(EqualNodes(Leaves(group), Down, nextId).node, own, active, grid)
    ensures BalancedIn(p, group, own, low, high)
  {
    var heights := EqualNodesFloorOrCeil(Leaves(group), Down, nextId, own, active, grid);
    LeavesAlongDown(group, heights, own, active, grid, p);
  }

  lemma {:induction false} ColumnsAlongRight(
      groups: seq<seq<PaneId>>, nextId: SplitId, extents: seq<nat>, area: Rect, active: Option<PaneId>, grid: Grid,
      low: nat, high: nat, p: Placed)
    returns (column: nat)
    requires RoundsEqualShares(grid) && Fits(area, grid)
    requires forall g :: g in groups ==> 1 <= |g| <= area.height
    requires |groups| == |extents| && Total(extents) <= area.width
    requires forall e :: e in extents ==> low <= e <= high
    requires p in PlaceAlong(BuildColumns(groups, nextId).nodes, extents, area, Right, active, grid)
    ensures column < |groups| && |groups[column]| > 0 && BalancedIn(p, groups[column], area, low, high)
    decreases |groups|
  {
    hide Placements, EqualNodes, BalancedIn;
    var first := EqualNodes(Leaves(groups[0]), Down, nextId);
    var (own, rest) := Cut(area, Right, extents[0]);
    assert BuildColumns(groups, nextId).nodes[1..] == BuildColumns(groups[1..], first.nextId).nodes;
    if p in Placements(first.node, own, active, grid) {
      column := 0;
      assert extents[0] in extents && groups[0] in groups;
      FirstColumnBalanced(groups[0], nextId, own, active, grid, low, high, p);
      SameHeightBalanced(p, groups[0], own, area, low, high);
    } else {
      assert forall e :: e in extents[1..] ==> e in extents;
      var c := ColumnsAlongRight(groups[1..], first.nextId, extents[1..], rest, active, grid, low, high, p);
      column := c + 1;
      SameHeightBalanced(p, groups[column], rest, area, low, high);
    }
  }

  lemma SameHeightBalanced(p: Placed, group: seq<PaneId>, own: Rect, area: Rect, low: nat, high: nat)
    requires |group| > 0 && own.height == area.height
    ensures BalancedIn(p, group, own, low, high) ==> BalancedIn(p, group, area, low, high)
  {
  }

  lemma ZellijIsColumns(panes: seq<PaneId>, nextId: SplitId)
    requires 2 <= |panes| <= 12
    ensures forall g :: g in ColumnGroups(panes) ==> |g| > 0
    ensures var columns := BuildColumns(ColumnGroups(panes), nextId);
            && |columns.nodes| > 0
            && ZellijLayout(panes, nextId) == Some(EqualNodes(columns.nodes, Right, columns.nextId))
  {
    GroupsOfFour(panes);
  }

  ghost predicate BalancedSomewhere(p: Placed, groups: seq<seq<PaneId>>, area: Rect) {
    exists column ::
      && 0 <= column < |groups| && |groups[column]| > 0
      && BalancedIn(p, groups[column], area, FloorDiv(area.width, |groups|), CeilDiv(area.width, |groups|))
  }

  /** Layouts of two to twelve panes are balanced within one cell when there is room: widths across the
      columns, heights within each column. */
  lemma {:induction false} ZellijIsBalanced(
      panes: seq<PaneId>, nextId: SplitId, area: Rect, active: Option<PaneId>, grid: Grid)
    requires 2 <= |panes| <= 12 && RoundsEqualShares(grid) && Fits(area, grid)
    requires area.width >= ColumnCount(|panes|) && area.height >= TallestColumn(|panes|)
    ensures ZellijLayout(panes, nextId).Some?
    ensures forall p :: p in Placements(ZellijLayout(panes, nextId).value.node, area, active, grid) ==>
              BalancedSomewhere(p, ColumnGroups(panes), area)
  {
    GroupsOfFour(panes);
    ZellijIsColumns(panes, nextId);
    hide ZellijLayout, ColumnGroups, BuildColumns, EqualNodes, Placements, BalancedIn;
    var groups := ColumnGroups(panes);
    var columns := BuildColumns(groups, nextId);
    var widths := EqualNodesFloorOrCeil(columns.nodes, Right, columns.nextId, area, active, grid);
    forall p | p in Placements(ZellijLayout(panes, nextId).value.node, area, active, grid)
      ensures BalancedSomewhere(p, groups, area)
    {
      var column := ColumnsAlongRight(groups, nextId, widths, area, active, grid,
                                      FloorDiv(area.width, |groups|), CeilDiv(area.width, |groups|), p);
    }
  }

  // ----- Whole-cell shares of projected columns -----

  /** `bounds[k]` is the whole-cell boundary left of column k, exactly proportional to the widths before it. */
  ghost predicate ProportionalCells(columns: seq<LayoutColumn>, bounds: seq<nat>, width: nat) {
    && |bounds| == |columns| + 1
    && (forall k :: 0 <= k <= |columns| ==>
          bounds[k] as real * TotalWidth(columns) == width as real * TotalWidth(columns[..k]))
  }

  function SharedPanes(
      columns: seq<LayoutColumn>, bounds: seq<nat>, area: Rect, active: Option<PaneId>, grid: Grid, n: nat): seq<Placed>
    requires n <= |columns| && |bounds| == |columns| + 1
    requires forall k :: 0 <= k < |columns| ==> bounds[k] <= bounds[k + 1]
  {
    if n == 0 then []
    else SharedPanes(columns, bounds, area, active, grid, n - 1)
         + Placements(columns[n - 1].root,
                      Rect(area.x + bounds[n - 1], area.y, bounds[n] - bounds[n - 1], area.height), active, grid)
  }

  lemma CancelProduct(a: real, b: real, t: real)
    requires t > 0.0 && a * t == b * t
    ensures a == b
  {
  }

  lemma BoundaryByRatio(width: real, b0: real, b1: real, t0: real, t1: real, total: real)
    requires total > 0.0 && t1 > 0.0
    requires b0 * total == width * t0 && b1 * total == width * t1
    ensures b1 * (t0 / t1) == b0
  {
    var q := t0 / t1;
    assert q * t1 == t0;
    assert (b1 * q) * total == q * (b1 * total) == q * (width * t1) == width * (q * t1) == b0 * total;
    CancelProduct(b1 * q, b0, total);
  }

  lemma BoundsIncrease(width: real, b0: real, b1: real, t0: real, t1: real, total: real)
    requires total > 0.0 && width > 0.0 && t0 < t1
    requires b0 * total == width * t0 && b1 * total == width * t1
    ensures b0 < b1
  {
    assert width * (t1 - t0) > 0.0;
    assert (b1 - b0) * total == width * (t1 - t0);
  }

  lemma PrefixWidth(columns: seq<LayoutColumn>, k: nat)
    requires k < |columns|
    ensures TotalWidth(columns[..k + 1]) == TotalWidth(columns[..k]) + columns[k].width
  {
    assert columns[..k + 1][..k] == columns[..k];
  }

  lemma CellBounds(columns: seq<LayoutColumn>, bounds: seq<nat>, width: nat, k: nat)
    requires |columns| > 0 && width > 0 && ProportionalCells(columns, bounds, width) && k < |columns|
    requires forall i :: 0 <= i < |columns| ==> columns[i].width > 0.0
    ensures bounds[k] < bounds[k + 1] && bounds[0] == 0 && bounds[|columns|] == width
  {
    hide TotalWidth;
    TotalWidthPositive(columns);
    PrefixWidth(columns, k);
    NoWidth();
    var total := TotalWidth(columns);
    BoundsIncrease(width as real, bounds[k] as real, bounds[k + 1] as real,
                   TotalWidth(columns[..k]), TotalWidth(columns[..k + 1]), total);
    assert columns[..|columns|] == columns;
    CancelProduct(bounds[|columns|] as real, width as real, total);
    assert columns[..0] == [];
    CancelProduct(bounds[0] as real, 0.0, total);
  }

  lemma NoWidth()
    ensures TotalWidth([]) == 0.0
  {
  }

  lemma {:induction false} PrefixShares(
      columns: seq<LayoutColumn>, bounds: seq<nat>, area: Rect, active: Option<PaneId>, grid: Grid, n: nat)
    requires 1 <= n <= |columns| && Fits(area, grid) && area.width > 0 && RoundsWholeCells(grid)
    requires forall i :: 0 <= i < |columns| ==> columns[i].width > 0.0
    requires ProportionalCells(columns, bounds, area.width) && bounds[n] <= area.width
    requires forall k :: 0 <= k < |columns| ==> bounds[k] < bounds[k + 1]
    requires bounds[0] == 0
    ensures Placements(Projection(columns[..n]), area.(width := bounds[n]), active, grid)
            == SharedPanes(columns, bounds, area, active, grid, n)
  {
    hide Projection, TotalWidth, Placements, SharedPanes;
    SharedStep(columns, bounds, area, active, grid, n);
    if n > 1 {
      assert bounds[n - 1] < bounds[n] && bounds[n - 2] < bounds[n - 1];
      PrefixShares(columns, bounds, area, active, grid, n - 1);
      SpineRatio(columns, n);
      SpineAreas(columns, bounds, area, grid, n);
      SplitPlacements(Projection(columns[..n]), area.(width := bounds[n]), active, grid);
    }
  }

  lemma OneColumnProjects(columns: seq<LayoutColumn>)
    requires |columns| == 1
    ensures Projection(columns) == columns[0].root
  {
  }

  lemma SharedStep(
      columns: seq<LayoutColumn>, bounds: seq<nat>, area: Rect, active: Option<PaneId>, grid: Grid, n: nat)
    requires 1 <= n <= |columns| && |bounds| == |columns| + 1 && bounds[0] == 0
    requires forall k :: 0 <= k < |columns| ==> bounds[k] <= bounds[k + 1]
    ensures SharedPanes(columns, bounds, area, active, grid, n)
            == SharedPanes(columns, bounds, area, active, grid, n - 1)
               + Placements(columns[n - 1].root,
                            Rect(area.x + bounds[n - 1], area.y, bounds[n] - bounds[n - 1], area.height), active, grid)
    ensures n == 1 ==> SharedPanes(columns, bounds, area, active, grid, n)
                       == Placements(Projection(columns[..1]), area.(width := bounds[1]), active, grid)
  {
    hide Placements, Projection;
    if n == 1 {
      assert area.(width := bounds[1]) == Rect(area.x + bounds[0], area.y, bounds[1] - bounds[0], area.height);
      assert SharedPanes(columns, bounds, area, active, grid, 0) == [];
      OneColumnProjects(columns[..1]);
    }
  }

  /** The split over column n-1 divides its width exactly at that column's boundary. */
  lemma SpineAreas(columns: seq<LayoutColumn>, bounds: seq<nat>, area: Rect, grid: Grid, n: nat)
    requires 2 <= n <= |columns| && Fits(area, grid) && area.width > 0 && RoundsWholeCells(grid)
    requires forall i :: 0 <= i < |columns| ==> columns[i].width > 0.0
    requires ProportionalCells(columns, bounds, area.width)
    requires 0 < bounds[n - 1] < bounds[n] <= area.width
    ensures ChildAreas(area.(width := bounds[n]), Right,
                       Quotient(TotalWidth(columns[..n - 1]), TotalWidth(columns[..n])), grid)
            == (area.(width := bounds[n - 1]),
                Rect(area.x + bounds[n - 1], area.y, bounds[n] - bounds[n - 1], area.height))
  {
    hide TotalWidth;
    TotalWidthPositive(columns);
    TotalWidthPositive(columns[..n]);
    var (t0, t1) := (TotalWidth(columns[..n - 1]), TotalWidth(columns[..n]));
    BoundaryByRatio(area.width as real, bounds[n - 1] as real, bounds[n] as real, t0, t1, TotalWidth(columns));
    assert Exactly(grid.round(Right, bounds[n], Quotient(t0, t1)), bounds[n - 1]);
  }

  lemma SpineRatio(columns: seq<LayoutColumn>, n: nat)
    requires 2 <= n <= |columns|
    ensures var root := Projection(columns[..n]);
            && root.Split? && root.dir.Right?
            && root.ratio == Quotient(TotalWidth(columns[..n - 1]), TotalWidth(columns[..n]))
            && root.a == Projection(columns[..n - 1]) && root.b == columns[n - 1].root
  {
    assert columns[..n][..n - 1] == columns[..n - 1];
  }

  /** Whenever all proportional boundaries are whole cells, tree-only clients lay every projected column out with
      exactly its share of the width. */
  lemma ProjectionGivesExactShares(
      columns: seq<LayoutColumn>, bounds: seq<nat>, area: Rect, active: Option<PaneId>, grid: Grid)
    requires |columns| > 0 && Fits(area, grid) && area.width > 0 && RoundsWholeCells(grid)
    requires forall i :: 0 <= i < |columns| ==> columns[i].width > 0.0
    requires ProportionalCells(columns, bounds, area.width)
    ensures forall k :: 0 <= k < |columns| ==> bounds[k] < bounds[k + 1]
    ensures Placements(Projection(columns), area, active, grid)
            == SharedPanes(columns, bounds, area, active, grid, |columns|)
  {
    forall k | 0 <= k < |columns| ensures bounds[k] < bounds[k + 1] {
      CellBounds(columns, bounds, area.width, k);
    }
    CellBounds(columns, bounds, area.width, 0);
    PrefixShares(columns, bounds, area, active, grid, |columns|);
    assert columns[..|columns|] == columns;
  }
}
