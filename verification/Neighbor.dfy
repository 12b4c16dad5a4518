/** Directional focus over a list of pane rectangles (layout.rs:152-400). */
module Neighbor {
  import opened Prelude
  import opened SplitTree
  import opened Layout
  import opened Tiling

  datatype Direction = Leftward | Rightward | Upward | Downward

  function FromDelta(dx: int, dy: int): Option<Direction> {
    if dx < 0 then Some(Leftward)
    else if dx > 0 then Some(Rightward)
    else if dy < 0 then Some(Upward)
    else if dy > 0 then Some(Downward)
    else None
  }

  datatype NeighborScore = NeighborScore(overlap: nat, distance: nat)

  /** Length of the intersection of two intervals, in arithmetic that saturates at `limit`. */
  function OverlapLen(aStart: nat, aLen: nat, bStart: nat, bLen: nat, limit: nat): (n: nat)
    ensures aStart + aLen <= limit && bStart + bLen <= limit ==>
              && (n > 0 <==> Max(aStart, bStart) < Min(aStart + aLen, bStart + bLen))
              && n <= aLen && n <= bLen
  {
    var start := Max(aStart, bStart);
    var end := Min(SatAdd(aStart, aLen, limit), SatAdd(bStart, bLen, limit));
    SatSub(end, start)
  }

  /** Score of a candidate lying wholly beyond the current pane's edge; none otherwise. */
  function Score(direction: Direction, cur: Rect, cand: Rect, limit: nat): Option<NeighborScore> {
    var vertical := OverlapLen(cur.y, cur.height, cand.y, cand.height, limit);
    var horizontal := OverlapLen(cur.x, cur.width, cand.x, cand.width, limit);
    match direction
    case Leftward =>
      var candMax := SatAdd(cand.x, cand.width, limit);
      if candMax > cur.x then None else Positive(vertical, cur.x - candMax)
    case Rightward =>
      var curMax := SatAdd(cur.x, cur.width, limit);
      if cand.x < curMax then None else Positive(vertical, cand.x - curMax)
    case Upward =>
      var candMax := SatAdd(cand.y, cand.height, limit);
      if candMax > cur.y then None else Positive(horizontal, cur.y - candMax)
    case Downward =>
      var curMax := SatAdd(cur.y, cur.height, limit);
      if cand.y < curMax then None else Positive(horizontal, cand.y - curMax)
  }

  function Positive(overlap: nat, distance: nat): Option<NeighborScore> {
    if overlap > 0 then Some(NeighborScore(overlap, distance)) else None
  }

  // ----- Geometric focus: overlap, then distance, then order -----

  function Candidate(p: Placed, from: PaneId, cur: Rect, direction: Direction, limit: nat): Option<NeighborScore> {
    if p.pane == from || p.rect.Empty() then None else Score(direction, cur, p.rect, limit)
  }

  predicate Better(a: NeighborScore, b: NeighborScore) {
    a.overlap > b.overlap || (a.overlap == b.overlap && a.distance < b.distance)
  }

  /** Index of the best candidate; an equal later one does not displace an earlier one. */
  function BestIndex(placed: seq<Placed>, from: PaneId, cur: Rect, direction: Direction, limit: nat)
    : (best: Option<nat>)
    ensures best.Some? ==> best.value < |placed| && Candidate(placed[best.value], from, cur, direction, limit).Some?
  {
    if placed == [] then None
    else
      var last := |placed| - 1;
      var best := BestIndex(placed[..last], from, cur, direction, limit);
      var score := Candidate(placed[last], from, cur, direction, limit);
      if score.None? then best
      else if best.None? then Some(last)
      else if Better(score.value, Candidate(placed[best.value], from, cur, direction, limit).value) then Some(last)
      else best
  }

  function DirectionalNeighbor(placed: seq<Placed>, from: PaneId, dx: int, dy: int, limit: nat): Option<PaneId> {
    var cur := RectOf(placed, from);
    var direction := FromDelta(dx, dy);
    if cur.None? || direction.None? then None
    else
      var best := BestIndex(placed, from, cur.value, direction.value, limit);
      if best.None? then None else Some(placed[best.value].pane)
  }

  /** The winner beats every earlier candidate and is at least as good as every later one. */
  lemma {:induction false} BestIndexIsOptimal(
      placed: seq<Placed>, from: PaneId, cur: Rect, direction: Direction, limit: nat)
    ensures var best := BestIndex(placed, from, cur, direction, limit);
            && (best.None? ==> forall j :: 0 <= j < |placed| ==>
                                 Candidate(placed[j], from, cur, direction, limit).None?)
            && (best.Some? ==>
                  var top := Candidate(placed[best.value], from, cur, direction, limit).value;
                  forall j :: 0 <= j < |placed| && Candidate(placed[j], from, cur, direction, limit).Some? ==>
                    var score := Candidate(placed[j], from, cur, direction, limit).value;
                    !Better(score, top) && (j < best.value ==> Better(top, score)))
  {
    hide Candidate;
    if placed != [] {
      var last := |placed| - 1;
      BestIndexIsOptimal(placed[..last], from, cur, direction, limit);
      forall j | 0 <= j < last ensures placed[..last][j] == placed[j] {}
    }
  }

  // ----- Focus by recency: only panes sharing the edge -----

  predicate SharesEdge(p: Placed, from: PaneId, cur: Rect, direction: Direction, limit: nat) {
    var score := Candidate(p, from, cur, direction, limit);
    score.Some? && score.value.distance == 0 && score.value.overlap > 0
  }

  function RecentIndex(
      placed: seq<Placed>, from: PaneId, cur: Rect, direction: Direction, limit: nat, recency: PaneId -> int)
    : (best: Option<nat>)
    ensures best.Some? ==> best.value < |placed| && SharesEdge(placed[best.value], from, cur, direction, limit)
  {
    if placed == [] then None
    else
      var last := |placed| - 1;
      var best := RecentIndex(placed[..last], from, cur, direction, limit, recency);
      if !SharesEdge(placed[last], from, cur, direction, limit) then best
      else if best.None? || recency(placed[last].pane) > recency(placed[best.value].pane) then Some(last)
      else best
  }

  function NeighborByRecency(
      placed: seq<Placed>, from: PaneId, dx: int, dy: int, limit: nat, recency: PaneId -> int): Option<PaneId>
  {
    var cur := RectOf(placed, from);
    var direction := FromDelta(dx, dy);
    if cur.None? || direction.None? then None
    else
      var best := RecentIndex(placed, from, cur.value, direction.value, limit, recency);
      if best.None? then None else Some(placed[best.value].pane)
  }

  /** The winner is the most recent pane on the edge, the first in layout order among equals. */
  lemma {:induction false} RecentIndexIsOptimal(
      placed: seq<Placed>, from: PaneId, cur: Rect, direction: Direction, limit: nat, recency: PaneId -> int)
    ensures var best := RecentIndex(placed, from, cur, direction, limit, recency);
            && (best.None? ==> forall j :: 0 <= j < |placed| ==>
                                 !SharesEdge(placed[j], from, cur, direction, limit))
            && (best.Some? ==>
                  forall j :: 0 <= j < |placed| && SharesEdge(placed[j], from, cur, direction, limit) ==>
                    && recency(placed[j].pane) <= recency(placed[best.value].pane)
                    && (j < best.value ==> recency(placed[j].pane) < recency(placed[best.value].pane)))
  {
    if placed != [] {
      var last := |placed| - 1;
      RecentIndexIsOptimal(placed[..last], from, cur, direction, limit, recency);
      forall j | 0 <= j < last ensures placed[..last][j] == placed[j] {}
    }
  }

  // ----- Focus never sticks -----

  predicate TouchesOuterEdge(rect: Rect, area: Rect, direction: Direction) {
    match direction
    case Leftward => rect.x == area.x
    case Rightward => rect.x + rect.width == area.x + area.width
    case Upward => rect.y == area.y
    case Downward => rect.y + rect.height == area.y + area.height
  }

  lemma {:induction false} RectOfDistinct(placed: seq<Placed>, i: nat)
    requires i < |placed| && Distinct(Panes(placed))
    ensures RectOf(placed, placed[i].pane) == Some(placed[i].rect)
  {
    if i > 0 {
      assert Panes(placed)[0] != Panes(placed)[i];
      assert Panes(placed)[1..] == Panes(placed[1..]);
      RectOfDistinct(placed[1..], i - 1);
    }
  }

  /** The cell just across an inner edge of a pane, with the cell it is next to. */
  function Across(rect: Rect, direction: Direction): ((int, int), (int, int)) {
    match direction
    case Leftward => ((rect.x - 1, rect.y), (rect.x, rect.y))
    case Rightward => ((rect.x + rect.width, rect.y), (rect.x + rect.width - 1, rect.y))
    case Upward => ((rect.x, rect.y - 1), (rect.x, rect.y))
    case Downward => ((rect.x, rect.y + rect.height), (rect.x, rect.y + rect.height - 1))
  }

  /** A pane that covers the cell across the edge, but not the cell on this side, shares the edge. */
  lemma CoveringAcrossSharesEdge(p: Placed, from: PaneId, cur: Rect, direction: Direction, limit: nat)
    requires !cur.Empty() && p.pane != from
    requires cur.x + cur.width <= limit && cur.y + cur.height <= limit
    requires p.rect.x + p.rect.width <= limit && p.rect.y + p.rect.height <= limit
    requires var (outside, inside) := Across(cur, direction);
             p.rect.Contains(outside.0, outside.1) && !p.rect.Contains(inside.0, inside.1)
    ensures SharesEdge(p, from, cur, direction, limit)
  {
  }

  lemma NoCandidateBeyondOuterEdge(p: Placed, from: PaneId, cur: Rect, area: Rect, direction: Direction, limit: nat)
    requires p.rect.Within(area) && cur.Within(area) && TouchesOuterEdge(cur, area, direction)
    requires area.x + area.width <= limit && area.y + area.height <= limit
    ensures Candidate(p, from, cur, direction, limit).None?
  {
  }

  /** Where distinct panes tile an area, some pane shares each inner edge of a nonempty pane. */
  lemma InnerEdgeIsShared(placed: seq<Placed>, area: Rect, i: nat, direction: Direction, limit: nat)
    returns (j: nat)
    requires Tiles(placed, area) && Distinct(Panes(placed))
    requires area.x + area.width <= limit && area.y + area.height <= limit
    requires i < |placed| && !placed[i].rect.Empty() && !TouchesOuterEdge(placed[i].rect, area, direction)
    ensures j < |placed| && SharesEdge(placed[j], placed[i].pane, placed[i].rect, direction, limit)
  {
    var cur := placed[i].rect;
    var (outside, inside) := Across(cur, direction);
    assert cur.Within(area) && cur.Contains(inside.0, inside.1) && !cur.Contains(outside.0, outside.1);
    assert area.Contains(outside.0, outside.1);
    assert Covered(placed, outside.0, outside.1);
    j :| 0 <= j < |placed| && placed[j].rect.Contains(outside.0, outside.1);
    assert placed[j].rect.Within(area);
    assert !placed[j].rect.Contains(inside.0, inside.1);
    assert Panes(placed)[i] != Panes(placed)[j];
    CoveringAcrossSharesEdge(placed[j], placed[i].pane, cur, direction, limit);
  }

  /** Where distinct panes tile an area, both focus rules answer from a nonempty pane exactly when it does not touch
      the outer edge on that side. */
  lemma FocusInTiling(
      placed: seq<Placed>, area: Rect, i: nat, dx: int, dy: int, limit: nat, recency: PaneId -> int)
    requires Tiles(placed, area) && Distinct(Panes(placed))
    requires area.x + area.width <= limit && area.y + area.height <= limit
    requires i < |placed| && !placed[i].rect.Empty() && FromDelta(dx, dy).Some?
    ensures var inner := !TouchesOuterEdge(placed[i].rect, area, FromDelta(dx, dy).value);
            && (DirectionalNeighbor(placed, placed[i].pane, dx, dy, limit).Some? <==> inner)
            && (NeighborByRecency(placed, placed[i].pane, dx, dy, limit, recency).Some? <==> inner)
  {
    hide Tiles, Candidate, SharesEdge, TouchesOuterEdge, BestIndex, RecentIndex, Distinct, Better, RectOf;
    var direction := FromDelta(dx, dy).value;
    var (from, cur) := (placed[i].pane, placed[i].rect);
    RectOfDistinct(placed, i);
    BestIndexIsOptimal(placed, from, cur, direction, limit);
    RecentIndexIsOptimal(placed, from, cur, direction, limit, recency);
    if TouchesOuterEdge(cur, area, direction) {
      NothingBeyond(placed, area, i, direction, limit);
    } else {
      var j := InnerEdgeIsShared(placed, area, i, direction, limit);
      SharedIsCandidate(placed[j], from, cur, direction, limit);
    }
  }

  /** Main result: in every laid-out screen with distinct panes, focus moves from a nonempty pane exactly when there is
      something in that direction. */
  lemma {:induction false} FocusNeverSticks(
      root: Node, area: Rect, active: Option<PaneId>, grid: Grid, i: nat, dx: int, dy: int, limit: nat,
      recency: PaneId -> int)
    requires Fits(area, grid) && Distinct(PaneIds(root))
    requires area.x + area.width <= limit && area.y + area.height <= limit
    requires i < |Placements(root, area, active, grid)| && !Placements(root, area, active, grid)[i].rect.Empty()
    requires FromDelta(dx, dy).Some?
    ensures var placed := Placements(root, area, active, grid);
            var inner := !TouchesOuterEdge(placed[i].rect, area, FromDelta(dx, dy).value);
            && (DirectionalNeighbor(placed, placed[i].pane, dx, dy, limit).Some? <==> inner)
            && (NeighborByRecency(placed, placed[i].pane, dx, dy, limit, recency).Some? <==> inner)
  {
    hide *;
    LayoutTilesScreen(root, area, active, grid);
    FocusInTiling(Placements(root, area, active, grid), area, i, dx, dy, limit, recency);
  }

  lemma SharedIsCandidate(p: Placed, from: PaneId, cur: Rect, direction: Direction, limit: nat)
    ensures SharesEdge(p, from, cur, direction, limit) ==> Candidate(p, from, cur, direction, limit).Some?
  {
  }

  lemma NothingBeyond(placed: seq<Placed>, area: Rect, i: nat, direction: Direction, limit: nat)
    requires Tiles(placed, area) && i < |placed| && TouchesOuterEdge(placed[i].rect, area, direction)
    requires area.x + area.width <= limit && area.y + area.height <= limit
    ensures forall j :: 0 <= j < |placed| ==>
              && Candidate(placed[j], placed[i].pane, placed[i].rect, direction, limit).None?
              && !SharesEdge(placed[j], placed[i].pane, placed[i].rect, direction, limit)
  {
    hide Candidate, TouchesOuterEdge;
    forall j | 0 <= j < |placed|
      ensures Candidate(placed[j], placed[i].pane, placed[i].rect, direction, limit).None?
    {
      NoCandidateBeyondOuterEdge(placed[j], placed[i].pane, placed[i].rect, area, direction, limit);
    }
  }
}
