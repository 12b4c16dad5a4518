/** What directional focus picks, told by the rectangles (layout.rs:152-240, 325-400). */
module Nearest {
  import opened Prelude
  import opened SplitTree
  import opened Layout
  import opened Tiling
  import opened Neighbor

  /** Wholly on that side of the pane: left for negative and right for positive `dx`; above and below by `dy` else. */
  predicate WhollyBeyond(cur: Rect, cand: Rect, dx: int, dy: int) {
    if dx < 0 then cand.x + cand.width <= cur.x
    else if dx > 0 then cur.x + cur.width <= cand.x
    else if dy < 0 then cand.y + cand.height <= cur.y
    else dy > 0 && cur.y + cur.height <= cand.y
  }

  function Span(start: int, length: nat): (lines: set<int>)
    ensures forall k :: k in lines <==> start <= k < start + length
  {
    if length == 0 then {} else Span(start, length - 1) + {start + length - 1}
  }

  /** Rows, for a step sideways, or columns, for a step up or down, in which both have cells. */
  function SharedLines(a: Rect, b: Rect, dx: int): set<int> {
    if dx != 0 then Span(a.y, a.height) * Span(b.y, b.height) else Span(a.x, a.width) * Span(b.x, b.width)
  }

  /** Columns, or rows, that lie between the two. */
  function LinesBetween(cur: Rect, cand: Rect, dx: int, dy: int): set<int> {
    if dx < 0 then Span(cand.x + cand.width, SatSub(cur.x, cand.x + cand.width))
    else if dx > 0 then Span(cur.x + cur.width, SatSub(cand.x, cur.x + cur.width))
    else if dy < 0 then Span(cand.y + cand.height, SatSub(cur.y, cand.y + cand.height))
    else Span(cur.y + cur.height, SatSub(cand.y, cur.y + cur.height))
  }

  /** Another pane with cells that lies wholly beyond the edge and shares a line with the current one. */
  ghost predicate Reachable(p: Placed, from: PaneId, cur: Rect, dx: int, dy: int) {
    && p.pane != from && !p.rect.Empty()
    && WhollyBeyond(cur, p.rect, dx, dy) && SharedLines(cur, p.rect, dx) != {}
  }

  /** More lines shared, or as many across a narrower gap. */
  ghost predicate Closer(a: Rect, b: Rect, cur: Rect, dx: int, dy: int) {
    var (aShared, bShared) := (|SharedLines(cur, a, dx)|, |SharedLines(cur, b, dx)|);
    aShared > bShared || (aShared == bShared && |LinesBetween(cur, a, dx, dy)| < |LinesBetween(cur, b, dx, dy)|)
  }

  ghost predicate WithinLimit(placed: seq<Placed>, limit: nat) {
    forall p :: p in placed ==> p.rect.x + p.rect.width <= limit && p.rect.y + p.rect.height <= limit
  }

  // ----- Counting lines -----

  lemma {:induction false} SpanSize(start: int, length: nat)
    ensures |Span(start, length)| == length
  {
    if length == 0 {
      assert Span(start, 0) == {};
    } else {
      SpanSize(start, length - 1);
      assert Span(start, length) == Span(start, length - 1) + {start + length - 1};
    }
  }

  lemma SharedSize(a: int, aLen: nat, b: int, bLen: nat)
    ensures |Span(a, aLen) * Span(b, bLen)| == Max(0, Min(a + aLen, b + bLen) - Max(a, b))
  {
    hide Span;
    var low := Max(a, b);
    var length: nat := Max(0, Min(a + aLen, b + bLen) - low);
    assert Span(a, aLen) * Span(b, bLen) == Span(low, length);
    SpanSize(low, length);
  }

  lemma GapSize(cur: Rect, cand: Rect, dx: int, dy: int)
    requires WhollyBeyond(cur, cand, dx, dy)
    ensures |LinesBetween(cur, cand, dx, dy)|
            == if dx < 0 then cur.x - (cand.x + cand.width)
               else if dx > 0 then cand.x - (cur.x + cur.width)
               else if dy < 0 then cur.y - (cand.y + cand.height)
               else cand.y - (cur.y + cur.height)
  {
    hide Span;
    SpanSize(cand.x + cand.width, SatSub(cur.x, cand.x + cand.width));
    SpanSize(cur.x + cur.width, SatSub(cand.x, cur.x + cur.width));
    SpanSize(cand.y + cand.height, SatSub(cur.y, cand.y + cand.height));
    SpanSize(cur.y + cur.height, SatSub(cand.y, cur.y + cur.height));
  }

  lemma LinesSize(cur: Rect, cand: Rect, dx: int)
    ensures |SharedLines(cur, cand, dx)|
            == if dx != 0 then Max(0, Min(cur.y + cur.height, cand.y + cand.height) - Max(cur.y, cand.y))
               else Max(0, Min(cur.x + cur.width, cand.x + cand.width) - Max(cur.x, cand.x))
    ensures SharedLines(cur, cand, dx) == {} <==> |SharedLines(cur, cand, dx)| == 0
  {
    hide Span;
    SharedSize(cur.y, cur.height, cand.y, cand.height);
    SharedSize(cur.x, cur.width, cand.x, cand.width);
  }

  /** The score counts cells: a candidate is a pane that can be reached, its overlap the lines shared, its distance the
      lines between. */
  lemma ScoreCountsLines(p: Placed, from: PaneId, cur: Rect, dx: int, dy: int, limit: nat)
    requires cur.x + cur.width <= limit && cur.y + cur.height <= limit
    requires p.rect.x + p.rect.width <= limit && p.rect.y + p.rect.height <= limit
    requires dx != 0 || dy != 0
    ensures FromDelta(dx, dy).Some?
    ensures var score := Candidate(p, from, cur, FromDelta(dx, dy).value, limit);
            && (score.Some? <==> Reachable(p, from, cur, dx, dy))
            && (score.Some? ==> score.value.overlap == |SharedLines(cur, p.rect, dx)|
                                && score.value.distance == |LinesBetween(cur, p.rect, dx, dy)|)
  {
    hide SharedLines, LinesBetween;
    LinesSize(cur, p.rect, dx);
    if WhollyBeyond(cur, p.rect, dx, dy) {
      GapSize(cur, p.rect, dx, dy);
    }
  }

  // ----- The choice -----

  /** The pane at index i can be reached, and none that can is closer, or as close and earlier in the list. */
  ghost predicate IsNearest(placed: seq<Placed>, i: nat, from: PaneId, cur: Rect, dx: int, dy: int) {
    && i < |placed| && Reachable(placed[i], from, cur, dx, dy)
    && forall j :: 0 <= j < |placed| && Reachable(placed[j], from, cur, dx, dy) ==>
         && !Closer(placed[j].rect, placed[i].rect, cur, dx, dy)
         && (j < i ==> Closer(placed[i].rect, placed[j].rect, cur, dx, dy))
  }

  /** Main result: a step of focus answers nothing exactly when no pane can be reached that way, and otherwise the
      reachable pane that shares the most rows (or columns), across the narrowest gap, first in the list. */
  lemma FocusMovesToNearest(placed: seq<Placed>, from: PaneId, cur: Rect, dx: int, dy: int, limit: nat)
    requires WithinLimit(placed, limit) && RectOf(placed, from) == Some(cur)
    ensures var answer := DirectionalNeighbor(placed, from, dx, dy, limit);
            && (answer.None? <==> forall p :: p in placed ==> !Reachable(p, from, cur, dx, dy))
            && (answer.Some? ==>
                  exists i ::
                    && 0 <= i < |placed| && IsNearest(placed, i, from, cur, dx, dy)
                    && placed[i].pane == answer.value)
  {
    hide Candidate, Reachable, Closer, SharedLines, LinesBetween, FromDelta, RectOf, BestIndex;
    NoDirection(dx, dy);
    if dx == 0 && dy == 0 {
      NowhereToGo(placed, from, cur);
    } else {
      CurrentIsPlaced(placed, from, limit);
      ScoresCountLines(placed, from, cur, dx, dy, limit);
      BestIndexIsOptimal(placed, from, cur, FromDelta(dx, dy).value, limit);
      var best := BestIndex(placed, from, cur, FromDelta(dx, dy).value, limit);
      if best.Some? {
        BestIsNearest(placed, best.value, from, cur, dx, dy, limit);
        assert placed[best.value] in placed;
      }
    }
  }

  lemma NoDirection(dx: int, dy: int)
    ensures FromDelta(dx, dy).None? <==> dx == 0 && dy == 0
  {
  }

  lemma NowhereToGo(placed: seq<Placed>, from: PaneId, cur: Rect)
    ensures forall p :: p in placed ==> !Reachable(p, from, cur, 0, 0)
  {
  }

  lemma {:induction false} CurrentIsPlaced(placed: seq<Placed>, from: PaneId, limit: nat)
    requires WithinLimit(placed, limit) && RectOf(placed, from).Some?
    ensures var cur := RectOf(placed, from).value;
            cur.x + cur.width <= limit && cur.y + cur.height <= limit
  {
    if placed[0].pane != from {
      CurrentIsPlaced(placed[1..], from, limit);
    }
  }

  lemma ScoresCountLines(placed: seq<Placed>, from: PaneId, cur: Rect, dx: int, dy: int, limit: nat)
    requires WithinLimit(placed, limit) && cur.x + cur.width <= limit && cur.y + cur.height <= limit
    requires dx != 0 || dy != 0
    ensures FromDelta(dx, dy).Some?
    ensures forall j :: 0 <= j < |placed| ==>
              var score := Candidate(placed[j], from, cur, FromDelta(dx, dy).value, limit);
              && (score.Some? <==> Reachable(placed[j], from, cur, dx, dy))
              && (score.Some? ==> score.value.overlap == |SharedLines(cur, placed[j].rect, dx)|
                                  && score.value.distance == |LinesBetween(cur, placed[j].rect, dx, dy)|)
  {
    hide Candidate, Reachable, SharedLines, LinesBetween, FromDelta;
    NoDirection(dx, dy);
    forall j | 0 <= j < |placed|
      ensures var score := Candidate(placed[j], from, cur, FromDelta(dx, dy).value, limit);
              && (score.Some? <==> Reachable(placed[j], from, cur, dx, dy))
              && (score.Some? ==> score.value.overlap == |SharedLines(cur, placed[j].rect, dx)|
                                  && score.value.distance == |LinesBetween(cur, placed[j].rect, dx, dy)|)
    {
      assert placed[j] in placed;
      ScoreCountsLines(placed[j], from, cur, dx, dy, limit);
    }
  }

  lemma BestIsNearest(
      placed: seq<Placed>, best: nat, from: PaneId, cur: Rect, dx: int, dy: int, limit: nat)
    requires WithinLimit(placed, limit) && cur.x + cur.width <= limit && cur.y + cur.height <= limit
    requires dx != 0 || dy != 0
    requires FromDelta(dx, dy).Some?
    requires BestIndex(placed, from, cur, FromDelta(dx, dy).value, limit) == Some(best)
    ensures IsNearest(placed, best, from, cur, dx, dy)
  {
    hide Candidate, Reachable, SharedLines, LinesBetween, FromDelta, BestIndex;
    ScoresCountLines(placed, from, cur, dx, dy, limit);
    BestIndexIsOptimal(placed, from, cur, FromDelta(dx, dy).value, limit);
  }

  // ----- Focus by recency -----

  /** The pane at index i can be reached across no gap, and is the most recent such pane, first in the list. */
  ghost predicate IsMostRecent(
      placed: seq<Placed>, i: nat, from: PaneId, cur: Rect, dx: int, dy: int, recency: PaneId -> int)
  {
    && i < |placed| && Adjacent(placed[i], from, cur, dx, dy)
    && forall j :: 0 <= j < |placed| && Adjacent(placed[j], from, cur, dx, dy) ==>
         && recency(placed[j].pane) <= recency(placed[i].pane)
         && (j < i ==> recency(placed[j].pane) < recency(placed[i].pane))
  }

  ghost predicate Adjacent(p: Placed, from: PaneId, cur: Rect, dx: int, dy: int) {
    Reachable(p, from, cur, dx, dy) && LinesBetween(cur, p.rect, dx, dy) == {}
  }

  lemma AdjacentSharesEdge(p: Placed, from: PaneId, cur: Rect, dx: int, dy: int, limit: nat)
    requires cur.x + cur.width <= limit && cur.y + cur.height <= limit
    requires p.rect.x + p.rect.width <= limit && p.rect.y + p.rect.height <= limit
    requires dx != 0 || dy != 0
    ensures FromDelta(dx, dy).Some?
    ensures SharesEdge(p, from, cur, FromDelta(dx, dy).value, limit) <==> Adjacent(p, from, cur, dx, dy)
  {
    hide Candidate, SharedLines, LinesBetween, FromDelta, WhollyBeyond;
    ScoreCountsLines(p, from, cur, dx, dy, limit);
    EmptyIsNothing(LinesBetween(cur, p.rect, dx, dy));
    EmptyIsNothing(SharedLines(cur, p.rect, dx));
  }

  lemma EmptyIsNothing(s: set<int>)
    ensures s == {} <==> |s| == 0
  {
  }

  /** Main result by recency: nothing exactly when no pane is adjacent that way, and otherwise the most recent adjacent
      pane, first in the list among equals. */
  lemma FocusMovesToMostRecent(
      placed: seq<Placed>, from: PaneId, cur: Rect, dx: int, dy: int, limit: nat, recency: PaneId -> int)
    requires WithinLimit(placed, limit) && RectOf(placed, from) == Some(cur)
    ensures var answer := NeighborByRecency(placed, from, dx, dy, limit, recency);
            && (answer.None? <==> forall p :: p in placed ==> !Adjacent(p, from, cur, dx, dy))
            && (answer.Some? ==>
                  exists i ::
                    && 0 <= i < |placed| && IsMostRecent(placed, i, from, cur, dx, dy, recency)
                    && placed[i].pane == answer.value)
  {
    hide SharesEdge, Adjacent, FromDelta, RectOf, RecentIndex;
    NoDirection(dx, dy);
    if dx == 0 && dy == 0 {
      NothingAdjacent(placed, from, cur);
    } else {
      CurrentIsPlaced(placed, from, limit);
      forall j | 0 <= j < |placed|
        ensures SharesEdge(placed[j], from, cur, FromDelta(dx, dy).value, limit)
                <==> Adjacent(placed[j], from, cur, dx, dy)
      {
        assert placed[j] in placed;
        AdjacentSharesEdge(placed[j], from, cur, dx, dy, limit);
      }
      RecentIndexIsOptimal(placed, from, cur, FromDelta(dx, dy).value, limit, recency);
      var best := RecentIndex(placed, from, cur, FromDelta(dx, dy).value, limit, recency);
      if best.Some? {
        assert IsMostRecent(placed, best.value, from, cur, dx, dy, recency);
        assert placed[best.value] in placed;
      }
    }
  }

  lemma NothingAdjacent(placed: seq<Placed>, from: PaneId, cur: Rect)
    ensures forall p :: p in placed ==> !Adjacent(p, from, cur, 0, 0)
  {
    NowhereToGo(placed, from, cur);
  }
}
