/**
 * What reaches a subscriber bound to one surface over runs of the bus (event_bus.rs:87-108, 127-205), in which the
 * surface may move: its tab is added somewhere, or its path is updated.
 */
module FilterRuns {
  import opened Prelude
  import opened MuxEvents
  import opened BusRuns

  datatype Level = AWorkspace | AScreen | APane

  /** Where a turn puts a surface on one level of the tree, if it says so. */
  function Places(turn: Turn, surface: SurfaceId, level: Level): Option<nat> {
    match turn
    case MovePath(moved, workspace, screen, pane) =>
      if moved == surface then AtLevel(level, Some(workspace), Some(screen), Some(pane)) else None
    case Emit(TreeDeltaEvent(delta)) =>
      if delta.kind.TabAdded? && delta.surface == Some(surface) then
        AtLevel(level, Some(delta.workspace), delta.screen, delta.pane)
      else None
    case _ => None
  }

  function AtLevel(level: Level, workspace: Option<nat>, screen: Option<nat>, pane: Option<nat>): Option<nat> {
    match level
    case AWorkspace => workspace
    case AScreen => screen
    case APane => pane
  }

  /** The turns a subscriber has been held through. */
  function TurnsSince(ops: seq<BusOp>, who: nat): seq<Turn> {
    if ops == [] then []
    else
      var (before, op) := (ops[..|ops| - 1], ops[|ops| - 1]);
      if op.Everyone? && who < Subscribers(before) then TurnsSince(before, who) + [op.turn] else TurnsSince(before, who)
  }

  /** The filter a subscriber came with. */
  function JoinedWith(ops: seq<BusOp>, who: nat): Option<Filter> {
    if ops == [] then None
    else
      var (before, op) := (ops[..|ops| - 1], ops[|ops| - 1]);
      if op.Subscribe? && Subscribers(before) == who then Some(op.filter) else JoinedWith(before, who)
  }

  function ScopeAt(scope: SurfaceSessionScope, level: Level): nat {
    match level
    case AWorkspace => scope.workspace
    case AScreen => scope.screen
    case APane => scope.pane
  }

  /** A scope that knows where its surface is: on each level the place named last, or the one it started with. */
  ghost predicate IsHome(home: SurfaceSessionScope, start: SurfaceSessionScope, turns: seq<Turn>) {
    && home.surface == start.surface
    && forall level :: LastPlace(ScopeAt(home, level), ScopeAt(start, level), turns, start.surface, level)
  }

  ghost predicate LastPlace(place: nat, start: nat, turns: seq<Turn>, surface: SurfaceId, level: Level) {
    if forall i :: 0 <= i < |turns| ==> Places(turns[i], surface, level).None? then place == start
    else exists i :: PlacedLastBy(i, place, turns, surface, level)
  }

  ghost predicate PlacedLastBy(i: nat, place: nat, turns: seq<Turn>, surface: SurfaceId, level: Level) {
    && i < |turns| && Places(turns[i], surface, level) == Some(place)
    && forall j :: i < j < |turns| ==> Places(turns[j], surface, level).None?
  }

  lemma LastPlaceMore(place: nat, start: nat, turns: seq<Turn>, turn: Turn, surface: SurfaceId, level: Level)
    requires LastPlace(place, start, turns, surface, level)
    ensures var named := Places(turn, surface, level);
            LastPlace(if named.Some? then named.value else place, start, turns + [turn], surface, level)
  {
    hide Places;
    var (named, more) := (Places(turn, surface, level), turns + [turn]);
    if named.Some? {
      assert more[|turns|] == turn;
      assert PlacedLastBy(|turns|, named.value, more, surface, level);
    } else if i :| 0 <= i < |turns| && Places(turns[i], surface, level).Some? {
      assert more[i] == turns[i];
      var last :| PlacedLastBy(last, place, turns, surface, level);
      assert PlacedLastBy(last, place, more, surface, level);
    }
  }

  /** One turn moves the scope exactly where the turn puts the surface. */
  lemma TurnMovesHome(scope: SurfaceSessionScope, turn: Turn)
    ensures var filter := Consider(SurfaceSession(scope), turn).filter;
            && filter.SurfaceSession? && filter.scope.surface == scope.surface
            && forall level ::
                 var named := Places(turn, scope.surface, level);
                 ScopeAt(filter.scope, level) == if named.Some? then named.value else ScopeAt(scope, level)
  {
  }

  lemma HomeMore(home: SurfaceSessionScope, start: SurfaceSessionScope, turns: seq<Turn>, turn: Turn)
    requires IsHome(home, start, turns)
    ensures Consider(SurfaceSession(home), turn).filter.SurfaceSession?
    ensures IsHome(Consider(SurfaceSession(home), turn).filter.scope, start, turns + [turn])
  {
    hide LastPlace, Places, Consider;
    TurnMovesHome(home, turn);
    var moved := Consider(SurfaceSession(home), turn).filter.scope;
    forall level ensures LastPlace(ScopeAt(moved, level), ScopeAt(start, level), turns + [turn], start.surface, level) {
      LastPlaceMore(ScopeAt(home, level), ScopeAt(start, level), turns, turn, start.surface, level);
    }
  }

  lemma NothingPlaced(start: SurfaceSessionScope)
    ensures IsHome(start, start, [])
  {
  }

  /** Before it subscribes a subscriber has no filter and has been held through nothing. */
  lemma {:induction false} NotYetJoined(ops: seq<BusOp>, who: nat)
    ensures JoinedWith(ops, who).Some? <==> who < Subscribers(ops)
    ensures who >= Subscribers(ops) ==> TurnsSince(ops, who) == []
  {
    if ops != [] {
      NotYetJoined(ops[..|ops| - 1], who);
    }
  }

  /** Over any run, as long as a session subscriber is held, its scope knows where its surface is. */
  lemma {:induction false} ScopeFollowsItsSurface(ops: seq<BusOp>, who: nat, start: SurfaceSessionScope)
    requires JoinedWith(ops, who) == Some(SurfaceSession(start))
    requires Alone(ops, who).Some? && Alone(ops, who).value.attached
    ensures Alone(ops, who).value.filter.SurfaceSession?
    ensures IsHome(Alone(ops, who).value.filter.scope, start, TurnsSince(ops, who))
  {
    hide IsHome, Consider, PlainPush, PlainPop;
    var (before, op) := (ops[..|ops| - 1], ops[|ops| - 1]);
    AloneExists(before, who);
    NotYetJoined(before, who);
    if who < Subscribers(before) {
      ScopeFollowsItsSurface(before, who, start);
      if op.Everyone? && !op.turn.Shutdown? {
        HomeMore(Alone(before, who).value.filter.scope, start, TurnsSince(before, who), op.turn);
      }
    } else {
      NothingPlaced(start);
    }
  }

  predicate Closing(delta: TreeDelta) {
    delta.kind.WorkspaceClosed? || delta.kind.ScreenClosed? || delta.kind.PaneClosed?
  }

  /** Whether the part of the tree that closes is the one the surface is in. */
  predicate ClosesHome(delta: TreeDelta, home: SurfaceSessionScope) {
    match delta.kind
    case WorkspaceClosed => delta.workspace == home.workspace
    case ScreenClosed => delta.screen == Some(home.screen)
    case _ => delta.pane == Some(home.pane)
  }

  /** Main result: a held session subscriber is told that a workspace, screen or pane closed exactly when its surface,
      wherever the run has moved it, is in it at that moment. */
  lemma ClosingIsSeenWhereTheSurfaceIs(
      ops: seq<BusOp>, who: nat, start: SurfaceSessionScope, delta: TreeDelta, home: SurfaceSessionScope)
    requires JoinedWith(ops, who) == Some(SurfaceSession(start))
    requires Alone(ops, who).Some? && Alone(ops, who).value.attached && Alone(ops, who).value.receiverAlive
    requires IsHome(home, start, TurnsSince(ops, who)) && Closing(delta)
    ensures var (sub, event) := (Alone(ops, who).value, TreeDeltaEvent(delta));
            var after := Alone(ops + [Everyone(Emit(event))], who);
            after.Some? && after.value.box == if ClosesHome(delta, home) then PlainPush(sub.box, event).box else sub.box
  {
    hide IsHome, PlainPush, Alone, TurnsSince;
    ScopeFollowsItsSurface(ops, who, start);
    HomeIsUnique(home, Alone(ops, who).value.filter.scope, start, TurnsSince(ops, who));
    AloneMore(ops, Everyone(Emit(TreeDeltaEvent(delta))), who);
  }

  lemma HomeIsUnique(a: SurfaceSessionScope, b: SurfaceSessionScope, start: SurfaceSessionScope, turns: seq<Turn>)
    requires IsHome(a, start, turns) && IsHome(b, start, turns)
    ensures a == b
  {
    forall level ensures ScopeAt(a, level) == ScopeAt(b, level) {
      LastPlaceUnique(ScopeAt(a, level), ScopeAt(b, level), ScopeAt(start, level), turns, start.surface, level);
    }
    assert ScopeAt(a, AWorkspace) == ScopeAt(b, AWorkspace);
    assert ScopeAt(a, AScreen) == ScopeAt(b, AScreen);
    assert ScopeAt(a, APane) == ScopeAt(b, APane);
  }

  lemma LastPlaceUnique(a: nat, b: nat, start: nat, turns: seq<Turn>, surface: SurfaceId, level: Level)
    requires LastPlace(a, start, turns, surface, level) && LastPlace(b, start, turns, surface, level)
    ensures a == b
  {
    hide Places;
    if !(forall i :: 0 <= i < |turns| ==> Places(turns[i], surface, level).None?) {
      var i :| PlacedLastBy(i, a, turns, surface, level);
      var j :| PlacedLastBy(j, b, turns, surface, level);
      assert i == j;
    }
  }

  // ----- Nothing of other surfaces -----

  /** The surface an event is about, if it is about one; a tab's delta names the tab's surface. */
  function About(event: MuxEvent): Option<SurfaceId> {
    match event
    case SurfaceOutput(surface) => Some(surface)
    case SurfaceResized(surface, _, _) => Some(surface)
    case SurfaceResizeFailed(surface, _) => Some(surface)
    case SurfaceExited(surface) => Some(surface)
    case TitleChanged(surface, _) => Some(surface)
    case Bell(surface) => Some(surface)
    case Notification(target, _) => target
    case ScrollChanged(surface, _, _) => Some(surface)
    case TreeDeltaEvent(delta) =>
      if delta.kind.TabAdded? || delta.kind.TabClosed? || delta.kind.TabRenamed? then delta.surface else None
    case _ => None
  }

  function BoundTo(filter: Filter): Option<SurfaceId> {
    match filter
    case All => None
    case AttachedSurface(surface) => Some(surface)
    case SurfaceSession(scope) => Some(scope.surface)
  }

  lemma ConsiderStaysBound(filter: Filter, turn: Turn)
    requires BoundTo(filter).Some?
    ensures BoundTo(Consider(filter, turn).filter) == BoundTo(filter)
    ensures var pushes := Consider(filter, turn).pushes;
            pushes.Some? && About(pushes.value).Some? ==> About(pushes.value) == BoundTo(filter)
  {
  }

  ghost predicate OnlyAbout(queue: seq<MuxEvent>, surface: SurfaceId) {
    forall e :: e in queue && About(e).Some? ==> About(e).value == surface
  }

  lemma PushedMembers(box: Plain, event: MuxEvent)
    ensures forall e :: e in PlainPush(box, event).box.queue ==> e in box.queue || e == event
  {
    hide Keep;
    if KeyOf(event).Some? {
      KeepMembers(box.queue, NotKey(KeyOf(event).value));
    } else if event.SurfaceExited? {
      KeepMembers(box.queue, NotStateOf(event.surface));
    } else {
      KeepMembers(box.queue, TerminalOnly);
    }
  }

  lemma TurnKeepsOnlyOwn(sub: Subscription, turn: Turn, surface: SurfaceId)
    requires BoundTo(sub.filter) == Some(surface) && OnlyAbout(sub.box.queue, surface)
    ensures BoundTo(TakeTurn(sub, turn).filter) == Some(surface)
    ensures OnlyAbout(TakeTurn(sub, turn).box.queue, surface)
  {
    hide Consider, BoundTo, About, PlainPush;
    ConsiderStaysBound(sub.filter, turn);
    var pushes := Consider(sub.filter, turn).pushes;
    if pushes.Some? {
      PushedMembers(sub.box, pushes.value);
    }
  }

  /** Over any run, however its surface moves, nothing about another surface, and no delta of another surface's tab,
      is ever pending for a subscriber bound to one. */
  lemma {:induction false} OnlyItsOwnSurfaceIsSeen(ops: seq<BusOp>, who: nat, surface: SurfaceId)
    requires JoinedWith(ops, who).Some? && BoundTo(JoinedWith(ops, who).value) == Some(surface)
    ensures Alone(ops, who).Some? && BoundTo(Alone(ops, who).value.filter) == Some(surface)
    ensures OnlyAbout(Alone(ops, who).value.box.queue, surface)
  {
    hide TakeTurn, BoundTo, About;
    var (before, op) := (ops[..|ops| - 1], ops[|ops| - 1]);
    AloneExists(before, who);
    NotYetJoined(before, who);
    if who < Subscribers(before) {
      OnlyItsOwnSurfaceIsSeen(before, who, surface);
      if op.Everyone? {
        TurnKeepsOnlyOwn(Alone(before, who).value, op.turn, surface);
      }
    }
  }

  /** A delta of a tab reaches a held session subscriber exactly when the tab is its surface's, wherever that is. */
  lemma TabNewsIsSeenByItsOwnSurface(ops: seq<BusOp>, who: nat, start: SurfaceSessionScope, delta: TreeDelta)
    requires JoinedWith(ops, who) == Some(SurfaceSession(start))
    requires Alone(ops, who).Some? && Alone(ops, who).value.attached && Alone(ops, who).value.receiverAlive
    requires delta.kind.TabAdded? || delta.kind.TabClosed? || delta.kind.TabRenamed?
    ensures var (sub, event) := (Alone(ops, who).value, TreeDeltaEvent(delta));
            var after := Alone(ops + [Everyone(Emit(event))], who);
            && after.Some?
            && after.value.box == if delta.surface == Some(start.surface) then PlainPush(sub.box, event).box
                                  else sub.box
  {
    hide PlainPush, Alone, TurnsSince, LastPlace;
    ScopeFollowsItsSurface(ops, who, start);
    AloneMore(ops, Everyone(Emit(TreeDeltaEvent(delta))), who);
  }
}
