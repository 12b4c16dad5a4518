/** Events of the multiplexer and the plain queue that a subscriber's mailbox stands for (event_bus.rs). */
module MuxEvents {
  import opened Prelude

  type SurfaceId = nat
  type WorkspaceId = nat
  type ScreenId = nat
  type PaneId = nat

  datatype TreeDeltaKind =
    | WorkspaceAdded | WorkspaceClosed | WorkspaceRenamed | WorkspaceMoved
    | ScreenAdded | ScreenClosed | ScreenRenamed
    | PaneAdded | PaneClosed
    | TabAdded | TabClosed | TabRenamed

  datatype TreeDelta = TreeDelta(
    kind: TreeDeltaKind, workspace: WorkspaceId, screen: Option<ScreenId>, pane: Option<PaneId>,
    surface: Option<SurfaceId>, entity: string)

  /** `ClientNotice` stands for the four client lifecycle events, `SessionNotice` for the events every
      session-scoped subscriber accepts; their payloads do not matter here. */
  datatype MuxEvent =
    | SurfaceOutput(surface: SurfaceId)
    | SurfaceResized(surface: SurfaceId, cols: nat, rows: nat)
    | SurfaceResizeFailed(surface: SurfaceId, error: string)
    | SurfaceExited(surface: SurfaceId)
    | TitleChanged(surface: SurfaceId, title: string)
    | Bell(surface: SurfaceId)
    | Notification(target: Option<SurfaceId>, body: string)
    | ScrollChanged(surface: SurfaceId, offset: nat, atBottom: bool)
    | TreeChanged
    | TreeSelectionChanged
    | TreeDeltaEvent(delta: TreeDelta)
    | LayoutChanged(screen: ScreenId)
    | ClientNotice(detail: string)
    | SessionNotice(detail: string)
    | Empty

  datatype CoalescedKey = TitleKey(surface: SurfaceId) | OutputKey(surface: SurfaceId) | ScrollKey(surface: SurfaceId)

  function KeyOf(event: MuxEvent): Option<CoalescedKey> {
    match event
    case TitleChanged(surface, _) => Some(TitleKey(surface))
    case SurfaceOutput(surface) => Some(OutputKey(surface))
    case ScrollChanged(surface, _, _) => Some(ScrollKey(surface))
    case _ => None
  }

  predicate Terminal(event: MuxEvent) {
    event.SurfaceExited? || (event.TreeDeltaEvent? && event.delta.kind.WorkspaceClosed?)
  }

  /** Which events a filter keeps. */
  datatype Selector =
    | Uncoalesced
    | OfKey(key: CoalescedKey)
    | NotKey(key: CoalescedKey)
    | NotStateOf(surface: SurfaceId)
    | TerminalOnly
  {
    predicate Selects(event: MuxEvent) {
      var key := KeyOf(event);
      match this
      case Uncoalesced => key.None?
      case OfKey(k) => key == Some(k)
      case NotKey(k) => key != Some(k)
      case NotStateOf(surface) => key.Some? ==> key.value.surface != surface
      case TerminalOnly => Terminal(event)
    }
  }

  function Keep(queue: seq<MuxEvent>, selector: Selector): (kept: seq<MuxEvent>)
    ensures |kept| <= |queue|
  {
    if queue == [] then []
    else
      var last := |queue| - 1;
      Keep(queue[..last], selector) + (if selector.Selects(queue[last]) then [queue[last]] else [])
  }

  // ----- The plain queue -----

  const MAX_PENDING_EVENTS: nat := 4096

  datatype Plain = Plain(queue: seq<MuxEvent>, closed: bool, overflowed: bool)
  datatype Pushed = Pushed(box: Plain, accepted: bool)

  /** Appends while there is room; a full queue closes and stays as it is. */
  function Append(box: Plain, event: MuxEvent): Pushed {
    if |box.queue| < MAX_PENDING_EVENTS then Pushed(box.(queue := box.queue + [event]), true)
    else Pushed(box.(closed := true, overflowed := true), false)
  }

  function LastOf(queue: seq<MuxEvent>, n: nat): seq<MuxEvent> {
    if |queue| <= n then queue else queue[|queue| - n..]
  }

  /** A keyed event replaces its older namesake and moves to the back; a surface exit drops that surface's keyed
      events; `Empty` keeps only the last terminal events. */
  function PlainPush(box: Plain, event: MuxEvent): Pushed {
    if box.closed then Pushed(box, false)
    else if KeyOf(event).Some? then
      var others := Keep(box.queue, NotKey(KeyOf(event).value));
      if |others| < |box.queue| then Pushed(box.(queue := others + [event]), true) else Append(box, event)
    else match event
      case SurfaceExited(surface) => Append(box.(queue := Keep(box.queue, NotStateOf(surface))), event)
      case Empty =>
        Pushed(box.(queue := LastOf(Keep(box.queue, TerminalOnly), MAX_PENDING_EVENTS - 1) + [Empty]), true)
      case _ => Append(box, event)
  }

  function PlainPop(box: Plain): Plain {
    if box.queue == [] then box else box.(queue := box.queue[1..])
  }

  // ----- Subscriber filters -----

  datatype SurfaceSessionScope =
    SurfaceSessionScope(surface: SurfaceId, workspace: WorkspaceId, screen: ScreenId, pane: PaneId)

  datatype Filter = All | AttachedSurface(surface: SurfaceId) | SurfaceSession(scope: SurfaceSessionScope)
  datatype Judged = Judged(accepts: bool, filter: Filter)

  function JudgeDelta(scope: SurfaceSessionScope, delta: TreeDelta): Judged {
    var relevant :=
      match delta.kind
      case TabAdded => delta.surface == Some(scope.surface)
      case TabClosed => delta.surface == Some(scope.surface)
      case TabRenamed => delta.surface == Some(scope.surface)
      case PaneClosed => delta.pane == Some(scope.pane)
      case ScreenClosed => delta.screen == Some(scope.screen)
      case WorkspaceClosed => delta.workspace == scope.workspace
      case _ => false;
    var moved :=
      if delta.surface == Some(scope.surface) && delta.kind.TabAdded? then
        scope.(workspace := delta.workspace,
               screen := if delta.screen.Some? then delta.screen.value else scope.screen,
               pane := if delta.pane.Some? then delta.pane.value else scope.pane)
      else scope;
    Judged(relevant, SurfaceSession(moved))
  }

  /** The verdict of a filter, and the filter as it follows its surface through the tree. */
  function Judge(filter: Filter, event: MuxEvent): Judged {
    match filter
    case All => Judged(true, filter)
    case AttachedSurface(surface) => (
      match event
      case Notification(target, _) => Judged(target == Some(surface), filter)
      case ScrollChanged(other, _, _) => Judged(other == surface, filter)
      case _ => Judged(false, filter)
    )
    case SurfaceSession(scope) =>
      if event.TreeDeltaEvent? then JudgeDelta(scope, event.delta)
      else
        var accepts :=
          match event
          case SurfaceOutput(surface) => surface == scope.surface
          case SurfaceExited(surface) => surface == scope.surface
          case Bell(surface) => surface == scope.surface
          case SurfaceResized(surface, _, _) => surface == scope.surface
          case SurfaceResizeFailed(surface, _) => surface == scope.surface
          case TitleChanged(surface, _) => surface == scope.surface
          case ScrollChanged(surface, _, _) => surface == scope.surface
          case Notification(target, _) => target.None? || target.value == scope.surface
          case LayoutChanged(_) => false
          case ClientNotice(_) => false
          case TreeChanged => false
          case TreeSelectionChanged => false
          case _ => true;
        Judged(accepts, filter)
  }

  // ----- Facts about filtering -----

  lemma {:induction false} KeepAppend(s: seq<MuxEvent>, t: seq<MuxEvent>, selector: Selector)
    ensures Keep(s + t, selector) == Keep(s, selector) + Keep(t, selector)
    decreases |t|
  {
    if t == [] {
      assert s + t == s;
    } else {
      assert (s + t)[..|s + t| - 1] == s + t[..|t| - 1];
      KeepAppend(s, t[..|t| - 1], selector);
    }
  }

  lemma KeepMore(queue: seq<MuxEvent>, event: MuxEvent, selector: Selector)
    ensures Keep(queue + [event], selector)
            == Keep(queue, selector) + (if selector.Selects(event) then [event] else [])
  {
    assert (queue + [event])[..|queue|] == queue;
  }

  lemma {:induction false} KeepMembers(queue: seq<MuxEvent>, selector: Selector)
    ensures forall e :: e in Keep(queue, selector) <==> e in queue && selector.Selects(e)
  {
    if queue != [] {
      var last := |queue| - 1;
      KeepMembers(queue[..last], selector);
      assert queue == queue[..last] + [queue[last]];
    }
  }

  /** Filtering twice is filtering once when one filter implies, or ignores, the other. */
  lemma {:induction false} KeepWithin(queue: seq<MuxEvent>, outer: Selector, inner: Selector)
    requires forall e :: outer.Selects(e) ==> inner.Selects(e)
    ensures Keep(Keep(queue, inner), outer) == Keep(queue, outer)
  {
    if queue != [] {
      var last := |queue| - 1;
      KeepWithin(queue[..last], outer, inner);
      if inner.Selects(queue[last]) {
        KeepMore(Keep(queue[..last], inner), queue[last], outer);
      } else {
        assert !outer.Selects(queue[last]);
        assert Keep(queue, inner) == Keep(queue[..last], inner);
      }
    }
  }

  lemma {:induction false} KeepNone(queue: seq<MuxEvent>, selector: Selector)
    requires forall e :: e in queue ==> !selector.Selects(e)
    ensures Keep(queue, selector) == []
  {
    if queue != [] {
      KeepNone(queue[..|queue| - 1], selector);
    }
  }
}
