/**
 * Which events displace which, and which events reach whom, told by the events themselves (event_bus.rs:127-205,
 * 217-314).
 */
module EventRules {
  import opened Prelude
  import opened MuxEvents
  import opened BusRuns

  // ----- One push -----

  /** A newer title, output notice or scroll position of the same surface. */
  predicate NewerOf(event: MuxEvent, past: MuxEvent) {
    || (event.TitleChanged? && past.TitleChanged? && event.surface == past.surface)
    || (event.SurfaceOutput? && past.SurfaceOutput? && event.surface == past.surface)
    || (event.ScrollChanged? && past.ScrollChanged? && event.surface == past.surface)
  }

  /** News of a surface that no longer matter once it has exited. */
  predicate EndedBy(event: MuxEvent, past: MuxEvent) {
    event.SurfaceExited? && (past.TitleChanged? || past.SurfaceOutput? || past.ScrollChanged?)
    && past.surface == event.surface
  }

  /** What is left of a queue when an event is pushed behind it. */
  function Undisturbed(queue: seq<MuxEvent>, event: MuxEvent): (left: seq<MuxEvent>)
    ensures |left| <= |queue|
  {
    if queue == [] then []
    else
      var last := queue[|queue| - 1];
      Undisturbed(queue[..|queue| - 1], event)
      + (if NewerOf(event, last) || EndedBy(event, last) then [] else [last])
  }

  /** The exits of surfaces and the closings of workspaces. */
  function Endings(queue: seq<MuxEvent>): seq<MuxEvent> {
    if queue == [] then []
    else
      var last := queue[|queue| - 1];
      Endings(queue[..|queue| - 1])
      + (if last.SurfaceExited? || (last.TreeDeltaEvent? && last.delta.kind.WorkspaceClosed?) then [last] else [])
  }

  function SelectorOf(event: MuxEvent): Selector
    requires KeyOf(event).Some? || event.SurfaceExited?
  {
    if KeyOf(event).Some? then NotKey(KeyOf(event).value) else NotStateOf(event.surface)
  }

  lemma SelectorIsUndisturbed(event: MuxEvent, past: MuxEvent)
    ensures KeyOf(event).Some? || event.SurfaceExited? ==>
              (SelectorOf(event).Selects(past) <==> !NewerOf(event, past) && !EndedBy(event, past))
    ensures KeyOf(event).None? && !event.SurfaceExited? ==> !NewerOf(event, past) && !EndedBy(event, past)
  {
  }

  lemma {:induction false} UndisturbedIsKept(queue: seq<MuxEvent>, event: MuxEvent)
    ensures Undisturbed(queue, event)
            == if KeyOf(event).Some? || event.SurfaceExited? then Keep(queue, SelectorOf(event)) else queue
  {
    if queue != [] {
      hide KeyOf, NewerOf, EndedBy, Selector.Selects, SelectorOf;
      UndisturbedIsKept(queue[..|queue| - 1], event);
      SelectorIsUndisturbed(event, queue[|queue| - 1]);
    }
  }

  lemma {:induction false} EndingsAreKept(queue: seq<MuxEvent>)
    ensures Endings(queue) == Keep(queue, TerminalOnly)
  {
    if queue != [] {
      EndingsAreKept(queue[..|queue| - 1]);
    }
  }

  /** Main result on one push: it is refused exactly when the queue is closed or 4096 undisturbed events leave no room;
      an accepted event comes last, behind everything that it neither renews nor ends, in order. */
  lemma PushDisplacesOnlyOldNews(box: Plain, event: MuxEvent)
    requires |box.queue| <= 4096 && event != Empty
    ensures var (pushed, left) := (PlainPush(box, event), Undisturbed(box.queue, event));
            && (pushed.accepted <==> !box.closed && |left| < 4096)
            && pushed.box == if pushed.accepted then box.(queue := left + [event])
                             else if box.closed then box
                             else box.(closed := true, overflowed := true)
  {
    UndisturbedIsKept(box.queue, event);
    if KeyOf(event).Some? {
      NothingLost(box.queue, NotKey(KeyOf(event).value));
    } else if event.SurfaceExited? {
      NothingLost(box.queue, NotStateOf(event.surface));
    }
  }

  lemma {:induction false} NothingLost(queue: seq<MuxEvent>, selector: Selector)
    ensures |Keep(queue, selector)| == |queue| ==> Keep(queue, selector) == queue
  {
    if queue != [] {
      NothingLost(queue[..|queue| - 1], selector);
    }
  }

  /** `Empty` keeps the latest 4095 endings and nothing else. */
  lemma EmptyKeepsEndings(box: Plain)
    requires !box.closed
    ensures var (pushed, endings) := (PlainPush(box, Empty), Endings(box.queue));
            && pushed.accepted
            && pushed.box.queue
               == (if |endings| <= 4095 then endings else endings[|endings| - 4095..]) + [Empty]
  {
    EndingsAreKept(box.queue);
  }

  /** Of two accepted events the first stays pending unless the second renews it, ends it or is `Empty`. */
  lemma SecondPush(box: Plain, a: MuxEvent, b: MuxEvent)
    requires |box.queue| <= 4096 && a != Empty && b != Empty
    requires PlainPush(box, a).accepted && PlainPush(PlainPush(box, a).box, b).accepted
    ensures var queue := PlainPush(PlainPush(box, a).box, b).box.queue;
            var left := Undisturbed(Undisturbed(box.queue, a), b);
            queue == left + (if NewerOf(b, a) || EndedBy(b, a) then [b] else [a, b])
  {
    hide NewerOf, EndedBy, PlainPush, Undisturbed;
    PushDisplacesOnlyOldNews(box, a);
    var (once, before) := (PlainPush(box, a).box, Undisturbed(box.queue, a));
    PushDisplacesOnlyOldNews(once, b);
    UndisturbedMore(before, a, b);
    if !NewerOf(b, a) && !EndedBy(b, a) {
      assert Undisturbed(before, b) + [a] + [b] == Undisturbed(before, b) + [a, b];
    } else {
      assert Undisturbed(before, b) + [] + [b] == Undisturbed(before, b) + [b];
    }
  }

  lemma UndisturbedMore(queue: seq<MuxEvent>, last: MuxEvent, event: MuxEvent)
    ensures Undisturbed(queue + [last], event)
            == Undisturbed(queue, event) + (if NewerOf(event, last) || EndedBy(event, last) then [] else [last])
  {
    hide NewerOf, EndedBy;
    assert (queue + [last])[..|queue|] == queue;
  }

  // ----- What a subscriber is offered -----

  /** The surface whose own news an event is; a notification may be meant for nobody in particular. */
  function NewsOf(event: MuxEvent): Option<SurfaceId> {
    match event
    case SurfaceOutput(s) => Some(s)
    case SurfaceResized(s, _, _) => Some(s)
    case SurfaceResizeFailed(s, _) => Some(s)
    case SurfaceExited(s) => Some(s)
    case TitleChanged(s, _) => Some(s)
    case Bell(s) => Some(s)
    case ScrollChanged(s, _, _) => Some(s)
    case Notification(target, _) => target
    case _ => None
  }

  /** Events that tell of the whole multiplexer, for clients that show all of it. */
  predicate ForWholeViews(event: MuxEvent) {
    event.TreeChanged? || event.TreeSelectionChanged? || event.LayoutChanged? || event.ClientNotice?
  }

  /** Apart from deltas, of which only those of tabs and closings concern it, a session subscriber is offered all news
      of its own surface, none of others, and of the rest everything not meant for whole views; an attached one only its
      notifications and scrolling; an unfiltered one everything. */
  lemma FiltersByEvent(filter: Filter, event: MuxEvent)
    ensures var offered := Consider(filter, Emit(event)).pushes;
            && (offered.Some? ==> offered.value == event)
            && (filter.All? ==> offered.Some?)
            && (filter.AttachedSurface? ==>
                  (offered.Some? <==> (event.Notification? || event.ScrollChanged?)
                                      && NewsOf(event) == Some(filter.surface)))
            && (filter.SurfaceSession? && !event.TreeDeltaEvent? ==>
                  (offered.Some? <==> if NewsOf(event).Some? then NewsOf(event).value == filter.scope.surface
                                      else !ForWholeViews(event)))
            && (filter.SurfaceSession? && event.TreeDeltaEvent? && offered.Some? ==>
                  var kind := event.delta.kind;
                  || kind.TabAdded? || kind.TabClosed? || kind.TabRenamed?
                  || kind.PaneClosed? || kind.ScreenClosed? || kind.WorkspaceClosed?)
  {
  }

  /** A move is announced to the session subscribers of the surface that moved, as a change of the tree, and to nobody
      else. */
  lemma MovesAreAnnounced(filter: Filter, surface: SurfaceId, w: WorkspaceId, s: ScreenId, p: PaneId)
    ensures var verdict := Consider(filter, MovePath(surface, w, s, p));
            if filter.SurfaceSession? && filter.scope.surface == surface then
              && verdict.pushes == Some(TreeChanged)
              && verdict.filter == SurfaceSession(SurfaceSessionScope(surface, w, s, p))
            else verdict.pushes.None? && verdict.filter == filter
  {
  }

  /** A turn ends a subscription exactly when the receiver is gone, the bus shuts down, or the offer finds the queue
      closed or without room. */
  lemma TurnEndsSubscription(sub: Subscription, turn: Turn)
    requires sub.attached && |sub.box.queue| <= 4096
    ensures var (after, offer) := (TakeTurn(sub, turn), Consider(sub.filter, turn).pushes);
            && (!after.attached
                <==> || !sub.receiverAlive || turn.Shutdown?
                     || (&& offer.Some? && offer.value != Empty
                         && (sub.box.closed || |Undisturbed(sub.box.queue, offer.value)| >= 4096))
                     || (offer == Some(Empty) && sub.box.closed))
            && (!sub.receiverAlive ==> after.box == sub.box && after.filter == sub.filter)
  {
    hide Consider, Undisturbed;
    var offer := Consider(sub.filter, turn).pushes;
    if offer.Some? && offer.value != Empty {
      hide PlainPush;
      PushDisplacesOnlyOldNews(sub.box, offer.value);
    }
  }
}
