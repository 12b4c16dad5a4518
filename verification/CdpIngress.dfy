/**
 * The recovery protocol and the ingress queue together (client.rs:354-391, 1466-1640, 1727-1731): along what a
 * registered session's events make of the queue, frame generations never go back.
 */
module CdpIngress {
  import opened Prelude
  import opened CdpEvents
  import opened CdpSession
  import opened CdpRecovery
  import Q = CdpQueue
  import Runs = CdpQueueRuns

  /** The frame generations dispatched so far. */
  function Dispatched(w: World): seq<nat> {
    Runs.Stamps(w.dispatched, w.name)
  }

  /** The generation a held frame would be delivered with. */
  function HeldStamp(w: World): nat {
    if w.held.Some? && w.held.value.verdict.Deliver? then w.held.value.seen.frameEpoch else 0
  }

  function LastStamp(w: World): nat {
    var stamps := Dispatched(w);
    if stamps == [] then 0 else stamps[|stamps| - 1]
  }

  /** The largest generation that has been, or may still be, dispatched for what was read so far. */
  function Peak(w: World): nat {
    Max(LastStamp(w), HeldStamp(w))
  }

  /** What the reader would stamp a frame with now: an unregistered session counts as generation zero. */
  function Level(w: World): nat {
    if w.slot.Some? then w.slot.value.epoch.current else 0
  }

  /** When a step does not endanger the order: a registration brings a generation at least as large as any seen, and no
      frame is looked at while the session is unregistered once a larger generation than zero was dispatched. */
  predicate Lawful(w: World, action: Action) {
    match action
    case Register(_, epochs) => Peak(w) <= epochs.current
    case LookAtFrame(_) => w.slot.None? && w.held.None? ==> Peak(w) == 0
    case _ => true
  }

  ghost predicate LawfulRun(start: World, actions: seq<Action>) {
    forall i :: 0 <= i < |actions| ==> Lawful(After(start, actions[..i]), actions[i])
  }

  ghost predicate InOrder(w: World) {
    Runs.NeverDecreasing(Dispatched(w))
  }

  predicate Delivers(w: World) {
    w.held.Some? && w.held.value.verdict.Deliver?
  }

  /** Ordered so far, a held frame not behind, and a registered session at least as far as both. */
  ghost predicate Sorted(w: World) {
    && InOrder(w)
    && (Delivers(w) ==> LastStamp(w) <= HeldStamp(w))
    && (w.slot.Some? ==> Peak(w) <= Level(w))
  }

  // ----- Dispatching -----

  lemma StampsMore(events: seq<CdpEvent>, event: CdpEvent, session: string)
    ensures Runs.Stamps(events + [event], session)
            == Runs.Stamps(events, session)
               + (if StampOf(event, session).Some? then [StampOf(event, session).value] else [])
  {
    assert (events + [event])[..|events|] == events;
  }

  lemma OrderedMore(stamps: seq<nat>, stamp: nat)
    requires Runs.NeverDecreasing(stamps)
    ensures Runs.NeverDecreasing(stamps + [stamp]) <==> (stamps == [] || stamps[|stamps| - 1] <= stamp)
  {
    var more := stamps + [stamp];
    if stamps != [] && stamps[|stamps| - 1] > stamp {
      assert more[|stamps| - 1] > more[|stamps|];
    }
  }

  /** One more dispatch of this session. */
  lemma DispatchMore(w: World, later: World, event: CdpEvent, stamp: nat)
    requires later.name == w.name && later.dispatched == w.dispatched + [event]
    requires StampOf(event, w.name) == Some(stamp) && InOrder(w)
    ensures InOrder(later) <==> LastStamp(w) <= stamp
    ensures LastStamp(later) == stamp && Dispatched(later) == Dispatched(w) + [stamp]
  {
    hide StampOf, Runs.Stamps, Runs.NeverDecreasing;
    StampsMore(w.dispatched, event, w.name);
    OrderedMore(Dispatched(w), stamp);
  }

  lemma SameDispatch(w: World, later: World)
    requires later.name == w.name && later.dispatched == w.dispatched
    ensures Dispatched(later) == Dispatched(w) && LastStamp(later) == LastStamp(w)
  {
  }

  // ----- Lawful steps keep the order -----

  lemma LookKeepsSorted(w: World, timestamp: Option<real>)
    requires Sorted(w) && w.held.None? && Lawful(w, LookAtFrame(timestamp))
    ensures Sorted(ReaderStep(w, LookAtFrame(timestamp)))
  {
    hide Runs.Stamps, Runs.NeverDecreasing;
    SameDispatch(w, ReaderStep(w, LookAtFrame(timestamp)));
  }

  lemma ReaderKeepsSorted(w: World, action: Action)
    requires Sorted(w) && w.held.None? && Lawful(w, action)
    ensures Sorted(ReaderStep(w, action)) && ReaderStep(w, action).name == w.name
  {
    hide Runs.Stamps, Runs.NeverDecreasing, Dispatched;
    var later := ReaderStep(w, action);
    match action
    case LookAtFrame(timestamp) => LookKeepsSorted(w, timestamp);
    case Navigation(params, _, _) =>
      if w.slot.Some? {
        var next := Level(w) + 1;
        DispatchMore(w, later, FrameNavigated(params, w.name, next), next);
      }
    case SameDocument(params, frameId) =>
      if w.slot.Some? && MayNavigateWithin(w.slot.value, frameId) {
        var next := Level(w) + 1;
        DispatchMore(
          w, later, NavigatedWithinDocument(params, w.name, frameId, w.slot.value.mainLoader.value, next), next);
      }
    case _ => SameDispatch(w, later);
  }

  /** Acting on the held frame dispatches with the stamp that was read when it was looked at, or, for a capture request,
      only while the session is still at that stamp. */
  lemma ActingKeepsSorted(w: World, payload: Option<Frame>)
    requires Sorted(w) && w.held.Some?
    ensures Sorted(Step(w, ActOnFrame(payload))) && Step(w, ActOnFrame(payload)).name == w.name
  {
    hide Runs.Stamps, Runs.NeverDecreasing, Dispatched;
    var (later, seen) := (Step(w, ActOnFrame(payload)), w.held.value.seen);
    if later.dispatched == w.dispatched {
      SameDispatch(w, later);
    } else if w.held.value.verdict.Deliver? {
      var frame := payload.value.(session := w.name, frameEpoch := seen.frameEpoch);
      DispatchMore(w, later, ScreencastFrame(frame), seen.frameEpoch);
    } else {
      DispatchMore(w, later, RequestEvent(w.name, w.slot.value, seen, w.nextId), seen.frameEpoch);
    }
  }

  /** Callers only move the epoch forward and dispatch nothing. */
  lemma CallerMovesForward(w: World, s: Session, action: Action)
    requires w.slot == Some(s)
    ensures var after := CallerStep(w, s, action);
            && after.slot.Some? && after.slot.value.epoch.current >= s.epoch.current
            && after.dispatched == w.dispatched && after.held == w.held && after.name == w.name
  {
  }

  lemma SettleMovesNothing(w: World, call: nat, clockAnswer: Option<real>)
    ensures var after := SettleEndStep(w, call, clockAnswer);
            && after.slot.Some? == w.slot.Some? && Level(after) == Level(w)
            && after.dispatched == w.dispatched && after.held == w.held && after.name == w.name
  {
  }

  /** A later world with nothing new dispatched or held, whose session is not behind. */
  lemma QuietKeepsSorted(w: World, later: World)
    requires Sorted(w) && later.name == w.name && later.dispatched == w.dispatched && later.held == w.held
    requires later.slot.Some? ==> Peak(w) <= Level(later)
    ensures Sorted(later)
  {
    hide Runs.Stamps, Runs.NeverDecreasing;
    SameDispatch(w, later);
  }

  lemma StepKeepsSorted(w: World, action: Action)
    requires Sorted(w) && Lawful(w, action)
    ensures Sorted(Step(w, action)) && Step(w, action).name == w.name
  {
    hide Sorted, RequestStep, DeliverStep, ReaderStep, CallerStep, SettleEndStep, Lawful, Dispatched, LastStamp;
    if action.ActOnFrame? {
      if w.held.Some? {
        ActingKeepsSorted(w, action.payload);
      }
    } else if ForReader(action) {
      if w.held.None? {
        ReaderKeepsSorted(w, action);
      }
    } else {
      CallerKeepsSorted(w, action);
    }
  }

  lemma CallerKeepsSorted(w: World, action: Action)
    requires Sorted(w) && Lawful(w, action) && !action.ActOnFrame? && !ForReader(action)
    ensures Sorted(Step(w, action)) && Step(w, action).name == w.name
  {
    hide Sorted, CallerStep, SettleEndStep, Dispatched, LastStamp;
    SortedLevel(w);
    if action.SettleEnd? {
      SettleMovesNothing(w, action.call, action.clockAnswer);
    } else if w.slot.Some? {
      CallerMovesForward(w, w.slot.value, action);
    }
    QuietKeepsSorted(w, Step(w, action));
  }

  lemma SortedLevel(w: World)
    requires Sorted(w)
    ensures w.slot.Some? ==> Peak(w) <= Level(w)
  {
  }

  // ----- Runs -----

  lemma AfterMore(start: World, actions: seq<Action>, i: nat)
    requires i < |actions|
    ensures After(start, actions[..i + 1]) == Step(After(start, actions[..i]), actions[i])
  {
    assert actions[..i + 1][..i] == actions[..i];
  }

  /** The reader is between two messages and nothing was dispatched yet. */
  ghost predicate Beginning(w: World) {
    w.held.None? && w.dispatched == []
  }

  lemma BeginningIsSorted(w: World)
    requires Beginning(w)
    ensures Sorted(w)
  {
  }

  lemma {:induction false} LawfulStaysSorted(start: World, actions: seq<Action>, n: nat)
    requires Sorted(start) && LawfulRun(start, actions) && n <= |actions|
    ensures Sorted(After(start, actions[..n])) && After(start, actions[..n]).name == start.name
  {
    hide Sorted, Step, Lawful;
    if n > 0 {
      LawfulStaysSorted(start, actions, n - 1);
      AfterMore(start, actions, n - 1);
      StepKeepsSorted(After(start, actions[..n - 1]), actions[n - 1]);
    }
  }

  /** Continuations that leave the registration alone, and look at no frame while there is none. */
  predicate Tame(w: World, more: seq<Action>) {
    forall i :: 0 <= i < |more| ==>
      !more[i].Register? && !more[i].Unregister? && (w.slot.None? ==> !more[i].LookAtFrame?)
  }

  /** However a run is continued from any of its points without touching the registration, order is kept. */
  ghost predicate Robust(start: World, actions: seq<Action>) {
    forall i, more :: 0 <= i <= |actions| && Tame(After(start, actions[..i]), more) ==>
      InOrder(After(After(start, actions[..i]), more))
  }

  lemma StepKeepsRegistration(w: World, action: Action)
    requires !action.Register? && !action.Unregister?
    ensures Step(w, action).slot.Some? == w.slot.Some?
  {
  }

  lemma {:induction false} TameRunIsLawful(w: World, more: seq<Action>, n: nat)
    requires Tame(w, more) && n <= |more|
    ensures After(w, more[..n]).slot.Some? == w.slot.Some?
    ensures n < |more| ==> Lawful(After(w, more[..n]), more[n])
  {
    hide Step;
    if n > 0 {
      TameRunIsLawful(w, more, n - 1);
      AfterMore(w, more, n - 1);
      StepKeepsRegistration(After(w, more[..n - 1]), more[n - 1]);
    }
  }

  lemma SortedStaysInOrder(w: World, more: seq<Action>)
    requires Sorted(w) && Tame(w, more)
    ensures InOrder(After(w, more))
  {
    hide After, Lawful;
    forall i | 0 <= i < |more| ensures Lawful(After(w, more[..i]), more[i]) {
      TameRunIsLawful(w, more, i);
    }
    LawfulStaysSorted(w, more, |more|);
    assert more[..|more|] == more;
  }

  // ----- Unlawful steps can break it -----

  function AnyFrame(): Frame {
    Frame("", "", 0, 0)
  }

  lemma AfterOne(w: World, a: Action)
    ensures After(w, [a]) == Step(w, a)
  {
    assert [a][..0] == [];
  }

  lemma AfterThree(w: World, a: Action, b: Action, c: Action)
    ensures After(w, [a, b, c]) == Step(Step(Step(w, a), b), c)
  {
    assert [a, b, c][..2] == [a, b] && [a, b][..1] == [a];
    AfterOne(w, a);
  }

  /** Without a session a frame can be stamped zero after a larger generation. */
  lemma LateFrameBreaksOrder(w: World, timestamp: Option<real>)
    requires Sorted(w) && !Lawful(w, LookAtFrame(timestamp))
    ensures var (later, more) := (Step(w, LookAtFrame(timestamp)), [ActOnFrame(Some(AnyFrame()))]);
            Tame(later, more) && !InOrder(After(later, more))
  {
    hide Runs.Stamps, Runs.NeverDecreasing, Dispatched, After;
    var later := Step(w, LookAtFrame(timestamp));
    var last := Step(later, ActOnFrame(Some(AnyFrame())));
    AfterOne(later, ActOnFrame(Some(AnyFrame())));
    SameDispatch(w, later);
    DispatchMore(later, last, ScreencastFrame(AnyFrame().(session := w.name, frameEpoch := 0)), 0);
  }

  /** A registration that goes back lets a held frame, or the last one dispatched, be followed by a smaller stamp. */
  lemma BackwardRegistrationBreaksOrder(w: World, arc: nat, epochs: Epochs)
    requires Sorted(w) && !Lawful(w, Register(arc, epochs))
    ensures var (later, more) := (Step(w, Register(arc, epochs)),
                                  [ActOnFrame(Some(AnyFrame())), LookAtFrame(None), ActOnFrame(Some(AnyFrame()))]);
            Tame(later, more) && !InOrder(After(later, more))
  {
    hide Runs.Stamps, Runs.NeverDecreasing, Dispatched, After;
    var act := ActOnFrame(Some(AnyFrame()));
    var later := Step(w, Register(arc, epochs));
    var acted := Step(later, act);
    var looked := Step(acted, LookAtFrame(None));
    var last := Step(looked, act);
    AfterThree(later, act, LookAtFrame(None), act);
    SameDispatch(w, later);
    if Delivers(w) {
      var frame := AnyFrame().(session := w.name, frameEpoch := HeldStamp(w));
      DispatchMore(later, acted, ScreencastFrame(frame), HeldStamp(w));
    } else {
      SameDispatch(later, acted);
    }
    SameDispatch(acted, looked);
    DispatchMore(looked, last, ScreencastFrame(AnyFrame().(session := w.name, frameEpoch := epochs.current)),
                 epochs.current);
  }

  lemma UnlawfulBreaksOrder(w: World, action: Action) returns (more: seq<Action>)
    requires Sorted(w) && !Lawful(w, action)
    ensures Tame(Step(w, action), more) && !InOrder(After(Step(w, action), more))
  {
    hide Sorted, Step, After, InOrder;
    match action
    case Register(arc, epochs) =>
      BackwardRegistrationBreaksOrder(w, arc, epochs);
      more := [ActOnFrame(Some(AnyFrame())), LookAtFrame(None), ActOnFrame(Some(AnyFrame()))];
    case LookAtFrame(timestamp) =>
      LateFrameBreaksOrder(w, timestamp);
      more := [ActOnFrame(Some(AnyFrame()))];
  }

  /** One step keeps order in every continuation exactly when it is lawful. */
  lemma StepIsSafeExactlyWhenLawful(w: World, action: Action)
    requires Sorted(w)
    ensures Lawful(w, action)
            <==> forall more :: Tame(Step(w, action), more) ==> InOrder(After(Step(w, action), more))
  {
    hide Sorted, Step, Lawful, InOrder, Tame, After;
    if Lawful(w, action) {
      StepKeepsSorted(w, action);
      forall more | Tame(Step(w, action), more) ensures InOrder(After(Step(w, action), more)) {
        SortedStaysInOrder(Step(w, action), more);
      }
    } else {
      var more := UnlawfulBreaksOrder(w, action);
    }
  }

  lemma {:induction false} RobustIsLawful(start: World, actions: seq<Action>, n: nat)
    requires Sorted(start) && Robust(start, actions) && n <= |actions|
    ensures Sorted(After(start, actions[..n]))
    ensures n < |actions| ==> Lawful(After(start, actions[..n]), actions[n])
  {
    hide Sorted, Step, Lawful, InOrder, Tame;
    if n > 0 {
      RobustIsLawful(start, actions, n - 1);
      AfterMore(start, actions, n - 1);
      StepKeepsSorted(After(start, actions[..n - 1]), actions[n - 1]);
    }
    if n < |actions| {
      AfterMore(start, actions, n);
      StepIsSafeExactlyWhenLawful(After(start, actions[..n]), actions[n]);
    }
  }

  /** Main result: over runs with any registrations, order survives every continuation exactly when each registration
      brings a generation at least as large as any dispatched or held, and no frame is looked at while the session is
      unregistered after a generation larger than zero. */
  lemma OrderSurvivesExactlyLawfulRuns(start: World, actions: seq<Action>)
    requires Beginning(start)
    ensures LawfulRun(start, actions) <==> Robust(start, actions)
  {
    hide Sorted, Lawful, InOrder, Tame, After;
    BeginningIsSorted(start);
    if LawfulRun(start, actions) {
      forall i, more | 0 <= i <= |actions| && Tame(After(start, actions[..i]), more)
        ensures InOrder(After(After(start, actions[..i]), more))
      {
        LawfulStaysSorted(start, actions, i);
        SortedStaysInOrder(After(start, actions[..i]), more);
      }
    }
    if Robust(start, actions) {
      forall i | 0 <= i < |actions| ensures Lawful(After(start, actions[..i]), actions[i]) {
        RobustIsLawful(start, actions, i);
      }
    }
  }

  ghost predicate KeepsRegistration(actions: seq<Action>) {
    forall i :: 0 <= i < |actions| ==> !actions[i].Register? && !actions[i].Unregister?
  }

  /** One registration that lasts is always lawful. */
  lemma OneRegistrationIsLawful(start: World, actions: seq<Action>)
    requires start.slot.Some? && KeepsRegistration(actions)
    ensures LawfulRun(start, actions)
  {
    hide After, Lawful;
    forall i | 0 <= i < |actions| ensures Lawful(After(start, actions[..i]), actions[i]) {
      TameRunIsLawful(start, actions, i);
    }
  }

  // ----- Along the queue -----

  /** All events pushed, in order. */
  function Pushed(ops: seq<Runs.Op>): seq<CdpEvent> {
    if ops == [] then []
    else
      var last := ops[|ops| - 1];
      Pushed(ops[..|ops| - 1]) + (if last.Dispatch? then [last.event] else [])
  }

  lemma {:induction false} OpenQueueTookEverything(ops: seq<Runs.Op>)
    requires !Runs.After(ops).closed
    ensures Runs.After(ops).accepted == Pushed(ops)
  {
    hide Q.Fits, Q.Pushed, Q.EventsOf;
    if ops != [] {
      OpenQueueTookEverything(ops[..|ops| - 1]);
    }
  }

  /** Main result: however the session's events, other events and drains interleave in the queue, as long as it has not
      closed, the frame generations of a lawful run, in particular of one lasting registration, never decrease along
      what was delivered and what is queued, although replacements move to the back. */
  lemma {:induction false} FrameEpochsNeverDecreaseAlongTheQueue(start: World, actions: seq<Action>, ops: seq<Runs.Op>)
    requires Beginning(start) && !Runs.After(ops).closed
    requires LawfulRun(start, actions) || (start.slot.Some? && KeepsRegistration(actions))
    requires Runs.Stamps(Pushed(ops), start.name) == Runs.Stamps(After(start, actions).dispatched, start.name)
    ensures Runs.NeverDecreasing(Runs.Stamps(Runs.History(Runs.After(ops)), start.name))
  {
    if start.slot.Some? && KeepsRegistration(actions) {
      OneRegistrationIsLawful(start, actions);
    }
    BeginningIsSorted(start);
    LawfulStaysSorted(start, actions, |actions|);
    assert actions[..|actions|] == actions;
    OpenQueueTookEverything(ops);
    Runs.StampsStayOrdered(ops, start.name);
  }
}
