/** Which screencast frames are let through, told by the barrier itself (client.rs:1476-1577). */
module FrameAdmission {
  import opened Prelude
  import opened CdpEvents
  import opened CdpSession
  import opened CdpRecovery

  /** A frame passes a barrier when it is known to be no older: by its own timestamp, or because there is no barrier. */
  predicate Passes(barrier: Option<Barrier>, timestamp: Option<real>) {
    || barrier.None?
    || (barrier.value.Timestamp? && timestamp.Some? && barrier.value.minimum <= timestamp.value)
  }

  /** A frame that is known to be older than the barrier. */
  predicate Stale(barrier: Option<Barrier>, timestamp: Option<real>) {
    barrier.Some? && barrier.value.Timestamp? && timestamp.Some? && timestamp.value < barrier.value.minimum
  }

  /** Nothing speaks against asking for a capture of the session's present generation. */
  predicate CaptureIsOpen(s: Session, now: Time) {
    var (frame, navigation) := (s.epoch.current, s.epoch.latestNavigation);
    && s.mainFrame.Some? && s.mainLoader.Some?
    && s.suppressed != Some(frame)
    && (s.pending.Some? ==> s.pending.value.frameEpoch != frame || s.pending.value.navigationEpoch != navigation)
    && (s.throttle.Some? ==>
          || s.throttle.value.frameEpoch != frame || s.throttle.value.navigationEpoch != navigation
          || s.throttle.value.retryAt <= now)
  }

  /** Main result on one frame: it goes out, with the session's generation, exactly when it passes the barrier, and a
      timestamped one then lifts the limits on captures; a stale frame changes nothing; of any other frame only a
      request for a capture comes, exactly when the session's limits allow one, and it then limits the next ones for
      1000 ms. */
  lemma FrameMeetsBarrier(w: World, timestamp: Option<real>, frame: Frame)
    requires w.held.None? && w.slot.Some?
    ensures var s := w.slot.value;
            var after := Step(Step(w, LookAtFrame(timestamp)), ActOnFrame(Some(frame)));
            && after.held.None? && after.slot.Some?
            && after.slot.value.barrier == s.barrier && after.slot.value.epoch == s.epoch
            && if Passes(s.barrier, timestamp) then
                 && after.dispatched
                    == w.dispatched + [ScreencastFrame(frame.(session := w.name, frameEpoch := s.epoch.current))]
                 && after.slot.value
                    == if timestamp.Some? then s.(pending := None, throttle := None, suppressed := None) else s
               else if !Stale(s.barrier, timestamp) && CaptureIsOpen(s, w.clock) then
                 && after.dispatched
                    == w.dispatched + [CaptureRequested(w.name, s.mainFrame.value, s.mainLoader.value, w.nextId,
                                                        s.epoch.current, s.epoch.latestNavigation)]
                 && after.slot.value.pending == Some(Capture(w.nextId, s.epoch.current, s.epoch.latestNavigation))
                 && after.slot.value.throttle
                    == Some(Throttle(s.epoch.current, s.epoch.latestNavigation, w.clock + 1000))
                 && after.nextId == w.nextId + 1
               else after.dispatched == w.dispatched && after.slot == w.slot && after.nextId == w.nextId
  {
  }

  /** A frame in the reader's hands that needs a capture asks for one when it is acted on exactly when the session still
      is in the generation that was seen and, whatever happened in between, its limits now allow one. */
  lemma HeldFrameAsksForCapture(w: World, payload: Option<Frame>)
    requires w.held.Some? && w.held.value.verdict.Verify? && w.slot.Some?
    ensures var (s, seen, after) := (w.slot.value, w.held.value.seen, Step(w, ActOnFrame(payload)));
            var (frame, navigation) := (s.epoch.current, s.epoch.latestNavigation);
            if frame == seen.frameEpoch && navigation == seen.navigationEpoch && CaptureIsOpen(s, w.clock) then
              && after.dispatched
                 == w.dispatched + [CaptureRequested(w.name, s.mainFrame.value, s.mainLoader.value, w.nextId,
                                                     frame, navigation)]
              && after.slot == Some(s.(pending := Some(Capture(w.nextId, frame, navigation)),
                                       throttle := Some(Throttle(frame, navigation, w.clock + 1000))))
            else after.dispatched == w.dispatched && after.slot == w.slot
  {
  }

  // ----- Over runs -----

  function BarrierOf(slot: Option<Session>): Option<Barrier> {
    if slot.Some? then slot.value.barrier else None
  }

  function GenerationOf(slot: Option<Session>): nat {
    if slot.Some? then slot.value.epoch.current else 0
  }

  /** At step i a frame was looked at, and none has been acted on since. */
  ghost predicate LookedAt(start: World, actions: seq<Action>, i: nat, timestamp: Option<real>) {
    && i < |actions| && actions[i] == LookAtFrame(timestamp) && After(start, actions[..i]).held.None?
    && forall j :: i < j < |actions| ==> !actions[j].ActOnFrame?
  }

  /** What is known of the frame in the reader's hands: when it was looked at, and that it was not stale then. */
  ghost predicate HeldSince(start: World, actions: seq<Action>, held: Held, i: nat) {
    && LookedAt(start, actions, i, held.timestamp)
    && var slot := After(start, actions[..i]).slot;
       && held.seen.frameEpoch == GenerationOf(slot) && !Stale(BarrierOf(slot), held.timestamp)
       && (held.verdict.Deliver? <==> Passes(BarrierOf(slot), held.timestamp))
  }

  lemma AfterMore(start: World, actions: seq<Action>, k: nat)
    requires k < |actions|
    ensures After(start, actions[..k + 1]) == Step(After(start, actions[..k]), actions[k])
  {
    assert actions[..k + 1][..k] == actions[..k];
  }

  lemma StepOnHeld(w: World, action: Action)
    ensures var next := Step(w, action);
            && next.name == w.name
            && (action.ActOnFrame? ==> next.held.None?)
            && (!action.ActOnFrame? && w.held.Some? ==> next.held == w.held)
            && (w.held.None? && next.held.Some? ==>
                  && action == LookAtFrame(next.held.value.timestamp)
                  && next.held.value.seen.frameEpoch == GenerationOf(w.slot)
                  && !Stale(BarrierOf(w.slot), next.held.value.timestamp)
                  && (next.held.value.verdict.Deliver? <==> Passes(BarrierOf(w.slot), next.held.value.timestamp)))
  {
  }

  /** Every frame in the reader's hands was looked at some time ago, and its verdict is that of the barrier then. */
  lemma {:induction false} HeldWasLookedAt(start: World, actions: seq<Action>) returns (i: nat)
    requires start.held.None?
    ensures After(start, actions).name == start.name
    ensures After(start, actions).held.Some? ==>
              i < |actions| && HeldSince(start, actions, After(start, actions).held.value, i)
  {
    hide Step, HeldSince, GenerationOf, BarrierOf, Passes, Stale;
    i := 0;
    if actions != [] {
      var (earlier, action) := (actions[..|actions| - 1], actions[|actions| - 1]);
      var w := After(start, earlier);
      i := HeldWasLookedAt(start, earlier);
      StepOnHeld(w, action);
      if After(start, actions).held.Some? {
        if w.held.Some? {
          HeldStill(start, actions, w.held.value, i);
        } else {
          i := |actions| - 1;
          HeldNow(start, actions);
        }
      }
    }
  }

  lemma HeldStill(start: World, actions: seq<Action>, held: Held, i: nat)
    requires actions != [] && !actions[|actions| - 1].ActOnFrame? && i < |actions| - 1
    requires HeldSince(start, actions[..|actions| - 1], held, i)
    ensures HeldSince(start, actions, held, i)
  {
    hide After, GenerationOf, BarrierOf, Passes, Stale;
    assert actions[..|actions| - 1][..i] == actions[..i];
  }

  lemma HeldNow(start: World, actions: seq<Action>)
    requires actions != []
    requires After(start, actions[..|actions| - 1]).held.None? && After(start, actions).held.Some?
    ensures HeldSince(start, actions, After(start, actions).held.value, |actions| - 1)
  {
    hide Step, GenerationOf, BarrierOf, Passes, Stale;
    StepOnHeld(After(start, actions[..|actions| - 1]), actions[|actions| - 1]);
  }

  /** A frame that was dispatched for a look at step i: let through by the barrier of that moment, and stamped with its
      generation. */
  ghost predicate LetThroughAt(start: World, actions: seq<Action>, frame: Frame, i: nat, timestamp: Option<real>) {
    && LookedAt(start, actions, i, timestamp)
    && Passes(BarrierOf(After(start, actions[..i]).slot), timestamp)
    && frame.frameEpoch == GenerationOf(After(start, actions[..i]).slot) && frame.session == start.name
  }

  lemma ActDispatches(w: World, payload: Option<Frame>, frame: Frame)
    ensures var next := Step(w, ActOnFrame(payload));
            next.dispatched == w.dispatched + [ScreencastFrame(frame)]
            <==> && w.held.Some? && w.held.value.verdict.Deliver? && payload.Some?
                 && frame == payload.value.(session := w.name, frameEpoch := w.held.value.seen.frameEpoch)
  {
    var next := Step(w, ActOnFrame(payload));
    assert |next.dispatched| <= |w.dispatched| + 1;
    if w.held.Some? && next.dispatched != w.dispatched {
      assert next.dispatched[|w.dispatched|] == if w.held.value.verdict.Deliver? then
          ScreencastFrame(payload.value.(session := w.name, frameEpoch := w.held.value.seen.frameEpoch))
        else RequestEvent(w.name, w.slot.value, w.held.value.seen, w.nextId);
    }
  }

  lemma OnlyActsDispatchFrames(w: World, action: Action)
    ensures var (before, after) := (w.dispatched, Step(w, action).dispatched);
            || action.ActOnFrame? || after == before
            || (|after| == |before| + 1 && !after[|before|].ScreencastFrame?)
  {
  }

  /** Main result: in every interleaving of the reader with restarting, navigating and resolving callers, no frame is
      ever dispatched that did not pass the barrier when it was looked at. */
  lemma NoStaleFrameIsDispatched(start: World, actions: seq<Action>, k: nat, frame: Frame)
    returns (i: nat, timestamp: Option<real>)
    requires start.held.None? && k < |actions|
    requires After(start, actions[..k + 1]).dispatched
             == After(start, actions[..k]).dispatched + [ScreencastFrame(frame)]
    ensures i < k && LetThroughAt(start, actions[..k], frame, i, timestamp)
  {
    hide After, Step, GenerationOf, BarrierOf, Passes, Stale;
    var w := After(start, actions[..k]);
    AfterMore(start, actions, k);
    OnlyActsDispatchFrames(w, actions[k]);
    ActDispatches(w, actions[k].payload, frame);
    i := HeldWasLookedAt(start, actions[..k]);
    timestamp := w.held.value.timestamp;
  }

  /** Conversely a frame that passed the barrier when it was looked at goes out when it is acted on, whatever happened
      in between. */
  lemma PassedFrameIsDispatched(start: World, actions: seq<Action>, frame: Frame, i: nat, timestamp: Option<real>)
    requires LetThroughAt(start, actions, frame, i, timestamp)
    ensures var w := After(start, actions);
            Step(w, ActOnFrame(Some(frame))).dispatched == w.dispatched + [ScreencastFrame(frame)]
  {
    hide Passes;
    HeldUntil(start, actions, i, timestamp, |actions|);
    assert actions[..|actions|] == actions;
    ActDispatches(After(start, actions), Some(frame), frame);
  }

  lemma LookPasses(w: World, timestamp: Option<real>)
    requires w.held.None? && Passes(BarrierOf(w.slot), timestamp)
    ensures var next := Step(w, LookAtFrame(timestamp));
            && next.name == w.name && next.held.Some? && next.held.value.verdict.Deliver?
            && next.held.value.seen.frameEpoch == GenerationOf(w.slot)
  {
  }

  lemma {:induction false} NameStays(start: World, actions: seq<Action>)
    ensures After(start, actions).name == start.name
  {
    hide Step;
    if actions != [] {
      NameStays(start, actions[..|actions| - 1]);
      StepOnHeld(After(start, actions[..|actions| - 1]), actions[|actions| - 1]);
    }
  }

  lemma {:induction false} HeldUntil(
      start: World, actions: seq<Action>, i: nat, timestamp: Option<real>, k: nat)
    requires LookedAt(start, actions, i, timestamp) && i < k <= |actions|
    requires Passes(BarrierOf(After(start, actions[..i]).slot), timestamp)
    ensures var w := After(start, actions[..k]);
            && w.name == start.name && w.held.Some? && w.held.value.verdict.Deliver?
            && w.held.value.seen.frameEpoch == GenerationOf(After(start, actions[..i]).slot)
  {
    hide Step, GenerationOf, BarrierOf, Passes, Stale, After;
    AfterMore(start, actions, k - 1);
    if k == i + 1 {
      NameStays(start, actions[..i]);
      LookPasses(After(start, actions[..i]), timestamp);
    } else {
      HeldUntil(start, actions, i, timestamp, k - 1);
      StepOnHeld(After(start, actions[..k - 1]), actions[k - 1]);
    }
  }

  // ----- The other steps -----

  /** The caller still means what the session has pending. */
  predicate StillPending(s: Session, expected: Capture) {
    s.pending == Some(expected) && expected.frameEpoch == s.epoch.current
  }

  /** What each step makes of a registered session: a guard that fails leaves it as it was. */
  lemma SessionAfterStep(w: World, action: Action)
    requires w.slot.Some? && !action.LookAtFrame? && !action.ActOnFrame?
    ensures var (s, after) := (w.slot.value, Step(w, action).slot);
            match action
            case Register(arc, epochs) =>
              after == Some(Session(arc, epochs, None, None, None, None, None, None, None))
            case Unregister => after.None?
            case Navigation(_, frame, loader) =>
              var next := s.epoch.current + 1;
              after == Some(
                         if w.held.Some? then s
                         else s.(epoch := s.epoch.(current := next, latestNavigation := next),
                                 mainFrame := Some(frame), mainLoader := loader,
                                 document := if loader.Some? then Some(Document(frame, loader.value, next)) else None))
            case SameDocument(_, frame) =>
              var next := s.epoch.current + 1;
              after == Some(
                         if w.held.Some? || s.mainFrame != Some(frame) || s.mainLoader.None? then s
                         else s.(epoch := s.epoch.(current := next, latestSameDocument := next)))
            case AdvanceEpoch => after == Some(s.(epoch := s.epoch.(current := s.epoch.current + 1)))
            case StartBarrier(arc, frame, barrier) =>
              after == Some(
                         if s.arc != arc || s.mainFrame != Some(frame) then s
                         else s.(barrier := Some(barrier), pending := None, throttle := None, suppressed := None))
            case CommitSnapshot(arc, observed, frame, loader) =>
              after == Some(
                         if s.arc != arc || s.epoch.current != observed then s
                         else s.(mainFrame := Some(frame), mainLoader := Some(loader)))
            case Cancel(expected) => after == Some(if StillPending(s, expected) then s.(pending := None) else s)
            case Suppress(expected) =>
              after == Some(
                         if StillPending(s, expected) then s.(pending := None, suppressed := Some(s.epoch.current))
                         else s)
            case SettleEnd(call, clock) =>
              after == Some(
                         if call >= |w.settling| || !StillPending(s, w.settling[call].expected) then s
                         else if w.settling[call].asksClock && clock.Some? then
                           s.(barrier := Some(Timestamp(clock.value)), pending := None, throttle := None,
                              suppressed := None)
                         else s.(pending := None))
            case _ => after == Some(s)
  {
  }

  /** A settle goes on to its second step, alone, only for a request still pending, and asks for a clock only under
      loader verification with a known frame; a finished settle leaves the others waiting. */
  lemma SettlesAfterStep(w: World, action: Action)
    requires w.slot.Some?
    ensures var (s, after) := (w.slot.value, Step(w, action).settling);
            match action
            case SettleBegin(expected) =>
              after == w.settling
                       + (if StillPending(s, expected) then
                            [Settling(expected, s.barrier == Some(LoaderVerified) && s.mainFrame.Some?)]
                          else [])
            case SettleEnd(call, _) =>
              after == if call < |w.settling| then w.settling[..call] + w.settling[call + 1..] else w.settling
            case _ => after == w.settling
  {
  }

  /** Beside frames and capture requests only navigations dispatch, each with the generation it begins; nothing is
      dispatched of another session. */
  lemma NavigationsDispatch(w: World, action: Action)
    requires w.held.None?
    ensures var (s, sent) := (w.slot, Step(w, action).dispatched);
            match action
            case Navigation(params, _, _) =>
              sent == w.dispatched
                      + (if s.None? then [] else [FrameNavigated(params, w.name, s.value.epoch.current + 1)])
            case SameDocument(params, frame) =>
              sent == w.dispatched
                      + (if s.Some? && s.value.mainFrame == Some(frame) && s.value.mainLoader.Some? then
                           [NavigatedWithinDocument(params, w.name, frame, s.value.mainLoader.value,
                                                    s.value.epoch.current + 1)]
                         else [])
            case _ => sent == w.dispatched
  {
  }
}
