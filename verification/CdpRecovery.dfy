/**
 * The recovery protocol over whole interleavings (client.rs:679-697, 887-1054, 1489-1640): the reader thread, which
 * looks at a frame and acts on it in two separately locked steps, against callers that restart capture, commit
 * snapshots, and settle, cancel or suppress requests, a settle being two locked steps as well.
 */
module CdpRecovery {
  import opened Prelude
  import opened CdpEvents
  import opened CdpSession

  /** A frame the reader has looked at and not acted on yet. */
  datatype Held = Held(seen: Seen, timestamp: Option<real>, verdict: Verdict)

  /** A settle call between its two locked steps. */
  datatype Settling = Settling(expected: Capture, asksClock: bool)

  /** What happened to recovery requests.  `Reset` marks that the session gave up its request and its limits. */
  datatype Event = Issued(capture: Capture, at: Time) | Resolved(capture: Capture, epoch: nat) | Reset

  datatype World = World(
    name: string,
    slot: Option<Session>,
    nextId: nat,
    clock: Time,
    held: Option<Held>,
    settling: seq<Settling>,
    log: seq<Event>,
    dispatched: seq<CdpEvent>)

  datatype Action =
    | Tick(elapsed: nat)
    | Register(arc: nat, epochs: Epochs)
    | Unregister
    | LookAtFrame(timestamp: Option<real>)
    | ActOnFrame(payload: Option<Frame>)
    | Navigation(params: Json, frameId: string, loaderId: Option<string>)
    | SameDocument(params: Json, frameId: string)
    | AdvanceEpoch
    | OtherSessionRequests
    | StartBarrier(arc: nat, frameId: string, barrier: Barrier)
    | CommitSnapshot(arc: nat, observed: nat, frameId: string, loader: string)
    | SettleBegin(expected: Capture)
    | SettleEnd(call: nat, clockAnswer: Option<real>)
    | Cancel(expected: Capture)
    | Suppress(expected: Capture)

  // ----- Steps -----

  /** Second half of frame ingress for a frame that needs a loader-verified capture. */
  function RequestStep(w: World, s: Session, seen: Seen): World {
    if MayRequest(s, seen, w.clock) then
      w.(slot := Some(Requested(s, seen, w.clock, w.nextId)),
         nextId := w.nextId + 1,
         log := w.log + [Issued(Capture(w.nextId, seen.frameEpoch, seen.navigationEpoch), w.clock)],
         dispatched := w.dispatched + [RequestEvent(w.name, s, seen, w.nextId)])
    else w
  }

  /** Second half of frame ingress for a frame that is delivered; a malformed one is dropped. */
  function DeliverStep(w: World, held: Held, payload: Option<Frame>): World {
    if payload.None? then w
    else
      var frame := payload.value.(session := w.name, frameEpoch := held.seen.frameEpoch);
      var out := w.(dispatched := w.dispatched + [ScreencastFrame(frame)]);
      if held.timestamp.Some? && w.slot.Some? && w.slot.value.epoch.current == held.seen.frameEpoch then
        out.(slot := Some(Reopened(w.slot.value)), log := w.log + [Reset])
      else out
  }

  function ResolveStep(w: World, expected: Capture, after: Session): World
    requires w.slot.Some?
  {
    w.(slot := Some(after), log := w.log + [Resolved(expected, w.slot.value.epoch.current)])
  }

  function ReaderStep(w: World, action: Action): World {
    match action
    case LookAtFrame(timestamp) =>
      var seen := Observe(w.slot);
      var verdict := Judge(seen, timestamp);
      if verdict.Drop? then w else w.(held := Some(Held(seen, timestamp, verdict)))
    case Navigation(params, frameId, loaderId) =>
      if w.slot.None? then w
      else
        var s := Navigated(w.slot.value, frameId, loaderId);
        w.(slot := Some(s), dispatched := w.dispatched + [FrameNavigated(params, w.name, s.epoch.current)])
    case SameDocument(params, frameId) =>
      if w.slot.None? || !MayNavigateWithin(w.slot.value, frameId) then w
      else
        var s := NavigatedWithin(w.slot.value);
        w.(slot := Some(s),
           dispatched := w.dispatched
                         + [NavigatedWithinDocument(params, w.name, frameId, s.mainLoader.value, s.epoch.current)])
    case OtherSessionRequests => w.(nextId := w.nextId + 1)
    case _ => w
  }

  /** Steps of the reader that wait until it has acted on the frame it looked at. */
  predicate ForReader(action: Action) {
    action.LookAtFrame? || action.Navigation? || action.SameDocument? || action.OtherSessionRequests?
  }

  function CallerStep(w: World, s: Session, action: Action): World
    requires w.slot == Some(s)
  {
    match action
    case AdvanceEpoch => w.(slot := Some(s.(epoch := Advance(s.epoch))))
    case StartBarrier(arc, frameId, barrier) =>
      if s.arc == arc && s.mainFrame == Some(frameId) then
        w.(slot := Some(Reopened(s).(barrier := Some(barrier))), log := w.log + [Reset])
      else w
    case CommitSnapshot(arc, observed, frameId, loader) =>
      if s.arc == arc && s.epoch.current == observed then
        w.(slot := Some(s.(mainFrame := Some(frameId), mainLoader := Some(loader))))
      else w
    case SettleBegin(expected) =>
      if Owns(s, expected) then
        w.(settling := w.settling + [Settling(expected, s.barrier == Some(LoaderVerified) && s.mainFrame.Some?)])
      else w
    case Cancel(expected) => if Owns(s, expected) then ResolveStep(w, expected, Cancelled(s)) else w
    case Suppress(expected) => if Owns(s, expected) then ResolveStep(w, expected, Suppressed(s)) else w
    case _ => w
  }

  /** The second locked step of a settle: everything is checked again. */
  function SettleEndStep(w: World, call: nat, clockAnswer: Option<real>): World {
    if call >= |w.settling| then w
    else
      var Settling(expected, asksClock) := w.settling[call];
      var left := w.(settling := w.settling[..call] + w.settling[call + 1..]);
      if w.slot.None? || !Owns(w.slot.value, expected) then left
      else if asksClock && clockAnswer.Some? then
        var done := ResolveStep(left, expected, Settled(w.slot.value, Some(Timestamp(clockAnswer.value))));
        done.(log := done.log + [Reset])
      else ResolveStep(left, expected, Settled(w.slot.value, None))
  }

  function Step(w: World, action: Action): World {
    match action
    case Tick(elapsed) => w.(clock := w.clock + elapsed)
    case Register(arc, epochs) =>
      w.(slot := Some(Session(arc, epochs, None, None, None, None, None, None, None)), log := w.log + [Reset])
    case Unregister => w.(slot := None)
    case SettleEnd(call, clockAnswer) => SettleEndStep(w, call, clockAnswer)
    case ActOnFrame(payload) =>
      if w.held.None? then w
      else
        var (held, free) := (w.held.value, w.(held := None));
        if held.verdict.Deliver? then DeliverStep(free, held, payload)
        else if w.slot.Some? then RequestStep(free, w.slot.value, held.seen)
        else free
    case _ =>
      if ForReader(action) then if w.held.None? then ReaderStep(w, action) else w
      else if w.slot.Some? then CallerStep(w, w.slot.value, action)
      else w
  }

  function After(start: World, actions: seq<Action>): World {
    if actions == [] then start
    else Step(After(start, actions[..|actions| - 1]), actions[|actions| - 1])
  }

  /** Nothing has happened to this session yet; other sessions may have used request ids. */
  ghost predicate Initial(w: World) {
    w.slot.None? && w.held.None? && w.settling == [] && w.log == [] && w.dispatched == []
  }

  // ----- What a good log looks like -----

  /** The entries after the last reset. */
  function Since(log: seq<Event>): seq<Event> {
    if log == [] || log[|log| - 1].Reset? then []
    else Since(log[..|log| - 1]) + [log[|log| - 1]]
  }

  lemma SinceMore(log: seq<Event>, event: Event)
    ensures Since(log + [event]) == if event.Reset? then [] else Since(log) + [event]
  {
    assert (log + [event])[..|log|] == log;
  }

  ghost predicate ResolvedIn(log: seq<Event>, id: nat) {
    exists e :: e in log && e.Resolved? && e.capture.requestId == id
  }

  ghost predicate IssuedIn(log: seq<Event>, capture: Capture) {
    exists e :: e in log && e.Issued? && e.capture == capture
  }

  ghost predicate IdsBelow(log: seq<Event>, id: nat) {
    forall e :: e in log && !e.Reset? ==> e.capture.requestId < id
  }

  /** An earlier request leaves room for one of the same frame epoch: it belongs to the same navigation epoch, has been
      resolved, and is at least an interval old. */
  ghost predicate LeavesRoom(since: seq<Event>, earlier: Event, capture: Capture, at: Time)
    requires earlier.Issued?
  {
    earlier.capture.frameEpoch == capture.frameEpoch ==>
      && earlier.capture.navigationEpoch == capture.navigationEpoch
      && ResolvedIn(since, earlier.capture.requestId)
      && earlier.at + CAPTURE_INTERVAL <= at
  }

  ghost predicate Follows(log: seq<Event>, event: Event) {
    match event
    case Issued(capture, at) =>
      && IdsBelow(log, capture.requestId)
      && forall e :: e in Since(log) && e.Issued? ==> LeavesRoom(Since(log), e, capture, at)
    case Resolved(capture, epoch) =>
      && epoch == capture.frameEpoch
      && IssuedIn(Since(log), capture)
      && !ResolvedIn(log, capture.requestId)
    case Reset => true
  }

  ghost predicate Good(log: seq<Event>) {
    log == [] || (Good(log[..|log| - 1]) && Follows(log[..|log| - 1], log[|log| - 1]))
  }

  lemma GoodMore(log: seq<Event>, event: Event)
    requires Good(log) && Follows(log, event)
    ensures Good(log + [event])
  {
    assert (log + [event])[..|log|] == log;
  }

  // ----- The invariant -----

  /** The session still remembers a request of its own frame epoch: it is pending or resolved, and throttles others. */
  ghost predicate Remembers(s: Session, since: seq<Event>, e: Event)
    requires e.Issued?
  {
    && e.capture.frameEpoch <= s.epoch.current
    && (e.capture.frameEpoch == s.epoch.current ==>
          && e.capture.navigationEpoch == s.epoch.latestNavigation
          && s.throttle.Some?
          && s.throttle.value.frameEpoch == e.capture.frameEpoch
          && s.throttle.value.navigationEpoch == e.capture.navigationEpoch
          && e.at + CAPTURE_INTERVAL <= s.throttle.value.retryAt
          && (s.pending == Some(e.capture) || ResolvedIn(since, e.capture.requestId)))
  }

  ghost predicate Tracks(s: Session, log: seq<Event>) {
    && (s.pending.Some? ==> IssuedIn(Since(log), s.pending.value) && !ResolvedIn(log, s.pending.value.requestId))
    && forall e :: e in Since(log) && e.Issued? ==> Remembers(s, Since(log), e)
  }

  ghost predicate Invariant(w: World) {
    && Good(w.log) && IdsBelow(w.log, w.nextId)
    && (w.slot.Some? ==> Tracks(w.slot.value, w.log))
  }

  lemma IdsMore(log: seq<Event>, event: Event, id: nat)
    requires IdsBelow(log, id) && (!event.Reset? ==> event.capture.requestId < id)
    ensures IdsBelow(log + [event], id)
  {
  }

  lemma ResolvedMore(log: seq<Event>, event: Event, id: nat)
    ensures ResolvedIn(log + [event], id)
            <==> ResolvedIn(log, id) || (event.Resolved? && event.capture.requestId == id)
  {
    if e :| e in log && e.Resolved? && e.capture.requestId == id {
      assert e in log + [event];
    }
    assert event in log + [event];
  }

  lemma IssuedMore(log: seq<Event>, event: Event, capture: Capture)
    ensures IssuedIn(log + [event], capture) <==> IssuedIn(log, capture) || (event.Issued? && event.capture == capture)
  {
    if e :| e in log && e.Issued? && e.capture == capture {
      assert e in log + [event];
    }
    assert event in log + [event];
  }

  /** A session without a request tracks a log that ends in a reset. */
  lemma ResetTracks(s: Session, log: seq<Event>)
    requires s.pending.None? && Good(log)
    ensures Tracks(s, log + [Reset]) && Good(log + [Reset])
  {
    hide Good;
    SinceMore(log, Reset);
    GoodMore(log, Reset);
  }

  /** Moving the epochs forward, or changing nothing the log speaks of, keeps track. */
  lemma MovedTracks(s: Session, t: Session, log: seq<Event>)
    requires Tracks(s, log)
    requires t.pending == s.pending && t.throttle == s.throttle
    requires t.epoch.current > s.epoch.current
             || (t.epoch.current == s.epoch.current && t.epoch.latestNavigation == s.epoch.latestNavigation)
    ensures Tracks(t, log)
  {
    hide Since;
    forall e | e in Since(log) && e.Issued? ensures Remembers(t, Since(log), e) {
      assert Remembers(s, Since(log), e);
    }
  }

  lemma ResolveTracks(s: Session, t: Session, log: seq<Event>, expected: Capture)
    requires Good(log) && Tracks(s, log) && Owns(s, expected)
    requires t.pending.None? && t.throttle == s.throttle && t.epoch == s.epoch
    ensures var more := log + [Resolved(expected, s.epoch.current)];
            Good(more) && Tracks(t, more)
  {
    hide Since, Good, ResolvedIn;
    var event := Resolved(expected, s.epoch.current);
    SinceMore(log, event);
    GoodMore(log, event);
    var since := Since(log + [event]);
    forall e | e in since && e.Issued? ensures Remembers(t, since, e) {
      assert Remembers(s, Since(log), e);
      ResolvedMore(Since(log), event, e.capture.requestId);
    }
  }

  /** Nothing that is remembered stands in the way of a request the session allows. */
  lemma RequestFollows(s: Session, log: seq<Event>, seen: Seen, now: Time, id: nat)
    requires Tracks(s, log) && IdsBelow(log, id) && MayRequest(s, seen, now)
    ensures Follows(log, Issued(Capture(id, seen.frameEpoch, seen.navigationEpoch), now))
  {
    hide Since, ResolvedIn, IdsBelow;
    var capture := Capture(id, seen.frameEpoch, seen.navigationEpoch);
    forall e | e in Since(log) && e.Issued? ensures LeavesRoom(Since(log), e, capture, now) {
      assert Remembers(s, Since(log), e);
    }
  }

  lemma RequestTracks(s: Session, log: seq<Event>, seen: Seen, now: Time, id: nat)
    requires Good(log) && Tracks(s, log) && IdsBelow(log, id) && MayRequest(s, seen, now)
    ensures var more := log + [Issued(Capture(id, seen.frameEpoch, seen.navigationEpoch), now)];
            Good(more) && Tracks(Requested(s, seen, now, id), more)
  {
    hide Since, Good, ResolvedIn;
    var capture := Capture(id, seen.frameEpoch, seen.navigationEpoch);
    var event := Issued(capture, now);
    var t := Requested(s, seen, now, id);
    RequestFollows(s, log, seen, now, id);
    GoodMore(log, event);
    SinceMore(log, event);
    IssuedMore(Since(log), event, capture);
    ResolvedMore(log, event, id);
    NotYetResolved(log, id);
    var since := Since(log + [event]);
    forall e | e in since && e.Issued? ensures Remembers(t, since, e) {
      if e != event {
        assert e in Since(log) && Remembers(s, Since(log), e) && LeavesRoom(Since(log), e, capture, now);
        ResolvedMore(Since(log), event, e.capture.requestId);
      }
    }
  }

  lemma NotYetResolved(log: seq<Event>, id: nat)
    requires IdsBelow(log, id)
    ensures !ResolvedIn(log, id)
  {
  }

  // ----- Every step keeps the invariant -----

  lemma RequestStepKeeps(w: World, s: Session, seen: Seen)
    requires Invariant(w) && w.slot == Some(s)
    ensures Invariant(RequestStep(w, s, seen))
  {
    hide Good, Tracks, IdsBelow;
    if MayRequest(s, seen, w.clock) {
      RequestTracks(s, w.log, seen, w.clock, w.nextId);
      IdsRise(w.log, w.nextId);
      IdsMore(w.log, Issued(Capture(w.nextId, seen.frameEpoch, seen.navigationEpoch), w.clock), w.nextId + 1);
    }
  }

  lemma IdsRise(log: seq<Event>, id: nat)
    requires IdsBelow(log, id)
    ensures IdsBelow(log, id + 1)
  {
  }

  lemma DeliverStepKeeps(w: World, held: Held, payload: Option<Frame>)
    requires Invariant(w)
    ensures Invariant(DeliverStep(w, held, payload))
  {
    hide Good, Tracks, IdsBelow;
    if w.slot.Some? {
      ResetTracks(Reopened(w.slot.value), w.log);
      IdsMore(w.log, Reset, w.nextId);
    }
  }

  lemma ReaderStepKeeps(w: World, action: Action)
    requires Invariant(w)
    ensures Invariant(ReaderStep(w, action))
  {
    hide Good, Tracks, IdsBelow;
    IdsRise(w.log, w.nextId);
    if w.slot.Some? {
      match action
      case Navigation(_, frameId, loaderId) =>
        MovedTracks(w.slot.value, Navigated(w.slot.value, frameId, loaderId), w.log);
      case SameDocument(_, _) => MovedTracks(w.slot.value, NavigatedWithin(w.slot.value), w.log);
      case _ =>
    }
  }

  lemma PendingIsNumbered(s: Session, log: seq<Event>, id: nat)
    requires Tracks(s, log) && IdsBelow(log, id) && s.pending.Some?
    ensures s.pending.value.requestId < id
  {
    SinceWithin(log);
  }

  lemma {:induction false} SinceWithin(log: seq<Event>)
    ensures forall e :: e in Since(log) ==> e in log
  {
    if log != [] {
      SinceWithin(log[..|log| - 1]);
    }
  }

  /** Resolving a pending request keeps the invariant, whatever else of the session changes. */
  lemma ResolveStepKeeps(w: World, expected: Capture, after: Session)
    requires Invariant(w) && w.slot.Some? && Owns(w.slot.value, expected)
    requires after.pending.None? && after.throttle == w.slot.value.throttle && after.epoch == w.slot.value.epoch
    ensures Invariant(ResolveStep(w, expected, after))
  {
    hide Good, Tracks, IdsBelow;
    ResolveTracks(w.slot.value, after, w.log, expected);
    PendingIsNumbered(w.slot.value, w.log, w.nextId);
    IdsMore(w.log, Resolved(expected, w.slot.value.epoch.current), w.nextId);
  }

  lemma CallerStepKeeps(w: World, s: Session, action: Action)
    requires Invariant(w) && w.slot == Some(s)
    ensures Invariant(CallerStep(w, s, action))
  {
    hide Good, Tracks, IdsBelow;
    match action
    case AdvanceEpoch => MovedTracks(s, s.(epoch := Advance(s.epoch)), w.log);
    case StartBarrier(_, _, barrier) =>
      ResetTracks(Reopened(s).(barrier := Some(barrier)), w.log);
      IdsMore(w.log, Reset, w.nextId);
    case CommitSnapshot(_, _, frameId, loader) =>
      MovedTracks(s, s.(mainFrame := Some(frameId), mainLoader := Some(loader)), w.log);
    case Cancel(expected) =>
      if Owns(s, expected) {
        ResolveStepKeeps(w, expected, Cancelled(s));
      }
    case Suppress(expected) =>
      if Owns(s, expected) {
        ResolveStepKeeps(w, expected, Suppressed(s));
      }
    case _ =>
  }

  lemma SettleEndKeeps(w: World, call: nat, clockAnswer: Option<real>)
    requires Invariant(w)
    ensures Invariant(SettleEndStep(w, call, clockAnswer))
  {
    hide Good, Tracks, IdsBelow;
    if call < |w.settling| && w.slot.Some? && Owns(w.slot.value, w.settling[call].expected) {
      var (s, expected) := (w.slot.value, w.settling[call].expected);
      var left := w.(settling := w.settling[..call] + w.settling[call + 1..]);
      ResolveStepKeeps(left, expected, Cancelled(s));
      if w.settling[call].asksClock && clockAnswer.Some? {
        var more := w.log + [Resolved(expected, s.epoch.current)];
        ResetTracks(Settled(s, Some(Timestamp(clockAnswer.value))), more);
        IdsMore(more, Reset, w.nextId);
      }
    }
  }

  lemma StepKeeps(w: World, action: Action)
    requires Invariant(w)
    ensures Invariant(Step(w, action))
  {
    hide Good, Tracks, IdsBelow, RequestStep, DeliverStep, ReaderStep, CallerStep, SettleEndStep;
    match action
    case Register(arc, epochs) =>
      ResetTracks(Session(arc, epochs, None, None, None, None, None, None, None), w.log);
      IdsMore(w.log, Reset, w.nextId);
    case SettleEnd(call, clockAnswer) => SettleEndKeeps(w, call, clockAnswer);
    case ActOnFrame(payload) =>
      if w.held.Some? {
        DeliverStepKeeps(w.(held := None), w.held.value, payload);
        if w.slot.Some? {
          RequestStepKeeps(w.(held := None), w.slot.value, w.held.value.seen);
        }
      }
    case _ =>
      ReaderStepKeeps(w, action);
      if w.slot.Some? {
        CallerStepKeeps(w, w.slot.value, action);
      }
  }

  lemma {:induction false} EveryWorldIsSound(start: World, actions: seq<Action>)
    requires Initial(start)
    ensures Invariant(After(start, actions))
  {
    if actions != [] {
      EveryWorldIsSound(start, actions[..|actions| - 1]);
      StepKeeps(After(start, actions[..|actions| - 1]), actions[|actions| - 1]);
    }
  }

  // ----- What a good log says about two of its entries -----

  lemma {:induction false} GoodAt(log: seq<Event>, j: nat)
    requires Good(log) && j < |log|
    ensures Good(log[..j]) && Follows(log[..j], log[j])
  {
    hide Follows;
    if j < |log| - 1 {
      GoodAt(log[..|log| - 1], j);
      assert log[..|log| - 1][..j] == log[..j];
    }
  }

  ghost predicate NoReset(log: seq<Event>, from: nat, to: nat)
    requires to <= |log|
  {
    forall k :: from <= k < to ==> !log[k].Reset?
  }

  lemma {:induction false} IndexSince(log: seq<Event>, i: nat)
    requires i < |log| && NoReset(log, i, |log|)
    ensures log[i] in Since(log)
  {
    if i < |log| - 1 {
      IndexSince(log[..|log| - 1], i);
    }
  }

  lemma {:induction false} SinceIndex(log: seq<Event>, event: Event) returns (i: nat)
    requires event in Since(log)
    ensures i < |log| && log[i] == event && NoReset(log, i, |log|)
  {
    var last := |log| - 1;
    if event in Since(log[..last]) {
      i := SinceIndex(log[..last], event);
    } else {
      i := last;
    }
  }

  lemma IdsAreUnique(log: seq<Event>, i: nat, j: nat)
    requires Good(log) && i < j < |log| && log[i].Issued? && log[j].Issued?
    ensures log[i].capture.requestId < log[j].capture.requestId
  {
    GoodAt(log, j);
    assert log[i] in log[..j] by { assert log[..j][i] == log[i]; }
  }

  ghost predicate IssuedAt(log: seq<Event>, i: nat, capture: Capture)
    requires i < |log|
  {
    log[i].Issued? && log[i].capture == capture
  }

  /** Where a resolved request was issued. */
  lemma ResolvedAfterIssue(log: seq<Event>, j: nat) returns (i: nat)
    requires Good(log) && j < |log| && log[j].Resolved?
    ensures i < j && IssuedAt(log, i, log[j].capture) && NoReset(log, i, j)
  {
    hide Good, Since;
    GoodAt(log, j);
    var e :| e in Since(log[..j]) && e.Issued? && e.capture == log[j].capture;
    i := SinceIndex(log[..j], e);
    assert forall k :: 0 <= k < j ==> log[..j][k] == log[k];
  }

  /** Main result: in every interleaving, a request is resolved at most once, in the frame epoch it was issued for, and
      only while the session has not been reset since it was issued. */
  lemma {:induction false} ResolvedAtMostOnceInItsEpoch(start: World, actions: seq<Action>, j: nat)
    requires Initial(start) && j < |After(start, actions).log| && After(start, actions).log[j].Resolved?
    ensures var (log, done) := (After(start, actions).log, After(start, actions).log[j]);
            && done.epoch == done.capture.frameEpoch
            && (exists i :: 0 <= i < j && IssuedAt(log, i, done.capture) && NoReset(log, i, j))
            && forall k :: 0 <= k < |log| && k != j && log[k].Resolved? ==>
                 log[k].capture.requestId != done.capture.requestId
  {
    hide After, Good, Since;
    EveryWorldIsSound(start, actions);
    var log := After(start, actions).log;
    GoodAt(log, j);
    var i := ResolvedAfterIssue(log, j);
    forall k | 0 <= k < |log| && k != j && log[k].Resolved?
      ensures log[k].capture.requestId != log[j].capture.requestId
    {
      var (first, second) := (Min(j, k), Max(j, k));
      GoodAt(log, second);
      assert log[..second][first] == log[first];
    }
  }

  /** Main result: two requests of one frame epoch, with no reset between them, belong to one navigation epoch, the
      first was resolved before the second was issued, and they are at least a second apart. */
  lemma {:induction false} RequestsOfOneEpoch(start: World, actions: seq<Action>, i: nat, j: nat)
    requires Initial(start) && i < j < |After(start, actions).log|
    requires var log := After(start, actions).log;
             && log[i].Issued? && log[j].Issued? && NoReset(log, i, j)
             && log[i].capture.frameEpoch == log[j].capture.frameEpoch
    ensures var log := After(start, actions).log;
            && log[i].capture.navigationEpoch == log[j].capture.navigationEpoch
            && log[i].at + CAPTURE_INTERVAL <= log[j].at
            && exists k :: i < k < j && log[k].Resolved? && log[k].capture == log[i].capture
  {
    hide After, Good, Since;
    EveryWorldIsSound(start, actions);
    var log := After(start, actions).log;
    var before := log[..j];
    GoodAt(log, j);
    IndexSince(before, i);
    assert LeavesRoom(Since(before), log[i], log[j].capture, log[j].at);
    var e :| e in Since(before) && e.Resolved? && e.capture.requestId == log[i].capture.requestId;
    var k := SinceIndex(before, e);
    var issue := ResolvedAfterIssue(log, k);
    if issue != i {
      IdsAreUnique(log, Min(i, issue), Max(i, issue));
    }
  }
}
