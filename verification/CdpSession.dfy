/**
 * One browser session's frame state (client.rs:40-113, 287-325) and its transitions under the session lock: frame
 * ingress, navigation, capture restart, and the calls that resolve a recovery request.
 */
module CdpSession {
  import opened Prelude
  import opened CdpEvents

  /** `TIMESTAMPLESS_CAPTURE_INTERVAL`, in milliseconds. */
  const CAPTURE_INTERVAL: nat := 1000

  type Time = nat

  datatype Epochs = Epochs(current: nat, latestNavigation: nat, latestSameDocument: nat)
  datatype Barrier = Timestamp(minimum: real) | LoaderVerified
  datatype Capture = Capture(requestId: nat, frameEpoch: nat, navigationEpoch: nat)
  datatype Throttle = Throttle(frameEpoch: nat, navigationEpoch: nat, retryAt: Time)
  datatype Document = Document(frameId: string, loaderId: string, navigationEpoch: nat)

  /** `arc` identifies the shared epoch object; `epoch` is what it holds. */
  datatype Session = Session(
    arc: nat,
    epoch: Epochs,
    mainFrame: Option<string>,
    mainLoader: Option<string>,
    document: Option<Document>,
    barrier: Option<Barrier>,
    pending: Option<Capture>,
    throttle: Option<Throttle>,
    suppressed: Option<nat>)

  // ----- Epochs -----

  function Advance(e: Epochs): Epochs {
    e.(current := e.current + 1)
  }

  function AdvanceNavigation(e: Epochs): Epochs {
    e.(current := e.current + 1, latestNavigation := e.current + 1)
  }

  function AdvanceSameDocument(e: Epochs): Epochs {
    e.(current := e.current + 1, latestSameDocument := e.current + 1)
  }

  // ----- Frame ingress -----

  /** What the reader copies out of the session, before it lets go of the lock. */
  datatype Seen = Seen(frameEpoch: nat, navigationEpoch: nat, barrier: Option<Barrier>, suppressed: Option<nat>)

  function Observe(slot: Option<Session>): Seen {
    match slot
    case None => Seen(0, 0, None, None)
    case Some(s) => Seen(s.epoch.current, s.epoch.latestNavigation, s.barrier, s.suppressed)
  }

  datatype Verdict = Drop | Verify | Deliver

  /** Frames older than the barrier are dropped; frames whose age is unknown need a loader-verified capture. */
  function Judge(seen: Seen, timestamp: Option<real>): Verdict {
    match seen.barrier
    case None => Deliver
    case Some(LoaderVerified) => if seen.suppressed == Some(seen.frameEpoch) then Drop else Verify
    case Some(Timestamp(minimum)) =>
      if timestamp.Some? then if timestamp.value < minimum then Drop else Deliver
      else if seen.suppressed == Some(seen.frameEpoch) then Drop
      else Verify
  }

  /** Whether a capture may be requested now for the frame that was seen. */
  predicate MayRequest(s: Session, seen: Seen, now: Time) {
    && s.epoch.current == seen.frameEpoch
    && s.epoch.latestNavigation == seen.navigationEpoch
    && s.suppressed != Some(seen.frameEpoch)
    && !(s.pending.Some? && s.pending.value.frameEpoch == seen.frameEpoch
         && s.pending.value.navigationEpoch == seen.navigationEpoch)
    && !(s.throttle.Some? && s.throttle.value.frameEpoch == seen.frameEpoch
         && s.throttle.value.navigationEpoch == seen.navigationEpoch && now < s.throttle.value.retryAt)
    && s.mainFrame.Some? && s.mainLoader.Some?
  }

  function Requested(s: Session, seen: Seen, now: Time, id: nat): Session {
    s.(pending := Some(Capture(id, seen.frameEpoch, seen.navigationEpoch)),
       throttle := Some(Throttle(seen.frameEpoch, seen.navigationEpoch, now + CAPTURE_INTERVAL)))
  }

  function RequestEvent(session: string, s: Session, seen: Seen, id: nat): CdpEvent
    requires s.mainFrame.Some? && s.mainLoader.Some?
  {
    CaptureRequested(session, s.mainFrame.value, s.mainLoader.value, id, seen.frameEpoch, seen.navigationEpoch)
  }

  /** A timestamped frame or a restart gives up the outstanding request and its limits. */
  function Reopened(s: Session): Session {
    s.(pending := None, throttle := None, suppressed := None)
  }

  // ----- Navigation -----

  function Navigated(s: Session, frameId: string, loaderId: Option<string>): Session {
    var epoch := AdvanceNavigation(s.epoch);
    s.(epoch := epoch, mainFrame := Some(frameId), mainLoader := loaderId,
       document := if loaderId.Some? then Some(Document(frameId, loaderId.value, epoch.current)) else None)
  }

  predicate MayNavigateWithin(s: Session, frameId: string) {
    s.mainFrame == Some(frameId) && s.mainLoader.Some?
  }

  function NavigatedWithin(s: Session): Session {
    s.(epoch := AdvanceSameDocument(s.epoch))
  }

  // ----- Resolving a request -----

  predicate Owns(s: Session, expected: Capture) {
    s.epoch.current == expected.frameEpoch && s.pending == Some(expected)
  }

  /** The second locked half of settling; a recovered clock reopens timestamp admission. */
  function Settled(s: Session, recovered: Option<Barrier>): Session {
    if recovered.Some? then Reopened(s).(barrier := recovered) else s.(pending := None)
  }

  function Cancelled(s: Session): Session {
    s.(pending := None)
  }

  function Suppressed(s: Session): Session {
    s.(pending := None, suppressed := Some(s.epoch.current))
  }

  // ----- The session as the program keeps it -----

  class FrameEpoch {
    var current: nat
    var latestNavigation: nat
    var latestSameDocument: nat

    function View(): Epochs
      reads this
    {
      Epochs(current, latestNavigation, latestSameDocument)
    }

    constructor ()
      ensures View() == Epochs(0, 0, 0)
    {
      current, latestNavigation, latestSameDocument := 0, 0, 0;
    }

    method AdvanceNow() returns (epoch: nat)
      modifies this
      ensures View() == Advance(old(View())) && epoch == current > old(current)
    {
      current := current + 1;
      epoch := current;
    }

    method AdvanceForNavigation() returns (epoch: nat)
      modifies this
      ensures View() == AdvanceNavigation(old(View())) && epoch == current == latestNavigation > old(current)
    {
      current := current + 1;
      epoch := current;
      latestNavigation := epoch;
    }

    method AdvanceForSameDocument() returns (epoch: nat)
      modifies this
      ensures View() == AdvanceSameDocument(old(View())) && epoch == current == latestSameDocument > old(current)
    {
      current := current + 1;
      epoch := current;
      latestSameDocument := epoch;
    }
  }

  class FrameSession {
    const epoch: FrameEpoch
    ghost const arc: nat
    var mainFrame: Option<string>
    var mainLoader: Option<string>
    var document: Option<Document>
    var barrier: Option<Barrier>
    var pending: Option<Capture>
    var throttle: Option<Throttle>
    var suppressed: Option<nat>

    ghost function View(): Session
      reads this, epoch
    {
      Session(arc, epoch.View(), mainFrame, mainLoader, document, barrier, pending, throttle, suppressed)
    }

    constructor (epoch: FrameEpoch, ghost arc: nat)
      ensures this.epoch == epoch
      ensures View() == Session(arc, epoch.View(), None, None, None, None, None, None, None)
    {
      this.epoch, this.arc := epoch, arc;
      mainFrame, mainLoader, document, barrier := None, None, None, None;
      pending, throttle, suppressed := None, None, None;
    }

    /** Frame ingress, second half: requests a capture unless something speaks against it. */
    method RequestCapture(session: string, seen: Seen, now: Time, nextId: nat) returns (event: Option<CdpEvent>)
      modifies this
      ensures View() == if old(MayRequest(View(), seen, now)) then old(Requested(View(), seen, now, nextId))
                        else old(View())
      ensures event == if old(MayRequest(View(), seen, now)) then Some(RequestEvent(session, old(View()), seen, nextId))
                       else None
    {
      if epoch.current != seen.frameEpoch
        || epoch.latestNavigation != seen.navigationEpoch
        || suppressed == Some(seen.frameEpoch)
        || (pending.Some? && pending.value.frameEpoch == seen.frameEpoch
            && pending.value.navigationEpoch == seen.navigationEpoch)
        || (throttle.Some? && throttle.value.frameEpoch == seen.frameEpoch
            && throttle.value.navigationEpoch == seen.navigationEpoch && now < throttle.value.retryAt)
      {
        return None;
      }
      if mainFrame.None? || mainLoader.None? {
        return None;
      }
      pending := Some(Capture(nextId, seen.frameEpoch, seen.navigationEpoch));
      throttle := Some(Throttle(seen.frameEpoch, seen.navigationEpoch, now + CAPTURE_INTERVAL));
      return Some(CaptureRequested(session, mainFrame.value, mainLoader.value, nextId, seen.frameEpoch,
                                   seen.navigationEpoch));
    }

    method AcceptTimestamped(frameEpoch: nat)
      modifies this
      ensures View() == if old(View()).epoch.current == frameEpoch then Reopened(old(View())) else old(View())
      ensures old(View()).epoch.current == frameEpoch ==>
                View() == old(View()).(pending := None, throttle := None, suppressed := None)
    {
      if epoch.current == frameEpoch {
        pending, throttle, suppressed := None, None, None;
      }
    }

    method Navigate(frameId: string, loaderId: Option<string>) returns (navigationEpoch: nat)
      modifies this, epoch
      ensures View() == Navigated(old(View()), frameId, loaderId)
      ensures View() == old(View()).(
                          epoch := Epochs(navigationEpoch, navigationEpoch, old(View()).epoch.latestSameDocument),
                          mainFrame := Some(frameId), mainLoader := loaderId,
                          document := if loaderId.None? then None
                                      else Some(Document(frameId, loaderId.value, navigationEpoch)))
      ensures navigationEpoch == View().epoch.current == View().epoch.latestNavigation > old(View()).epoch.current
    {
      navigationEpoch := epoch.AdvanceForNavigation();
      mainFrame := Some(frameId);
      mainLoader := loaderId;
      document := if loaderId.Some? then Some(Document(frameId, loaderId.value, navigationEpoch)) else None;
    }

    method NavigateWithin(frameId: string) returns (moved: Option<(string, nat)>)
      modifies epoch
      ensures View() == if old(MayNavigateWithin(View(), frameId)) then old(NavigatedWithin(View())) else old(View())
      ensures moved == if old(MayNavigateWithin(View(), frameId)) then Some((mainLoader.value, View().epoch.current))
                       else None
      ensures moved.Some? <==> mainFrame == Some(frameId) && mainLoader.Some?
      ensures moved.Some? ==>
                var next := old(View()).epoch.current + 1;
                View() == old(View()).(epoch := Epochs(next, old(View()).epoch.latestNavigation, next))
    {
      if mainFrame != Some(frameId) || mainLoader.None? {
        return None;
      }
      var frameEpoch := epoch.AdvanceForSameDocument();
      return Some((mainLoader.value, frameEpoch));
    }

    /** Restarting capture: refused when the epoch object or the main frame is no longer the one that was read. */
    method StartBarrier(readEpoch: FrameEpoch, readFrame: string, newBarrier: Barrier) returns (ok: bool)
      modifies this
      ensures ok <==> readEpoch == epoch && old(mainFrame) == Some(readFrame)
      ensures View() == if ok then Reopened(old(View())).(barrier := Some(newBarrier)) else old(View())
      ensures ok ==> View() == old(View()).(barrier := Some(newBarrier), pending := None, throttle := None,
                                            suppressed := None)
    {
      if readEpoch != epoch || mainFrame != Some(readFrame) {
        return false;
      }
      barrier := Some(newBarrier);
      pending, throttle, suppressed := None, None, None;
      return true;
    }

    method CommitSnapshot(readEpoch: FrameEpoch, observed: nat, frameId: string, loaderId: string) returns (ok: bool)
      modifies this
      ensures ok <==> readEpoch == epoch && old(View()).epoch.current == observed
      ensures View() == if ok then old(View()).(mainFrame := Some(frameId), mainLoader := Some(loaderId))
                        else old(View())
    {
      if readEpoch != epoch || epoch.current != observed {
        return false;
      }
      mainFrame := Some(frameId);
      mainLoader := Some(loaderId);
      return true;
    }

    /** Settling, first half: whose clock to ask, if anyone's, before the second half. */
    method MaySettle(expected: Capture) returns (ok: bool, clockOf: Option<string>)
      ensures ok <==> Owns(View(), expected)
      ensures clockOf == if ok && barrier == Some(LoaderVerified) then mainFrame else None
    {
      ok := epoch.current == expected.frameEpoch && pending == Some(expected);
      clockOf := if ok && barrier == Some(LoaderVerified) then mainFrame else None;
    }

    method Settle(expected: Capture, recovered: Option<Barrier>) returns (ok: bool)
      modifies this
      ensures ok <==> Owns(old(View()), expected)
      ensures View() == if ok then Settled(old(View()), recovered) else old(View())
      ensures ok <==> old(View()).epoch.current == expected.frameEpoch && old(pending) == Some(expected)
      ensures ok ==>
                View() == if recovered.None? then old(View()).(pending := None)
                          else old(View()).(pending := None, throttle := None, suppressed := None, barrier := recovered)
    {
      if epoch.current != expected.frameEpoch || pending != Some(expected) {
        return false;
      }
      pending := None;
      if recovered.Some? {
        barrier := recovered;
        throttle, suppressed := None, None;
      }
      return true;
    }

    method Cancel(expected: Capture) returns (ok: bool)
      modifies this
      ensures ok <==> Owns(old(View()), expected)
      ensures View() == if ok then Cancelled(old(View())) else old(View())
      ensures ok ==> View() == old(View()).(pending := None)
    {
      if epoch.current != expected.frameEpoch || pending != Some(expected) {
        return false;
      }
      pending := None;
      return true;
    }

    method Suppress(expected: Capture) returns (ok: bool)
      modifies this
      ensures ok <==> Owns(old(View()), expected)
      ensures View() == if ok then Suppressed(old(View())) else old(View())
      ensures ok ==> View() == old(View()).(pending := None, suppressed := Some(expected.frameEpoch))
    {
      if epoch.current != expected.frameEpoch || pending != Some(expected) {
        return false;
      }
      pending := None;
      suppressed := Some(expected.frameEpoch);
      return true;
    }
  }
}
