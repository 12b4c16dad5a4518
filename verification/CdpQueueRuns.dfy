/** Whole runs of the ingress queue: pushes by the reader, drains into the output channel, closing (client.rs:354-425,
    1727-1731). */
module CdpQueueRuns {
  import opened Prelude
  import opened CdpEvents
  import opened CdpQueue

  /** `Dispatch` closes the queue when it is refused; `Drain` meets a connected channel with some free places. */
  datatype Op = Dispatch(event: CdpEvent) | Drain(room: nat) | CloseNow(reason: string)

  datatype Run = Run(queue: seq<QueuedEvent>, closed: bool, accepted: seq<CdpEvent>, delivered: seq<CdpEvent>)

  function CloseStep(run: Run, reason: string): Run {
    if run.closed then run else run.(queue := [Charged(Closed(reason))], closed := true)
  }

  function Step(run: Run, op: Op): Run {
    match op
    case Dispatch(event) =>
      if run.closed || !Fits(run.queue, event) then CloseStep(run, "CDP event queue overflow")
      else run.(queue := Pushed(run.queue, event), accepted := run.accepted + [event])
    case Drain(room) =>
      var sent := Min(room, |run.queue|);
      run.(queue := run.queue[sent..], delivered := run.delivered + EventsOf(run.queue[..sent]))
    case CloseNow(reason) => CloseStep(run, reason)
  }

  function After(ops: seq<Op>): Run {
    if ops == [] then Run([], false, [], [])
    else Step(After(ops[..|ops| - 1]), ops[|ops| - 1])
  }

  /** Everything delivered, then everything still queued. */
  function History(run: Run): seq<CdpEvent> {
    run.delivered + EventsOf(run.queue)
  }

  // ----- Limits -----

  lemma {:induction false} DropSound(events: seq<QueuedEvent>, n: nat)
    requires Sound(events) && n <= |events|
    ensures Sound(events[n..])
  {
    if n > 0 {
      TailSound(events);
      DropSound(events[1..], n - 1);
      assert events[1..][n - 1..] == events[n..];
    }
  }

  /** Until it closes, the queue keeps both limits, exact cached sizes and one event per replaceable key. */
  lemma {:induction false} QueueStaysSound(ops: seq<Op>)
    ensures !After(ops).closed ==> Sound(After(ops).queue)
  {
    if ops != [] {
      var before := After(ops[..|ops| - 1]);
      QueueStaysSound(ops[..|ops| - 1]);
      match ops[|ops| - 1]
      case Dispatch(event) =>
        if !before.closed {
          PushSound(before.queue, event);
        }
      case Drain(room) =>
        if !before.closed {
          DropSound(before.queue, Min(room, |before.queue|));
        }
      case CloseNow(_) =>
    }
  }

  /** In every run, until the queue closes, the unbounded estimates of what is pending stay within the budget: no
      saturation hides a larger queue. */
  lemma EstimatesStayWithinBudget(ops: seq<Op>)
    requires !After(ops).closed
    ensures EstimateTotal(After(ops).queue) <= EVENT_QUEUE_MAX_BYTES
  {
    QueueStaysSound(ops);
    ChargesAreEstimates(After(ops).queue);
  }

  // ----- Draining conserves the history -----

  lemma {:induction false} EventsOfJoin(s: seq<QueuedEvent>, t: seq<QueuedEvent>)
    ensures EventsOf(s + t) == EventsOf(s) + EventsOf(t)
  {
    if t == [] {
      assert s + t == s;
    } else {
      EventsOfJoin(s, t[..|t| - 1]);
      assert (s + t)[..|s + t| - 1] == s + t[..|t| - 1];
    }
  }

  lemma DrainKeepsHistory(run: Run, room: nat)
    ensures History(Step(run, Drain(room))) == History(run)
  {
    hide EventsOf;
    var sent := Min(room, |run.queue|);
    EventsOfJoin(run.queue[..sent], run.queue[sent..]);
    assert run.queue[..sent] + run.queue[sent..] == run.queue;
  }

  /** What an accepted event does to the history. */
  lemma DispatchedHistory(run: Run, event: CdpEvent)
    requires !run.closed && Fits(run.queue, event)
    ensures History(Step(run, Dispatch(event)))
            == run.delivered + EventsOf(Others(run.queue, event)) + [event]
  {
    hide Others, Fits, EventsOf;
    EventsOfMore(Others(run.queue, event), Charged(event));
  }

  // ----- Nothing but replaced events is ever lost -----

  /** The events with one key; `None` selects the events that are never replaced. */
  function Only(events: seq<CdpEvent>, key: Option<ReplaceKey>): seq<CdpEvent> {
    if events == [] then []
    else
      var last := events[|events| - 1];
      Only(events[..|events| - 1], key) + (if KeyOf(last) == key then [last] else [])
  }

  lemma OnlyMore(events: seq<CdpEvent>, event: CdpEvent, key: Option<ReplaceKey>)
    ensures Only(events + [event], key) == Only(events, key) + (if KeyOf(event) == key then [event] else [])
  {
    assert (events + [event])[..|events|] == events;
  }

  lemma {:induction false} OnlyJoin(s: seq<CdpEvent>, t: seq<CdpEvent>, key: Option<ReplaceKey>)
    ensures Only(s + t, key) == Only(s, key) + Only(t, key)
  {
    if t == [] {
      assert s + t == s;
    } else {
      OnlyJoin(s, t[..|t| - 1], key);
      assert (s + t)[..|s + t| - 1] == s + t[..|t| - 1];
    }
  }

  lemma {:induction false} OnlyOthers(queue: seq<QueuedEvent>, event: CdpEvent, key: Option<ReplaceKey>)
    ensures Only(EventsOf(Others(queue, event)), key)
            == if key.Some? && KeyOf(event) == key then [] else Only(EventsOf(queue), key)
  {
    hide SameReplaceable, KeyOf;
    if queue != [] {
      var (before, last) := (queue[..|queue| - 1], queue[|queue| - 1]);
      OnlyOthers(before, event, key);
      ReplacesIffSameKey(last.event, event);
      OnlyMore(EventsOf(before), last.event, key);
      EventsOfMore(Others(before, event), last);
      OnlyMore(EventsOf(Others(before, event)), last.event, key);
      assert Others(before, event) + [] == Others(before, event);
    }
  }

  /** Events that are never replaced are all there; of each key the latest is there. */
  ghost predicate Complete(history: seq<CdpEvent>, accepted: seq<CdpEvent>, key: Option<ReplaceKey>) {
    var (kept, pushed) := (Only(history, key), Only(accepted, key));
    if key.None? then kept == pushed
    else (kept == [] <==> pushed == []) && (kept != [] ==> kept[|kept| - 1] == pushed[|pushed| - 1])
  }

  lemma DispatchComplete(run: Run, event: CdpEvent, key: Option<ReplaceKey>)
    requires !run.closed && Fits(run.queue, event) && Complete(History(run), run.accepted, key)
    ensures Complete(History(Step(run, Dispatch(event))), run.accepted + [event], key)
  {
    hide Only, EventsOf, Others, Fits, KeyOf, Step;
    var others := EventsOf(Others(run.queue, event));
    DispatchedHistory(run, event);
    OnlyMore(run.accepted, event, key);
    OnlyMore(run.delivered + others, event, key);
    OnlyJoin(run.delivered, others, key);
    OnlyJoin(run.delivered, EventsOf(run.queue), key);
    OnlyOthers(run.queue, event, key);
  }

  /** Main result on content: while the queue is open, delivered and queued events together hold every accepted event
      that is never replaced, in push order, and the latest accepted event of every replaceable key. */
  lemma {:induction false} OnlyReplacedEventsAreLost(ops: seq<Op>, key: Option<ReplaceKey>)
    requires !After(ops).closed
    ensures Complete(History(After(ops)), After(ops).accepted, key)
  {
    if ops != [] {
      var before := After(ops[..|ops| - 1]);
      OnlyReplacedEventsAreLost(ops[..|ops| - 1], key);
      match ops[|ops| - 1]
      case Dispatch(event) => DispatchComplete(before, event, key);
      case Drain(room) => DrainKeepsHistory(before, room);
      case CloseNow(_) =>
    }
  }

  // ----- Order -----

  lemma {:induction false} OthersAreASubsequence(
      delivered: seq<CdpEvent>, queue: seq<QueuedEvent>, event: CdpEvent)
    ensures Subsequence(delivered + EventsOf(Others(queue, event)), delivered + EventsOf(queue))
  {
    hide SameReplaceable, Subsequence, EventsOf;
    if queue == [] {
      SubsequenceItself(delivered + EventsOf(queue));
    } else {
      var (before, last) := (queue[..|queue| - 1], queue[|queue| - 1]);
      var (rest, whole) := (Others(before, event), delivered + EventsOf(before));
      OthersAreASubsequence(delivered, before, event);
      SubsequenceMore(delivered + EventsOf(rest), whole, last.event);
      EventsOfMore(before, last);
      EventsOfMore(rest, last);
      assert before + [last] == queue && rest + [] == rest;
      assert whole + [last.event] == delivered + EventsOf(queue);
      assert delivered + EventsOf(rest) + [last.event] == delivered + EventsOf(rest + [last]);
    }
  }

  /** Main result on order: while the queue is open, delivered and queued events are a subsequence of the accepted
      ones, although a replacement moves to the back. */
  lemma {:induction false} HistoryIsASubsequence(ops: seq<Op>)
    requires !After(ops).closed
    ensures Subsequence(History(After(ops)), After(ops).accepted)
  {
    hide EventsOf, Others, Fits, Subsequence;
    if ops == [] {
      NothingYet();
      SubsequenceItself<CdpEvent>([]);
    } else {
      var before := After(ops[..|ops| - 1]);
      HistoryIsASubsequence(ops[..|ops| - 1]);
      match ops[|ops| - 1]
      case Dispatch(event) =>
        var rest := before.delivered + EventsOf(Others(before.queue, event));
        DispatchedHistory(before, event);
        OthersAreASubsequence(before.delivered, before.queue, event);
        SubsequenceOfSubsequence(rest, History(before), before.accepted);
        SubsequenceMore(rest, before.accepted, event);
      case Drain(room) => DrainKeepsHistory(before, room);
      case CloseNow(_) =>
    }
  }

  /** The frame generations a session's events carry, in order. */
  function Stamps(events: seq<CdpEvent>, session: string): seq<nat> {
    if events == [] then []
    else
      var stamp := StampOf(events[|events| - 1], session);
      Stamps(events[..|events| - 1], session) + (if stamp.Some? then [stamp.value] else [])
  }

  ghost predicate NeverDecreasing(stamps: seq<nat>) {
    forall i, j :: 0 <= i < j < |stamps| ==> stamps[i] <= stamps[j]
  }

  lemma {:induction false} StampsOfSubsequence(s: seq<CdpEvent>, t: seq<CdpEvent>, session: string)
    requires Subsequence(s, t)
    ensures Subsequence(Stamps(s, session), Stamps(t, session))
    decreases |t|
  {
    hide StampOf;
    if s != [] {
      var (s', t', stamp) := (s[..|s| - 1], t[..|t| - 1], StampOf(t[|t| - 1], session));
      assert Stamps(t', session) + [] == Stamps(t', session) && Stamps(s', session) + [] == Stamps(s', session);
      if Subsequence(s, t') {
        StampsOfSubsequence(s, t', session);
        if stamp.Some? {
          SubsequenceMore(Stamps(s, session), Stamps(t', session), stamp.value);
        }
      } else {
        StampsOfSubsequence(s', t', session);
        if stamp.Some? {
          SubsequenceMore(Stamps(s', session), Stamps(t', session), stamp.value);
        }
      }
    }
  }

  lemma {:induction false} SubsequenceNeverDecreases(s: seq<nat>, t: seq<nat>)
    requires Subsequence(s, t) && NeverDecreasing(t)
    ensures NeverDecreasing(s) && forall x :: x in s ==> x in t
    decreases |t|
  {
    if s != [] {
      var (s', t') := (s[..|s| - 1], t[..|t| - 1]);
      assert t == t' + [t[|t| - 1]] && s == s' + [s[|s| - 1]];
      if Subsequence(s, t') {
        SubsequenceNeverDecreases(s, t');
      } else {
        SubsequenceNeverDecreases(s', t');
        forall i | 0 <= i < |s'| ensures s[i] <= s[|s| - 1] {
          assert s'[i] in t';
        }
      }
    }
  }

  /** When a session's events are dispatched with stamps that never decrease, the stamps never decrease along what is
      delivered and queued either. */
  lemma StampsStayOrdered(ops: seq<Op>, session: string)
    requires !After(ops).closed && NeverDecreasing(Stamps(After(ops).accepted, session))
    ensures NeverDecreasing(Stamps(History(After(ops)), session))
  {
    HistoryIsASubsequence(ops);
    StampsOfSubsequence(History(After(ops)), After(ops).accepted, session);
    SubsequenceNeverDecreases(Stamps(History(After(ops)), session), Stamps(After(ops).accepted, session));
  }
}
