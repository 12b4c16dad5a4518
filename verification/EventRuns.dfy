/** Whole runs of one subscriber's queue (event_bus.rs:217-366). */
module EventRuns {
  import opened Prelude
  import opened MuxEvents

  datatype Op = Push(event: MuxEvent) | Pop | Close

  /** The queue with what it accepted and delivered so far. */
  datatype Run = Run(box: Plain, accepted: seq<MuxEvent>, delivered: seq<MuxEvent>)

  function Step(run: Run, op: Op): Run {
    match op
    case Push(event) =>
      var pushed := PlainPush(run.box, event);
      Run(pushed.box, if pushed.accepted then run.accepted + [event] else run.accepted, run.delivered)
    case Pop =>
      if run.box.queue == [] then run
      else Run(PlainPop(run.box), run.accepted, run.delivered + [run.box.queue[0]])
    case Close => run.(box := run.box.(closed := true))
  }

  function After(ops: seq<Op>): Run {
    if ops == [] then Run(Plain([], false, false), [], [])
    else Step(After(ops[..|ops| - 1]), ops[|ops| - 1])
  }

  predicate WithoutEmpty(ops: seq<Op>) {
    forall i :: 0 <= i < |ops| ==> ops[i] != Push(Empty)
  }

  /** Everything delivered, then everything still pending. */
  function History(run: Run): seq<MuxEvent> {
    run.delivered + run.box.queue
  }

  // ----- Bound and uniqueness -----

  ghost predicate QueueSound(queue: seq<MuxEvent>) {
    && |queue| <= MAX_PENDING_EVENTS
    && forall key :: |Keep(queue, OfKey(key))| <= 1
  }

  lemma {:induction false} KeepNothingLost(queue: seq<MuxEvent>, selector: Selector)
    requires |Keep(queue, selector)| == |queue|
    ensures Keep(queue, selector) == queue
  {
    if queue != [] {
      KeepNothingLost(queue[..|queue| - 1], selector);
    }
  }

  lemma {:induction false} KeepShrinks(queue: seq<MuxEvent>, inner: Selector, outer: Selector)
    ensures |Keep(Keep(queue, inner), outer)| <= |Keep(queue, outer)|
  {
    if queue != [] {
      var last := |queue| - 1;
      KeepShrinks(queue[..last], inner, outer);
      if inner.Selects(queue[last]) {
        KeepMore(Keep(queue[..last], inner), queue[last], outer);
      } else {
        assert Keep(queue, inner) == Keep(queue[..last], inner);
      }
    }
  }

  lemma DroppedKeyIsGone(queue: seq<MuxEvent>, key: CoalescedKey)
    ensures Keep(Keep(queue, NotKey(key)), OfKey(key)) == []
  {
    KeepMembers(queue, NotKey(key));
    KeepNone(Keep(queue, NotKey(key)), OfKey(key));
  }

  /** A rejected push changes nothing pending. */
  lemma RejectedPushKeepsQueue(box: Plain, event: MuxEvent)
    requires |box.queue| <= MAX_PENDING_EVENTS && !PlainPush(box, event).accepted
    ensures PlainPush(box, event).box.queue == box.queue && PlainPush(box, event).box.closed
    ensures PlainPush(box, event).box.overflowed == (box.overflowed || !box.closed)
  {
    if event.SurfaceExited? && !box.closed {
      KeepNothingLost(box.queue, NotStateOf(event.surface));
    }
  }

  lemma AppendSound(queue: seq<MuxEvent>, event: MuxEvent)
    requires QueueSound(queue) && |queue| < MAX_PENDING_EVENTS
    requires KeyOf(event).Some? ==> Keep(queue, OfKey(KeyOf(event).value)) == []
    ensures QueueSound(queue + [event])
  {
    forall key ensures |Keep(queue + [event], OfKey(key))| <= 1 {
      KeepMore(queue, event, OfKey(key));
    }
  }

  lemma KeepSound(queue: seq<MuxEvent>, selector: Selector)
    requires QueueSound(queue)
    ensures QueueSound(Keep(queue, selector))
  {
    forall key ensures |Keep(Keep(queue, selector), OfKey(key))| <= 1 {
      KeepShrinks(queue, selector, OfKey(key));
    }
  }

  lemma EmptySound(queue: seq<MuxEvent>)
    ensures QueueSound(LastOf(Keep(queue, TerminalOnly), MAX_PENDING_EVENTS - 1) + [Empty])
  {
    var kept := LastOf(Keep(queue, TerminalOnly), MAX_PENDING_EVENTS - 1);
    KeepMembers(queue, TerminalOnly);
    assert forall e :: e in kept ==> e in Keep(queue, TerminalOnly);
    forall key ensures Keep(kept + [Empty], OfKey(key)) == [] {
      KeepNone(kept + [Empty], OfKey(key));
    }
  }

  lemma PushSound(box: Plain, event: MuxEvent)
    requires QueueSound(box.queue)
    ensures QueueSound(PlainPush(box, event).box.queue)
  {
    var key := KeyOf(event);
    if key.Some? {
      var others := Keep(box.queue, NotKey(key.value));
      DroppedKeyIsGone(box.queue, key.value);
      KeepSound(box.queue, NotKey(key.value));
      if |others| < |box.queue| {
        AppendSound(others, event);
      } else if |box.queue| < MAX_PENDING_EVENTS {
        KeepNothingLost(box.queue, NotKey(key.value));
        AppendSound(box.queue, event);
      }
    } else if event.SurfaceExited? {
      var others := Keep(box.queue, NotStateOf(event.surface));
      KeepSound(box.queue, NotStateOf(event.surface));
      if |others| < MAX_PENDING_EVENTS {
        AppendSound(others, event);
      }
    } else if event.Empty? {
      EmptySound(box.queue);
    } else if |box.queue| < MAX_PENDING_EVENTS {
      AppendSound(box.queue, event);
    }
  }

  /** In every run at most 4096 events are pending and each key occurs at most once. */
  lemma {:induction false} EveryQueueIsSound(ops: seq<Op>)
    ensures QueueSound(After(ops).box.queue)
  {
    if ops == [] {
      assert forall key :: Keep([], OfKey(key)) == [];
    } else {
      var before := After(ops[..|ops| - 1]);
      EveryQueueIsSound(ops[..|ops| - 1]);
      match ops[|ops| - 1]
      case Push(event) => PushSound(before.box, event);
      case Pop =>
        if before.box.queue != [] {
          var (head, rest) := (before.box.queue[0], before.box.queue[1..]);
          forall key ensures |Keep(rest, OfKey(key))| <= 1 {
            assert before.box.queue == [head] + rest;
            KeepAppend([head], rest, OfKey(key));
          }
        }
      case Close =>
    }
  }

  // ----- What a push does to the history -----

  /** What an accepted push leaves in front of the new event. */
  function Retained(queue: seq<MuxEvent>, event: MuxEvent): seq<MuxEvent> {
    if KeyOf(event).Some? then Keep(queue, NotKey(KeyOf(event).value))
    else if event.SurfaceExited? then Keep(queue, NotStateOf(event.surface))
    else queue
  }

  lemma PushedQueue(box: Plain, event: MuxEvent)
    requires event != Empty && |box.queue| <= MAX_PENDING_EVENTS
    ensures var pushed := PlainPush(box, event);
            pushed.box.queue == if pushed.accepted then Retained(box.queue, event) + [event] else box.queue
  {
    if !PlainPush(box, event).accepted {
      RejectedPushKeepsQueue(box, event);
    } else if KeyOf(event).Some? {
      var others := Keep(box.queue, NotKey(KeyOf(event).value));
      if |others| == |box.queue| {
        KeepNothingLost(box.queue, NotKey(KeyOf(event).value));
      }
    }
  }

  /** Ordinary events are never discarded by a push. */
  lemma RetainedOrdinary(queue: seq<MuxEvent>, event: MuxEvent)
    ensures Keep(Retained(queue, event), Uncoalesced) == Keep(queue, Uncoalesced)
  {
    if KeyOf(event).Some? {
      KeepWithin(queue, Uncoalesced, NotKey(KeyOf(event).value));
    } else if event.SurfaceExited? {
      KeepWithin(queue, Uncoalesced, NotStateOf(event.surface));
    }
  }

  /** A key's pending value goes when the key is pushed again or its surface exits, and only then. */
  lemma RetainedKey(queue: seq<MuxEvent>, event: MuxEvent, key: CoalescedKey)
    ensures Keep(Retained(queue, event), OfKey(key))
            == if KeyOf(event) == Some(key) || event == SurfaceExited(key.surface) then [] else Keep(queue, OfKey(key))
  {
    var own := KeyOf(event);
    if own.Some? {
      if own.value == key {
        DroppedKeyIsGone(queue, key);
      } else {
        KeepWithin(queue, OfKey(key), NotKey(own.value));
      }
    } else if event.SurfaceExited? {
      if event.surface == key.surface {
        KeepMembers(queue, NotStateOf(event.surface));
        KeepNone(Keep(queue, NotStateOf(event.surface)), OfKey(key));
      } else {
        KeepWithin(queue, OfKey(key), NotStateOf(event.surface));
      }
    }
  }

  /** Over any run without `Empty`, the accepted ordinary events are delivered exactly once, in push order. */
  lemma {:induction false} OrdinaryEventsAreConserved(ops: seq<Op>)
    requires WithoutEmpty(ops)
    ensures Keep(History(After(ops)), Uncoalesced) == Keep(After(ops).accepted, Uncoalesced)
  {
    if ops != [] {
      var earlier := ops[..|ops| - 1];
      OrdinaryEventsAreConserved(earlier);
      EveryQueueIsSound(earlier);
      match ops[|ops| - 1]
      case Push(event) => PushConserves(After(earlier), event);
      case Pop => PopKeepsHistory(After(earlier));
      case Close =>
    }
  }

  lemma PushConserves(run: Run, event: MuxEvent)
    requires event != Empty && |run.box.queue| <= MAX_PENDING_EVENTS
    requires Keep(History(run), Uncoalesced) == Keep(run.accepted, Uncoalesced)
    ensures Keep(History(Step(run, Push(event))), Uncoalesced) == Keep(Step(run, Push(event)).accepted, Uncoalesced)
  {
    hide Keep, PlainPush, Retained, KeyOf;
    PushedQueue(run.box, event);
    var retained := Retained(run.box.queue, event);
    KeepAppend(run.delivered, run.box.queue, Uncoalesced);
    KeepAppend(run.delivered, retained + [event], Uncoalesced);
    KeepMore(retained, event, Uncoalesced);
    RetainedOrdinary(run.box.queue, event);
    KeepMore(run.accepted, event, Uncoalesced);
  }

  lemma PopKeepsHistory(run: Run)
    ensures History(Step(run, Pop)) == History(run)
  {
  }

  // ----- Values of one key -----

  /** How one push changes the pending values of a key: untouched, dropped, or replaced by the new value. */
  lemma PushOnKey(box: Plain, event: MuxEvent, key: CoalescedKey)
    requires |box.queue| <= MAX_PENDING_EVENTS && event != Empty
    ensures var pushed := PlainPush(box, event);
            Keep(pushed.box.queue, OfKey(key))
            == if !pushed.accepted then Keep(box.queue, OfKey(key))
               else if KeyOf(event) == Some(key) then [event]
               else if event == SurfaceExited(key.surface) then []
               else Keep(box.queue, OfKey(key))
  {
    hide Keep, PlainPush, Retained, KeyOf;
    PushedQueue(box, event);
    RetainedKey(box.queue, event, key);
    KeepMore(Retained(box.queue, event), event, OfKey(key));
  }

  /** The values of a key seen so far: delivered ones, then the pending one if any. */
  function KeyHistory(run: Run, key: CoalescedKey): seq<MuxEvent> {
    Keep(run.delivered, OfKey(key)) + Keep(run.box.queue, OfKey(key))
  }

  lemma KeyHistoryPop(run: Run, key: CoalescedKey)
    ensures KeyHistory(Step(run, Pop), key) == KeyHistory(run, key)
  {
    hide Keep;
    if run.box.queue != [] {
      var (head, rest) := (run.box.queue[0], run.box.queue[1..]);
      assert run.box.queue == [head] + rest;
      KeepAppend([head], rest, OfKey(key));
      KeepAppend(run.delivered, [head], OfKey(key));
    }
  }

  /** Delivered and pending values of a key are a subsequence of the values pushed. */
  lemma {:induction false} KeyValuesAreASubsequence(ops: seq<Op>, key: CoalescedKey)
    requires WithoutEmpty(ops)
    ensures Subsequence(KeyHistory(After(ops), key), Keep(After(ops).accepted, OfKey(key)))
  {
    if ops != [] {
      var earlier := ops[..|ops| - 1];
      KeyValuesAreASubsequence(earlier, key);
      EveryQueueIsSound(earlier);
      match ops[|ops| - 1]
      case Push(event) => PushKeepsSubsequence(After(earlier), event, key);
      case Pop => KeyHistoryPop(After(earlier), key);
      case Close =>
    }
  }

  lemma PushKeepsSubsequence(run: Run, event: MuxEvent, key: CoalescedKey)
    requires QueueSound(run.box.queue) && event != Empty
    requires Subsequence(KeyHistory(run, key), Keep(run.accepted, OfKey(key)))
    ensures Subsequence(KeyHistory(Step(run, Push(event)), key), Keep(Step(run, Push(event)).accepted, OfKey(key)))
  {
    hide Keep, PlainPush, Subsequence, KeyOf;
    var (delivered, pending) := (Keep(run.delivered, OfKey(key)), Keep(run.box.queue, OfKey(key)));
    var pushed := Keep(run.accepted, OfKey(key));
    PushOnKey(run.box, event, key);
    KeepMore(run.accepted, event, OfKey(key));
    assert |pending| <= 1;
    PendingValueLeaves(delivered, pending, pushed);
    SubsequenceMore(delivered, pushed, event);
    assert delivered + [] == delivered && pushed + [] == pushed;
  }

  lemma PendingValueLeaves(delivered: seq<MuxEvent>, pending: seq<MuxEvent>, pushed: seq<MuxEvent>)
    requires |pending| <= 1 && Subsequence(delivered + pending, pushed)
    ensures Subsequence(delivered, pushed)
  {
    if pending == [] {
      assert delivered + pending == delivered;
    } else {
      SubsequenceDropLast(delivered + pending, pushed);
      assert (delivered + pending)[..|delivered|] == delivered;
    }
  }

  /** The last accepted event that set the key or ended its surface. */
  function LastWord(accepted: seq<MuxEvent>, key: CoalescedKey): (word: Option<MuxEvent>)
    ensures word.Some? ==> KeyOf(word.value) == Some(key) || word.value == SurfaceExited(key.surface)
  {
    if accepted == [] then None
    else
      var last := accepted[|accepted| - 1];
      if KeyOf(last) == Some(key) || last == SurfaceExited(key.surface) then Some(last)
      else LastWord(accepted[..|accepted| - 1], key)
  }

  lemma LastWordMore(accepted: seq<MuxEvent>, event: MuxEvent, key: CoalescedKey)
    ensures LastWord(accepted + [event], key)
            == if KeyOf(event) == Some(key) || event == SurfaceExited(key.surface) then Some(event)
               else LastWord(accepted, key)
  {
    assert (accepted + [event])[..|accepted|] == accepted;
  }

  /** The latest value of a key is pending or was the last one delivered, unless its surface exited first. */
  ghost predicate LatestValueKept(run: Run, key: CoalescedKey) {
    var word := LastWord(run.accepted, key);
    var values := KeyHistory(run, key);
    match word
    case None => values == []
    case Some(event) =>
      if KeyOf(event) == Some(key) then values != [] && values[|values| - 1] == event
      else Keep(run.box.queue, OfKey(key)) == []
  }

  lemma {:induction false} LatestValueIsKept(ops: seq<Op>, key: CoalescedKey)
    requires WithoutEmpty(ops)
    ensures LatestValueKept(After(ops), key)
  {
    if ops != [] {
      var earlier := ops[..|ops| - 1];
      LatestValueIsKept(earlier, key);
      EveryQueueIsSound(earlier);
      match ops[|ops| - 1]
      case Push(event) => PushKeepsLatest(After(earlier), event, key);
      case Pop => PopKeepsLatest(After(earlier), key);
      case Close =>
    }
  }

  lemma PushKeepsLatest(run: Run, event: MuxEvent, key: CoalescedKey)
    requires QueueSound(run.box.queue) && event != Empty && LatestValueKept(run, key)
    ensures LatestValueKept(Step(run, Push(event)), key)
  {
    hide Keep, PlainPush, LastWord;
    PushOnKey(run.box, event, key);
    LastWordMore(run.accepted, event, key);
  }

  lemma PopKeepsLatest(run: Run, key: CoalescedKey)
    requires LatestValueKept(run, key)
    ensures LatestValueKept(Step(run, Pop), key)
  {
    KeyHistoryPop(run, key);
    if run.box.queue != [] {
      var (head, rest) := (run.box.queue[0], run.box.queue[1..]);
      assert run.box.queue == [head] + rest;
      KeepAppend([head], rest, OfKey(key));
    }
  }

  /** Once everything is drained, the latest value of a key has been delivered last among its values, unless its
      surface exited after it; and nothing accepted is missing among ordinary events. */
  lemma {:induction false} DrainedRunDeliveredEverything(ops: seq<Op>, key: CoalescedKey)
    requires WithoutEmpty(ops) && After(ops).box.queue == []
    ensures var run := After(ops);
            var values := Keep(run.delivered, OfKey(key));
            && Keep(run.delivered, Uncoalesced) == Keep(run.accepted, Uncoalesced)
            && (LastWord(run.accepted, key).Some? && KeyOf(LastWord(run.accepted, key).value) == Some(key) ==>
                  values != [] && values[|values| - 1] == LastWord(run.accepted, key).value)
  {
    var run := After(ops);
    OrdinaryEventsAreConserved(ops);
    LatestValueIsKept(ops, key);
    assert History(run) == run.delivered;
    assert KeyHistory(run, key) == Keep(run.delivered, OfKey(key));
  }

  /** A closed queue, whether it overflowed or was closed, only drains: nothing more is accepted, and everything that
      was pending stays to be delivered in order. */
  lemma {:induction false} ClosedQueueOnlyDrains(ops: seq<Op>, more: seq<Op>)
    requires After(ops).box.closed
    ensures var (before, after) := (After(ops), After(ops + more));
            && after.box.closed && after.accepted == before.accepted
            && History(after) == History(before)
            && after.box.overflowed == before.box.overflowed
    decreases |more|
  {
    if more == [] {
      assert ops + more == ops;
    } else {
      var (earlier, last) := (more[..|more| - 1], more[|more| - 1]);
      ClosedQueueOnlyDrains(ops, earlier);
      assert (ops + more)[..|ops + more| - 1] == ops + earlier && (ops + more)[|ops + more| - 1] == last;
      match last
      case Push(event) =>
      case Pop => PopKeepsHistory(After(ops + earlier));
      case Close =>
    }
  }
}
