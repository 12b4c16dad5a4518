/** What a subscriber of the bus is delivered over whole runs with other subscribers (event_bus.rs:87-124, 127-366). */
module BusDelivery {
  import opened Prelude
  import opened MuxEvents
  import opened BusRuns
  import EventRuns

  /** The event a turn offers a subscriber: what its filter lets through while the broadcaster holds it. */
  function Offer(sub: Option<Subscription>, turn: Turn): Option<MuxEvent> {
    if sub.None? || !sub.value.attached || !sub.value.receiverAlive || turn.Shutdown? then None
    else Consider(sub.value.filter, turn).pushes
  }

  function OfferOf(sub: Option<Subscription>, op: BusOp): seq<MuxEvent> {
    if op.Everyone? && Offer(sub, op.turn).Some? then [Offer(sub, op.turn).value] else []
  }

  /** Everything the subscriber was offered, in order. */
  function Offered(ops: seq<BusOp>, who: nat): seq<MuxEvent> {
    if ops == [] then []
    else
      var before := ops[..|ops| - 1];
      Offered(before, who) + OfferOf(Alone(before, who), ops[|ops| - 1])
  }

  function Taken(sub: Option<Subscription>, op: BusOp, mine: bool): seq<MuxEvent> {
    if op.Receive? && mine && sub.Some? && sub.value.box.queue != [] then [sub.value.box.queue[0]] else []
  }

  /** Everything the subscriber's receiver took out, in order. */
  function Received(ops: seq<BusOp>, who: nat): seq<MuxEvent> {
    if ops == [] then []
    else
      var (before, op) := (ops[..|ops| - 1], ops[|ops| - 1]);
      Received(before, who) + Taken(Alone(before, who), op, Mine(before, op, who))
  }

  predicate NoEmpty(ops: seq<BusOp>) {
    forall i :: 0 <= i < |ops| ==> ops[i] != Everyone(Emit(Empty))
  }

  // ----- The subscriber's own queue in the run of the bus -----

  /** What an operation of the bus does to the queue of one subscriber. */
  function QueueOp(sub: Option<Subscription>, op: BusOp, mine: bool): seq<EventRuns.Op> {
    match op
    case Everyone(turn) =>
      if Offer(sub, turn).Some? then [EventRuns.Push(Offer(sub, turn).value)]
      else if turn.Shutdown? && sub.Some? && sub.value.attached && sub.value.receiverAlive then [EventRuns.Close]
      else []
    case Receive(_) => if mine && sub.Some? then [EventRuns.Pop] else []
    case _ => []
  }

  function QueueOps(ops: seq<BusOp>, who: nat): seq<EventRuns.Op> {
    if ops == [] then []
    else
      var (before, op) := (ops[..|ops| - 1], ops[|ops| - 1]);
      QueueOps(before, who) + QueueOp(Alone(before, who), op, Mine(before, op, who))
  }

  function BoxOf(sub: Option<Subscription>): Plain {
    if sub.Some? then sub.value.box else Plain([], false, false)
  }

  /** All events offered, except the last one if the queue overflowed on it. */
  function Admitted(offered: seq<MuxEvent>, box: Plain): seq<MuxEvent> {
    if box.overflowed && offered != [] then offered[..|offered| - 1] else offered
  }

  /** A queue closes only when the subscription ends, and overflows only on an offer. */
  ghost predicate Admits(accepted: seq<MuxEvent>, offered: seq<MuxEvent>, sub: Option<Subscription>) {
    && accepted == Admitted(offered, BoxOf(sub))
    && (BoxOf(sub).closed ==> sub.Some? && !sub.value.attached)
    && (BoxOf(sub).overflowed ==> BoxOf(sub).closed && offered != [])
  }

  lemma RunMore(ops: seq<EventRuns.Op>, more: seq<EventRuns.Op>)
    requires |more| <= 1
    ensures EventRuns.After(ops + more)
            == if more == [] then EventRuns.After(ops) else EventRuns.Step(EventRuns.After(ops), more[0])
  {
    assert more == [] ==> ops + more == ops;
    assert more != [] ==> (ops + more)[..|ops|] == ops;
  }

  lemma OverflowsWhenRefused(box: Plain, event: MuxEvent)
    requires !box.closed && !box.overflowed
    ensures var pushed := PlainPush(box, event);
            pushed.box.closed == pushed.box.overflowed == !pushed.accepted
  {
  }

  lemma PushStep(sub: Subscription, turn: Turn, run: EventRuns.Run, offered: seq<MuxEvent>)
    requires run.box == sub.box && Admits(run.accepted, offered, Some(sub)) && Offer(Some(sub), turn).Some?
    ensures var event := Offer(Some(sub), turn).value;
            var next := EventRuns.Step(run, EventRuns.Push(event));
            && next.box == TakeTurn(sub, turn).box && next.delivered == run.delivered
            && Admits(next.accepted, offered + [event], Some(TakeTurn(sub, turn)))
  {
    hide PlainPush, Consider;
    var event := Offer(Some(sub), turn).value;
    OverflowsWhenRefused(sub.box, event);
    assert (offered + [event])[..|offered|] == offered;
  }

  /** One operation of the bus, on the queue of one subscriber. */
  lemma QueueStep(sub: Option<Subscription>, op: BusOp, mine: bool, run: EventRuns.Run, offered: seq<MuxEvent>)
    requires run.box == BoxOf(sub) && Admits(run.accepted, offered, sub)
    ensures var more := QueueOp(sub, op, mine);
            var next := if more == [] then run else EventRuns.Step(run, more[0]);
            && |more| <= 1 && next.box == BoxOf(OwnStep(sub, op, mine))
            && next.delivered == run.delivered + Taken(sub, op, mine)
            && Admits(next.accepted, offered + OfferOf(sub, op), OwnStep(sub, op, mine))
  {
    hide PlainPush, Consider;
    assert run.delivered + [] == run.delivered && offered + [] == offered;
    if op.Everyone? && Offer(sub, op.turn).Some? {
      PushStep(sub.value, op.turn, run, offered);
    }
  }

  /** What the subscriber's queue goes through on the bus is a run of one queue. */
  lemma {:induction false} QueueRunsAlong(ops: seq<BusOp>, who: nat)
    ensures var run := EventRuns.After(QueueOps(ops, who));
            && run.box == BoxOf(Alone(ops, who)) && run.delivered == Received(ops, who)
            && Admits(run.accepted, Offered(ops, who), Alone(ops, who))
  {
    hide EventRuns.After, EventRuns.Step, QueueOp, OwnStep, Taken, OfferOf, Mine, Admits;
    if ops == [] {
      NothingYet(who);
    } else {
      var (before, op) := (ops[..|ops| - 1], ops[|ops| - 1]);
      var sub := Alone(before, who);
      QueueRunsAlong(before, who);
      QueueStep(sub, op, Mine(before, op, who), EventRuns.After(QueueOps(before, who)), Offered(before, who));
      RunMore(QueueOps(before, who), QueueOp(sub, op, Mine(before, op, who)));
    }
  }

  lemma NothingYet(who: nat)
    ensures EventRuns.After(QueueOps([], who)) == EventRuns.Run(Plain([], false, false), [], [])
    ensures Admits([], Offered([], who), Alone([], who)) && BoxOf(Alone([], who)) == Plain([], false, false)
  {
  }

  /** No filter makes an event `Empty`. */
  lemma {:induction false} NoneIsEmpty(ops: seq<BusOp>, who: nat)
    requires NoEmpty(ops)
    ensures EventRuns.WithoutEmpty(QueueOps(ops, who))
  {
    hide Alone, TakeTurn, Judge;
    if ops != [] {
      NoneIsEmpty(ops[..|ops| - 1], who);
    }
  }

  /** Main result: whatever the other subscribers do, what one received and what is pending for it hold every event it
      was offered that has no key exactly once and in order, and the latest value of each key unless its surface exited;
      only the event on which its own queue overflowed, ending the subscription, is missing. */
  lemma {:induction false} OffersAreDelivered(ops: seq<BusOp>, who: nat, key: CoalescedKey)
    requires NoEmpty(ops) && Alone(ops, who).Some?
    ensures var (sub, received) := (Alone(ops, who).value, Received(ops, who));
            var admitted := Admitted(Offered(ops, who), sub.box);
            && (sub.attached ==> admitted == Offered(ops, who))
            && Keep(received + sub.box.queue, Uncoalesced) == Keep(admitted, Uncoalesced)
            && EventRuns.LatestValueKept(EventRuns.Run(sub.box, admitted, received), key)
            && |sub.box.queue| <= MAX_PENDING_EVENTS
  {
    hide EventRuns.After, QueueOps, Offered, Received, Alone, Keep, EventRuns.LatestValueKept;
    var queueOps := QueueOps(ops, who);
    QueueRunsAlong(ops, who);
    NoneIsEmpty(ops, who);
    EventRuns.OrdinaryEventsAreConserved(queueOps);
    EventRuns.LatestValueIsKept(queueOps, key);
    EventRuns.EveryQueueIsSound(queueOps);
  }
}
