/** Fan-out of one event to every subscriber's mailbox, and whole runs of it (event_bus.rs:63-124, 207-215). */
module Broadcaster {
  import opened Prelude
  import opened MuxEvents
  import opened EventBus
  import opened BusRuns

  datatype Subscriber = Subscriber(mailbox: Mailbox, filter: Filter)

  ghost function Subscribed(subscriber: Subscriber): Subscription
    reads subscriber.mailbox
  {
    Subscription(true, subscriber.mailbox.receiverAlive, subscriber.filter, subscriber.mailbox.View())
  }

  /** What a turn should do to a subscriber, and how far its mailbox has counted before. */
  datatype Step = Step(to: Subscription, number: nat, shared: bool)

  ghost function AsTurned(subscriber: Subscriber, turn: Turn): Step
    reads subscriber.mailbox
  {
    Step(TakeTurn(Subscribed(subscriber), turn), subscriber.mailbox.nextSequence, subscriber.mailbox.shared)
  }

  ghost function Steps(subscribers: seq<Subscriber>, turn: Turn): (steps: seq<Step>)
    reads set s <- subscribers :: s.mailbox
    ensures |steps| == |subscribers|
    ensures forall i :: 0 <= i < |steps| ==> steps[i] == AsTurned(subscribers[i], turn)
  {
    if subscribers == [] then []
    else Steps(subscribers[..|subscribers| - 1], turn) + [AsTurned(subscribers[|subscribers| - 1], turn)]
  }

  /** The mailbox and the subscription are as they should be, unless two keyed events have met on one number; a turn
      draws at most one number, and numbers meet only at the last one. */
  ghost predicate Turned(mailbox: Mailbox, after: Subscription, step: Step)
    reads mailbox
  {
    && mailbox.Valid()
    && mailbox.View() == after.box && mailbox.receiverAlive == after.receiverAlive == step.to.receiverAlive
    && after.filter == step.to.filter
    && (!mailbox.shared ==> after == step.to)
    && mailbox.nextSequence <= step.number + 1
    && (step.shared ==> mailbox.shared) && (step.number < U128_MAX ==> mailbox.shared == step.shared)
  }

  class MuxEventBroadcaster {
    var subscribers: seq<Subscriber>

    ghost predicate Valid()
      reads this, set s <- subscribers :: s.mailbox
    {
      Separate(subscribers)
    }

    constructor ()
      ensures subscribers == [] && Valid()
    {
      subscribers := [];
    }

    method SubscribeWithFilter(filter: Filter) returns (mailbox: Mailbox)
      requires Valid()
      modifies this
      ensures Valid() && fresh(mailbox) && mailbox.Valid()
      ensures subscribers == old(subscribers) + [Subscriber(mailbox, filter)]
      ensures Subscribed(Subscriber(mailbox, filter)) == Fresh(filter)
      ensures mailbox.nextSequence == 0 && !mailbox.shared
    {
      mailbox := new Mailbox();
      subscribers := subscribers + [Subscriber(mailbox, filter)];
    }

    /** Everyone takes a turn, and those that detach leave the list; `kept` says who stayed. */
    method Retain(turn: Turn) returns (ghost after: seq<Subscription>, ghost kept: seq<nat>)
      requires Valid()
      modifies this, set s <- subscribers :: s.mailbox
      ensures Valid() && AllTurned(old(subscribers), after, old(Steps(subscribers, turn)))
      ensures Stayed(old(subscribers), after, kept, subscribers)
    {
      hide Separate, AllTurned, Stayed, Steps;
      var remaining;
      remaining, after, kept := TurnAll(subscribers, turn);
      subscribers := remaining;
    }
  }

  /** Subscribers own distinct mailboxes. */
  ghost predicate Separate(subscribers: seq<Subscriber>)
    reads set s <- subscribers :: s.mailbox
  {
    && (forall i, j :: 0 <= i < j < |subscribers| ==> subscribers[i].mailbox != subscribers[j].mailbox)
    && (forall i :: 0 <= i < |subscribers| ==> subscribers[i].mailbox.Valid())
  }

  lemma TurnedIsValid(mailbox: Mailbox, after: Subscription, step: Step)
    requires Turned(mailbox, after, step)
    ensures mailbox.Valid()
  {
  }

  ghost predicate AllTurned(before: seq<Subscriber>, after: seq<Subscription>, steps: seq<Step>)
    reads set s <- before :: s.mailbox
  {
    && |after| == |before| == |steps|
    && forall i :: 0 <= i < |after| ==> Turned(before[i].mailbox, after[i], steps[i])
  }

  /** One subscriber's turn: whether it stays, and the filter it stays with. */
  method TurnFor(subscriber: Subscriber, turn: Turn) returns (keep: bool, filter: Filter)
    requires subscriber.mailbox.Valid()
    modifies subscriber.mailbox
    ensures Turned(subscriber.mailbox,
                   Subscription(keep, subscriber.mailbox.receiverAlive, filter, subscriber.mailbox.View()),
                   old(AsTurned(subscriber, turn)))
  {
    hide Judge, PlainPush;
    filter := subscriber.filter;
    if !subscriber.mailbox.receiverAlive {
      return false, filter;
    }
    if turn.Shutdown? {
      subscriber.mailbox.Close();
      return false, filter;
    }
    var verdict := Consider(filter, turn);
    filter, keep := verdict.filter, true;
    if verdict.pushes.Some? {
      keep := subscriber.mailbox.Push(verdict.pushes.value);
    }
  }

  method TurnAll(before: seq<Subscriber>, turn: Turn)
    returns (remaining: seq<Subscriber>, ghost after: seq<Subscription>, ghost kept: seq<nat>)
    requires Separate(before)
    modifies set s <- before :: s.mailbox
    ensures AllTurned(before, after, old(Steps(before, turn)))
    ensures Stayed(before, after, kept, remaining) && Separate(remaining)
    ensures forall r :: r in remaining ==> exists s :: s in before && r.mailbox == s.mailbox
  {
    hide AsTurned, Stayed, Turned, Mailbox.Valid;
    ghost var steps := Steps(before, turn);
    remaining, after, kept := [], [], [];
    NobodyStayed();
    var i := 0;
    while i < |before|
      invariant 0 <= i <= |before| && |after| == i
      invariant forall j :: 0 <= j < i ==> before[j].mailbox.Valid() && Turned(before[j].mailbox, after[j], steps[j])
      invariant forall j :: i <= j < |before| ==> before[j].mailbox.Valid() && AsTurned(before[j], turn) == steps[j]
      invariant Stayed(before[..i], after, kept, remaining)
    {
      var subscriber := before[i];
      assert forall j :: 0 <= j < |before| && j != i ==> before[j].mailbox != subscriber.mailbox;
      var keep, filter := TurnFor(subscriber, turn);
      ghost var step := Subscription(keep, subscriber.mailbox.receiverAlive, filter, subscriber.mailbox.View());
      TurnedIsValid(subscriber.mailbox, step, steps[i]);
      StayedMore(before, after, kept, remaining, i, step);
      if keep {
        remaining := remaining + [Subscriber(subscriber.mailbox, filter)];
        kept := kept + [i];
      }
      after := after + [step];
      i := i + 1;
    }
    assert before[..i] == before;
    StayedSeparate(before, after, kept, remaining);
  }

  /** Those that stay keep their order and have their filters as updated. */
  ghost predicate Stayed(
      before: seq<Subscriber>, after: seq<Subscription>, kept: seq<nat>, remaining: seq<Subscriber>)
  {
    && |after| == |before| && |kept| == |remaining|
    && (forall k, l :: 0 <= k < l < |kept| ==> kept[k] < kept[l])
    && (forall k :: 0 <= k < |kept| ==>
          && kept[k] < |before| && after[kept[k]].attached
          && remaining[k] == Subscriber(before[kept[k]].mailbox, after[kept[k]].filter))
    && (forall i :: 0 <= i < |before| && after[i].attached ==> i in kept)
  }

  lemma NobodyStayed()
    ensures Stayed([], [], [], [])
  {
  }

  lemma StayedMore(
      before: seq<Subscriber>, after: seq<Subscription>, kept: seq<nat>, remaining: seq<Subscriber>, i: nat,
      step: Subscription)
    requires i < |before| && |after| == i && Stayed(before[..i], after, kept, remaining)
    ensures Stayed(before[..i + 1], after + [step], if step.attached then kept + [i] else kept,
                   if step.attached then remaining + [Subscriber(before[i].mailbox, step.filter)] else remaining)
  {
    hide Mailbox.Valid;
    var more := if step.attached then kept + [i] else kept;
    var others := if step.attached then remaining + [Subscriber(before[i].mailbox, step.filter)] else remaining;
    forall k | 0 <= k < |more|
      ensures more[k] <= i && (after + [step])[more[k]].attached
      ensures others[k] == Subscriber(before[more[k]].mailbox, (after + [step])[more[k]].filter)
    {
      if k < |kept| {
        assert kept[k] < i && before[..i][kept[k]] == before[kept[k]];
      }
    }
    forall j | 0 <= j <= i && (after + [step])[j].attached ensures j in more {
      if j < i {
        assert j in kept;
      } else {
        assert more[|kept|] == i;
      }
    }
  }

  lemma StayedSeparate(
      before: seq<Subscriber>, after: seq<Subscription>, kept: seq<nat>, remaining: seq<Subscriber>)
    requires Stayed(before, after, kept, remaining) && Separate(before)
    ensures Separate(remaining)
    ensures forall r :: r in remaining ==> exists s :: s in before && r.mailbox == s.mailbox
  {
    hide Mailbox.Valid;
    forall r | r in remaining ensures exists s :: s in before && r.mailbox == s.mailbox {
      var k :| 0 <= k < |remaining| && remaining[k] == r;
      assert before[kept[k]] in before;
    }
  }
}
