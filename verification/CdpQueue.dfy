/** The byte-budgeted, coalescing ingress queue (client.rs:338-425). */
module CdpQueue {
  import opened Prelude
  import opened CdpEvents

  datatype QueuedEvent = QueuedEvent(event: CdpEvent, retainedBytes: nat)

  /** What the bounded output channel answers to one attempt. */
  datatype Reply = Accepted | Full | Disconnected

  /** The reply to the i-th attempt; a channel that is not heard of any more counts as full. */
  function ReplyAt(replies: seq<Reply>, i: nat): Reply {
    if i < |replies| then replies[i] else Full
  }

  function Total(events: seq<QueuedEvent>): nat {
    if events == [] then 0 else Total(events[..|events| - 1]) + events[|events| - 1].retainedBytes
  }

  function Charged(event: CdpEvent): QueuedEvent {
    QueuedEvent(event, EventRetainedBytes(event))
  }

  ghost predicate UniqueKeys(events: seq<QueuedEvent>) {
    forall i, j :: 0 <= i < j < |events| ==> !SameReplaceable(events[i].event, events[j].event)
  }

  /** What holds of the contents until the queue closes. */
  ghost predicate Sound(events: seq<QueuedEvent>) {
    && |events| <= INGRESS_EVENT_CAPACITY && Total(events) <= EVENT_QUEUE_MAX_BYTES
    && UniqueKeys(events) && AllCharged(events)
  }

  /** The queued events that the incoming one does not replace. */
  function Others(events: seq<QueuedEvent>, incoming: CdpEvent): seq<QueuedEvent> {
    if events == [] then []
    else
      var last := events[|events| - 1];
      Others(events[..|events| - 1], incoming) + (if SameReplaceable(last.event, incoming) then [] else [last])
  }

  /** An event is taken when, without the one it replaces, there is room for it and for its bytes. */
  predicate Fits(events: seq<QueuedEvent>, incoming: CdpEvent) {
    var others := Others(events, incoming);
    |others| < INGRESS_EVENT_CAPACITY && Total(others) + EventRetainedBytes(incoming) <= EVENT_QUEUE_MAX_BYTES
  }

  function Pushed(events: seq<QueuedEvent>, incoming: CdpEvent): seq<QueuedEvent> {
    if Fits(events, incoming) then Others(events, incoming) + [Charged(incoming)] else events
  }

  class EventQueue {
    var events: seq<QueuedEvent>
    var retainedBytes: nat
    var closed: bool

    /** The byte counter is always the exact sum of the cached sizes. */
    ghost predicate Valid()
      reads this
    {
      retainedBytes == Total(events) && (!closed ==> Sound(events))
    }

    constructor ()
      ensures Valid() && events == [] && !closed
    {
      events, retainedBytes, closed := [], 0, false;
    }

    method Push(event: CdpEvent) returns (ok: bool)
      requires Valid()
      modifies this
      ensures Valid() && closed == old(closed)
      ensures ok <==> !old(closed) && Fits(old(events), event)
      ensures events == if old(closed) then old(events) else Pushed(old(events), event)
    {
      hide Sound, Total, EventRetainedBytes, SameReplaceable, Others;
      if closed {
        return false;
      }
      SoundParts(events);
      var eventBytes := EventRetainedBytes(event);
      var index := 0;
      while index < |events| && !SameReplaceable(events[index].event, event)
        invariant 0 <= index <= |events|
        invariant forall j :: 0 <= j < index ==> !SameReplaceable(events[j].event, event)
      {
        index := index + 1;
      }
      ghost var others := Others(events, event);
      PushSound(events, event);
      if index < |events| {
        OthersWithout(events, event, index);
        TotalWithout(events, index);
        var bytes := retainedBytes - events[index].retainedBytes + eventBytes;
        if bytes > EVENT_QUEUE_MAX_BYTES {
          return false;
        }
        events := events[..index] + events[index + 1..] + [QueuedEvent(event, eventBytes)];
        retainedBytes := bytes;
      } else {
        OthersAll(events, event);
        var bytes := retainedBytes + eventBytes;
        if |events| >= INGRESS_EVENT_CAPACITY || bytes > EVENT_QUEUE_MAX_BYTES {
          return false;
        }
        events := events + [QueuedEvent(event, eventBytes)];
        retainedBytes := bytes;
      }
      TotalMore(others, Charged(event));
      return true;
    }

    /** Delivers from the front until the channel is full, gone, or the queue is empty. */
    method DrainInto(replies: seq<Reply>) returns (ok: bool, delivered: seq<CdpEvent>)
      requires Valid()
      modifies this`events, this`retainedBytes
      ensures Valid()
      ensures |delivered| <= |old(events)| && delivered == EventsOf(old(events)[..|delivered|])
      ensures forall i :: 0 <= i < |delivered| ==> ReplyAt(replies, i) == Accepted
      ensures ok ==> events == old(events)[|delivered|..] && (events == [] || ReplyAt(replies, |delivered|) == Full)
      ensures !ok ==> |delivered| < |old(events)| && ReplyAt(replies, |delivered|) == Disconnected
                      && events == old(events)[|delivered| + 1..]
    {
      hide Sound, Total, EventsOf;
      delivered := [];
      NothingYet();
      ghost var before := events;
      while events != []
        invariant |delivered| <= |before| && events == before[|delivered|..]
        invariant delivered == EventsOf(before[..|delivered|])
        invariant forall i :: 0 <= i < |delivered| ==> ReplyAt(replies, i) == Accepted
        invariant Valid()
        decreases |events|
      {
        var queued := events[0];
        ghost var whole := events;
        TailSound(events);
        events := events[1..];
        retainedBytes := SatSub(retainedBytes, queued.retainedBytes);
        match ReplyAt(replies, |delivered|)
        case Accepted =>
          EventsOfMore(before[..|delivered|], queued);
          assert before[..|delivered| + 1] == before[..|delivered|] + [queued];
          delivered := delivered + [queued.event];
        case Full =>
          retainedBytes := retainedBytes + queued.retainedBytes;
          events := [queued] + events;
          assert events == whole;
          return true, delivered;
        case Disconnected =>
          return false, delivered;
      }
      return true, delivered;
    }

    method Close(reason: string)
      requires Valid()
      modifies this
      ensures Valid() && closed
      ensures events == if old(closed) then old(events) else [Charged(Closed(reason))]
    {
      if closed {
        return;
      }
      events := [];
      retainedBytes := EventRetainedBytes(Closed(reason));
      events := events + [QueuedEvent(Closed(reason), retainedBytes)];
      closed := true;
    }
  }

  function EventsOf(events: seq<QueuedEvent>): (plain: seq<CdpEvent>) {
    if events == [] then [] else EventsOf(events[..|events| - 1]) + [events[|events| - 1].event]
  }

  lemma NothingYet()
    ensures EventsOf([]) == [] && Total([]) == 0
  {
  }

  lemma EventsOfMore(events: seq<QueuedEvent>, queued: QueuedEvent)
    ensures EventsOf(events + [queued]) == EventsOf(events) + [queued.event]
  {
    assert (events + [queued])[..|events|] == events;
  }

  lemma TotalMore(events: seq<QueuedEvent>, queued: QueuedEvent)
    ensures Total(events + [queued]) == Total(events) + queued.retainedBytes
  {
    assert (events + [queued])[..|events|] == events;
  }

  lemma {:induction false} TotalWithout(events: seq<QueuedEvent>, index: nat)
    requires index < |events|
    ensures Total(events[..index] + events[index + 1..]) == Total(events) - events[index].retainedBytes
  {
    var last := |events| - 1;
    if index == last {
      assert events[..index] + events[index + 1..] == events[..last];
    } else {
      TotalWithout(events[..last], index);
      assert events[..index] + events[index + 1..]
          == events[..last][..index] + events[..last][index + 1..] + [events[last]];
      TotalMore(events[..last][..index] + events[..last][index + 1..], events[last]);
    }
  }

  /** With unique keys, what an event replaces is the one queued event with its key. */
  lemma {:induction false} OthersWithout(events: seq<QueuedEvent>, incoming: CdpEvent, index: nat)
    requires UniqueKeys(events) && index < |events| && SameReplaceable(events[index].event, incoming)
    ensures Others(events, incoming) == events[..index] + events[index + 1..]
  {
    var last := |events| - 1;
    if index == last {
      assert forall j :: 0 <= j < last ==> !SameReplaceable(events[j].event, events[last].event);
      OthersAll(events[..last], incoming);
      assert events[..index] + events[index + 1..] == events[..last];
    } else {
      assert !SameReplaceable(events[index].event, events[last].event);
      OthersWithout(events[..last], incoming, index);
      assert events[..index] + events[index + 1..]
          == events[..last][..index] + events[..last][index + 1..] + [events[last]];
    }
  }

  lemma {:induction false} OthersAll(events: seq<QueuedEvent>, incoming: CdpEvent)
    requires forall j :: 0 <= j < |events| ==> !SameReplaceable(events[j].event, incoming)
    ensures Others(events, incoming) == events
  {
    if events != [] {
      OthersAll(events[..|events| - 1], incoming);
      assert events == events[..|events| - 1] + [events[|events| - 1]];
    }
  }

  lemma SoundParts(events: seq<QueuedEvent>)
    requires Sound(events)
    ensures UniqueKeys(events) && |events| <= INGRESS_EVENT_CAPACITY
  {
  }

  lemma TailSound(events: seq<QueuedEvent>)
    requires events != []
    ensures Total(events[1..]) == Total(events) - events[0].retainedBytes
    ensures Sound(events) ==> Sound(events[1..])
  {
    hide UniqueKeys, AllCharged, Total;
    TotalWithout(events, 0);
    TailUnique(events);
    assert events[..0] + events[1..] == events[1..];
  }

  lemma TailUnique(events: seq<QueuedEvent>)
    requires events != []
    ensures UniqueKeys(events) ==> UniqueKeys(events[1..])
    ensures AllCharged(events) ==> AllCharged(events[1..])
  {
    hide SameReplaceable, Charged;
  }

  ghost predicate AllCharged(events: seq<QueuedEvent>) {
    forall i :: 0 <= i < |events| ==> events[i] == Charged(events[i].event)
  }

  ghost predicate NoneReplaced(events: seq<QueuedEvent>, incoming: CdpEvent) {
    forall i :: 0 <= i < |events| ==> !SameReplaceable(events[i].event, incoming)
  }

  lemma WithoutOne(events: seq<QueuedEvent>, incoming: CdpEvent, index: nat)
    requires UniqueKeys(events) && AllCharged(events)
    requires index < |events| && SameReplaceable(events[index].event, incoming)
    ensures var rest := events[..index] + events[index + 1..];
            UniqueKeys(rest) && AllCharged(rest) && NoneReplaced(rest, incoming)
  {
    hide SameReplaceable, Charged;
    var rest := events[..index] + events[index + 1..];
    forall j | 0 <= j < |rest| ensures !SameReplaceable(rest[j].event, incoming) {
      var at := if j < index then j else j + 1;
      assert rest[j] == events[at];
      SameKeyShared(events[Min(at, index)].event, events[Max(at, index)].event, incoming);
    }
  }

  lemma SameKeyShared(a: CdpEvent, b: CdpEvent, c: CdpEvent)
    ensures SameReplaceable(a, c) && SameReplaceable(b, c) ==> SameReplaceable(a, b)
  {
  }

  /** Removing the replaced event leaves a sound queue in which nothing has the incoming key. */
  lemma OthersSound(events: seq<QueuedEvent>, incoming: CdpEvent)
    requires UniqueKeys(events) && AllCharged(events)
    ensures var others := Others(events, incoming);
            |others| <= |events| && UniqueKeys(others) && AllCharged(others) && NoneReplaced(others, incoming)
  {
    hide SameReplaceable, Charged, UniqueKeys, AllCharged, Others;
    if i :| 0 <= i < |events| && SameReplaceable(events[i].event, incoming) {
      OthersWithout(events, incoming, i);
      WithoutOne(events, incoming, i);
    } else {
      OthersAll(events, incoming);
    }
  }

  lemma PushSound(events: seq<QueuedEvent>, incoming: CdpEvent)
    requires Sound(events)
    ensures Sound(Pushed(events, incoming))
  {
    OthersSound(events, incoming);
    TotalMore(Others(events, incoming), Charged(incoming));
  }

  /** Within the budget, the charges add up to the unbounded estimates. */
  lemma {:induction false} ChargesAreEstimates(events: seq<QueuedEvent>)
    requires Sound(events)
    ensures EstimateTotal(events) == Total(events)
  {
    if events != [] {
      var last := |events| - 1;
      ChargesAreEstimates(events[..last]);
      ChargeSaturatesOnce(events[last].event);
    }
  }

  function EstimateTotal(events: seq<QueuedEvent>): nat {
    if events == [] then 0 else EstimateTotal(events[..|events| - 1]) + EventEstimate(events[|events| - 1].event)
  }
}
