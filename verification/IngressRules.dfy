/** Which queued browser events a new one replaces, and what room it needs, told by the events (client.rs:359-520). */
module IngressRules {
  import opened Prelude
  import opened CdpEvents
  import opened CdpQueue

  /** A newer frame of the same session, a newer capture request of the same session, or newer information on the same
      target. */
  predicate Renews(event: CdpEvent, queued: CdpEvent) {
    || (event.ScreencastFrame? && queued.ScreencastFrame? && event.frame.session == queued.frame.session)
    || (event.CaptureRequested? && queued.CaptureRequested? && event.session == queued.session)
    || (event.TargetInfoChanged? && queued.TargetInfoChanged? && event.targetId == queued.targetId)
  }

  /** What stays of a queue when an event renews part of it. */
  function Staying(queue: seq<CdpEvent>, event: CdpEvent): seq<CdpEvent> {
    if queue == [] then []
    else
      var last := queue[|queue| - 1];
      Staying(queue[..|queue| - 1], event) + (if Renews(event, last) then [] else [last])
  }

  function Estimates(queue: seq<CdpEvent>): nat {
    if queue == [] then 0 else Estimates(queue[..|queue| - 1]) + EventEstimate(queue[|queue| - 1])
  }

  lemma {:induction false} OthersStay(events: seq<QueuedEvent>, incoming: CdpEvent)
    ensures EventsOf(Others(events, incoming)) == Staying(EventsOf(events), incoming)
  {
    if events != [] {
      hide EventRetainedBytes;
      var (earlier, last) := (events[..|events| - 1], events[|events| - 1]);
      OthersStay(earlier, incoming);
      RenewsIsReplacement(incoming, last.event);
      EventsOfMore(Others(earlier, incoming), last);
      assert EventsOf(events) == EventsOf(earlier) + [last.event];
      assert EventsOf(events)[..|EventsOf(earlier)|] == EventsOf(earlier);
      assert Others(earlier, incoming) + [] == Others(earlier, incoming);
    }
  }

  lemma RenewsIsReplacement(incoming: CdpEvent, queued: CdpEvent)
    ensures SameReplaceable(queued, incoming) <==> Renews(incoming, queued)
  {
  }

  lemma {:induction false} EventsOfSize(events: seq<QueuedEvent>)
    ensures |EventsOf(events)| == |events| && EstimateTotal(events) == Estimates(EventsOf(events))
  {
    if events != [] {
      EventsOfSize(events[..|events| - 1]);
    }
  }

  /** Main result on one push: an open queue within its limits takes an event exactly when what it does not renew is
      fewer than 1024 events and leaves room for its estimated bytes in 32 MiB; it then comes last, behind all of those
      in order, and otherwise nothing changes. */
  lemma PushRenewsOnlyItsOwn(events: seq<QueuedEvent>, incoming: CdpEvent)
    requires Sound(events)
    ensures var (before, after) := (EventsOf(events), EventsOf(Pushed(events, incoming)));
            var staying := Staying(before, incoming);
            && (Fits(events, incoming)
                <==> |staying| < 1024 && Estimates(staying) + EventEstimate(incoming) <= 32 * 1024 * 1024)
            && after == if Fits(events, incoming) then staying + [incoming] else before
  {
    hide Others, EventRetainedBytes, EventEstimate, UniqueKeys, AllCharged, Estimates, Staying;
    var others := Others(events, incoming);
    OthersStay(events, incoming);
    EventsOfSize(others);
    OthersAreSound(events, incoming);
    ChargesAreEstimates(others);
    ChargeSaturatesOnce(incoming);
    EventsOfMore(others, Charged(incoming));
  }

  lemma OthersAreSound(events: seq<QueuedEvent>, incoming: CdpEvent)
    requires Sound(events)
    ensures Sound(Others(events, incoming))
  {
    hide SameReplaceable, EventRetainedBytes, Charged;
    OthersSound(events, incoming);
    OthersCostLess(events, incoming);
  }

  lemma {:induction false} OthersCostLess(events: seq<QueuedEvent>, incoming: CdpEvent)
    ensures Total(Others(events, incoming)) <= Total(events) && |Others(events, incoming)| <= |events|
  {
    hide SameReplaceable;
    if events != [] {
      var others := Others(events[..|events| - 1], incoming);
      OthersCostLess(events[..|events| - 1], incoming);
      TotalMore(others, events[|events| - 1]);
      assert others + [] == others;
    }
  }

  // ----- What is charged -----

  /** All text an event carries. */
  function Texts(event: CdpEvent): seq<string> {
    match event
    case ScreencastFrame(frame) => [frame.data, frame.session]
    case CaptureRequested(session, frame, loader, _, _, _) => [session, frame, loader]
    case FrameNavigated(_, session, _) => [session]
    case DocumentPainted(session, frame, loader, _) => [session, frame, loader]
    case NavigatedWithinDocument(_, session, frame, loader, _) => [session, frame, loader]
    case TargetCreated(id, opener, kind, title, url) => [id, kind, title, url] + Present(opener)
    case TargetInfoChanged(session, id, title, url) => [id, title, url] + Present(session)
    case Other(name, _, session) => [name] + Present(session)
    case Closed(reason) => [reason]
  }

  function Present(text: Option<string>): seq<string> {
    if text.Some? then [text.value] else []
  }

  function Length(texts: seq<string>): nat {
    if texts == [] then 0 else |texts[0]| + Length(texts[1..])
  }

  function ParamsOf(event: CdpEvent): Option<Json> {
    if event.FrameNavigated? || event.NavigatedWithinDocument? || event.Other? then Some(event.params) else None
  }

  /** An event is charged for every text and parameter it carries, and for its counters: a frame for its 80-byte record,
      other stamped events for eight bytes a number. */
  lemma EverythingCarriedIsCharged(event: CdpEvent)
    ensures EventEstimate(event)
            == Length(Texts(event)) + (if ParamsOf(event).Some? then JsonEstimate(ParamsOf(event).value) else 0)
               + (if event.ScreencastFrame? then 80
                  else if event.CaptureRequested? then 24
                  else if event.FrameNavigated? || event.DocumentPainted? || event.NavigatedWithinDocument? then 8
                  else 0)
  {
    hide JsonEstimate;
    var texts := Texts(event);
    if |texts| >= 1 {
      LengthMore(texts);
    }
    if |texts| >= 2 {
      LengthMore(texts[1..]);
    }
    if |texts| >= 3 {
      LengthMore(texts[2..]);
    }
    if |texts| >= 4 {
      LengthMore(texts[3..]);
    }
    if |texts| >= 5 {
      LengthMore(texts[4..]);
    }
  }

  lemma LengthMore(texts: seq<string>)
    requires texts != []
    ensures Length(texts) == |texts[0]| + Length(texts[1..])
    ensures |texts| >= 2 ==> texts[1..][1..] == texts[2..]
    ensures |texts| == 1 ==> Length(texts[1..]) == 0
  {
  }

  /** A parameter is charged 32 bytes a value, its texts, the places its lists have, and for every member of an object
      its key with 24 bytes for the text and 32 for the value's place. */
  lemma ParametersAreChargedByPart(capacity: nat, values: seq<Json>, members: seq<Member>, value: Json, key: nat)
    ensures JsonEstimate(Scalar) == 32 && JsonEstimate(Text(capacity)) == 32 + capacity
    ensures JsonEstimate(Array(capacity, [])) == 32 + 32 * capacity
    ensures JsonEstimate(Array(capacity, values + [value]))
            == JsonEstimate(Array(capacity, values)) + JsonEstimate(value)
    ensures JsonEstimate(Object([])) == 32
    ensures JsonEstimate(Object(members + [Member(key, value)]))
            == JsonEstimate(Object(members)) + 24 + 32 + key + JsonEstimate(value)
  {
    ValuesMore(values, value);
    MembersMore(members, Member(key, value));
    assert ValuesEstimate([]) == 0 && MembersEstimate([]) == 0;
  }

  lemma ValuesMore(values: seq<Json>, value: Json)
    ensures ValuesEstimate(values + [value]) == ValuesEstimate(values) + JsonEstimate(value)
  {
    assert (values + [value])[..|values|] == values;
  }

  lemma MembersMore(members: seq<Member>, member: Member)
    ensures MembersEstimate(members + [member])
            == MembersEstimate(members) + 24 + 32 + member.keyCapacity + JsonEstimate(member.value)
  {
    assert (members + [member])[..|members|] == members;
    assert MemberEstimate(member) == 24 + 32 + member.keyCapacity + JsonEstimate(member.value);
  }
}
