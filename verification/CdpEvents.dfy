/**
 * Browser events on their way from the socket to the surfaces (client.rs:183-222, 427-508): which one replaces
 * which, and how many bytes the bounded queue charges for them.  A text is a sequence of bytes, one per character.
 */
module CdpEvents {
  import opened Prelude

  const INGRESS_EVENT_CAPACITY: nat := 1024
  const EVENT_QUEUE_MAX_BYTES: nat := 32 * 1024 * 1024
  const WORD_SIZE: nat := 8
  const STRING_SIZE: nat := 24
  const VALUE_SIZE: nat := 32
  const FRAME_SIZE: nat := 80

  /** A JSON value as the byte estimate sees it: allocated capacities and structure. */
  datatype Json =
    | Scalar
    | Text(capacity: nat)
    | Array(capacity: nat, values: seq<Json>)
    | Object(members: seq<Member>)

  datatype Member = Member(keyCapacity: nat, value: Json)

  datatype Frame = Frame(session: string, data: string, ackId: nat, frameEpoch: nat)

  datatype CdpEvent =
    | ScreencastFrame(frame: Frame)
    | CaptureRequested(
        session: string, frameId: string, loaderId: string, requestId: nat, frameEpoch: nat, navigationEpoch: nat)
    | FrameNavigated(params: Json, session: string, frameEpoch: nat)
    | DocumentPainted(session: string, frameId: string, loaderId: string, navigationEpoch: nat)
    | NavigatedWithinDocument(params: Json, session: string, frameId: string, loaderId: string, frameEpoch: nat)
    | TargetCreated(targetId: string, openerId: Option<string>, targetType: string, title: string, url: string)
    | TargetInfoChanged(ofSession: Option<string>, targetId: string, title: string, url: string)
    | Other(name: string, params: Json, ofSession: Option<string>)
    | Closed(reason: string)

  // ----- Replacement -----

  predicate SameReplaceable(queued: CdpEvent, incoming: CdpEvent) {
    match (queued, incoming)
    case (ScreencastFrame(a), ScreencastFrame(b)) => a.session == b.session
    case (CaptureRequested(a, _, _, _, _, _), CaptureRequested(b, _, _, _, _, _)) => a == b
    case (TargetInfoChanged(_, a, _, _), TargetInfoChanged(_, b, _, _)) => a == b
    case _ => false
  }

  datatype ReplaceKey = FrameOf(session: string) | CaptureOf(session: string) | InfoOf(target: string)

  function KeyOf(event: CdpEvent): Option<ReplaceKey> {
    match event
    case ScreencastFrame(frame) => Some(FrameOf(frame.session))
    case CaptureRequested(session, _, _, _, _, _) => Some(CaptureOf(session))
    case TargetInfoChanged(_, target, _, _) => Some(InfoOf(target))
    case _ => None
  }

  /** Replacement is equality of keys, so it is symmetric and transitive. */
  lemma ReplacesIffSameKey(queued: CdpEvent, incoming: CdpEvent)
    ensures SameReplaceable(queued, incoming) <==> KeyOf(queued).Some? && KeyOf(queued) == KeyOf(incoming)
  {
  }

  /** The frame generation an event of a session was stamped with at ingress. */
  function StampOf(event: CdpEvent, session: string): Option<nat> {
    match event
    case ScreencastFrame(frame) => if frame.session == session then Some(frame.frameEpoch) else None
    case CaptureRequested(own, _, _, _, epoch, _) => if own == session then Some(epoch) else None
    case FrameNavigated(_, own, epoch) => if own == session then Some(epoch) else None
    case NavigatedWithinDocument(_, own, _, _, epoch) => if own == session then Some(epoch) else None
    case _ => None
  }

  // ----- Retained bytes -----

  function Saturated(a: nat, b: nat): nat {
    SatAdd(a, b, U64_MAX)
  }

  function JsonRetainedBytes(value: Json): nat {
    match value
    case Scalar => VALUE_SIZE
    case Text(capacity) => Saturated(VALUE_SIZE, capacity)
    case Array(capacity, values) =>
      FoldValues(Saturated(VALUE_SIZE, Min(capacity * VALUE_SIZE, U64_MAX)), values)
    case Object(members) => FoldMembers(VALUE_SIZE, members)
  }

  function FoldValues(base: nat, values: seq<Json>): nat
    decreases values
  {
    if values == [] then base
    else Saturated(FoldValues(base, values[..|values| - 1]), JsonRetainedBytes(values[|values| - 1]))
  }

  function FoldMembers(base: nat, members: seq<Member>): nat
    decreases members
  {
    if members == [] then base
    else AddMember(FoldMembers(base, members[..|members| - 1]), members[|members| - 1])
  }

  function AddMember(bytes: nat, member: Member): nat
    decreases member
  {
    Saturated(
      Saturated(Saturated(Saturated(bytes, STRING_SIZE), VALUE_SIZE), member.keyCapacity),
      JsonRetainedBytes(member.value))
  }

  /** The same estimate with unbounded integers. */
  function JsonEstimate(value: Json): nat {
    match value
    case Scalar => VALUE_SIZE
    case Text(capacity) => VALUE_SIZE + capacity
    case Array(capacity, values) => VALUE_SIZE + capacity * VALUE_SIZE + ValuesEstimate(values)
    case Object(members) => VALUE_SIZE + MembersEstimate(members)
  }

  function ValuesEstimate(values: seq<Json>): nat
    decreases values
  {
    if values == [] then 0 else ValuesEstimate(values[..|values| - 1]) + JsonEstimate(values[|values| - 1])
  }

  function MembersEstimate(members: seq<Member>): nat
    decreases members
  {
    if members == [] then 0 else MembersEstimate(members[..|members| - 1]) + MemberEstimate(members[|members| - 1])
  }

  function MemberEstimate(member: Member): nat
    decreases member
  {
    STRING_SIZE + VALUE_SIZE + member.keyCapacity + JsonEstimate(member.value)
  }

  /** Saturating at every step saturates only the total. */
  lemma {:induction false} JsonSaturatesOnce(value: Json)
    ensures JsonRetainedBytes(value) == Min(JsonEstimate(value), U64_MAX)
  {
    match value
    case Array(capacity, values) =>
      ValuesSaturateOnce(VALUE_SIZE + capacity * VALUE_SIZE, values);
    case Object(members) => MembersSaturateOnce(VALUE_SIZE, members);
    case _ =>
  }

  lemma {:induction false} ValuesSaturateOnce(base: nat, values: seq<Json>)
    ensures FoldValues(Min(base, U64_MAX), values) == Min(base + ValuesEstimate(values), U64_MAX)
    decreases values
  {
    hide Saturated, Min, JsonRetainedBytes, JsonEstimate;
    if values != [] {
      var (before, last) := (values[..|values| - 1], values[|values| - 1]);
      ValuesSaturateOnce(base, before);
      JsonSaturatesOnce(last);
      AddSaturatesOnce(base + ValuesEstimate(before), JsonEstimate(last));
    }
  }

  lemma {:induction false} MembersSaturateOnce(base: nat, members: seq<Member>)
    ensures FoldMembers(Min(base, U64_MAX), members) == Min(base + MembersEstimate(members), U64_MAX)
    decreases members
  {
    hide AddMember, MemberEstimate, Min;
    if members != [] {
      MembersSaturateOnce(base, members[..|members| - 1]);
      MemberSaturatesOnce(base + MembersEstimate(members[..|members| - 1]), members[|members| - 1]);
    }
  }

  lemma {:induction false} MemberSaturatesOnce(bytes: nat, member: Member)
    ensures AddMember(Min(bytes, U64_MAX), member) == Min(bytes + MemberEstimate(member), U64_MAX)
    decreases member
  {
    hide Saturated, Min, JsonRetainedBytes, JsonEstimate;
    var fixed := bytes + STRING_SIZE + VALUE_SIZE;
    AddSaturatesOnce(bytes, STRING_SIZE);
    AddSaturatesOnce(bytes + STRING_SIZE, VALUE_SIZE);
    AddSaturatesOnce(fixed, member.keyCapacity);
    JsonSaturatesOnce(member.value);
    AddSaturatesOnce(fixed + member.keyCapacity, JsonEstimate(member.value));
  }

  lemma AddSaturatesOnce(a: nat, b: nat)
    ensures Saturated(Min(a, U64_MAX), b) == Min(a + b, U64_MAX)
    ensures Saturated(Min(a, U64_MAX), Min(b, U64_MAX)) == Min(a + b, U64_MAX)
  {
  }

  function OptionLength(text: Option<string>): nat {
    match text
    case None => 0
    case Some(value) => |value|
  }

  function EventRetainedBytes(event: CdpEvent): nat {
    match event
    case ScreencastFrame(frame) => Saturated(Saturated(|frame.data|, |frame.session|), FRAME_SIZE)
    case CaptureRequested(session, frameId, loaderId, _, _, _) =>
      Saturated(Saturated(Saturated(|session|, |frameId|), |loaderId|), Min(WORD_SIZE * 3, U64_MAX))
    case FrameNavigated(params, session, _) => Saturated(Saturated(|session|, JsonRetainedBytes(params)), WORD_SIZE)
    case DocumentPainted(session, frameId, loaderId, _) =>
      Saturated(Saturated(Saturated(|session|, |frameId|), |loaderId|), WORD_SIZE)
    case NavigatedWithinDocument(params, session, frameId, loaderId, _) =>
      Saturated(
        Saturated(Saturated(Saturated(|session|, |frameId|), |loaderId|), JsonRetainedBytes(params)), WORD_SIZE)
    case TargetCreated(targetId, openerId, targetType, title, url) =>
      Saturated(Saturated(Saturated(Saturated(|targetId|, OptionLength(openerId)), |targetType|), |title|), |url|)
    case TargetInfoChanged(session, targetId, title, url) =>
      Saturated(Saturated(Saturated(OptionLength(session), |targetId|), |title|), |url|)
    case Other(name, params, session) =>
      Saturated(Saturated(|name|, JsonRetainedBytes(params)), OptionLength(session))
    case Closed(reason) => |reason|
  }

  /** The estimate for an event with unbounded integers; like the charge, not a measure of allocated memory. */
  function EventEstimate(event: CdpEvent): nat {
    match event
    case ScreencastFrame(frame) => |frame.data| + |frame.session| + FRAME_SIZE
    case CaptureRequested(session, frameId, loaderId, _, _, _) =>
      |session| + |frameId| + |loaderId| + 3 * WORD_SIZE
    case FrameNavigated(params, session, _) => |session| + JsonEstimate(params) + WORD_SIZE
    case DocumentPainted(session, frameId, loaderId, _) => |session| + |frameId| + |loaderId| + WORD_SIZE
    case NavigatedWithinDocument(params, session, frameId, loaderId, _) =>
      |session| + |frameId| + |loaderId| + JsonEstimate(params) + WORD_SIZE
    case TargetCreated(targetId, openerId, targetType, title, url) =>
      |targetId| + OptionLength(openerId) + |targetType| + |title| + |url|
    case TargetInfoChanged(session, targetId, title, url) => OptionLength(session) + |targetId| + |title| + |url|
    case Other(name, params, session) => |name| + JsonEstimate(params) + OptionLength(session)
    case Closed(reason) => |reason|
  }

  /** The charge is the unbounded estimate, cut off at the machine's largest integer; so a charge within the queue's
      budget has lost nothing to saturation. */
  lemma ChargeSaturatesOnce(event: CdpEvent)
    ensures Min(EventRetainedBytes(event), U64_MAX) == Min(EventEstimate(event), U64_MAX)
    ensures EventRetainedBytes(event) <= EVENT_QUEUE_MAX_BYTES ==> EventRetainedBytes(event) == EventEstimate(event)
  {
    hide JsonRetainedBytes, JsonEstimate;
    match event
    case FrameNavigated(params, _, _) => JsonSaturatesOnce(params);
    case NavigatedWithinDocument(params, _, _, _, _) => JsonSaturatesOnce(params);
    case Other(_, params, _) => JsonSaturatesOnce(params);
    case _ =>
  }
}
