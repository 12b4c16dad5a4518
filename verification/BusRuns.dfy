/** What the subscribers of one event bus see over whole runs (event_bus.rs:87-205). */
module BusRuns {
  import opened Prelude
  import opened MuxEvents

  /** One subscriber as the broadcaster and its receiver see it. */
  datatype Subscription = Subscription(attached: bool, receiverAlive: bool, filter: Filter, box: Plain)

  /** What the broadcaster does to every subscriber it still holds. */
  datatype Turn =
    | Emit(event: MuxEvent)
    | MovePath(surface: SurfaceId, workspace: WorkspaceId, screen: ScreenId, pane: PaneId)
    | Shutdown

  function Fresh(filter: Filter): Subscription {
    Subscription(true, true, filter, Plain([], false, false))
  }

  /** Whether a turn concerns the subscriber at all, what it pushes then, and the filter afterwards. */
  datatype Verdict = Verdict(pushes: Option<MuxEvent>, filter: Filter)

  function Consider(filter: Filter, turn: Turn): Verdict {
    match turn
    case Emit(event) =>
      var judged := Judge(filter, event);
      Verdict(if judged.accepts then Some(event) else None, judged.filter)
    case MovePath(surface, workspace, screen, pane) =>
      if filter.SurfaceSession? && filter.scope.surface == surface then
        Verdict(Some(TreeChanged), SurfaceSession(SurfaceSessionScope(surface, workspace, screen, pane)))
      else Verdict(None, filter)
    case Shutdown => Verdict(None, filter)
  }

  /** One subscriber's turn: a dropped receiver or a refused push detaches it. */
  function TakeTurn(sub: Subscription, turn: Turn): Subscription {
    if !sub.attached then sub
    else if !sub.receiverAlive then sub.(attached := false)
    else if turn.Shutdown? then sub.(attached := false, box := sub.box.(closed := true))
    else
      var verdict := Consider(sub.filter, turn);
      if verdict.pushes.None? then sub.(filter := verdict.filter)
      else
        var pushed := PlainPush(sub.box, verdict.pushes.value);
        sub.(attached := pushed.accepted, filter := verdict.filter, box := pushed.box)
  }

  datatype BusOp = Everyone(turn: Turn) | Subscribe(filter: Filter) | Receive(who: nat) | DropReceiver(who: nat)

  /** How many have subscribed. */
  function Subscribers(ops: seq<BusOp>): nat {
    if ops == [] then 0 else Subscribers(ops[..|ops| - 1]) + (if ops[|ops| - 1].Subscribe? then 1 else 0)
  }

  function OwnStep(sub: Option<Subscription>, op: BusOp, mine: bool): Option<Subscription> {
    match (sub, op)
    case (Some(s), Everyone(turn)) => Some(TakeTurn(s, turn))
    case (None, Subscribe(filter)) => if mine then Some(Fresh(filter)) else None
    case (Some(s), Receive(_)) => if mine then Some(s.(box := PlainPop(s.box))) else sub
    case (Some(s), DropReceiver(_)) => if mine then Some(s.(receiverAlive := false)) else sub
    case _ => sub
  }

  /** Whether an operation is the subscriber's own. */
  predicate Mine(ops: seq<BusOp>, op: BusOp, who: nat) {
    match op
    case Everyone(_) => false
    case Subscribe(_) => Subscribers(ops) == who
    case Receive(other) => other == who
    case DropReceiver(other) => other == who
  }

  /** One subscriber followed through a run: everyone's turns and its own operations. */
  function Alone(ops: seq<BusOp>, who: nat): Option<Subscription> {
    if ops == [] then None
    else
      var (before, op) := (ops[..|ops| - 1], ops[|ops| - 1]);
      OwnStep(Alone(before, who), op, Mine(before, op, who))
  }

  lemma {:induction false} AloneExists(ops: seq<BusOp>, who: nat)
    ensures Alone(ops, who).Some? <==> who < Subscribers(ops)
  {
    if ops != [] {
      AloneExists(ops[..|ops| - 1], who);
    }
  }

  lemma AloneMore(ops: seq<BusOp>, op: BusOp, who: nat)
    ensures Alone(ops + [op], who) == OwnStep(Alone(ops, who), op, Mine(ops, op, who))
    ensures Subscribers(ops + [op]) == Subscribers(ops) + (if op.Subscribe? then 1 else 0)
  {
    assert (ops + [op])[..|ops|] == ops;
  }

  // ----- A subscriber sees what it would see if it were the only one -----

  function OwnOp(ops: seq<BusOp>, op: BusOp, who: nat): seq<BusOp> {
    if op.Everyone? then [op]
    else if !Mine(ops, op, who) then []
    else match op
      case Receive(_) => [Receive(0)]
      case DropReceiver(_) => [DropReceiver(0)]
      case _ => [op]
  }

  /** The run with every other subscriber left out. */
  function OwnOps(ops: seq<BusOp>, who: nat): seq<BusOp> {
    if ops == [] then []
    else
      var before := ops[..|ops| - 1];
      OwnOps(before, who) + OwnOp(before, ops[|ops| - 1], who)
  }

  lemma OwnStepKept(before: seq<BusOp>, own: seq<BusOp>, op: BusOp, who: nat)
    requires own == OwnOps(before, who) && Alone(own, 0) == Alone(before, who)
    requires Subscribers(own) == if who < Subscribers(before) then 1 else 0
    ensures var more := own + OwnOp(before, op, who);
            && Alone(more, 0) == OwnStep(Alone(before, who), op, Mine(before, op, who))
            && Subscribers(more) == (if who < Subscribers(before) then 1 else 0)
                                    + (if op.Subscribe? && Subscribers(before) == who then 1 else 0)
  {
    hide TakeTurn, Alone, Subscribers, OwnOps, PlainPop;
    AloneExists(before, who);
    AloneExists(own, 0);
    if OwnOp(before, op, who) == [] {
      assert own + [] == own;
    } else {
      AloneMore(own, OwnOp(before, op, who)[0], 0);
      assert OwnOp(before, op, who) == [OwnOp(before, op, who)[0]];
    }
  }

  /** Another subscriber's slowness, overflow, receiving or departure never changes what a subscriber sees. */
  lemma {:induction false} SubscribersAreIsolated(ops: seq<BusOp>, who: nat)
    ensures Alone(OwnOps(ops, who), 0) == Alone(ops, who)
    ensures Subscribers(OwnOps(ops, who)) == if who < Subscribers(ops) then 1 else 0
  {
    hide OwnStep, Mine, OwnOp;
    if ops != [] {
      var before := ops[..|ops| - 1];
      SubscribersAreIsolated(before, who);
      OwnStepKept(before, OwnOps(before, who), ops[|ops| - 1], who);
    }
  }
}
