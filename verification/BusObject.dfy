/** Runs of the broadcaster object with the mailboxes its subscribers read from (event_bus.rs:63-124, 207-366). */
module BusObject {
  import opened Prelude
  import opened MuxEvents
  import opened EventBus
  import opened BusRuns
  import opened Broadcaster

  /** The operations so far, the state they should have led to, and where the attached ones stand among all. */
  datatype Story = Story(done: seq<BusOp>, subs: seq<Subscription>, origin: seq<nat>)

  ghost predicate Tells(broadcaster: MuxEventBroadcaster, mailboxes: seq<Mailbox>, story: Story)
    reads broadcaster, mailboxes, set s <- broadcaster.subscribers :: s.mailbox
  {
    && Linked(broadcaster.subscribers, mailboxes, story.subs, story.origin)
    && broadcaster.Valid()
    && |mailboxes| == Subscribers(story.done)
    && AllFollow(mailboxes, story.subs, story.done)
  }

  method TakeTurns(broadcaster: MuxEventBroadcaster, mailboxes: seq<Mailbox>, ghost story: Story, turn: Turn)
    returns (ghost later: Story)
    requires Tells(broadcaster, mailboxes, story)
    modifies broadcaster, mailboxes
    ensures Tells(broadcaster, mailboxes, later) && later.done == story.done + [BusOp.Everyone(turn)]
  {
    hide Linked, Follows, Stayed, Steps, AllTurned, AllPrepared, AllFollow, Alone, Subscribers, Separate, Mailbox.Valid;
    ghost var Story(done, subs, origin) := story;
    ghost var (before, steps) := (broadcaster.subscribers, Steps(broadcaster.subscribers, turn));
    PrepareAll(before, mailboxes, subs, origin, done, turn);
    ghost var after, kept := broadcaster.Retain(turn);
    assert forall i :: 0 <= i < |mailboxes| && i !in origin ==> Follows(mailboxes[i], subs[i], done, i);
    LinkedAfter(before, mailboxes, subs, origin, after, kept, broadcaster.subscribers);
    FollowAll(before, mailboxes, subs, origin, after, steps, done, turn);
    AloneMore(done, BusOp.Everyone(turn), 0);
    later := Story(done + [BusOp.Everyone(turn)], TurnedSubs(subs, origin, after), KeptOrigin(origin, kept));
  }

  method Join(broadcaster: MuxEventBroadcaster, mailboxes: seq<Mailbox>, ghost story: Story, filter: Filter)
    returns (more: seq<Mailbox>, ghost later: Story)
    requires Tells(broadcaster, mailboxes, story)
    modifies broadcaster
    ensures Tells(broadcaster, more, later) && later.done == story.done + [Subscribe(filter)]
    ensures |more| == |mailboxes| + 1 && more[..|mailboxes|] == mailboxes && fresh(more[|mailboxes|])
  {
    hide Linked, Follows, AllFollow, Alone, Subscribers, Separate, Mailbox.Valid;
    ghost var Story(done, subs, origin) := story;
    ghost var before := broadcaster.subscribers;
    var mailbox := broadcaster.SubscribeWithFilter(filter);
    more := mailboxes + [mailbox];
    later := Story(done + [Subscribe(filter)], subs + [Fresh(filter)], origin + [|mailboxes|]);
    LinkedJoin(before, mailboxes, subs, origin, mailbox, filter);
    FollowJoin(mailboxes, subs, done, mailbox, filter);
    AloneMore(done, Subscribe(filter), 0);
  }

  method Read(broadcaster: MuxEventBroadcaster, mailboxes: seq<Mailbox>, ghost story: Story, who: nat)
    returns (received: Received, ghost later: Story)
    requires Tells(broadcaster, mailboxes, story) && who < |mailboxes|
    modifies mailboxes[who]
    ensures Tells(broadcaster, mailboxes, later) && later.done == story.done + [BusOp.Receive(who)]
  {
    hide Linked, Follows, AllFollow, Alone, Subscribers, Separate, Mailbox.Valid;
    ghost var Story(done, subs, origin) := story;
    OthersFollow(broadcaster.subscribers, mailboxes, subs, origin, done, who);
    received := mailboxes[who].TryRecv();
    later := OwnStory(story, who, BusOp.Receive(who));
    assert forall i :: 0 <= i < |mailboxes| && i != who ==> Follows(mailboxes[i], subs[i], done, i);
    SeparateStill(broadcaster.subscribers, mailboxes, who);
    LinkedOwn(broadcaster.subscribers, mailboxes, subs, origin, who, later.subs[who]);
    FollowOwn(mailboxes, subs, done, who, BusOp.Receive(who));
  }

  method Leave(broadcaster: MuxEventBroadcaster, mailboxes: seq<Mailbox>, ghost story: Story, who: nat)
    returns (ghost later: Story)
    requires Tells(broadcaster, mailboxes, story) && who < |mailboxes|
    modifies mailboxes[who]
    ensures Tells(broadcaster, mailboxes, later) && later.done == story.done + [BusOp.DropReceiver(who)]
  {
    hide Linked, Follows, AllFollow, Alone, Subscribers, Separate, Mailbox.Valid;
    ghost var Story(done, subs, origin) := story;
    OthersFollow(broadcaster.subscribers, mailboxes, subs, origin, done, who);
    mailboxes[who].DropReceiver();
    later := OwnStory(story, who, BusOp.DropReceiver(who));
    assert forall i :: 0 <= i < |mailboxes| && i != who ==> Follows(mailboxes[i], subs[i], done, i);
    SeparateStill(broadcaster.subscribers, mailboxes, who);
    LinkedOwn(broadcaster.subscribers, mailboxes, subs, origin, who, later.subs[who]);
    FollowOwn(mailboxes, subs, done, who, BusOp.DropReceiver(who));
  }

  method Perform(broadcaster: MuxEventBroadcaster, mailboxes: seq<Mailbox>, ghost story: Story, op: BusOp)
    returns (more: seq<Mailbox>, ghost later: Story)
    requires Tells(broadcaster, mailboxes, story)
    modifies broadcaster, mailboxes
    ensures Tells(broadcaster, more, later) && later.done == story.done + [op]
    ensures forall k :: 0 <= k < |more| ==> more[k] in mailboxes || fresh(more[k])
  {
    hide Tells;
    more, later := mailboxes, story;
    match op
    case Everyone(turn) => later := TakeTurns(broadcaster, mailboxes, story, turn);
    case Subscribe(filter) => more, later := Join(broadcaster, mailboxes, story, filter);
    case Receive(who) =>
      if who < |mailboxes| {
        var received;
        received, later := Read(broadcaster, mailboxes, story, who);
      } else {
        later := Unheard(broadcaster, mailboxes, story, op);
      }
    case DropReceiver(who) =>
      if who < |mailboxes| {
        later := Leave(broadcaster, mailboxes, story, who);
      } else {
        later := Unheard(broadcaster, mailboxes, story, op);
      }
  }

  /** Nobody has subscribed under this number yet. */
  lemma Unheard(broadcaster: MuxEventBroadcaster, mailboxes: seq<Mailbox>, story: Story, op: BusOp)
    returns (later: Story)
    requires Tells(broadcaster, mailboxes, story)
    requires (op.Receive? && op.who >= |mailboxes|) || (op.DropReceiver? && op.who >= |mailboxes|)
    ensures Tells(broadcaster, mailboxes, later) && later.done == story.done + [op]
  {
    hide Linked, Follows, Alone, Subscribers, Separate, Mailbox.Valid;
    later := Story(story.done + [op], story.subs, story.origin);
    AloneMore(story.done, op, 0);
    forall i | 0 <= i < |mailboxes| ensures Follows(mailboxes[i], story.subs[i], story.done + [op], i) {
      OthersKeep(mailboxes[i], story.subs[i], story.done, i, op);
    }
  }

  /** Main result: after any run of emissions, moves, subscriptions, receives and departures on the objects, every
      mailbox holds exactly what its subscriber would hold if it were the only one; the one exception would take more
      operations than there are numbers, and no subscriber can cause it for another. */
  method PerformAll(ops: seq<BusOp>) returns (mailboxes: seq<Mailbox>)
    ensures |mailboxes| == Subscribers(ops)
    ensures forall who :: 0 <= who < |mailboxes| ==> EndsAlone(mailboxes[who], ops, who)
  {
    hide Tells, EndsAlone;
    var broadcaster := new MuxEventBroadcaster();
    ghost var story := Story([], [], []);
    mailboxes := [];
    NothingTold(broadcaster);
    var i := 0;
    while i < |ops|
      invariant 0 <= i <= |ops| && story.done == ops[..i]
      invariant fresh(broadcaster) && forall k :: 0 <= k < |mailboxes| ==> fresh(mailboxes[k])
      invariant Tells(broadcaster, mailboxes, story)
    {
      assert ops[..i + 1] == ops[..i] + [ops[i]];
      mailboxes, story := Perform(broadcaster, mailboxes, story, ops[i]);
      i := i + 1;
    }
    assert ops[..i] == ops;
    ToldAlone(broadcaster, mailboxes, story);
  }

  /** The mailbox is its subscriber's, followed alone; and that is what a bus of its own would have given it. */
  ghost predicate EndsAlone(mailbox: Mailbox, ops: seq<BusOp>, who: nat)
    reads mailbox
  {
    && (|ops| <= U128_MAX ==> !mailbox.shared)
    && (!mailbox.shared ==>
          exists sub ::
            AloneIn(ops, who, sub) && mailbox.View() == sub.box && mailbox.receiverAlive == sub.receiverAlive)
  }

  ghost predicate AloneIn(ops: seq<BusOp>, who: nat, sub: Subscription) {
    Alone(ops, who) == Some(sub) && Alone(OwnOps(ops, who), 0) == Some(sub)
  }

  lemma NothingTold(broadcaster: MuxEventBroadcaster)
    requires broadcaster.subscribers == [] && broadcaster.Valid()
    ensures Tells(broadcaster, [], Story([], [], []))
  {
  }

  lemma ToldAlone(broadcaster: MuxEventBroadcaster, mailboxes: seq<Mailbox>, story: Story)
    requires Tells(broadcaster, mailboxes, story)
    ensures |mailboxes| == Subscribers(story.done)
    ensures forall who :: 0 <= who < |mailboxes| ==> EndsAlone(mailboxes[who], story.done, who)
  {
    hide Linked, Alone, OwnOps, Subscribers, Separate, Mailbox.Valid;
    forall who | 0 <= who < |mailboxes| ensures EndsAlone(mailboxes[who], story.done, who) {
      assert Follows(mailboxes[who], story.subs[who], story.done, who);
      SubscribersAreIsolated(story.done, who);
      if !mailboxes[who].shared {
        assert AloneIn(story.done, who, story.subs[who]);
      }
    }
  }

  /** A subscriber's own operation, on its subscription. */
  ghost function Own(sub: Subscription, op: BusOp): Subscription {
    if op.Receive? then sub.(box := PlainPop(sub.box)) else sub.(receiverAlive := false)
  }

  ghost function OwnStory(story: Story, who: nat, op: BusOp): Story
    requires who < |story.subs|
  {
    Story(story.done + [op], story.subs[who := Own(story.subs[who], op)], story.origin)
  }

  /** The broadcaster's list names the attached subscribers, in the order in which they subscribed. */
  ghost predicate Linked(
      subscribers: seq<Subscriber>, mailboxes: seq<Mailbox>, subs: seq<Subscription>, origin: seq<nat>)
  {
    && |subs| == |mailboxes| && |origin| == |subscribers|
    && (forall i, j :: 0 <= i < j < |mailboxes| ==> mailboxes[i] != mailboxes[j])
    && (forall k, l :: 0 <= k < l < |origin| ==> origin[k] < origin[l])
    && (forall k :: 0 <= k < |origin| ==>
          && origin[k] < |mailboxes| && subs[origin[k]].attached
          && subscribers[k] == Subscriber(mailboxes[origin[k]], subs[origin[k]].filter))
    && (forall i :: 0 <= i < |subs| && subs[i].attached ==> i in origin)
  }

  /** A mailbox is where its subscriber, followed alone through the run, should be. */
  ghost predicate Follows(mailbox: Mailbox, sub: Subscription, done: seq<BusOp>, who: nat)
    reads mailbox
  {
    && mailbox.Valid() && mailbox.View() == sub.box && mailbox.receiverAlive == sub.receiverAlive
    && mailbox.nextSequence <= |done| && (|done| <= U128_MAX ==> !mailbox.shared)
    && (!mailbox.shared ==> Alone(done, who) == Some(sub))
  }

  ghost predicate AllFollow(mailboxes: seq<Mailbox>, subs: seq<Subscription>, done: seq<BusOp>)
    reads mailboxes
  {
    |subs| == |mailboxes| && forall i :: 0 <= i < |mailboxes| ==> Follows(mailboxes[i], subs[i], done, i)
  }

  ghost predicate AllPrepared(
      steps: seq<Step>, subs: seq<Subscription>, origin: seq<nat>, done: seq<BusOp>, turn: Turn)
  {
    && |steps| == |origin|
    && forall k :: 0 <= k < |origin| ==>
         origin[k] < |subs| && Prepared(steps[k], subs[origin[k]], done, origin[k], turn)
  }

  /** What is known of a subscriber before its turn. */
  ghost predicate Prepared(step: Step, sub: Subscription, done: seq<BusOp>, who: nat, turn: Turn) {
    && step.to == TakeTurn(sub, turn)
    && step.number <= |done| && (|done| <= U128_MAX ==> !step.shared)
    && (!step.shared ==> Alone(done, who) == Some(sub))
  }

  ghost function IndexOf(origin: seq<nat>, i: nat): (k: nat)
    requires i in origin
    ensures k < |origin| && origin[k] == i
  {
    var k: nat :| k < |origin| && origin[k] == i;
    k
  }

  ghost function TurnedSubs(subs: seq<Subscription>, origin: seq<nat>, after: seq<Subscription>): seq<Subscription>
    requires |after| == |origin|
  {
    seq(|subs|, i requires 0 <= i < |subs| => if i in origin then after[IndexOf(origin, i)] else subs[i])
  }

  ghost function KeptOrigin(origin: seq<nat>, kept: seq<nat>): seq<nat>
    requires forall k :: 0 <= k < |kept| ==> kept[k] < |origin|
  {
    seq(|kept|, k requires 0 <= k < |kept| => origin[kept[k]])
  }

  lemma PrepareAll(
      subscribers: seq<Subscriber>, mailboxes: seq<Mailbox>, subs: seq<Subscription>, origin: seq<nat>,
      done: seq<BusOp>, turn: Turn)
    requires Linked(subscribers, mailboxes, subs, origin) && AllFollow(mailboxes, subs, done)
    ensures AllPrepared(Steps(subscribers, turn), subs, origin, done, turn)
    ensures |subs| == |mailboxes| && forall s :: s in subscribers ==> s.mailbox in mailboxes
    ensures forall i :: 0 <= i < |mailboxes| && i !in origin ==>
              Follows(mailboxes[i], subs[i], done, i) && mailboxes[i] !in set s <- subscribers :: s.mailbox
  {
    hide TakeTurn, Alone, Mailbox.Valid;
    forall k | 0 <= k < |origin|
      ensures Prepared(Steps(subscribers, turn)[k], subs[origin[k]], done, origin[k], turn)
    {
      assert Follows(mailboxes[origin[k]], subs[origin[k]], done, origin[k]);
      assert Subscribed(subscribers[k]) == subs[origin[k]];
    }
  }

  lemma FollowAll(
      before: seq<Subscriber>, mailboxes: seq<Mailbox>, subs: seq<Subscription>, origin: seq<nat>,
      after: seq<Subscription>, steps: seq<Step>, done: seq<BusOp>, turn: Turn)
    requires Linked(before, mailboxes, subs, origin)
    requires forall i :: 0 <= i < |mailboxes| && i !in origin ==> Follows(mailboxes[i], subs[i], done, i)
    requires AllTurned(before, after, steps) && AllPrepared(steps, subs, origin, done, turn)
    ensures |after| == |origin|
    ensures AllFollow(mailboxes, TurnedSubs(subs, origin, after), done + [BusOp.Everyone(turn)])
  {
    hide Turned, Prepared, Follows, Alone;
    var turned := TurnedSubs(subs, origin, after);
    forall i | 0 <= i < |mailboxes| ensures Follows(mailboxes[i], turned[i], done + [BusOp.Everyone(turn)], i) {
      if i in origin {
        var k := IndexOf(origin, i);
        FollowsTurn(mailboxes[i], after[k], steps[k], subs[i], done, i, turn);
      } else {
        FollowsIdle(mailboxes[i], subs[i], done, i, turn);
      }
    }
  }

  lemma FollowsTurn(
      mailbox: Mailbox, after: Subscription, step: Step, sub: Subscription, done: seq<BusOp>, who: nat, turn: Turn)
    requires Turned(mailbox, after, step) && Prepared(step, sub, done, who, turn)
    ensures Follows(mailbox, after, done + [BusOp.Everyone(turn)], who)
  {
    hide TakeTurn, Alone, Mailbox.Valid;
    AloneMore(done, BusOp.Everyone(turn), who);
  }

  lemma FollowsIdle(mailbox: Mailbox, sub: Subscription, done: seq<BusOp>, who: nat, turn: Turn)
    requires Follows(mailbox, sub, done, who) && !sub.attached
    ensures Follows(mailbox, sub, done + [BusOp.Everyone(turn)], who)
  {
    hide Alone, Mailbox.Valid;
    AloneMore(done, BusOp.Everyone(turn), who);
  }

  /** The list after a turn still names the attached subscribers. */
  lemma LinkedAfter(
      before: seq<Subscriber>, mailboxes: seq<Mailbox>, subs: seq<Subscription>, origin: seq<nat>,
      after: seq<Subscription>, kept: seq<nat>, remaining: seq<Subscriber>)
    requires Linked(before, mailboxes, subs, origin) && Stayed(before, after, kept, remaining)
    ensures |after| == |origin| && forall k :: 0 <= k < |kept| ==> kept[k] < |origin|
    ensures Linked(remaining, mailboxes, TurnedSubs(subs, origin, after), KeptOrigin(origin, kept))
  {
    var (turned, left) := (TurnedSubs(subs, origin, after), KeptOrigin(origin, kept));
    forall k | 0 <= k < |origin| ensures turned[origin[k]] == after[k] {
      assert origin[k] in origin;
      var l := IndexOf(origin, origin[k]);
      assert l == k;
    }
    forall i | 0 <= i < |turned| && turned[i].attached ensures i in left {
      var k := IndexOf(origin, i);
      assert after[k].attached;
      var m :| 0 <= m < |kept| && kept[m] == k;
      assert left[m] == i;
    }
  }

  lemma LinkedJoin(
      before: seq<Subscriber>, mailboxes: seq<Mailbox>, subs: seq<Subscription>, origin: seq<nat>, mailbox: Mailbox,
      filter: Filter)
    requires Linked(before, mailboxes, subs, origin) && mailbox !in mailboxes
    ensures Linked(before + [Subscriber(mailbox, filter)], mailboxes + [mailbox], subs + [Fresh(filter)],
                   origin + [|mailboxes|])
  {
    var more := origin + [|mailboxes|];
    forall i | 0 <= i <= |subs| && (subs + [Fresh(filter)])[i].attached ensures i in more {
      if i < |subs| {
        assert i in origin;
      } else {
        assert more[|origin|] == i;
      }
    }
  }

  lemma FollowJoin(
      mailboxes: seq<Mailbox>, subs: seq<Subscription>, done: seq<BusOp>, mailbox: Mailbox, filter: Filter)
    requires AllFollow(mailboxes, subs, done) && |mailboxes| == Subscribers(done)
    requires mailbox.Valid() && Subscribed(Subscriber(mailbox, filter)) == Fresh(filter)
    requires mailbox.nextSequence == 0 && !mailbox.shared
    ensures AllFollow(mailboxes + [mailbox], subs + [Fresh(filter)], done + [Subscribe(filter)])
  {
    hide Alone, Subscribers, Mailbox.Valid;
    var op := Subscribe(filter);
    forall i | 0 <= i <= |mailboxes|
      ensures Follows((mailboxes + [mailbox])[i], (subs + [Fresh(filter)])[i], done + [op], i)
    {
      AloneMore(done, op, i);
      AloneExists(done, i);
      if i < |mailboxes| {
        assert Follows(mailboxes[i], subs[i], done, i);
      }
    }
  }

  // ----- A subscriber's own operations -----

  lemma OthersFollow(
      subscribers: seq<Subscriber>, mailboxes: seq<Mailbox>, subs: seq<Subscription>, origin: seq<nat>,
      done: seq<BusOp>, who: nat)
    requires Linked(subscribers, mailboxes, subs, origin) && AllFollow(mailboxes, subs, done)
    requires Separate(subscribers) && who < |mailboxes|
    ensures |subs| == |mailboxes| && FollowsOwn(mailboxes[who], subs[who], subs[who], done, who)
    ensures forall i :: 0 <= i < |mailboxes| && i != who ==>
              Follows(mailboxes[i], subs[i], done, i) && mailboxes[i] != mailboxes[who]
    ensures mailboxes[who].Valid() && mailboxes[who].View() == subs[who].box
    ensures OthersSeparate(subscribers, mailboxes[who])
  {
    hide Alone, Mailbox.Valid;
  }

  /** The subscribers with another mailbox, or none, are as they should be. */
  ghost predicate OthersSeparate(subscribers: seq<Subscriber>, mailbox: Mailbox)
    reads set s <- subscribers | s.mailbox != mailbox :: s.mailbox
  {
    && (forall i, j :: 0 <= i < j < |subscribers| ==> subscribers[i].mailbox != subscribers[j].mailbox)
    && (forall s :: s in subscribers && s.mailbox != mailbox ==> s.mailbox.Valid())
  }

  lemma SeparateStill(subscribers: seq<Subscriber>, mailboxes: seq<Mailbox>, who: nat)
    requires who < |mailboxes| && OthersSeparate(subscribers, mailboxes[who]) && mailboxes[who].Valid()
    ensures Separate(subscribers)
  {
    hide Mailbox.Valid;
  }

  lemma LinkedOwn(
      subscribers: seq<Subscriber>, mailboxes: seq<Mailbox>, subs: seq<Subscription>, origin: seq<nat>, who: nat,
      own: Subscription)
    requires Linked(subscribers, mailboxes, subs, origin) && who < |mailboxes|
    requires own.attached == subs[who].attached && own.filter == subs[who].filter
    ensures Linked(subscribers, mailboxes, subs[who := own], origin)
  {
  }

  lemma FollowOwn(mailboxes: seq<Mailbox>, subs: seq<Subscription>, done: seq<BusOp>, who: nat, op: BusOp)
    requires |subs| == |mailboxes| && who < |mailboxes|
    requires forall i :: 0 <= i < |mailboxes| && i != who ==> Follows(mailboxes[i], subs[i], done, i)
    requires op == BusOp.Receive(who) || op == BusOp.DropReceiver(who)
    requires FollowsOwn(mailboxes[who], subs[who], Own(subs[who], op), done, who)
    ensures AllFollow(mailboxes, subs[who := Own(subs[who], op)], done + [op])
    ensures Subscribers(done + [op]) == Subscribers(done)
  {
    hide Alone, Subscribers, Mailbox.Valid, PlainPop;
    AloneMore(done, op, who);
    forall i | 0 <= i < |mailboxes|
      ensures Follows(mailboxes[i], subs[who := Own(subs[who], op)][i], done + [op], i)
    {
      AloneMore(done, op, i);
      if i != who {
        assert Follows(mailboxes[i], subs[i], done, i);
        OthersKeep(mailboxes[i], subs[i], done, i, op);
      }
    }
  }

  /** The mailbox has done its own operation; the run has not been told yet. */
  ghost predicate FollowsOwn(mailbox: Mailbox, sub: Subscription, own: Subscription, done: seq<BusOp>, who: nat)
    reads mailbox
  {
    && mailbox.Valid() && mailbox.View() == own.box && mailbox.receiverAlive == own.receiverAlive
    && mailbox.nextSequence <= |done| && (|done| <= U128_MAX ==> !mailbox.shared)
    && (!mailbox.shared ==> Alone(done, who) == Some(sub))
  }

  lemma OthersKeep(mailbox: Mailbox, sub: Subscription, done: seq<BusOp>, i: nat, op: BusOp)
    requires Follows(mailbox, sub, done, i) && !op.Everyone? && !Mine(done, op, i)
    ensures Follows(mailbox, sub, done + [op], i)
  {
    hide Alone, Mailbox.Valid;
    AloneMore(done, op, i);
  }
}
