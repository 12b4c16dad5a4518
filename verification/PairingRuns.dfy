/** Whole runs of the pairing broker with non-decreasing time (pairing.rs:89-226). */
module PairingRuns {
  import opened Prelude
  import opened Pairing

  datatype Call =
    | BeginCall(peer: Peer, draws: seq<nat>)
    | RespondCall(id: nat, approve: bool, credential: Option<seq<Byte>>, commitOk: bool)
    | CancelCall(id: nat)
    | AuthenticateCall(provided: seq<Byte>)

  datatype Timed = Timed(at: Time, call: Call)

  datatype Event =
    | Opened(id: nat, peer: Peer, at: Time)
    | Answered(id: nat, at: Time)
    | Cancelled(id: nat, at: Time)

  /** The broker with a log of what happened to challenges and every credential ever issued. */
  datatype Run = Run(broker: Broker, log: seq<Event>, issued: seq<Credential>)

  function Step(run: Run, timed: Timed): Run {
    var now := timed.at;
    match timed.call
    case BeginCall(peer, draws) =>
      var began := BeginStep(run.broker, now, peer, draws);
      Run(began.broker,
          if began.outcome.Challenge? then run.log + [Opened(began.outcome.id, peer, now)] else run.log,
          run.issued)
    case RespondCall(id, approve, credential, commitOk) =>
      var responded := RespondStep(run.broker, now, id, approve, credential, commitOk);
      Run(responded.broker,
          if responded.outcome in {Approved, Denied} then run.log + [Answered(id, now)] else run.log,
          if responded.outcome == Approved then run.issued + [Credential(credential.value, now + CREDENTIAL_TTL)]
          else run.issued)
    case CancelCall(id) =>
      Run(run.broker.(pending := run.broker.pending - {id}),
          if id in run.broker.pending then run.log + [Cancelled(id, now)] else run.log, run.issued)
    case AuthenticateCall(_) => run.(broker := Pruned(run.broker, now))
  }

  function After(calls: seq<Timed>): Run {
    if calls == [] then Run(Broker(map[], map[], []), [], [])
    else Step(After(calls[..|calls| - 1]), calls[|calls| - 1])
  }

  ghost predicate Ordered(calls: seq<Timed>) {
    forall i, j :: 0 <= i < j < |calls| ==> calls[i].at <= calls[j].at
  }

  function Clock(calls: seq<Timed>): Time {
    if calls == [] then 0 else calls[|calls| - 1].at
  }

  lemma OrderedPrefix(calls: seq<Timed>)
    requires Ordered(calls) && calls != []
    ensures Ordered(calls[..|calls| - 1]) && Clock(calls[..|calls| - 1]) <= Clock(calls)
  {
  }

  // ----- Pending requests -----

  ghost predicate PendingSound(pending: map<nat, Request>) {
    && |pending| <= MAX_PENDING
    && forall a, b :: a in pending && b in pending && a != b ==> pending[a].peer != pending[b].peer
  }

  lemma PartSound(small: map<nat, Request>, large: map<nat, Request>)
    requires PendingSound(large) && PartOf(small, large)
    ensures PendingSound(small)
  {
    SubsetSize(small.Keys, large.Keys);
  }

  ghost predicate PartOf(small: map<nat, Request>, large: map<nat, Request>) {
    small.Keys <= large.Keys && forall id :: id in small ==> small[id] == large[id]
  }

  /** A successful request: an unused id for a peer without a live request, while there is room. */
  ghost predicate Opens(before: map<nat, Request>, after: map<nat, Request>, now: Time, id: nat, peer: Peer) {
    exists live :: OpensAmong(live, before, after, now, id, peer)
  }

  ghost predicate OpensAmong(
      live: map<nat, Request>, before: map<nat, Request>, after: map<nat, Request>, now: Time, id: nat, peer: Peer)
  {
    && PartOf(live, before) && id !in live && !HasPending(live, peer) && |live| < MAX_PENDING
    && id in after && after[id].peer == peer && after[id].expiresAt == now + CHALLENGE_TTL
    && after == live[id := after[id]]
  }

  /** An answer removes a pending request that has not expired. */
  ghost predicate Answers(before: map<nat, Request>, after: map<nat, Request>, now: Time, id: nat) {
    && PartOf(after, before) && id !in after
    && id in before && now < before[id].expiresAt
  }

  /** What a step does to the pending requests, by what it adds to the log. */
  lemma PendingEffect(run: Run, timed: Timed)
    ensures var next := Step(run, timed);
            var (before, after) := (run.broker.pending, next.broker.pending);
            || (next.log == run.log && PartOf(after, before))
            || (&& |next.log| == |run.log| + 1 && next.log == run.log + [next.log[|run.log|]]
                && var event := next.log[|run.log|];
                   && event.at == timed.at
                   && match event
                      case Opened(id, peer, _) => Opens(before, after, timed.at, id, peer)
                      case Answered(id, _) => Answers(before, after, timed.at, id)
                      case Cancelled(id, _) => PartOf(after, before) && id !in after)
  {
    hide BeginStep, RespondStep, PartOf, Opens, Answers;
    PrunedIsPart(run.broker, timed.at);
    match timed.call
    case BeginCall(peer, draws) => BeginEffect(run.broker, timed.at, peer, draws);
    case RespondCall(id, approve, credential, commitOk) =>
      RespondEffect(run.broker, timed.at, id, approve, credential, commitOk);
    case CancelCall(id) => CancelledIsPart(run.broker.pending, id);
    case AuthenticateCall(_) =>
  }

  lemma PrunedIsPart(b: Broker, now: Time)
    ensures PartOf(Pruned(b, now).pending, b.pending)
    ensures forall id :: id in Pruned(b, now).pending ==> now < b.pending[id].expiresAt
  {
  }

  lemma CancelledIsPart(pending: map<nat, Request>, id: nat)
    ensures PartOf(pending - {id}, pending) && id !in pending - {id} && (id !in pending ==> pending - {id} == pending)
  {
  }

  lemma BeginEffect(b: Broker, now: Time, peer: Peer, draws: seq<nat>)
    ensures var began := BeginStep(b, now, peer, draws);
            if began.outcome.Challenge? then Opens(b.pending, began.broker.pending, now, began.outcome.id, peer)
            else PartOf(began.broker.pending, b.pending)
  {
    hide Pruned, PartOf, HasPending, DrawChallenge, LiveTimes, RecentOf;
    var pruned := Pruned(b, now).pending;
    PrunedIsPart(b, now);
    DrawnIdIsFree(draws, pruned);
    var began := BeginStep(b, now, peer, draws);
    if began.outcome.Challenge? {
      assert OpensAmong(pruned, b.pending, began.broker.pending, now, began.outcome.id, peer);
    }
  }

  lemma RespondEffect(
      b: Broker, now: Time, id: nat, approve: bool, credential: Option<seq<Byte>>, commitOk: bool)
    ensures var responded := RespondStep(b, now, id, approve, credential, commitOk);
            if responded.outcome in {Approved, Denied} then Answers(b.pending, responded.broker.pending, now, id)
            else PartOf(responded.broker.pending, b.pending)
  {
    hide Pruned, LastCredentials;
    PrunedIsPart(b, now);
  }

  lemma OpenedSound(before: map<nat, Request>, after: map<nat, Request>, now: Time, id: nat, peer: Peer)
    requires PendingSound(before) && Opens(before, after, now, id, peer)
    ensures PendingSound(after)
  {
    var live :| OpensAmong(live, before, after, now, id, peer);
    assert after.Keys == live.Keys + {id};
  }

  /** At every moment at most one request per peer, and at most sixteen overall, are pending. */
  lemma {:induction false} AtMostOnePendingPerPeer(calls: seq<Timed>)
    ensures PendingSound(After(calls).broker.pending)
  {
    hide Step, PendingSound, Opens;
    if calls == [] {
      NothingPending();
    } else {
      var (before, timed) := (After(calls[..|calls| - 1]), calls[|calls| - 1]);
      var after := Step(before, timed);
      AtMostOnePendingPerPeer(calls[..|calls| - 1]);
      PendingEffect(before, timed);
      if PartOf(after.broker.pending, before.broker.pending) {
        PartSound(after.broker.pending, before.broker.pending);
      } else {
        var event := after.log[|before.log|];
        OpenedSound(before.broker.pending, after.broker.pending, timed.at, event.id, event.peer);
      }
    }
  }

  lemma NothingPending()
    ensures PendingSound(map[])
  {
  }

  lemma {:induction false} DrawnIdIsFree(draws: seq<nat>, pending: map<nat, Request>)
    ensures var drawn := DrawChallenge(draws, pending);
            drawn.Some? ==> drawn.value.0 != 0 && drawn.value.0 !in pending && drawn.value.1 < 1_000_000
  {
    if |draws| >= 2 && (draws[0] == 0 || draws[0] in pending) {
      DrawnIdIsFree(draws[1..], pending);
    }
  }

  // ----- Each challenge is answered at most once, and in time -----

  /** The latest log entry about an id. */
  function LastAbout(log: seq<Event>, id: nat): Option<Event> {
    if log == [] then None
    else if log[|log| - 1].id == id then Some(log[|log| - 1])
    else LastAbout(log[..|log| - 1], id)
  }

  lemma LastAboutMore(log: seq<Event>, event: Event, id: nat)
    ensures LastAbout(log + [event], id) == if event.id == id then Some(event) else LastAbout(log, id)
  {
    assert (log + [event])[..|log|] == log;
  }

  /** Every pending request was opened, and nothing has happened to it since. */
  ghost predicate PendingIsOpen(run: Run, clock: Time) {
    forall id :: id in run.broker.pending ==> OpenSince(run.log, id, run.broker.pending[id], clock)
  }

  /** An answer directly follows the opening of its challenge, within the challenge's life time. */
  ghost predicate AnswersOpenChallenge(log: seq<Event>, j: nat)
    requires j < |log|
  {
    log[j].Answered? ==>
      var last := LastAbout(log[..j], log[j].id);
      last.Some? && last.value.Opened? && last.value.at <= log[j].at < last.value.at + CHALLENGE_TTL
  }

  ghost predicate AnswersSound(log: seq<Event>) {
    forall j :: 0 <= j < |log| ==> AnswersOpenChallenge(log, j)
  }

  lemma LogMore(log: seq<Event>, event: Event)
    requires AnswersSound(log)
    requires event.Answered? ==>
               var last := LastAbout(log, event.id);
               last.Some? && last.value.Opened? && last.value.at <= event.at < last.value.at + CHALLENGE_TTL
    ensures AnswersSound(log + [event])
  {
    var more := log + [event];
    assert more[..|log|] == log;
    forall j | 0 <= j < |log| ensures AnswersOpenChallenge(more, j) {
      assert AnswersOpenChallenge(log, j);
      assert more[..j] == log[..j];
    }
  }

  /** The opening that a pending request still stands on. */
  ghost predicate OpenSince(log: seq<Event>, id: nat, request: Request, clock: Time) {
    var last := LastAbout(log, id);
    && last.Some? && last.value.Opened?
    && last.value == Opened(id, request.peer, last.value.at)
    && request.expiresAt == last.value.at + CHALLENGE_TTL
    && last.value.at <= clock
  }

  lemma StepKeepsAnswers(run: Run, timed: Timed, clock: Time)
    requires PendingIsOpen(run, clock) && AnswersSound(run.log) && clock <= timed.at
    ensures PendingIsOpen(Step(run, timed), timed.at) && AnswersSound(Step(run, timed).log)
  {
    hide Step, LastAbout, AnswersSound;
    PendingEffect(run, timed);
    var next := Step(run, timed);
    if next.log != run.log {
      var event := next.log[|run.log|];
      LogMore(run.log, event);
      forall id | id in next.broker.pending ensures OpenSince(next.log, id, next.broker.pending[id], timed.at) {
        LastAboutMore(run.log, event, id);
      }
    }
  }

  /** Main result: in every run, each answer is the first thing that happens to a challenge after it was opened, and
      comes before the challenge expires; so no challenge is answered twice. */
  lemma {:induction false} ChallengesAnsweredAtMostOnce(calls: seq<Timed>)
    requires Ordered(calls)
    ensures PendingIsOpen(After(calls), Clock(calls)) && AnswersSound(After(calls).log)
  {
    if calls != [] {
      OrderedPrefix(calls);
      ChallengesAnsweredAtMostOnce(calls[..|calls| - 1]);
      StepKeepsAnswers(After(calls[..|calls| - 1]), calls[|calls| - 1], Clock(calls[..|calls| - 1]));
    }
  }

  // ----- The sliding window -----

  /** When a peer's accepted requests were made. */
  function OpenTimes(log: seq<Event>, peer: Peer): seq<Time> {
    if log == [] then []
    else
      var last := log[|log| - 1];
      OpenTimes(log[..|log| - 1], peer) + (if last.Opened? && last.peer == peer then [last.at] else [])
  }

  /** Any five steps forward in the list span at least one window. */
  ghost predicate Spaced(times: seq<Time>) {
    forall i, j :: 0 <= i && i + MAX_REQUESTS_PER_WINDOW <= j < |times| ==> times[i] + RATE_WINDOW <= times[j]
  }

  /** The remembered times are the latest accepted ones; the forgotten ones have left the window. */
  ghost predicate Remembered(recent: seq<Time>, times: seq<Time>, clock: Time) {
    && |recent| <= |times| && recent == times[|times| - |recent|..]
    && (forall i :: 0 <= i < |times| - |recent| ==> times[i] + RATE_WINDOW <= clock)
  }

  lemma RememberedAfterPrune(recent: seq<Time>, times: seq<Time>, clock: Time, now: Time)
    requires Remembered(recent, times, clock) && clock <= now
    ensures Remembered(LiveTimes(recent, now), times, now)
  {
    var live := LiveTimes(recent, now);
    forall i | 0 <= i < |times| - |live| ensures times[i] + RATE_WINDOW <= now {
      if i >= |times| - |recent| {
        assert times[i] == recent[i - (|times| - |recent|)];
      }
    }
  }

  lemma AcceptedIsSpaced(recent: seq<Time>, times: seq<Time>, now: Time)
    requires Remembered(recent, times, now) && Spaced(times) && |recent| < MAX_REQUESTS_PER_WINDOW
    ensures Remembered(recent + [now], times + [now], now) && Spaced(times + [now])
  {
  }

  /** What a step does to a peer's remembered times. */
  lemma RecentEffect(run: Run, timed: Timed, peer: Peer)
    ensures var next := Step(run, timed);
            var (recent, live) := (RecentOf(run.broker, peer), LiveTimes(RecentOf(run.broker, peer), timed.at));
            || (&& OpenTimes(next.log, peer) == OpenTimes(run.log, peer)
                && (RecentOf(next.broker, peer) == recent || RecentOf(next.broker, peer) == live))
            || (&& OpenTimes(next.log, peer) == OpenTimes(run.log, peer) + [timed.at]
                && |live| < MAX_REQUESTS_PER_WINDOW
                && RecentOf(next.broker, peer) == live + [timed.at])
  {
    hide LiveTimes, BeginStep, RespondStep, RecentOf, OpenTimes, Pruned;
    match timed.call
    case BeginCall(other, draws) =>
      BeginTimes(run.broker, timed.at, other, draws, peer);
      BeginLog(run, timed, peer);
    case RespondCall(id, approve, credential, commitOk) =>
      RespondTimes(run.broker, timed.at, id, approve, credential, commitOk, peer);
      if Step(run, timed).log != run.log {
        OpenTimesMore(run.log, Answered(id, timed.at), peer);
      }
    case CancelCall(id) =>
      SameRecent(run.broker, run.broker.(pending := run.broker.pending - {id}), peer);
      OpenTimesMore(run.log, Cancelled(id, timed.at), peer);
    case AuthenticateCall(_) => PrunedTimesAreLive(run.broker, timed.at, peer);
  }

  lemma SameRecent(b: Broker, other: Broker, peer: Peer)
    requires b.recent == other.recent
    ensures RecentOf(b, peer) == RecentOf(other, peer)
  {
  }

  lemma RecentAfterUpdate(b: Broker, peer: Peer, times: seq<Time>, who: Peer)
    ensures RecentOf(b.(recent := b.recent[peer := times]), who) == if who == peer then times else RecentOf(b, who)
  {
  }

  lemma AdmitTimes(p: Broker, now: Time, peer: Peer, draws: seq<nat>, who: Peer)
    ensures var (began, live) := (AdmitStep(p, now, peer, draws), LiveTimes(RecentOf(p, peer), now));
            RecentOf(began.broker, who) == if peer != who then RecentOf(p, who)
                                           else if began.outcome.Challenge? then live + [now] else live
    ensures AdmitStep(p, now, peer, draws).outcome.Challenge? ==>
              |LiveTimes(RecentOf(p, peer), now)| < MAX_REQUESTS_PER_WINDOW
  {
    hide LiveTimes, DrawChallenge, RecentOf;
    var times := LiveTimes(RecentOf(p, peer), now);
    RecentAfterUpdate(p, peer, times, who);
    RecentAfterUpdate(p, peer, times + [now], who);
    SameRecent(AdmitStep(p, now, peer, draws).broker,
               p.(recent := AdmitStep(p, now, peer, draws).broker.recent), who);
  }

  lemma BeginTimes(b: Broker, now: Time, peer: Peer, draws: seq<nat>, who: Peer)
    ensures var (began, live) := (BeginStep(b, now, peer, draws), LiveTimes(RecentOf(b, who), now));
            if began.outcome.Challenge? && peer == who then
              |live| < MAX_REQUESTS_PER_WINDOW && RecentOf(began.broker, who) == live + [now]
            else RecentOf(began.broker, who) == live
  {
    hide LiveTimes, BeginStep, AdmitStep, Pruned, RecentOf;
    PrunedTimesAreLive(b, now, who);
    BeginPrunes(b, now, peer, draws);
    if BeginStep(b, now, peer, draws) == AdmitStep(Pruned(b, now), now, peer, draws) {
      AdmitTimes(Pruned(b, now), now, peer, draws, who);
    }
  }

  lemma BeginPrunes(b: Broker, now: Time, peer: Peer, draws: seq<nat>)
    ensures var began := BeginStep(b, now, peer, draws);
            || began == AdmitStep(Pruned(b, now), now, peer, draws)
            || (began.broker == Pruned(b, now) && !began.outcome.Challenge?)
  {
    hide HasPending, AdmitStep, Pruned;
  }

  lemma BeginLog(run: Run, timed: Timed, who: Peer)
    requires timed.call.BeginCall?
    ensures var began := BeginStep(run.broker, timed.at, timed.call.peer, timed.call.draws);
            OpenTimes(Step(run, timed).log, who)
            == OpenTimes(run.log, who)
               + (if began.outcome.Challenge? && timed.call.peer == who then [timed.at] else [])
  {
    hide BeginStep, OpenTimes;
    var began := BeginStep(run.broker, timed.at, timed.call.peer, timed.call.draws);
    if began.outcome.Challenge? {
      OpenTimesMore(run.log, Opened(began.outcome.id, timed.call.peer, timed.at), who);
    }
  }

  lemma RespondTimes(
      b: Broker, now: Time, id: nat, approve: bool, credential: Option<seq<Byte>>, commitOk: bool, who: Peer)
    ensures RecentOf(RespondStep(b, now, id, approve, credential, commitOk).broker, who)
            == LiveTimes(RecentOf(b, who), now)
  {
    hide LiveTimes, LastCredentials, Pruned;
    PrunedTimesAreLive(b, now, who);
  }

  lemma StepKeepsWindow(run: Run, timed: Timed, clock: Time, peer: Peer)
    requires clock <= timed.at
    requires Remembered(RecentOf(run.broker, peer), OpenTimes(run.log, peer), clock)
    requires Spaced(OpenTimes(run.log, peer))
    ensures var next := Step(run, timed);
            && Remembered(RecentOf(next.broker, peer), OpenTimes(next.log, peer), timed.at)
            && Spaced(OpenTimes(next.log, peer))
  {
    hide Step, LiveTimes, OpenTimes, Remembered, Spaced, RecentOf;
    var (recent, times) := (RecentOf(run.broker, peer), OpenTimes(run.log, peer));
    RecentEffect(run, timed, peer);
    RememberedLater(recent, times, clock, timed.at);
    RememberedAfterPrune(recent, times, clock, timed.at);
    if |LiveTimes(recent, timed.at)| < MAX_REQUESTS_PER_WINDOW {
      AcceptedIsSpaced(LiveTimes(recent, timed.at), times, timed.at);
    }
  }

  lemma RememberedLater(recent: seq<Time>, times: seq<Time>, clock: Time, now: Time)
    requires Remembered(recent, times, clock) && clock <= now
    ensures Remembered(recent, times, now)
  {
  }

  lemma OpenTimesMore(log: seq<Event>, event: Event, peer: Peer)
    ensures OpenTimes(log + [event], peer)
            == OpenTimes(log, peer) + (if event.Opened? && event.peer == peer then [event.at] else [])
  {
    assert (log + [event])[..|log|] == log;
  }

  lemma {:induction false} WindowInvariant(calls: seq<Timed>, peer: Peer)
    requires Ordered(calls)
    ensures Remembered(RecentOf(After(calls).broker, peer), OpenTimes(After(calls).log, peer), Clock(calls))
    ensures Spaced(OpenTimes(After(calls).log, peer))
  {
    if calls != [] {
      OrderedPrefix(calls);
      WindowInvariant(calls[..|calls| - 1], peer);
      StepKeepsWindow(After(calls[..|calls| - 1]), calls[|calls| - 1], Clock(calls[..|calls| - 1]), peer);
    }
  }

  /** Main result: accepted requests of one peer that lie within one sixty-second window number at most five. */
  lemma {:induction false} AtMostFivePerWindow(calls: seq<Timed>, peer: Peer, i: nat, j: nat)
    requires Ordered(calls)
    requires var times := OpenTimes(After(calls).log, peer);
             i <= j < |times| && times[j] < times[i] + RATE_WINDOW
    ensures j - i + 1 <= MAX_REQUESTS_PER_WINDOW
  {
    WindowInvariant(calls, peer);
  }

  // ----- Credentials -----

  ghost predicate SortedByExpiry(credentials: seq<Credential>) {
    forall i, j :: 0 <= i < j < |credentials| ==> credentials[i].expiresAt <= credentials[j].expiresAt
  }

  lemma {:induction false} NoneLive(credentials: seq<Credential>, now: Time)
    requires forall i :: 0 <= i < |credentials| ==> credentials[i].expiresAt <= now
    ensures LiveCredentials(credentials, now) == []
  {
    if credentials != [] {
      NoneLive(credentials[..|credentials| - 1], now);
    }
  }

  ghost predicate LiveSuffix(live: seq<Credential>, credentials: seq<Credential>, now: Time) {
    && |live| <= |credentials| && live == credentials[|credentials| - |live|..]
    && (forall i :: 0 <= i < |credentials| - |live| ==> credentials[i].expiresAt <= now)
  }

  lemma LiveSuffixMore(live: seq<Credential>, credentials: seq<Credential>, more: Credential, now: Time)
    requires LiveSuffix(live, credentials, now)
    ensures LiveSuffix(live + [more], credentials + [more], now)
  {
  }

  lemma {:induction false} LiveIsSuffix(credentials: seq<Credential>, now: Time)
    requires SortedByExpiry(credentials)
    ensures LiveSuffix(LiveCredentials(credentials, now), credentials, now)
  {
    if credentials == [] || credentials[|credentials| - 1].expiresAt <= now {
      NoneLive(credentials, now);
    } else {
      hide LiveSuffix;
      var last := |credentials| - 1;
      LiveIsSuffix(credentials[..last], now);
      LiveSuffixMore(LiveCredentials(credentials[..last], now), credentials[..last], credentials[last], now);
      assert credentials == credentials[..last] + [credentials[last]];
    }
  }

  /** The kept credentials are the last issued ones that have not expired. */
  ghost predicate KeptLast(kept: seq<Credential>, issued: seq<Credential>, clock: Time) {
    && SortedByExpiry(issued)
    && LiveSuffix(kept, LastCredentials(issued), clock)
    && (forall c :: c in issued ==> c.expiresAt <= clock + CREDENTIAL_TTL)
  }

  lemma KeptAfterPrune(kept: seq<Credential>, issued: seq<Credential>, clock: Time, now: Time)
    requires KeptLast(kept, issued, clock) && clock <= now
    ensures KeptLast(LiveCredentials(kept, now), issued, now)
  {
    hide LiveCredentials, LiveSuffix, SortedByExpiry;
    KeptIsSorted(kept, issued, clock);
    LiveIsSuffix(kept, now);
    SuffixOfSuffix(LiveCredentials(kept, now), kept, LastCredentials(issued), clock, now);
  }

  lemma KeptIsSorted(kept: seq<Credential>, issued: seq<Credential>, clock: Time)
    requires KeptLast(kept, issued, clock)
    ensures SortedByExpiry(kept)
  {
  }

  lemma SuffixOfSuffix(
      live: seq<Credential>, kept: seq<Credential>, last: seq<Credential>, clock: Time, now: Time)
    requires LiveSuffix(live, kept, now) && LiveSuffix(kept, last, clock) && clock <= now
    ensures LiveSuffix(live, last, now)
  {
    forall i | 0 <= i < |last| - |live| ensures last[i].expiresAt <= now {
      if i >= |last| - |kept| {
        assert last[i] == kept[i - (|last| - |kept|)];
      }
    }
  }

  lemma LastSize(issued: seq<Credential>)
    ensures |LastCredentials(issued)| == Min(|issued|, MAX_CREDENTIALS)
  {
  }

  lemma SuffixMore(issued: seq<Credential>, issue: Credential, n: nat)
    requires n < |issued|
    ensures (issued + [issue])[n + 1..] == issued[n..][1..] + [issue]
  {
  }

  lemma LastMore(issued: seq<Credential>, issue: Credential)
    ensures LastCredentials(issued + [issue])
            == if |issued| < MAX_CREDENTIALS then LastCredentials(issued) + [issue]
               else LastCredentials(issued)[1..] + [issue]
    ensures |LastCredentials(issued)| == Min(|issued|, MAX_CREDENTIALS)
  {
    LastSize(issued);
    if |issued| >= MAX_CREDENTIALS {
      SuffixMore(issued, issue, |issued| - MAX_CREDENTIALS);
    }
  }

  lemma SortedMore(issued: seq<Credential>, issue: Credential)
    requires SortedByExpiry(issued) && forall c :: c in issued ==> c.expiresAt <= issue.expiresAt
    ensures SortedByExpiry(issued + [issue])
  {
  }

  lemma KeptAfterIssue(kept: seq<Credential>, issued: seq<Credential>, now: Time, issue: Credential)
    requires KeptLast(kept, issued, now) && issue.expiresAt == now + CREDENTIAL_TTL
    ensures KeptLast(LastCredentials(kept + [issue]), issued + [issue], now)
  {
    hide LastCredentials, SortedByExpiry;
    SortedMore(issued, issue);
    LastMore(issued, issue);
    LastMore(kept, issue);
    assert LastCredentials(kept) == kept by { ShortKept(kept); }
    var (last, more, after) :=
      (LastCredentials(issued), LastCredentials(issued + [issue]), LastCredentials(kept + [issue]));
    if |kept| == MAX_CREDENTIALS {
      assert kept == last;
    } else {
      assert after == kept + [issue];
      if |issued| < MAX_CREDENTIALS {
        assert more[|more| - |after|..] == last[|last| - |kept|..] + [issue];
      } else {
        assert more[|more| - |after|..] == last[|last| - |kept|..] + [issue];
        assert forall i :: 0 <= i < |more| - |after| ==> more[i] == last[i + 1];
      }
    }
  }

  lemma ShortKept(kept: seq<Credential>)
    requires |kept| <= MAX_CREDENTIALS
    ensures LastCredentials(kept) == kept
  {
  }

  /** What a step does to the credentials. */
  lemma CredentialEffect(run: Run, timed: Timed)
    ensures var next := Step(run, timed);
            var live := LiveCredentials(run.broker.credentials, timed.at);
            || (&& next.issued == run.issued
                && (next.broker.credentials == run.broker.credentials || next.broker.credentials == live))
            || (&& |next.issued| == |run.issued| + 1
                && var issue := next.issued[|run.issued|];
                   && next.issued == run.issued + [issue] && issue.expiresAt == timed.at + CREDENTIAL_TTL
                   && next.broker.credentials == LastCredentials(live + [issue]))
  {
    hide LiveTimes, LiveCredentials, LiveRecent, LastCredentials, DrawChallenge, HasPending;
  }

  lemma KeptLater(kept: seq<Credential>, issued: seq<Credential>, clock: Time, now: Time)
    requires KeptLast(kept, issued, clock) && clock <= now
    ensures KeptLast(kept, issued, now)
  {
  }

  lemma {:induction false} CredentialInvariant(calls: seq<Timed>)
    requires Ordered(calls)
    ensures KeptLast(After(calls).broker.credentials, After(calls).issued, Clock(calls))
  {
    hide Step, KeptLast, LiveCredentials, LastCredentials;
    if calls == [] {
      NothingKept();
    } else {
      var (before, timed) := (After(calls[..|calls| - 1]), calls[|calls| - 1]);
      var (kept, clock) := (before.broker.credentials, Clock(calls[..|calls| - 1]));
      OrderedPrefix(calls);
      CredentialInvariant(calls[..|calls| - 1]);
      CredentialEffect(before, timed);
      KeptLater(kept, before.issued, clock, timed.at);
      KeptAfterPrune(kept, before.issued, clock, timed.at);
      var next := Step(before, timed);
      if |next.issued| == |before.issued| + 1 {
        KeptAfterIssue(LiveCredentials(kept, timed.at), before.issued, timed.at, next.issued[|before.issued|]);
      }
    }
  }

  lemma NothingKept()
    ensures KeptLast([], [], 0)
  {
  }

  /** Main result: a provided value authenticates exactly when it is among the last 64 issued credentials and has not
      expired; at most 64 are kept. */
  lemma {:induction false} AuthenticationIsExact(calls: seq<Timed>, now: Time, provided: seq<Byte>)
    requires Ordered(calls) && Clock(calls) <= now
    ensures |After(calls).broker.credentials| <= MAX_CREDENTIALS
    ensures Authenticates(After(calls).broker, now, provided)
            <==> HoldsLive(LastCredentials(After(calls).issued), provided, now)
  {
    CredentialInvariant(calls);
    KeptAuthenticates(After(calls).broker, After(calls).issued, Clock(calls), now, provided);
  }

  ghost predicate HoldsLive(credentials: seq<Credential>, provided: seq<Byte>, now: Time) {
    exists c :: c in credentials && c.value == provided && now < c.expiresAt
  }

  lemma KeptAuthenticates(b: Broker, issued: seq<Credential>, clock: Time, now: Time, provided: seq<Byte>)
    requires KeptLast(b.credentials, issued, clock) && clock <= now
    ensures |b.credentials| <= MAX_CREDENTIALS
    ensures Authenticates(b, now, provided) <==> HoldsLive(LastCredentials(issued), provided, now)
  {
    hide LiveCredentials, LastCredentials, Authenticates, HoldsLive;
    var (kept, last) := (b.credentials, LastCredentials(issued));
    assert |last| <= MAX_CREDENTIALS by { LastMore(issued, Credential([], 0)); }
    LiveHolds(b, now, provided);
    var gone := last[..|last| - |kept|];
    assert last == gone + kept;
    ExpiredHoldNothing(gone, kept, provided, now);
  }

  lemma LiveHolds(b: Broker, now: Time, provided: seq<Byte>)
    ensures Authenticates(b, now, provided) <==> HoldsLive(b.credentials, provided, now)
  {
    hide LiveCredentials;
    LiveCredentialsMembers(b.credentials, now);
    var live := LiveCredentials(b.credentials, now);
    if c :| c in b.credentials && c.value == provided && now < c.expiresAt {
      assert c in live;
      var i :| 0 <= i < |live| && live[i] == c;
    }
    if i :| 0 <= i < |live| && live[i].value == provided {
      assert live[i] in live;
    }
  }

  lemma ExpiredHoldNothing(gone: seq<Credential>, kept: seq<Credential>, provided: seq<Byte>, now: Time)
    requires forall i :: 0 <= i < |gone| ==> gone[i].expiresAt <= now
    ensures HoldsLive(gone + kept, provided, now) <==> HoldsLive(kept, provided, now)
  {
    forall c | c in gone ensures c.expiresAt <= now {
    }
  }
}
