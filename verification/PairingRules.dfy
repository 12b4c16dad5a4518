/** When each pairing operation answers what, told by the requests and times themselves (pairing.rs:89-225). */
module PairingRules {
  import opened Prelude
  import opened Pairing
  import opened PairingRuns

  /** Ids of the requests that have not expired. */
  function LiveIds(b: Broker, now: Time): set<nat> {
    set id | id in b.pending && now < b.pending[id].expiresAt
  }

  /** Times of one peer's requests, oldest first. */
  ghost predicate Sorted(times: seq<Time>) {
    forall i, j :: 0 <= i < j < |times| ==> times[i] <= times[j]
  }

  /** How many of the times lie less than a minute back. */
  function CountRecent(times: seq<Time>, now: Time): nat {
    if times == [] then 0
    else CountRecent(times[1..], now) + (if now < times[0] + 60_000 then 1 else 0)
  }

  lemma {:induction false} LiveTimesAreRecent(times: seq<Time>, now: Time)
    requires Sorted(times)
    ensures |LiveTimes(times, now)| == CountRecent(times, now)
    ensures forall t :: t in LiveTimes(times, now) <==> t in times && now < t + 60_000
  {
    if times != [] {
      if times[0] + RATE_WINDOW <= now {
        LiveTimesAreRecent(times[1..], now);
      } else {
        AllRecent(times, now);
      }
    }
  }

  lemma {:induction false} AllRecent(times: seq<Time>, now: Time)
    requires forall i :: 0 <= i < |times| ==> now < times[i] + 60_000
    ensures CountRecent(times, now) == |times|
  {
    if times != [] {
      AllRecent(times[1..], now);
    }
  }

  lemma {:induction false} LiveCredentialsMembers(credentials: seq<Credential>, now: Time)
    ensures forall c :: c in LiveCredentials(credentials, now) <==> c in credentials && now < c.expiresAt
  {
    if credentials != [] {
      var last := |credentials| - 1;
      LiveCredentialsMembers(credentials[..last], now);
      assert credentials == credentials[..last] + [credentials[last]];
    }
  }

  /** Pruning keeps exactly the requests and credentials that have not expired and the times of the last minute, and no
      peer without one. */
  lemma PruningKeepsTheLive(b: Broker, now: Time)
    requires forall peer :: peer in b.recent ==> Sorted(b.recent[peer])
    ensures var p := Pruned(b, now);
            && p.pending.Keys == LiveIds(b, now) && (forall id :: id in p.pending ==> p.pending[id] == b.pending[id])
            && (forall c :: c in p.credentials <==> c in b.credentials && now < c.expiresAt)
            && (forall peer, t ::
                  t in RecentOf(p, peer) <==> t in RecentOf(b, peer) && now < t + 60_000)
            && (forall peer :: peer in p.recent ==> p.recent[peer] != [])
  {
    hide LiveTimes, LiveCredentials;
    LiveCredentialsMembers(b.credentials, now);
    forall peer, t: nat ensures t in RecentOf(Pruned(b, now), peer) <==> t in RecentOf(b, peer) && now < t + 60_000 {
      LiveTimesAreRecent(RecentOf(b, peer), now);
      PrunedTimesAreLive(b, now, peer);
    }
  }

  // ----- Requests -----

  /** The draw at i is the first that can serve as an id, and another follows for the code. */
  ghost predicate FirstUsable(draws: seq<nat>, i: nat, used: set<nat>) {
    && i + 1 < |draws| && draws[i] != 0 && draws[i] !in used
    && forall j :: 0 <= j < i ==> draws[j] == 0 || draws[j] in used
  }

  lemma {:induction false} DrawIsFirstUsable(draws: seq<nat>, pending: map<nat, Request>) returns (i: nat)
    ensures var drawn := DrawChallenge(draws, pending);
            && (drawn.Some? ==>
                  && FirstUsable(draws, i, pending.Keys)
                  && drawn.value == (draws[i], draws[i + 1] % 1_000_000))
            && (drawn.None? ==> forall k :: !FirstUsable(draws, k, pending.Keys))
  {
    i := 0;
    if |draws| >= 2 && (draws[0] == 0 || draws[0] in pending) {
      var k := DrawIsFirstUsable(draws[1..], pending);
      i := k + 1;
      forall k: nat | FirstUsable(draws, k, pending.Keys)
        ensures k > 0 && FirstUsable(draws[1..], k - 1, pending.Keys)
      {
      }
    }
  }

  /** What speaks against a request, in the order in which it is looked at. */
  ghost predicate PeerIsWaiting(b: Broker, now: Time, peer: Peer) {
    exists id :: id in LiveIds(b, now) && b.pending[id].peer == peer
  }

  /** Main result on requests: each refusal exactly when its reason holds and none before it, and otherwise a request
      under the first draw that is neither zero nor in use, with a code below a million, open for a minute. */
  lemma RequestIsDecidedExactly(b: Broker, now: Time, peer: Peer, draws: seq<nat>) returns (i: nat)
    requires Sorted(RecentOf(b, peer))
    ensures var (began, live) := (BeginStep(b, now, peer, draws), LiveIds(b, now));
            var (waiting, full) := (PeerIsWaiting(b, now, peer), |live| >= 16);
            var limited := CountRecent(RecentOf(b, peer), now) >= 5;
            && (began.outcome.AlreadyPending? <==> waiting)
            && (began.outcome.Busy? <==> !waiting && full)
            && (began.outcome.RateLimited? <==> !waiting && !full && limited)
            && (began.outcome.RandomnessUnavailable?
                <==> !waiting && !full && !limited && forall k :: !FirstUsable(draws, k, live))
            && (began.outcome.Challenge? ==>
                  && FirstUsable(draws, i, live)
                  && began.outcome == Challenge(draws[i], draws[i + 1] % 1_000_000)
                  && began.broker.pending
                     == Pruned(b, now).pending[draws[i] := Request(peer, draws[i + 1] % 1_000_000, now + 60_000)])
            && (!began.outcome.Challenge? ==> began.broker.pending == Pruned(b, now).pending)
            && began.broker.credentials == Pruned(b, now).credentials
  {
    hide LiveTimes, DrawChallenge, FirstUsable, CountRecent, LiveCredentials, LiveRecent, Sorted;
    var p := Pruned(b, now);
    LiveAreKept(b, now);
    i := DrawIsFirstUsable(draws, p.pending);
    LiveTimesAreRecent(RecentOf(b, peer), now);
    PrunedTimesAreLive(b, now, peer);
    WaitingIsPending(b, now, peer);
  }

  lemma LiveAreKept(b: Broker, now: Time)
    ensures Pruned(b, now).pending.Keys == LiveIds(b, now) && |Pruned(b, now).pending| == |LiveIds(b, now)|
  {
    assert Pruned(b, now).pending.Keys == LiveIds(b, now);
  }

  lemma WaitingIsPending(b: Broker, now: Time, peer: Peer)
    ensures HasPending(Pruned(b, now).pending, peer) <==> PeerIsWaiting(b, now, peer)
  {
    if id :| id in LiveIds(b, now) && b.pending[id].peer == peer {
      assert id in Pruned(b, now).pending;
    }
  }

  // ----- Answers -----

  /** Main result on answers: only a live request is answered; an approval that cannot draw or commit changes nothing
      more than pruning; otherwise the request is gone, and exactly an approval issues one credential, valid for eight
      hours, as the last of at most 64. */
  lemma AnswerIsDecidedExactly(
      b: Broker, now: Time, id: nat, approve: bool, credential: Option<seq<Byte>>, commitOk: bool)
    ensures var (answered, p) := (RespondStep(b, now, id, approve, credential, commitOk), Pruned(b, now));
            var (live, possible) := (id in LiveIds(b, now), commitOk && (approve ==> credential.Some?));
            && (answered.outcome.NotPending? <==> !live)
            && (answered.outcome.Failed? <==> live && !possible)
            && (answered.outcome.Denied? <==> live && possible && !approve)
            && (answered.outcome.Approved? <==> live && possible && approve)
            && (!live || !possible ==> answered.broker == p)
            && (live && possible ==>
                  && answered.broker.pending == p.pending - {id} && answered.broker.recent == p.recent
                  && (!approve ==> answered.broker.credentials == p.credentials)
                  && (approve ==>
                        var all := p.credentials + [Credential(credential.value, now + 28_800_000)];
                        answered.broker.credentials == if |all| <= 64 then all else all[|all| - 64..]))
  {
    hide LiveTimes, LiveCredentials, LiveRecent;
    LiveAreKept(b, now);
  }

  // ----- In runs -----

  /** In order, and none later than the clock. */
  ghost predicate SortedUpTo(times: seq<Time>, clock: Time) {
    Sorted(times) && forall i :: 0 <= i < |times| ==> times[i] <= clock
  }

  lemma SortedEnd(times: seq<Time>, clock: Time, k: nat, now: Time)
    requires SortedUpTo(times, clock) && clock <= now && k <= |times|
    ensures SortedUpTo(times[k..], now) && SortedUpTo(times[k..] + [now], now)
  {
    forall i, j | 0 <= i < j < |times| - k ensures times[k..][i] <= times[k..][j] <= now {
      assert times[k + i] <= times[k + j];
    }
  }

  lemma SortedPart(times: seq<Time>, clock: Time, now: Time)
    requires SortedUpTo(times, clock) && clock <= now
    ensures SortedUpTo(LiveTimes(times, now), now) && SortedUpTo(LiveTimes(times, now) + [now], now)
    ensures SortedUpTo(times, now)
  {
    hide SortedUpTo, LiveTimes;
    SortedEnd(times, clock, |times| - |LiveTimes(times, now)|, now);
    SortedEnd(times, clock, 0, now);
    assert times[0..] == times;
  }

  /** In every run with non-decreasing time each peer's remembered times are in order, as the rules above ask. */
  lemma {:induction false} RememberedTimesAreSorted(calls: seq<Timed>, peer: Peer)
    requires Ordered(calls)
    ensures SortedUpTo(RecentOf(After(calls).broker, peer), Clock(calls))
  {
    if calls != [] {
      hide Step, LiveTimes, RecentOf, SortedUpTo;
      var (earlier, last) := (calls[..|calls| - 1], calls[|calls| - 1]);
      var before := After(earlier);
      OrderedPrefix(calls);
      RememberedTimesAreSorted(earlier, peer);
      RecentEffect(before, last, peer);
      SortedPart(RecentOf(before.broker, peer), Clock(earlier), last.at);
    }
  }
}
