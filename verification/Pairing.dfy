/**
 * The pairing broker (pairing.rs): a sliding-window request limiter, pending challenges and issued
 * credentials.  Time is a number of milliseconds handed in by the caller; random draws are inputs.
 */
module Pairing {
  import opened Prelude

  const CHALLENGE_TTL: nat := 60_000
  const CREDENTIAL_TTL: nat := 28_800_000
  const RATE_WINDOW: nat := 60_000
  const MAX_REQUESTS_PER_WINDOW: nat := 5
  const MAX_PENDING: nat := 16
  const MAX_CREDENTIALS: nat := 64

  type Peer = nat
  type Time = nat
  type Byte = n: nat | n < 256

  datatype Request = Request(peer: Peer, code: nat, expiresAt: Time)
  datatype Credential = Credential(value: seq<Byte>, expiresAt: Time)

  /** The broker's three collections as one value. */
  datatype Broker = Broker(pending: map<nat, Request>, recent: map<Peer, seq<Time>>, credentials: seq<Credential>)

  // ----- Pruning -----

  /** Times that have left the window are popped from the front. */
  function LiveTimes(times: seq<Time>, now: Time): (live: seq<Time>)
    ensures |live| <= |times| && live == times[|times| - |live|..]
    ensures forall i :: 0 <= i < |times| - |live| ==> times[i] + RATE_WINDOW <= now
    ensures live != [] ==> now < live[0] + RATE_WINDOW
  {
    if times != [] && times[0] + RATE_WINDOW <= now then LiveTimes(times[1..], now) else times
  }

  function LiveCredentials(credentials: seq<Credential>, now: Time): seq<Credential> {
    if credentials == [] then []
    else
      var last := |credentials| - 1;
      LiveCredentials(credentials[..last], now)
      + (if credentials[last].expiresAt > now then [credentials[last]] else [])
  }

  /** The live times of the given peers; a peer without any is forgotten. */
  function LiveRecent(recent: map<Peer, seq<Time>>, peers: set<Peer>, now: Time): map<Peer, seq<Time>> {
    map peer | peer in recent && peer in peers && LiveTimes(recent[peer], now) != [] :: LiveTimes(recent[peer], now)
  }

  function Pruned(b: Broker, now: Time): Broker {
    Broker(
      map id | id in b.pending && b.pending[id].expiresAt > now :: b.pending[id],
      LiveRecent(b.recent, b.recent.Keys, now),
      LiveCredentials(b.credentials, now))
  }

  function RecentOf(b: Broker, peer: Peer): seq<Time> {
    if peer in b.recent then b.recent[peer] else []
  }

  // ----- One step of each operation -----

  datatype BeginOutcome = AlreadyPending | Busy | RateLimited | RandomnessUnavailable | Challenge(id: nat, code: nat)

  /** The first draw that can serve as an id, and the draw after it for the code. */
  function DrawChallenge(draws: seq<nat>, pending: map<nat, Request>): Option<(nat, nat)> {
    if |draws| < 2 then None
    else if draws[0] != 0 && draws[0] !in pending then Some((draws[0], draws[1] % 1_000_000))
    else DrawChallenge(draws[1..], pending)
  }

  predicate HasPending(pending: map<nat, Request>, peer: Peer) {
    exists id :: id in pending && pending[id].peer == peer
  }

  datatype Began = Began(broker: Broker, outcome: BeginOutcome)

  function BeginStep(b: Broker, now: Time, peer: Peer, draws: seq<nat>): Began {
    var p := Pruned(b, now);
    if HasPending(p.pending, peer) then Began(p, AlreadyPending)
    else if |p.pending| >= MAX_PENDING then Began(p, Busy)
    else AdmitStep(p, now, peer, draws)
  }

  /** The rate limit and the draws, for a peer without a pending request while there is room. */
  function AdmitStep(p: Broker, now: Time, peer: Peer, draws: seq<nat>): Began {
    var times := LiveTimes(RecentOf(p, peer), now);
    var entered := p.(recent := p.recent[peer := times]);
    var drawn := DrawChallenge(draws, p.pending);
    if |times| >= MAX_REQUESTS_PER_WINDOW then Began(entered, RateLimited)
    else if drawn.None? then Began(entered, RandomnessUnavailable)
    else
      var (id, code) := drawn.value;
      Began(Broker(p.pending[id := Request(peer, code, now + CHALLENGE_TTL)], p.recent[peer := times + [now]],
                   p.credentials),
            Challenge(id, code))
  }

  datatype RespondOutcome = NotPending | Failed | Denied | Approved
  datatype Responded = Responded(broker: Broker, outcome: RespondOutcome)

  function LastCredentials(credentials: seq<Credential>): seq<Credential> {
    if |credentials| <= MAX_CREDENTIALS then credentials else credentials[|credentials| - MAX_CREDENTIALS..]
  }

  /** `credential` is the drawn value, if randomness was available; `commitOk` is what the durable commit reports. */
  function RespondStep(
      b: Broker, now: Time, id: nat, approve: bool, credential: Option<seq<Byte>>, commitOk: bool): Responded
  {
    var p := Pruned(b, now);
    if id !in p.pending then Responded(p, NotPending)
    else if (approve && credential.None?) || !commitOk then Responded(p, Failed)
    else
      var rest := p.pending - {id};
      if approve then
        var issued := Credential(credential.value, now + CREDENTIAL_TTL);
        Responded(p.(pending := rest, credentials := LastCredentials(p.credentials + [issued])), Approved)
      else Responded(p.(pending := rest), Denied)
  }

  predicate Authenticates(b: Broker, now: Time, provided: seq<Byte>) {
    var live := LiveCredentials(b.credentials, now);
    exists i :: 0 <= i < |live| && live[i].value == provided
  }

  // ----- The broker as the program runs it -----

  class PairingBroker {
    var pending: map<nat, Request>
    var recent: map<Peer, seq<Time>>
    var credentials: seq<Credential>

    function View(): Broker
      reads this
    {
      Broker(pending, recent, credentials)
    }

    constructor ()
      ensures View() == Broker(map[], map[], [])
    {
      pending, recent, credentials := map[], map[], [];
    }

    method Prune(now: Time)
      modifies this
      ensures View() == Pruned(old(View()), now)
    {
      hide LiveTimes, LiveCredentials, LiveRecent;
      pending := map id | id in pending && pending[id].expiresAt > now :: pending[id];
      credentials := RetainCredentials(credentials, now);
      RetainRecent(now);
    }

    method RetainRecent(now: Time)
      modifies this`recent
      ensures recent == LiveRecent(old(recent), old(recent).Keys, now)
    {
      hide LiveTimes, LiveRecent;
      var before := recent;
      var peers := recent.Keys;
      recent := map[];
      LiveRecentNone(before, now);
      while peers != {}
        invariant peers <= before.Keys
        invariant recent == LiveRecent(before, before.Keys - peers, now)
        decreases peers
      {
        var peer :| peer in peers;
        var requests := PopExpired(before[peer], now);
        LiveRecentMore(before, before.Keys - peers, peer, now);
        assert before.Keys - (peers - {peer}) == before.Keys - peers + {peer};
        if requests != [] {
          recent := recent[peer := requests];
        }
        peers := peers - {peer};
      }
      assert before.Keys - peers == before.Keys;
    }

    method Begin(now: Time, peer: Peer, draws: seq<nat>) returns (outcome: BeginOutcome)
      modifies this
      ensures Began(View(), outcome) == BeginStep(old(View()), now, peer, draws)
    {
      hide Pruned, HasPending, AdmitStep;
      Prune(now);
      if HasPending(pending, peer) {
        return AlreadyPending;
      }
      if |pending| >= MAX_PENDING {
        return Busy;
      }
      outcome := Admit(now, peer, draws);
    }

    method Admit(now: Time, peer: Peer, draws: seq<nat>) returns (outcome: BeginOutcome)
      modifies this
      ensures Began(View(), outcome) == AdmitStep(old(View()), now, peer, draws)
    {
      hide LiveTimes, DrawChallenge, RecentOf;
      var requests := PopExpired(RecentOf(View(), peer), now);
      recent := recent[peer := requests];
      if |requests| >= MAX_REQUESTS_PER_WINDOW {
        return RateLimited;
      }
      var drawn := Draw(draws);
      if drawn.None? {
        return RandomnessUnavailable;
      }
      var (id, code) := drawn.value;
      UpdateTwice(old(recent), peer, requests, requests + [now]);
      recent := recent[peer := requests + [now]];
      pending := pending[id := Request(peer, code, now + CHALLENGE_TTL)];
      return Challenge(id, code);
    }

    /** Draws until an id is nonzero and not pending, then draws the code. */
    method Draw(draws: seq<nat>) returns (drawn: Option<(nat, nat)>)
      ensures drawn == DrawChallenge(draws, pending)
    {
      var i := 0;
      while i + 1 < |draws| && (draws[i] == 0 || draws[i] in pending)
        invariant 0 <= i <= |draws|
        invariant DrawChallenge(draws[i..], pending) == DrawChallenge(draws, pending)
      {
        assert draws[i..][1..] == draws[i + 1..];
        i := i + 1;
      }
      drawn := if i + 1 < |draws| then Some((draws[i], draws[i + 1] % 1_000_000)) else None;
    }

    method RespondAfter(now: Time, id: nat, approve: bool, credential: Option<seq<Byte>>, commitOk: bool)
      returns (outcome: RespondOutcome)
      modifies this
      ensures Responded(View(), outcome) == RespondStep(old(View()), now, id, approve, credential, commitOk)
      ensures outcome == Failed ==> View() == Pruned(old(View()), now)
    {
      hide Pruned, LastCredentials;
      Prune(now);
      if id !in pending {
        return NotPending;
      }
      if approve && credential.None? {
        return Failed;
      }
      if !commitOk {
        return Failed;
      }
      pending := pending - {id};
      if !approve {
        return Denied;
      }
      credentials := DropOldest(credentials + [Credential(credential.value, now + CREDENTIAL_TTL)]);
      return Approved;
    }

    method Cancel(id: nat) returns (removed: bool)
      modifies this
      ensures removed <==> id in old(pending)
      ensures View() == old(View()).(pending := old(pending) - {id})
    {
      removed := id in pending;
      pending := pending - {id};
    }

    method Authenticate(now: Time, provided: seq<Byte>) returns (ok: bool)
      modifies this
      ensures ok <==> Authenticates(old(View()), now, provided)
      ensures View() == Pruned(old(View()), now)
    {
      Prune(now);
      ok := false;
      var i := 0;
      while i < |credentials| && !ok
        invariant 0 <= i <= |credentials|
        invariant View() == Pruned(old(View()), now)
        invariant ok <==> exists j :: 0 <= j < i && credentials[j].value == provided
      {
        ok := ConstantTimeEq(provided, credentials[i].value);
        i := i + 1;
      }
    }
  }

  lemma UpdateTwice(recent: map<Peer, seq<Time>>, peer: Peer, once: seq<Time>, twice: seq<Time>)
    ensures recent[peer := once][peer := twice] == recent[peer := twice]
  {
  }

  /** Pops from the front until at most `MAX_CREDENTIALS` are left. */
  method DropOldest(credentials: seq<Credential>) returns (kept: seq<Credential>)
    ensures kept == LastCredentials(credentials)
  {
    kept := credentials;
    while |kept| > MAX_CREDENTIALS
      invariant LastCredentials(kept) == LastCredentials(credentials)
    {
      kept := kept[1..];
    }
  }

  method PopExpired(times: seq<Time>, now: Time) returns (live: seq<Time>)
    ensures live == LiveTimes(times, now)
  {
    live := times;
    while live != [] && live[0] + RATE_WINDOW <= now
      invariant LiveTimes(live, now) == LiveTimes(times, now)
      decreases |live|
    {
      live := live[1..];
    }
  }

  method RetainCredentials(credentials: seq<Credential>, now: Time) returns (live: seq<Credential>)
    ensures live == LiveCredentials(credentials, now)
  {
    live := [];
    var i := 0;
    while i < |credentials|
      invariant 0 <= i <= |credentials|
      invariant live == LiveCredentials(credentials[..i], now)
    {
      assert credentials[..i + 1][..i] == credentials[..i];
      if credentials[i].expiresAt > now {
        live := live + [credentials[i]];
      }
      i := i + 1;
    }
    assert credentials[..i] == credentials;
  }

  // ----- Comparison that always looks at every byte -----

  /** Bitwise exclusive or, from the lowest bit. */
  function Xor(a: nat, b: nat): nat {
    if a == 0 && b == 0 then 0
    else (if a % 2 != b % 2 then 1 else 0) + 2 * Xor(a / 2, b / 2)
  }

  /** Bitwise or, from the lowest bit. */
  function Or(a: nat, b: nat): nat {
    if a == 0 && b == 0 then 0
    else (if a % 2 == 1 || b % 2 == 1 then 1 else 0) + 2 * Or(a / 2, b / 2)
  }

  lemma {:induction false} XorIsZero(a: nat, b: nat)
    ensures Xor(a, b) == 0 <==> a == b
  {
    if a != 0 || b != 0 {
      XorIsZero(a / 2, b / 2);
    }
  }

  lemma {:induction false} OrIsZero(a: nat, b: nat)
    ensures Or(a, b) == 0 <==> a == 0 && b == 0
  {
    if a != 0 || b != 0 {
      OrIsZero(a / 2, b / 2);
    }
  }

  /** Accumulating differences over the longer length answers equality. */
  method ConstantTimeEq(a: seq<Byte>, b: seq<Byte>) returns (equal: bool)
    ensures equal <==> a == b
  {
    var difference := Xor(|a|, |b|);
    var length := Max(|a|, |b|);
    var index := 0;
    XorIsZero(|a|, |b|);
    while index < length
      invariant 0 <= index <= length
      invariant difference == 0 <==> |a| == |b| && forall j :: 0 <= j < index && j < |a| && j < |b| ==> a[j] == b[j]
    {
      var left := if index < |a| then a[index] else 0;
      var right := if index < |b| then b[index] else 0;
      XorIsZero(left, right);
      OrIsZero(difference, Xor(left, right));
      difference := Or(difference, Xor(left, right));
      index := index + 1;
    }
    equal := difference == 0;
  }

  lemma LiveRecentNone(recent: map<Peer, seq<Time>>, now: Time)
    ensures LiveRecent(recent, {}, now) == map[] && recent.Keys - recent.Keys == {}
  {
  }

  lemma LiveRecentMore(recent: map<Peer, seq<Time>>, peers: set<Peer>, peer: Peer, now: Time)
    requires peer in recent && peer !in peers
    ensures LiveRecent(recent, peers + {peer}, now)
            == if LiveTimes(recent[peer], now) == [] then LiveRecent(recent, peers, now)
               else LiveRecent(recent, peers, now)[peer := LiveTimes(recent[peer], now)]
  {
  }

  lemma PrunedTimesAreLive(b: Broker, now: Time, peer: Peer)
    ensures RecentOf(Pruned(b, now), peer) == LiveTimes(RecentOf(b, peer), now)
    ensures LiveTimes(RecentOf(Pruned(b, now), peer), now) == RecentOf(Pruned(b, now), peer)
  {
    LiveTimesTwice(RecentOf(b, peer), now);
  }

  lemma {:induction false} LiveTimesTwice(times: seq<Time>, now: Time)
    ensures LiveTimes(LiveTimes(times, now), now) == LiveTimes(times, now)
  {
    if times != [] && times[0] + RATE_WINDOW <= now {
      LiveTimesTwice(times[1..], now);
    }
  }

  lemma {:induction false} LiveCredentialsMembers(credentials: seq<Credential>, now: Time)
    ensures forall c :: c in LiveCredentials(credentials, now) <==> c in credentials && c.expiresAt > now
  {
    if credentials != [] {
      var last := |credentials| - 1;
      LiveCredentialsMembers(credentials[..last], now);
      assert credentials == credentials[..last] + [credentials[last]];
    }
  }
}
