/**
 * The per-subscriber mailbox (event_bus.rs:42-50, 217-366).  Its three stores are proved to be one plain queue: what
 * popping them dry would deliver.
 */
module EventBus {
  import opened Prelude
  import opened MuxEvents
  import opened EventStores

  datatype Received = Event(event: MuxEvent) | NothingYet | Disconnected

  class Mailbox {
    var nextSequence: nat
    var events: seq<Entry>
    var coalescedSequences: map<CoalescedKey, nat>
    var coalesced: map<nat, Coalesced>
    var closed: bool
    var overflowed: bool
    /** Whether the receiver still holds the mailbox; the broadcaster only holds it weakly. */
    var receiverAlive: bool
    /** The one list that the stores represent, until two keyed events have met on one number. */
    ghost var list: seq<Entry>
    ghost var shared: bool

    ghost function Held(): Stores
      reads this
    {
      Stores(events, coalesced, coalescedSequences)
    }

    ghost predicate Valid()
      reads this
    {
      && nextSequence <= U128_MAX
      && (!shared ==> Holds(list, Held()) && Numbered(list, nextSequence) && |list| <= MAX_PENDING_EVENTS)
    }

    /** The plain queue: what popping would deliver. */
    ghost function View(): Plain
      reads this
    {
      Plain(Drain(events, coalesced), closed, overflowed)
    }

    constructor ()
      ensures Valid() && View() == Plain([], false, false) && receiverAlive && nextSequence == 0 && !shared
    {
      nextSequence, events, coalescedSequences, coalesced := 0, [], map[], map[];
      closed, overflowed, receiverAlive, list, shared := false, false, true, [], false;
    }

    method Close()
      requires Valid()
      modifies this`closed
      ensures Valid() && View() == old(View()).(closed := true)
    {
      closed := true;
    }

    /** Claims room for one more pending event; without room the mailbox closes and remembers the overflow. */
    method ReservePendingSlot() returns (ok: bool)
      modifies this`closed, this`overflowed
      ensures ok <==> HasRoom(Held())
      ensures closed == (old(closed) || !ok) && overflowed == (old(overflowed) || !ok)
    {
      if |events| + |coalesced| < MAX_PENDING_EVENTS {
        return true;
      }
      closed, overflowed := true, true;
      return false;
    }

    method DiscardCoalesced(key: CoalescedKey)
      modifies this`coalesced, this`coalescedSequences
      ensures Held() == Discarded(old(Held()), key)
    {
      if key in coalescedSequences {
        coalesced := coalesced - {coalescedSequences[key]};
        coalescedSequences := coalescedSequences - {key};
      }
    }

    method DiscardSurfaceState(surface: SurfaceId)
      modifies this`coalesced, this`coalescedSequences
      ensures Held() == DiscardedSurface(old(Held()), surface)
    {
      DiscardCoalesced(TitleKey(surface));
      DiscardCoalesced(OutputKey(surface));
      DiscardCoalesced(ScrollKey(surface));
    }

    method PushCoalesced(sequence: nat, key: CoalescedKey, event: MuxEvent) returns (ok: bool)
      modifies this`coalesced, this`coalescedSequences, this`closed, this`overflowed
      ensures StoresPush(Held(), ok) == KeyedStores(old(Held()), sequence, key, event)
      ensures closed == (old(closed) || !ok) && overflowed == (old(overflowed) || !ok)
    {
      if key in coalescedSequences {
        coalesced := coalesced - {coalescedSequences[key]};
      } else {
        ok := ReservePendingSlot();
        if !ok {
          return;
        }
      }
      coalescedSequences := coalescedSequences[key := sequence];
      coalesced := coalesced[sequence := Coalesced(key, event)];
      ok := true;
    }

    method PushOrdinary(sequence: nat, event: MuxEvent) returns (ok: bool)
      modifies this`events, this`closed, this`overflowed
      ensures StoresPush(Held(), ok) == AppendStores(old(Held()), sequence, event)
      ensures closed == (old(closed) || !ok) && overflowed == (old(overflowed) || !ok)
    {
      ok := ReservePendingSlot();
      if ok {
        events := events + [Entry(sequence, event)];
      }
    }

    method KeepTerminals(sequence: nat)
      modifies this`events, this`coalesced, this`coalescedSequences
      ensures Held() == EmptyStores(old(Held()), sequence)
    {
      var terminalEvents := LastEntries(KeepEntries(events, TerminalOnly), MAX_PENDING_EVENTS - 1);
      coalescedSequences, coalesced := map[], map[];
      events := terminalEvents + [Entry(sequence, Empty)];
    }

    /** The push proper, once the number is drawn. */
    method Store(sequence: nat, event: MuxEvent) returns (ok: bool)
      modifies this`events, this`coalesced, this`coalescedSequences, this`closed, this`overflowed
      ensures StoresPush(Held(), ok) == PushStores(old(Held()), sequence, event)
      ensures closed == (old(closed) || !ok) && overflowed == (old(overflowed) || !ok)
    {
      hide DiscardedSurface, KeyedStores, EmptyStores, AppendStores;
      if KeyOf(event).Some? {
        ok := PushCoalesced(sequence, KeyOf(event).value, event);
      } else if event.SurfaceExited? {
        DiscardSurfaceState(event.surface);
        ok := PushOrdinary(sequence, event);
      } else if event.Empty? {
        KeepTerminals(sequence);
        ok := true;
      } else {
        ok := PushOrdinary(sequence, event);
      }
    }

    /** A push is one push on the plain queue, with the same answer, exactly as long as no accepted push has met its
        own number on another key's event; below the last number that cannot happen. */
    method Push(event: MuxEvent) returns (ok: bool)
      requires Valid()
      modifies this
      ensures Valid() && receiverAlive == old(receiverAlive)
      ensures nextSequence == if old(closed) then old(nextSequence) else SatAdd(old(nextSequence), 1, U128_MAX)
      ensures old(closed) ==> !ok && Held() == old(Held())
      ensures !old(closed) ==> StoresPush(Held(), ok) == PushStores(old(Held()), old(nextSequence), event)
      ensures closed == (old(closed) || !ok) && overflowed == (old(overflowed) || (!old(closed) && !ok))
      ensures shared == (old(shared) || (!old(closed) && Collides(old(Held()), old(nextSequence), event)))
      ensures old(nextSequence) < U128_MAX ==> shared == old(shared)
      ensures !old(shared) ==> (Pushed(View(), ok) == PlainPush(old(View()), event) <==> !shared)
    {
      hide Holds, Drain, PushStores, Collides, PushedList, Numbered, PlainPush;
      if closed {
        ClosedPush(View(), event);
        return false;
      }
      var sequence := nextSequence;
      ghost var before := Held();
      if !shared {
        PushOnStores(list, before, sequence, event, overflowed);
      }
      nextSequence := SatAdd(nextSequence, 1, U128_MAX);
      ok := Store(sequence, event);
      if !shared {
        list := PushedList(list, before, sequence, event);
      }
      shared := shared || Collides(before, sequence, event);
    }

    /** Pop takes the head of the plain queue, wherever it is stored, in every state. */
    method Pop() returns (event: Option<MuxEvent>)
      requires Valid()
      modifies this`events, this`coalesced, this`coalescedSequences, this`list
      ensures Valid() && View() == PlainPop(old(View()))
      ensures event == if old(View()).queue == [] then None else Some(old(View()).queue[0])
    {
      hide Represents;
      if !shared {
        NothingStored(list, events, coalesced, coalescedSequences);
        if list != [] {
          PopHead(list, events, coalesced, coalescedSequences);
          RestNumbered(list, nextSequence);
        }
      }
      var eventSequence := if events == [] then None else Some(events[0].sequence);
      var coalescedSequence := FirstKey(coalesced);
      if eventSequence.None? && coalescedSequence.None? {
        return None;
      }
      var next :=
        if eventSequence.None? then coalescedSequence.value
        else if coalescedSequence.None? then eventSequence.value
        else Min(eventSequence.value, coalescedSequence.value);
      if eventSequence == Some(next) {
        event := Some(events[0].event);
        events := events[1..];
      } else {
        var entry := coalesced[next];
        event := Some(entry.event);
        coalesced := coalesced - {next};
        coalescedSequences := coalescedSequences - {entry.key};
      }
      if !shared {
        list := list[1..];
      }
    }

    /** A pending event, or whether more can still come: what was accepted stays readable after closing. */
    method TryRecv() returns (received: Received)
      requires Valid()
      modifies this`events, this`coalesced, this`coalescedSequences, this`list
      ensures Valid() && View() == PlainPop(old(View()))
      ensures received == if old(View()).queue != [] then Event(old(View()).queue[0])
                          else if old(closed) then Disconnected
                          else NothingYet
    {
      var event := Pop();
      received := if event.Some? then Event(event.value) else if closed then Disconnected else NothingYet;
    }

    /** The receiver goes away; the broadcaster notices at its next turn. */
    method DropReceiver()
      requires Valid()
      modifies this`receiverAlive
      ensures Valid() && View() == old(View()) && !receiverAlive
    {
      receiverAlive := false;
    }
  }

  /** Every number in use is drawn already; only the last one is drawn again and again. */
  ghost predicate Numbered(list: seq<Entry>, next: nat) {
    && AtMost(list, next)
    && (next < U128_MAX ==> forall e :: e in list ==> e.sequence < next)
  }

  lemma NumberedIsAtMost(list: seq<Entry>, next: nat)
    requires Numbered(list, next)
    ensures AtMost(list, next)
  {
  }

  lemma NumberedAfter(list: seq<Entry>, sequence: nat)
    requires AtMost(list, sequence) && sequence <= U128_MAX
    ensures Numbered(list, SatAdd(sequence, 1, U128_MAX))
  {
  }

  lemma RestNumbered(list: seq<Entry>, next: nat)
    requires list != [] && Numbered(list, next)
    ensures Numbered(list[1..], next)
  {
  }

  /** Numbers meet only at the last one. */
  lemma CollisionIsLast(list: seq<Entry>, st: Stores, sequence: nat, event: MuxEvent)
    requires Holds(list, st) && Numbered(list, sequence) && Collides(st, sequence, event) && sequence <= U128_MAX
    ensures sequence == U128_MAX
  {
    hide KeyOf, KeepEntries;
    if KeyOf(event).None? && event.SurfaceExited? {
      DiscardedSurfacePart(st, event.surface, sequence);
    }
    assert Entry(sequence, st.coalesced[sequence].event) in list;
  }

  lemma DiscardedSurfacePart(st: Stores, surface: SurfaceId, sequence: nat)
    ensures sequence in DiscardedSurface(st, surface).coalesced ==> sequence in st.coalesced
  {
  }

  /** What one push means, whether or not it meets another number. */
  lemma PushOnStores(list: seq<Entry>, st: Stores, sequence: nat, event: MuxEvent, overflowed: bool)
    requires Holds(list, st) && Numbered(list, sequence) && |list| <= MAX_PENDING_EVENTS && sequence <= U128_MAX
    ensures Collides(st, sequence, event) ==> sequence == U128_MAX
    ensures var push := PushStores(st, sequence, event);
            var after := PushedList(list, st, sequence, event);
            && (!Collides(st, sequence, event) ==>
                  Holds(after, push.stores) && Numbered(after, SatAdd(sequence, 1, U128_MAX))
                  && |after| <= MAX_PENDING_EVENTS)
            && (Pushed(Plain(Drain(push.stores.events, push.stores.coalesced), !push.accepted,
                             overflowed || !push.accepted), push.accepted)
                == PlainPush(Plain(Drain(st.events, st.coalesced), false, overflowed), event)
                <==> !Collides(st, sequence, event))
  {
    hide Holds, Drain, PushStores, Collides, PushedList, Numbered, PlainPush;
    NumberedIsAtMost(list, sequence);
    PushRefinesIffNumberIsFree(list, st, sequence, event, overflowed);
    PlainFlags(Plain(Drain(st.events, st.coalesced), false, overflowed), event);
    if Collides(st, sequence, event) {
      CollisionIsLast(list, st, sequence, event);
    } else {
      FreePushRefines(list, st, sequence, event, overflowed);
      NumberedAfter(PushedList(list, st, sequence, event), sequence);
    }
  }

  lemma ClosedPush(box: Plain, event: MuxEvent)
    requires box.closed
    ensures PlainPush(box, event) == Pushed(box, false)
  {
  }

  lemma PlainFlags(box: Plain, event: MuxEvent)
    requires !box.closed
    ensures var pushed := PlainPush(box, event);
            pushed.box.closed == !pushed.accepted && pushed.box.overflowed == (box.overflowed || !pushed.accepted)
  {
  }

  /** Smallest sequence of the ordered map. */
  method FirstKey(coalesced: map<nat, Coalesced>) returns (first: Option<nat>)
    ensures first.None? <==> coalesced == map[]
    ensures coalesced != map[] ==> first == Some(Least(coalesced))
  {
    if coalesced == map[] {
      return None;
    }
    SmallestExists(coalesced.Keys);
    var s: nat :| s in coalesced && forall other :: other in coalesced ==> s <= other;
    return Some(s);
  }
}
