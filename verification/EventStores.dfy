/**
 * What a mailbox stores (event_bus.rs:42-50, 217-338): a deque of ordinary events, a sequence-ordered map of coalesced
 * events and an index from keys to sequences together represent one list.
 */
module EventStores {
  import opened Prelude
  import opened MuxEvents

  datatype Entry = Entry(sequence: nat, event: MuxEvent)
  datatype Coalesced = Coalesced(key: CoalescedKey, event: MuxEvent)

  function Strip(entries: seq<Entry>): (queue: seq<MuxEvent>)
    ensures |queue| == |entries|
  {
    seq(|entries|, i requires 0 <= i < |entries| => entries[i].event)
  }

  function KeepEntries(entries: seq<Entry>, selector: Selector): (kept: seq<Entry>)
    ensures |kept| <= |entries|
  {
    if entries == [] then []
    else
      var last := |entries| - 1;
      KeepEntries(entries[..last], selector) + (if selector.Selects(entries[last].event) then [entries[last]] else [])
  }

  /** Sequence numbers order the list; after an ordinary entry one number may be shared, because the deque keeps its
      own order and gives way to the map only at smaller numbers. */
  ghost predicate Before(a: Entry, b: Entry) {
    a.sequence < b.sequence || (a.sequence == b.sequence && KeyOf(a.event).None?)
  }

  ghost predicate Ordered(entries: seq<Entry>) {
    forall i, j :: 0 <= i < j < |entries| ==> Before(entries[i], entries[j])
  }

  /** The three stores together hold exactly the entries of one ordered list. */
  ghost predicate Represents(
      contents: seq<Entry>, events: seq<Entry>, coalesced: map<nat, Coalesced>, index: map<CoalescedKey, nat>)
  {
    && Ordered(contents)
    && events == KeepEntries(contents, Uncoalesced)
    && HoldsKeyed(contents, coalesced)
    && InverseMaps(coalesced, index)
    && |events| + |coalesced| == |contents|
  }

  /** The ordered map holds the keyed entries of the list, and nothing else. */
  ghost predicate HoldsKeyed(contents: seq<Entry>, coalesced: map<nat, Coalesced>) {
    && (forall e :: e in contents && KeyOf(e.event).Some? ==>
          e.sequence in coalesced && coalesced[e.sequence] == Coalesced(KeyOf(e.event).value, e.event))
    && (forall s :: s in coalesced ==>
          Entry(s, coalesced[s].event) in contents && KeyOf(coalesced[s].event) == Some(coalesced[s].key))
  }

  /** The key index and the ordered map are exact inverses of each other. */
  ghost predicate InverseMaps(coalesced: map<nat, Coalesced>, index: map<CoalescedKey, nat>) {
    && (forall k :: k in index ==> index[k] in coalesced && coalesced[index[k]].key == k)
    && (forall s :: s in coalesced ==> coalesced[s].key in index && index[coalesced[s].key] == s)
  }

  // ----- Facts about entry lists -----

  lemma StripMore(entries: seq<Entry>, entry: Entry)
    ensures Strip(entries + [entry]) == Strip(entries) + [entry.event]
  {
  }

  lemma {:induction false} StripKeep(entries: seq<Entry>, selector: Selector)
    ensures Strip(KeepEntries(entries, selector)) == Keep(Strip(entries), selector)
  {
    if entries != [] {
      var last := |entries| - 1;
      StripKeep(entries[..last], selector);
      assert Strip(entries)[..last] == Strip(entries[..last]);
    }
  }

  lemma KeepEntriesMore(entries: seq<Entry>, entry: Entry, selector: Selector)
    ensures KeepEntries(entries + [entry], selector)
            == KeepEntries(entries, selector) + (if selector.Selects(entry.event) then [entry] else [])
  {
    assert (entries + [entry])[..|entries|] == entries;
  }

  lemma {:induction false} KeepEntriesMembers(entries: seq<Entry>, selector: Selector)
    ensures forall e :: e in KeepEntries(entries, selector) <==> e in entries && selector.Selects(e.event)
  {
    if entries != [] {
      var last := |entries| - 1;
      KeepEntriesMembers(entries[..last], selector);
      assert entries == entries[..last] + [entries[last]];
    }
  }

  lemma {:induction false} KeepEntriesOrdered(entries: seq<Entry>, selector: Selector)
    requires Ordered(entries)
    ensures Ordered(KeepEntries(entries, selector))
  {
    if entries != [] {
      var last := |entries| - 1;
      KeepEntriesOrdered(entries[..last], selector);
      KeepEntriesMembers(entries[..last], selector);
      var kept := KeepEntries(entries[..last], selector);
      forall i | 0 <= i < |kept| ensures Before(kept[i], entries[last]) {
        assert kept[i] in entries[..last];
      }
    }
  }

  lemma {:induction false} KeepEntriesWithin(entries: seq<Entry>, outer: Selector, inner: Selector)
    requires forall e :: outer.Selects(e) ==> inner.Selects(e)
    ensures KeepEntries(KeepEntries(entries, inner), outer) == KeepEntries(entries, outer)
  {
    if entries != [] {
      var last := |entries| - 1;
      KeepEntriesWithin(entries[..last], outer, inner);
      if inner.Selects(entries[last].event) {
        KeepEntriesMore(KeepEntries(entries[..last], inner), entries[last], outer);
      } else {
        assert !outer.Selects(entries[last].event);
        assert KeepEntries(entries, inner) == KeepEntries(entries[..last], inner);
      }
    }
  }

  lemma {:induction false} KeepAll(entries: seq<Entry>, selector: Selector)
    requires forall e :: e in entries ==> selector.Selects(e.event)
    ensures KeepEntries(entries, selector) == entries
  {
    if entries != [] {
      KeepAll(entries[..|entries| - 1], selector);
    }
  }

  lemma {:induction false} KeepAllBut(entries: seq<Entry>, selector: Selector, i: nat)
    requires i < |entries|
    requires forall j :: 0 <= j < |entries| ==> (selector.Selects(entries[j].event) <==> j != i)
    ensures KeepEntries(entries, selector) == entries[..i] + entries[i + 1..]
  {
    var last := |entries| - 1;
    if i == last {
      KeepAll(entries[..last], selector);
    } else {
      KeepAllBut(entries[..last], selector, i);
      assert entries[i + 1..] == entries[..last][i + 1..] + [entries[last]];
    }
  }

  lemma {:induction false} KeepEntriesSplit(first: Entry, rest: seq<Entry>, selector: Selector)
    ensures KeepEntries([first] + rest, selector)
            == (if selector.Selects(first.event) then [first] else []) + KeepEntries(rest, selector)
  {
    if rest == [] {
      assert [first] + rest == [first] && [first][..0] == [];
    } else {
      var last := |rest| - 1;
      assert ([first] + rest)[..|rest|] == [first] + rest[..last];
      KeepEntriesSplit(first, rest[..last], selector);
    }
  }

  // ----- One lemma per way the stores change -----

  ghost predicate AtMost(entries: seq<Entry>, sequence: nat) {
    forall e :: e in entries ==> e.sequence <= sequence
  }

  /** An entry with this number may go to the back. */
  ghost predicate Precede(entries: seq<Entry>, sequence: nat) {
    forall e :: e in entries ==> e.sequence < sequence || (e.sequence == sequence && KeyOf(e.event).None?)
  }

  lemma AtMostMore(entries: seq<Entry>, entry: Entry)
    requires AtMost(entries, entry.sequence)
    ensures AtMost(entries + [entry], entry.sequence)
  {
  }

  lemma KeepsAtMost(entries: seq<Entry>, selector: Selector, sequence: nat)
    ensures AtMost(entries, sequence) ==> AtMost(KeepEntries(entries, selector), sequence)
    ensures Precede(entries, sequence) ==> Precede(KeepEntries(entries, selector), sequence)
  {
    KeepEntriesMembers(entries, selector);
  }

  lemma OrderedMore(entries: seq<Entry>, entry: Entry)
    requires Ordered(entries) && Precede(entries, entry.sequence)
    ensures Ordered(entries + [entry])
  {
    forall i | 0 <= i < |entries| ensures Before(entries[i], entry) {
      assert entries[i] in entries;
    }
  }

  lemma HoldsOrdinaryMore(contents: seq<Entry>, coalesced: map<nat, Coalesced>, entry: Entry)
    requires HoldsKeyed(contents, coalesced) && KeyOf(entry.event).None?
    ensures HoldsKeyed(contents + [entry], coalesced)
  {
    hide KeyOf;
  }

  lemma HoldsKeyedMore(contents: seq<Entry>, coalesced: map<nat, Coalesced>, entry: Entry, key: CoalescedKey)
    requires HoldsKeyed(contents, coalesced) && KeyOf(entry.event) == Some(key) && Precede(contents, entry.sequence)
    ensures entry.sequence !in coalesced
    ensures HoldsKeyed(contents + [entry], coalesced[entry.sequence := Coalesced(key, entry.event)])
  {
    hide KeyOf;
  }

  /** An ordinary event joins the list and the deque. */
  lemma StoreOrdinary(
      contents: seq<Entry>, events: seq<Entry>, coalesced: map<nat, Coalesced>, index: map<CoalescedKey, nat>,
      entry: Entry)
    requires Represents(contents, events, coalesced, index) && Precede(contents, entry.sequence)
    requires KeyOf(entry.event).None?
    ensures Represents(contents + [entry], events + [entry], coalesced, index)
    ensures Strip(contents + [entry]) == Strip(contents) + [entry.event]
    ensures |events| + |coalesced| == |contents|
  {
    hide Precede, KeyOf, Strip, HoldsKeyed, InverseMaps;
    HoldsOrdinaryMore(contents, coalesced, entry);
    OrderedMore(contents, entry);
    KeepEntriesMore(contents, entry, Uncoalesced);
    StripMore(contents, entry);
  }

  lemma InverseInsert(
      coalesced: map<nat, Coalesced>, index: map<CoalescedKey, nat>, s: nat, key: CoalescedKey, event: MuxEvent)
    requires InverseMaps(coalesced, index) && key !in index && s !in coalesced
    ensures InverseMaps(coalesced[s := Coalesced(key, event)], index[key := s])
    ensures |coalesced[s := Coalesced(key, event)]| == |coalesced| + 1
  {
    InsertSize(coalesced, s, Coalesced(key, event));
    var (more, moreIndex) := (coalesced[s := Coalesced(key, event)], index[key := s]);
    forall k | k in moreIndex ensures moreIndex[k] in more && more[moreIndex[k]].key == k {
    }
    forall t | t in more ensures more[t].key in moreIndex && moreIndex[more[t].key] == t {
    }
  }

  lemma InsertSize(coalesced: map<nat, Coalesced>, s: nat, entry: Coalesced)
    requires s !in coalesced
    ensures |coalesced[s := entry]| == |coalesced| + 1
  {
    assert coalesced[s := entry].Keys == coalesced.Keys + {s};
  }

  lemma RepresentsKeyed(
      contents: seq<Entry>, events: seq<Entry>, coalesced: map<nat, Coalesced>, index: map<CoalescedKey, nat>,
      entry: Entry, key: CoalescedKey)
    requires Represents(contents, events, coalesced, index) && Precede(contents, entry.sequence)
    requires KeyOf(entry.event) == Some(key) && key !in index
    ensures Represents(contents + [entry], events, coalesced[entry.sequence := Coalesced(key, entry.event)],
                       index[key := entry.sequence])
  {
    hide KeyOf, HoldsKeyed, InverseMaps, Precede;
    HoldsKeyedMore(contents, coalesced, entry, key);
    OrderedMore(contents, entry);
    KeepEntriesMore(contents, entry, Uncoalesced);
    InverseInsert(coalesced, index, entry.sequence, key, entry.event);
  }

  /** A key's entry is the only one of the list with that key. */
  lemma KeyedOnce(
      contents: seq<Entry>, coalesced: map<nat, Coalesced>, index: map<CoalescedKey, nat>, key: CoalescedKey)
    returns (i: nat)
    requires Ordered(contents) && HoldsKeyed(contents, coalesced) && InverseMaps(coalesced, index) && key in index
    ensures i < |contents| && contents[i] == Entry(index[key], coalesced[index[key]].event)
    ensures forall j :: 0 <= j < |contents| ==> (KeyOf(contents[j].event) == Some(key) <==> j == i)
  {
    hide KeyOf;
    var entry := Entry(index[key], coalesced[index[key]].event);
    i :| 0 <= i < |contents| && contents[i] == entry;
    forall j | 0 <= j < |contents| && j != i ensures KeyOf(contents[j].event) != Some(key) {
      assert contents[j] in contents;
    }
  }

  lemma RemovalHoldsKeyed(
      contents: seq<Entry>, coalesced: map<nat, Coalesced>, index: map<CoalescedKey, nat>, key: CoalescedKey)
    requires HoldsKeyed(contents, coalesced) && InverseMaps(coalesced, index) && key in index
    ensures HoldsKeyed(KeepEntries(contents, NotKey(key)), coalesced - {index[key]})
  {
    hide KeyOf, KeepEntries;
    KeepEntriesMembers(contents, NotKey(key));
  }

  /** Removing a key's entry from both maps removes its one entry from the list. */
  lemma RepresentsRemoval(
      contents: seq<Entry>, events: seq<Entry>, coalesced: map<nat, Coalesced>, index: map<CoalescedKey, nat>,
      key: CoalescedKey)
    requires Represents(contents, events, coalesced, index) && key in index
    ensures Represents(KeepEntries(contents, NotKey(key)), events, coalesced - {index[key]}, index - {key})
    ensures |KeepEntries(contents, NotKey(key))| == |contents| - 1
  {
    hide KeyOf, HoldsKeyed, InverseMaps, Ordered, KeepEntries;
    var i := KeyedOnce(contents, coalesced, index, key);
    KeepAllBut(contents, NotKey(key), i);
    RemovalHoldsKeyed(contents, coalesced, index, key);
    KeepEntriesOrdered(contents, NotKey(key));
    KeepEntriesWithin(contents, Uncoalesced, NotKey(key));
    InverseRemoval(coalesced, index, key);
  }

  lemma InverseRemoval(coalesced: map<nat, Coalesced>, index: map<CoalescedKey, nat>, key: CoalescedKey)
    requires InverseMaps(coalesced, index) && key in index
    ensures InverseMaps(coalesced - {index[key]}, index - {key})
    ensures |coalesced - {index[key]}| == |coalesced| - 1
  {
    assert (coalesced - {index[key]}).Keys == coalesced.Keys - {index[key]};
  }

  lemma AbsentKeyKeepsAll(
      contents: seq<Entry>, events: seq<Entry>, coalesced: map<nat, Coalesced>, index: map<CoalescedKey, nat>,
      key: CoalescedKey)
    requires Represents(contents, events, coalesced, index) && key !in index
    ensures KeepEntries(contents, NotKey(key)) == contents
  {
    KeepAll(contents, NotKey(key));
  }

  /** The ordered map after a keyed event is stored under `sequence`. */
  function KeyedMap(
      coalesced: map<nat, Coalesced>, index: map<CoalescedKey, nat>, sequence: nat, key: CoalescedKey, event: MuxEvent)
    : map<nat, Coalesced>
  {
    (if key in index then coalesced - {index[key]} else coalesced)[sequence := Coalesced(key, event)]
  }

  /** A keyed event replaces its namesake in the maps and moves to the back of the list. */
  lemma StoreKeyed(
      contents: seq<Entry>, events: seq<Entry>, coalesced: map<nat, Coalesced>, index: map<CoalescedKey, nat>,
      entry: Entry, key: CoalescedKey)
    requires Represents(contents, events, coalesced, index)
    requires Precede(KeepEntries(contents, NotKey(key)), entry.sequence)
    requires KeyOf(entry.event) == Some(key)
    ensures var others := KeepEntries(contents, NotKey(key));
            && Represents(others + [entry], events, KeyedMap(coalesced, index, entry.sequence, key, entry.event),
                          index[key := entry.sequence])
            && Strip(others + [entry]) == Keep(Strip(contents), NotKey(key)) + [entry.event]
            && |others| == |Keep(Strip(contents), NotKey(key))|
            && |others| == |contents| - (if key in index then 1 else 0)
            && (key !in index ==> Keep(Strip(contents), NotKey(key)) == Strip(contents))
            && |events| + |coalesced| == |contents|
  {
    hide Represents, HoldsKeyed, InverseMaps, Ordered, Precede, KeyOf, Keep, KeepEntries, Strip;
    RepresentsParts(contents, events, coalesced, index);
    var others := KeepEntries(contents, NotKey(key));
    assert Strip(others + [entry]) == Keep(Strip(contents), NotKey(key)) + [entry.event]
        && |others| == |Keep(Strip(contents), NotKey(key))| by {
      StripKeep(contents, NotKey(key));
      StripMore(others, entry);
      StripLength(others);
    }
    if key in index {
      RepresentsRemoval(contents, events, coalesced, index, key);
      RepresentsKeyed(others, events, coalesced - {index[key]}, index - {key}, entry, key);
      assert (index - {key})[key := entry.sequence] == index[key := entry.sequence];
    } else {
      assert others == contents by { AbsentKeyKeepsAll(contents, events, coalesced, index, key); }
      assert Keep(Strip(contents), NotKey(key)) == Strip(contents) by { StripKeep(contents, NotKey(key)); }
      RepresentsKeyed(contents, events, coalesced, index, entry, key);
    }
  }

  /** Only ordinary entries: the maps are empty. */
  lemma RepresentsOrdinary(entries: seq<Entry>)
    requires Ordered(entries) && forall e :: e in entries ==> KeyOf(e.event).None?
    ensures Represents(entries, entries, map[], map[])
  {
    KeepAll(entries, Uncoalesced);
  }

  lemma RepresentsParts(
      contents: seq<Entry>, events: seq<Entry>, coalesced: map<nat, Coalesced>, index: map<CoalescedKey, nat>)
    requires Represents(contents, events, coalesced, index)
    ensures Ordered(contents) && events == KeepEntries(contents, Uncoalesced)
    ensures |events| + |coalesced| == |contents|
  {
  }

  lemma TerminalTail(contents: seq<Entry>, sequence: nat)
    requires Ordered(contents) && AtMost(contents, sequence)
    ensures var kept := LastEntries(KeepEntries(contents, TerminalOnly), MAX_PENDING_EVENTS - 1);
            var stored := kept + [Entry(sequence, Empty)];
            && Ordered(stored) && AtMost(stored, sequence)
            && (forall e :: e in stored ==> KeyOf(e.event).None?)
            && Strip(stored) == LastOf(Keep(Strip(contents), TerminalOnly), MAX_PENDING_EVENTS - 1) + [Empty]
  {
    hide KeepEntries, Keep, Strip, KeyOf;
    var terminal := KeepEntries(contents, TerminalOnly);
    var kept := LastEntries(terminal, MAX_PENDING_EVENTS - 1);
    TerminalsAreOrdinary(contents, kept, sequence);
    KeepEntriesOrdered(contents, TerminalOnly);
    SuffixOrdered(terminal, MAX_PENDING_EVENTS - 1);
    assert Strip(kept + [Entry(sequence, Empty)])
        == LastOf(Keep(Strip(contents), TerminalOnly), MAX_PENDING_EVENTS - 1) + [Empty] by {
      StripKeep(contents, TerminalOnly);
      StripMore(kept, Entry(sequence, Empty));
    }
    OrderedMore(kept, Entry(sequence, Empty));
  }

  lemma TerminalsAreOrdinary(contents: seq<Entry>, kept: seq<Entry>, sequence: nat)
    requires AtMost(contents, sequence)
    requires kept == LastEntries(KeepEntries(contents, TerminalOnly), MAX_PENDING_EVENTS - 1)
    ensures Precede(kept, sequence) && AtMost(kept + [Entry(sequence, Empty)], sequence)
    ensures forall e :: e in kept + [Entry(sequence, Empty)] ==> KeyOf(e.event).None?
  {
    hide KeepEntries;
    KeepEntriesMembers(contents, TerminalOnly);
    forall e | e in kept ensures e.sequence <= sequence && KeyOf(e.event).None? {
      assert e in KeepEntries(contents, TerminalOnly);
    }
  }

  /** `Empty` leaves the last terminal events, then itself. */
  lemma StoreEmpty(
      contents: seq<Entry>, events: seq<Entry>, coalesced: map<nat, Coalesced>, index: map<CoalescedKey, nat>,
      sequence: nat)
    requires Represents(contents, events, coalesced, index) && AtMost(contents, sequence)
    ensures var kept := LastEntries(KeepEntries(contents, TerminalOnly), MAX_PENDING_EVENTS - 1);
            var stored := kept + [Entry(sequence, Empty)];
            && kept == LastEntries(KeepEntries(events, TerminalOnly), MAX_PENDING_EVENTS - 1)
            && Represents(stored, stored, map[], map[])
            && AtMost(stored, sequence)
            && Strip(stored) == LastOf(Keep(Strip(contents), TerminalOnly), MAX_PENDING_EVENTS - 1) + [Empty]
  {
    hide Represents, HoldsKeyed, InverseMaps, KeepEntries, Keep, Strip, LastEntries, LastOf;
    RepresentsParts(contents, events, coalesced, index);
    var terminal := KeepEntries(contents, TerminalOnly);
    var kept := LastEntries(terminal, MAX_PENDING_EVENTS - 1);
    assert KeepEntries(events, TerminalOnly) == terminal by {
      KeepEntriesWithin(contents, TerminalOnly, Uncoalesced);
    }
    TerminalTail(contents, sequence);
    assert Represents(kept + [Entry(sequence, Empty)], kept + [Entry(sequence, Empty)], map[], map[]) by {
      RepresentsOrdinary(kept + [Entry(sequence, Empty)]);
    }
  }

  lemma NothingStored(
      contents: seq<Entry>, events: seq<Entry>, coalesced: map<nat, Coalesced>, index: map<CoalescedKey, nat>)
    requires Represents(contents, events, coalesced, index)
    ensures contents == [] <==> events == [] && coalesced == map[]
  {
  }

  lemma KeyedBehindHead(contents: seq<Entry>, coalesced: map<nat, Coalesced>, s: nat)
    requires HoldsKeyed(contents, coalesced) && Ordered(contents) && s in coalesced
    requires contents != [] && KeyOf(contents[0].event).None?
    ensures contents[0].sequence <= s && Entry(s, coalesced[s].event) in contents[1..]
  {
    hide KeyOf;
    var i :| 0 <= i < |contents| && contents[i] == Entry(s, coalesced[s].event);
    assert contents[1..][i - 1] == contents[i];
  }

  lemma TailHoldsKeyed(contents: seq<Entry>, coalesced: map<nat, Coalesced>)
    requires HoldsKeyed(contents, coalesced) && Ordered(contents)
    requires contents != [] && KeyOf(contents[0].event).None?
    ensures HoldsKeyed(contents[1..], coalesced)
    ensures forall s :: s in coalesced ==> contents[0].sequence <= s
  {
    hide KeyOf, Ordered;
    forall s | s in coalesced ensures contents[0].sequence <= s && Entry(s, coalesced[s].event) in contents[1..] {
      KeyedBehindHead(contents, coalesced, s);
    }
    forall e | e in contents[1..] ensures e in contents {
    }
  }

  /** The head of the list is ordinary: it is the head of the deque, before everything in the ordered map. */
  lemma PopOrdinary(
      contents: seq<Entry>, events: seq<Entry>, coalesced: map<nat, Coalesced>, index: map<CoalescedKey, nat>)
    requires Represents(contents, events, coalesced, index) && contents != [] && KeyOf(contents[0].event).None?
    ensures events != [] && events[0] == contents[0]
    ensures Represents(contents[1..], events[1..], coalesced, index)
    ensures forall s :: s in coalesced ==> contents[0].sequence <= s
  {
    hide KeyOf, HoldsKeyed, InverseMaps, KeepEntries;
    TailHoldsKeyed(contents, coalesced);
    assert contents == [contents[0]] + contents[1..];
    KeepEntriesSplit(contents[0], contents[1..], Uncoalesced);
    assert events == [contents[0]] + KeepEntries(contents[1..], Uncoalesced);
  }

  /** The head of the list is keyed: it is the first of the ordered map, before everything in the deque. */
  lemma PopKeyed(
      contents: seq<Entry>, events: seq<Entry>, coalesced: map<nat, Coalesced>, index: map<CoalescedKey, nat>)
    requires Represents(contents, events, coalesced, index) && contents != [] && KeyOf(contents[0].event).Some?
    ensures var s := contents[0].sequence;
            && s in coalesced && coalesced[s] == Coalesced(KeyOf(contents[0].event).value, contents[0].event)
            && (forall other :: other in coalesced ==> s <= other)
            && (forall e :: e in events ==> s < e.sequence)
            && coalesced[s].key in index && index[coalesced[s].key] == s
            && Represents(contents[1..], events, coalesced - {s}, index - {coalesced[s].key})
  {
    HeadKeyed(contents, events, coalesced, index);
    hide Represents, HoldsKeyed, InverseMaps;
    RepresentsRemoval(contents, events, coalesced, index, coalesced[contents[0].sequence].key);
    KeepAllBut(contents, NotKey(coalesced[contents[0].sequence].key), 0);
    assert contents[..0] + contents[1..] == contents[1..];
  }

  /** Where the head of the list is stored, and what is left when it is taken from there. */
  lemma PopHead(
      contents: seq<Entry>, events: seq<Entry>, coalesced: map<nat, Coalesced>, index: map<CoalescedKey, nat>)
    requires Represents(contents, events, coalesced, index) && contents != []
    ensures var s := contents[0].sequence;
            || (&& events != [] && events[0] == contents[0]
                && (forall other :: other in coalesced ==> s <= other)
                && Represents(contents[1..], events[1..], coalesced, index))
            || (&& s in coalesced && coalesced[s].event == contents[0].event
                && (forall other :: other in coalesced ==> s <= other)
                && (events != [] ==> s < events[0].sequence)
                && Represents(contents[1..], events, coalesced - {s}, index - {coalesced[s].key}))
  {
    hide Represents;
    if KeyOf(contents[0].event).None? {
      PopOrdinary(contents, events, coalesced, index);
    } else {
      PopKeyed(contents, events, coalesced, index);
      assert events != [] ==> events[0] in events;
    }
  }

  lemma HeadKeyed(
      contents: seq<Entry>, events: seq<Entry>, coalesced: map<nat, Coalesced>, index: map<CoalescedKey, nat>)
    requires Represents(contents, events, coalesced, index) && contents != [] && KeyOf(contents[0].event).Some?
    ensures var s := contents[0].sequence;
            && s in coalesced && coalesced[s] == Coalesced(KeyOf(contents[0].event).value, contents[0].event)
            && coalesced[s].key in index && index[coalesced[s].key] == s
            && (forall other :: other in coalesced ==> s <= other)
            && (forall e :: e in events ==> s < e.sequence)
            && (forall j :: 0 < j < |contents| ==> KeyOf(contents[j].event) != Some(coalesced[s].key))
  {
    hide KeyOf;
    var s := contents[0].sequence;
    assert contents[0] in contents;
    forall j | 0 < j < |contents| ensures KeyOf(contents[j].event) != Some(coalesced[s].key) {
      assert contents[j] in contents;
    }
    forall other | other in coalesced ensures s <= other {
      var i :| 0 <= i < |contents| && contents[i] == Entry(other, coalesced[other].event);
    }
    KeepEntriesMembers(contents, Uncoalesced);
    forall e | e in events ensures s < e.sequence {
      var i :| 0 <= i < |contents| && contents[i] == e;
    }
  }

  /** A surface's coalesced state is its title, its output and its scroll position. */
  lemma {:induction false} SurfaceKeys(entries: seq<Entry>, surface: SurfaceId)
    ensures WithoutSurfaceKeys(entries, surface) == KeepEntries(entries, NotStateOf(surface))
  {
    if entries != [] {
      var last := |entries| - 1;
      var earlier, entry := entries[..last], entries[last];
      SurfaceKeys(earlier, surface);
      assert entries == earlier + [entry];
      KeepEntriesMore(earlier, entry, NotStateOf(surface));
      WithoutSurfaceKeysMore(earlier, entry, surface);
    }
  }

  function WithoutSurfaceKeys(entries: seq<Entry>, surface: SurfaceId): seq<Entry> {
    KeepEntries(
      KeepEntries(KeepEntries(entries, NotKey(TitleKey(surface))), NotKey(OutputKey(surface))),
      NotKey(ScrollKey(surface)))
  }

  lemma SurfaceSelectors(event: MuxEvent, surface: SurfaceId)
    ensures NotStateOf(surface).Selects(event)
            <==> NotKey(TitleKey(surface)).Selects(event) && NotKey(OutputKey(surface)).Selects(event)
                 && NotKey(ScrollKey(surface)).Selects(event)
  {
  }

  lemma WithoutSurfaceKeysMore(entries: seq<Entry>, entry: Entry, surface: SurfaceId)
    ensures WithoutSurfaceKeys(entries + [entry], surface)
            == WithoutSurfaceKeys(entries, surface)
               + (if NotStateOf(surface).Selects(entry.event) then [entry] else [])
  {
    hide KeepEntries;
    var untitled := KeepEntries(entries, NotKey(TitleKey(surface)));
    var silent := KeepEntries(untitled, NotKey(OutputKey(surface)));
    KeepEntriesMore(entries, entry, NotKey(TitleKey(surface)));
    KeepEntriesMore(untitled, entry, NotKey(OutputKey(surface)));
    KeepEntriesMore(silent, entry, NotKey(ScrollKey(surface)));
    SurfaceSelectors(entry.event, surface);
    if !NotKey(TitleKey(surface)).Selects(entry.event) {
      assert KeepEntries(entries + [entry], NotKey(TitleKey(surface))) == untitled;
    } else if !NotKey(OutputKey(surface)).Selects(entry.event) {
      assert KeepEntries(untitled + [entry], NotKey(OutputKey(surface))) == silent;
    }
  }

  function LastEntries(entries: seq<Entry>, n: nat): (kept: seq<Entry>)
    ensures |kept| <= n && |kept| <= |entries|
  {
    if |entries| <= n then entries else entries[|entries| - n..]
  }

  lemma SuffixOrdered(entries: seq<Entry>, n: nat)
    requires Ordered(entries)
    ensures Ordered(LastEntries(entries, n))
    ensures Strip(LastEntries(entries, n)) == LastOf(Strip(entries), n)
    ensures forall e :: e in LastEntries(entries, n) ==> e in entries
  {
  }

  lemma StripLength(entries: seq<Entry>)
    ensures |Strip(entries)| == |entries|
  {
  }

  lemma StripHead(entries: seq<Entry>)
    requires entries != []
    ensures Strip(entries) == [entries[0].event] + Strip(entries[1..])
  {
  }

  // ----- What the stores deliver -----

  datatype Stores = Stores(events: seq<Entry>, coalesced: map<nat, Coalesced>, index: map<CoalescedKey, nat>)

  ghost predicate Holds(contents: seq<Entry>, st: Stores) {
    Represents(contents, st.events, st.coalesced, st.index)
  }

  lemma {:induction false} SmallestExists(keys: set<nat>)
    requires keys != {}
    ensures exists s :: IsLeast(s, keys)
    decreases |keys|
  {
    var k :| k in keys;
    var rest := keys - {k};
    if rest == {} {
      assert keys == {k};
      assert IsLeast(k, keys);
    } else {
      SmallestExists(rest);
      var s: nat :| IsLeast(s, rest);
      var least: nat := if s < k then s else k;
      assert forall other :: other in keys ==> other == k || other in rest;
      assert IsLeast(least, keys);
    }
  }

  ghost predicate IsLeast(s: nat, keys: set<nat>) {
    s in keys && forall other :: other in keys ==> s <= other
  }

  /** Smallest number in the ordered map. */
  ghost function Least(coalesced: map<nat, Coalesced>): (s: nat)
    requires coalesced != map[]
    ensures IsLeast(s, coalesced.Keys)
  {
    SmallestExists(coalesced.Keys);
    var s :| IsLeast(s, coalesced.Keys);
    s
  }

  /** Whether the deque is next: its front has the smaller number, or the same one. */
  ghost predicate DequeFirst(events: seq<Entry>, coalesced: map<nat, Coalesced>) {
    events != [] && (coalesced != map[] ==> events[0].sequence <= Least(coalesced))
  }

  /** What popping until nothing is left would deliver. */
  ghost function Drain(events: seq<Entry>, coalesced: map<nat, Coalesced>): seq<MuxEvent>
    decreases |events| + |coalesced|
  {
    if events == [] && coalesced == map[] then []
    else if DequeFirst(events, coalesced) then [events[0].event] + Drain(events[1..], coalesced)
    else
      var s := Least(coalesced);
      assert |coalesced - {s}| < |coalesced| by { RemovedIsSmaller(coalesced, s); }
      [coalesced[s].event] + Drain(events, coalesced - {s})
  }

  lemma RemovedIsSmaller(coalesced: map<nat, Coalesced>, s: nat)
    requires s in coalesced
    ensures |coalesced - {s}| == |coalesced| - 1
  {
    assert (coalesced - {s}).Keys == coalesced.Keys - {s};
  }

  /** The stores deliver exactly the list they represent. */
  lemma {:induction false} DrainIsList(
      contents: seq<Entry>, events: seq<Entry>, coalesced: map<nat, Coalesced>, index: map<CoalescedKey, nat>)
    requires Represents(contents, events, coalesced, index)
    ensures Drain(events, coalesced) == Strip(contents)
    decreases |contents|
  {
    hide Represents;
    NothingStored(contents, events, coalesced, index);
    if contents != [] {
      var (s, rest) := (contents[0].sequence, contents[1..]);
      PopHead(contents, events, coalesced, index);
      StripHead(contents);
      if DequeFirst(events, coalesced) {
        DrainIsList(rest, events[1..], coalesced, index);
      } else {
        assert Least(coalesced) == s;
        DrainIsList(rest, events, coalesced - {s}, index - {coalesced[s].key});
      }
    }
  }

  // ----- One push, on the stores -----

  datatype StoresPush = StoresPush(stores: Stores, accepted: bool)

  function Discarded(st: Stores, key: CoalescedKey): Stores {
    if key in st.index then st.(coalesced := st.coalesced - {st.index[key]}, index := st.index - {key}) else st
  }

  function DiscardedSurface(st: Stores, surface: SurfaceId): Stores {
    Discarded(Discarded(Discarded(st, TitleKey(surface)), OutputKey(surface)), ScrollKey(surface))
  }

  predicate HasRoom(st: Stores) {
    |st.events| + |st.coalesced| < MAX_PENDING_EVENTS
  }

  function AppendStores(st: Stores, sequence: nat, event: MuxEvent): StoresPush {
    if HasRoom(st) then StoresPush(st.(events := st.events + [Entry(sequence, event)]), true) else StoresPush(st, false)
  }

  function KeyedStores(st: Stores, sequence: nat, key: CoalescedKey, event: MuxEvent): StoresPush {
    if key !in st.index && !HasRoom(st) then StoresPush(st, false)
    else
      StoresPush(
        Stores(st.events, KeyedMap(st.coalesced, st.index, sequence, key, event), st.index[key := sequence]), true)
  }

  function EmptyStores(st: Stores, sequence: nat): Stores {
    Stores(LastEntries(KeepEntries(st.events, TerminalOnly), MAX_PENDING_EVENTS - 1) + [Entry(sequence, Empty)],
           map[], map[])
  }

  /** What a push that has drawn a number does to the stores. */
  function PushStores(st: Stores, sequence: nat, event: MuxEvent): StoresPush {
    if KeyOf(event).Some? then KeyedStores(st, sequence, KeyOf(event).value, event)
    else match event
      case SurfaceExited(surface) => AppendStores(DiscardedSurface(st, surface), sequence, event)
      case Empty => StoresPush(EmptyStores(st, sequence), true)
      case _ => AppendStores(st, sequence, event)
  }

  /** There is room for the event, and its number carries another keyed event that the push does not itself discard. */
  predicate Collides(st: Stores, sequence: nat, event: MuxEvent) {
    if KeyOf(event).Some? then
      var key := KeyOf(event).value;
      (key in st.index || HasRoom(st)) && sequence in st.coalesced && st.coalesced[sequence].key != key
    else match event
      case SurfaceExited(surface) =>
        var left := DiscardedSurface(st, surface);
        HasRoom(left) && sequence in left.coalesced
      case Empty => false
      case _ => HasRoom(st) && sequence in st.coalesced
  }

  // ----- Pushes that meet no other number -----

  lemma DiscardHolds(contents: seq<Entry>, st: Stores, key: CoalescedKey)
    requires Holds(contents, st)
    ensures Holds(KeepEntries(contents, NotKey(key)), Discarded(st, key))
  {
    hide Represents, KeepEntries;
    if key in st.index {
      RepresentsRemoval(contents, st.events, st.coalesced, st.index, key);
    } else {
      AbsentKeyKeepsAll(contents, st.events, st.coalesced, st.index, key);
    }
  }

  lemma DiscardSurfaceHolds(contents: seq<Entry>, st: Stores, surface: SurfaceId)
    requires Holds(contents, st)
    ensures Holds(KeepEntries(contents, NotStateOf(surface)), DiscardedSurface(st, surface))
  {
    hide Holds, KeepEntries, Discarded;
    SurfaceKeys(contents, surface);
    var untitled := KeepEntries(contents, NotKey(TitleKey(surface)));
    var silent := KeepEntries(untitled, NotKey(OutputKey(surface)));
    DiscardHolds(contents, st, TitleKey(surface));
    DiscardHolds(untitled, Discarded(st, TitleKey(surface)), OutputKey(surface));
    DiscardHolds(silent, Discarded(Discarded(st, TitleKey(surface)), OutputKey(surface)), ScrollKey(surface));
  }

  /** Nothing at a number that no keyed event carries stands in the way of it. */
  lemma FreeNumber(contents: seq<Entry>, st: Stores, sequence: nat)
    requires Holds(contents, st) && AtMost(contents, sequence) && sequence !in st.coalesced
    ensures Precede(contents, sequence)
  {
    hide KeyOf;
  }

  lemma FreeForKey(contents: seq<Entry>, st: Stores, sequence: nat, key: CoalescedKey)
    requires Holds(contents, st) && AtMost(contents, sequence)
    requires sequence !in st.coalesced || st.coalesced[sequence].key == key
    ensures Precede(KeepEntries(contents, NotKey(key)), sequence)
  {
    hide KeyOf, KeepEntries;
    KeepEntriesMembers(contents, NotKey(key));
  }

  function RetainedEntries(contents: seq<Entry>, event: MuxEvent): seq<Entry> {
    if KeyOf(event).Some? then KeepEntries(contents, NotKey(KeyOf(event).value))
    else match event
      case SurfaceExited(surface) => KeepEntries(contents, NotStateOf(surface))
      case Empty => LastEntries(KeepEntries(contents, TerminalOnly), MAX_PENDING_EVENTS - 1)
      case _ => contents
  }

  /** The list after a push that meets no other number. */
  function PushedList(contents: seq<Entry>, st: Stores, sequence: nat, event: MuxEvent): seq<Entry> {
    if PushStores(st, sequence, event).accepted then RetainedEntries(contents, event) + [Entry(sequence, event)]
    else contents
  }

  /** One push on the stores is one push on the plain queue: the same answer, and stores for the queue after it. */
  ghost predicate Refines(
      contents: seq<Entry>, after: seq<Entry>, push: StoresPush, sequence: nat, event: MuxEvent, overflowed: bool)
  {
    var plain := PlainPush(Plain(Strip(contents), false, overflowed), event);
    && Holds(after, push.stores) && AtMost(after, sequence) && |after| <= MAX_PENDING_EVENTS
    && push.accepted == plain.accepted
    && plain.box == Plain(Strip(after), !push.accepted, overflowed || !push.accepted)
  }

  lemma Sizes(contents: seq<Entry>, st: Stores)
    requires Holds(contents, st)
    ensures |st.events| + |st.coalesced| == |contents| == |Strip(contents)|
  {
  }

  lemma PushOrdinary(contents: seq<Entry>, st: Stores, sequence: nat, event: MuxEvent, overflowed: bool)
    requires Holds(contents, st) && AtMost(contents, sequence) && |contents| <= MAX_PENDING_EVENTS
    requires KeyOf(event).None? && (HasRoom(st) ==> sequence !in st.coalesced)
    ensures var push := AppendStores(st, sequence, event);
            var after := if push.accepted then contents + [Entry(sequence, event)] else contents;
            && Holds(after, push.stores) && AtMost(after, sequence) && |after| <= MAX_PENDING_EVENTS
            && Pushed(Plain(Strip(after), !push.accepted, overflowed || !push.accepted), push.accepted)
               == Append(Plain(Strip(contents), false, overflowed), event)
  {
    hide Represents, KeyOf, Strip;
    Sizes(contents, st);
    if HasRoom(st) {
      FreeNumber(contents, st, sequence);
      StoreOrdinary(contents, st.events, st.coalesced, st.index, Entry(sequence, event));
      AtMostMore(contents, Entry(sequence, event));
    }
  }

  lemma PushKeyed(contents: seq<Entry>, st: Stores, sequence: nat, event: MuxEvent, overflowed: bool)
    requires Holds(contents, st) && AtMost(contents, sequence) && |contents| <= MAX_PENDING_EVENTS
    requires KeyOf(event).Some? && !Collides(st, sequence, event)
    ensures Refines(contents, PushedList(contents, st, sequence, event), PushStores(st, sequence, event), sequence,
                    event, overflowed)
  {
    hide Represents, KeyOf, Strip, KeepEntries, Keep, KeyedMap;
    var key := KeyOf(event).value;
    Sizes(contents, st);
    StripKeep(contents, NotKey(key));
    StripLength(KeepEntries(contents, NotKey(key)));
    if PushStores(st, sequence, event).accepted {
      FreeForKey(contents, st, sequence, key);
      StoreKeyed(contents, st.events, st.coalesced, st.index, Entry(sequence, event), key);
      KeepsAtMost(contents, NotKey(key), sequence);
      AtMostMore(KeepEntries(contents, NotKey(key)), Entry(sequence, event));
    } else {
      AbsentKeyKeepsAll(contents, st.events, st.coalesced, st.index, key);
    }
  }

  lemma PushExit(contents: seq<Entry>, st: Stores, sequence: nat, surface: SurfaceId, overflowed: bool)
    requires Holds(contents, st) && AtMost(contents, sequence) && |contents| <= MAX_PENDING_EVENTS
    requires !Collides(st, sequence, SurfaceExited(surface))
    ensures var event := SurfaceExited(surface);
            Refines(contents, PushedList(contents, st, sequence, event), PushStores(st, sequence, event), sequence,
                    event, overflowed)
  {
    hide Represents, Strip, KeepEntries, Keep, DiscardedSurface;
    var kept := KeepEntries(contents, NotStateOf(surface));
    DiscardSurfaceHolds(contents, st, surface);
    KeepsAtMost(contents, NotStateOf(surface), sequence);
    StripKeep(contents, NotStateOf(surface));
    PushOrdinary(kept, DiscardedSurface(st, surface), sequence, SurfaceExited(surface), overflowed);
    Sizes(kept, DiscardedSurface(st, surface));
    if !PushStores(st, sequence, SurfaceExited(surface)).accepted {
      KeepEntriesNothingLost(contents, NotStateOf(surface));
    }
  }

  lemma {:induction false} KeepEntriesNothingLost(entries: seq<Entry>, selector: Selector)
    requires |KeepEntries(entries, selector)| == |entries|
    ensures KeepEntries(entries, selector) == entries
  {
    if entries != [] {
      KeepEntriesNothingLost(entries[..|entries| - 1], selector);
    }
  }

  lemma PushEmpty(contents: seq<Entry>, st: Stores, sequence: nat, overflowed: bool)
    requires Holds(contents, st) && AtMost(contents, sequence) && |contents| <= MAX_PENDING_EVENTS
    ensures Refines(contents, PushedList(contents, st, sequence, Empty), PushStores(st, sequence, Empty), sequence,
                    Empty, overflowed)
  {
    hide Represents, Strip, KeepEntries, Keep, LastEntries, LastOf;
    StoreEmpty(contents, st.events, st.coalesced, st.index, sequence);
    LastEntriesFew(KeepEntries(contents, TerminalOnly));
  }

  lemma LastEntriesFew(entries: seq<Entry>)
    ensures |LastEntries(entries, MAX_PENDING_EVENTS - 1)| < MAX_PENDING_EVENTS
  {
  }

  /** Every push that meets no other number is one push on the plain queue. */
  lemma FreePushRefines(contents: seq<Entry>, st: Stores, sequence: nat, event: MuxEvent, overflowed: bool)
    requires Holds(contents, st) && AtMost(contents, sequence) && |contents| <= MAX_PENDING_EVENTS
    requires !Collides(st, sequence, event)
    ensures Refines(contents, PushedList(contents, st, sequence, event), PushStores(st, sequence, event), sequence,
                    event, overflowed)
  {
    hide Holds, AtMost, Strip, Keep, KeepEntries, KeyedMap, DiscardedSurface, Refines, EmptyStores;
    if KeyOf(event).Some? {
      PushKeyed(contents, st, sequence, event, overflowed);
    } else if event.SurfaceExited? {
      PushExit(contents, st, sequence, event.surface, overflowed);
    } else if event.Empty? {
      PushEmpty(contents, st, sequence, overflowed);
    } else {
      PushPlain(contents, st, sequence, event, overflowed);
    }
  }

  lemma PushPlain(contents: seq<Entry>, st: Stores, sequence: nat, event: MuxEvent, overflowed: bool)
    requires Holds(contents, st) && AtMost(contents, sequence) && |contents| <= MAX_PENDING_EVENTS
    requires KeyOf(event).None? && !event.SurfaceExited? && !event.Empty? && !Collides(st, sequence, event)
    ensures Refines(contents, PushedList(contents, st, sequence, event), PushStores(st, sequence, event), sequence,
                    event, overflowed)
  {
    hide Holds, AtMost, Strip, Keep;
    PushOrdinary(contents, st, sequence, event, overflowed);
  }

  // ----- Pushes that meet another number -----

  /** Taking the keyed event at a number out of the stores, and out of the list. */
  lemma WithoutNumber(contents: seq<Entry>, st: Stores, sequence: nat)
    requires Holds(contents, st) && AtMost(contents, sequence) && sequence in st.coalesced
    ensures var key := st.coalesced[sequence].key;
            var others := KeepEntries(contents, NotKey(key));
            && key in st.index && st.index[key] == sequence && KeyOf(st.coalesced[sequence].event) == Some(key)
            && Holds(others, Stores(st.events, st.coalesced - {sequence}, st.index - {key}))
            && Precede(others, sequence) && |others| == |contents| - 1
  {
    hide KeepEntries, KeyOf;
    var key := st.coalesced[sequence].key;
    RepresentsRemoval(contents, st.events, st.coalesced, st.index, key);
    KeepsAtMost(contents, NotKey(key), sequence);
    FreeNumber(KeepEntries(contents, NotKey(key)), Stores(st.events, st.coalesced - {sequence}, st.index - {key}),
               sequence);
  }

  /** An ordinary event that shares its number with a keyed one is delivered before it instead of after it. */
  lemma SharedNumberReorders(contents: seq<Entry>, st: Stores, sequence: nat, event: MuxEvent)
    requires Holds(contents, st) && AtMost(contents, sequence)
    requires KeyOf(event).None? && sequence in st.coalesced
    ensures Drain(st.events + [Entry(sequence, event)], st.coalesced) != Strip(contents) + [event]
  {
    hide Represents, KeepEntries, KeyOf, Drain, Strip, Precede;
    var (key, entry) := (st.coalesced[sequence].key, Entry(sequence, event));
    var (others, late) := (KeepEntries(contents, NotKey(key)), Entry(sequence, st.coalesced[sequence].event));
    WithoutNumber(contents, st, sequence);
    StoreOrdinary(others, st.events, st.coalesced - {sequence}, st.index - {key}, entry);
    PrecedeMore(others, entry);
    RepresentsKeyed(others + [entry], st.events + [entry], st.coalesced - {sequence}, st.index - {key}, late, key);
    assert (st.coalesced - {sequence})[sequence := Coalesced(key, late.event)] == st.coalesced by {
      CoalescedAt(st, sequence);
    }
    DrainIsList(others + [entry] + [late], st.events + [entry], st.coalesced, (st.index - {key})[key := sequence]);
    StripMore(others + [entry], late);
    LastDiffers(Strip(others + [entry]), late.event, Strip(contents), event);
  }

  lemma CoalescedAt(st: Stores, sequence: nat)
    requires sequence in st.coalesced
    ensures (st.coalesced - {sequence})[sequence := st.coalesced[sequence]] == st.coalesced
  {
  }

  lemma PrecedeMore(entries: seq<Entry>, entry: Entry)
    requires Precede(entries, entry.sequence) && KeyOf(entry.event).None?
    ensures Precede(entries + [entry], entry.sequence)
  {
  }

  lemma LastDiffers(a: seq<MuxEvent>, x: MuxEvent, b: seq<MuxEvent>, y: MuxEvent)
    requires x != y
    ensures a + [x] != b + [y]
  {
    assert (a + [x])[|a|] == x && (b + [y])[|b|] == y;
    if |a| != |b| {
      assert |a + [x]| != |b + [y]|;
    }
  }

  /** A keyed event that shares its number with another key's takes its place, and the other is lost. */
  lemma SharedNumberLoses(contents: seq<Entry>, st: Stores, sequence: nat, event: MuxEvent, key: CoalescedKey)
    requires Holds(contents, st) && AtMost(contents, sequence)
    requires KeyOf(event) == Some(key) && sequence in st.coalesced && st.coalesced[sequence].key != key
    ensures |Drain(st.events, KeyedMap(st.coalesced, st.index, sequence, key, event))|
            == |KeepEntries(contents, NotKey(key))|
  {
    hide Represents, KeepEntries, KeyOf, Drain, Strip, Precede, KeyedMap, Keep;
    var lost := st.coalesced[sequence].key;
    var (others, rest) := (KeepEntries(contents, NotKey(lost)), Stores(st.events, st.coalesced - {sequence},
                                                                       st.index - {lost}));
    var kept := KeepEntries(others, NotKey(key));
    WithoutNumber(contents, st, sequence);
    KeepsAtMost(others, NotKey(key), sequence);
    StoreKeyed(others, rest.events, rest.coalesced, rest.index, Entry(sequence, event), key);
    SameKeyedMap(contents, st, sequence, key, event, lost);
    DrainIsList(kept + [Entry(sequence, event)], st.events, KeyedMap(rest.coalesced, rest.index, sequence, key, event),
                rest.index[key := sequence]);
    StripLength(kept + [Entry(sequence, event)]);
    KeptSize(contents, st, key);
  }

  lemma SameKeyedMap(
      contents: seq<Entry>, st: Stores, sequence: nat, key: CoalescedKey, event: MuxEvent, lost: CoalescedKey)
    requires Holds(contents, st) && sequence in st.coalesced
    requires lost == st.coalesced[sequence].key && lost != key
    ensures KeyedMap(st.coalesced - {sequence}, st.index - {lost}, sequence, key, event)
            == KeyedMap(st.coalesced, st.index, sequence, key, event)
  {
  }

  lemma KeptSize(contents: seq<Entry>, st: Stores, key: CoalescedKey)
    requires Holds(contents, st)
    ensures |KeepEntries(contents, NotKey(key))| == |contents| - (if key in st.index then 1 else 0)
  {
    hide Represents, KeepEntries;
    if key in st.index {
      RepresentsRemoval(contents, st.events, st.coalesced, st.index, key);
    } else {
      AbsentKeyKeepsAll(contents, st.events, st.coalesced, st.index, key);
    }
  }

  lemma CollidingKeyFails(contents: seq<Entry>, st: Stores, sequence: nat, event: MuxEvent, overflowed: bool)
    requires Holds(contents, st) && AtMost(contents, sequence)
    requires KeyOf(event).Some? && Collides(st, sequence, event)
    ensures var stores := PushStores(st, sequence, event).stores;
            Drain(stores.events, stores.coalesced)
            != PlainPush(Plain(Strip(contents), false, overflowed), event).box.queue
  {
    hide Represents, KeepEntries, KeyOf, Drain, Strip, Precede, KeyedMap, Keep;
    var key := KeyOf(event).value;
    SharedNumberLoses(contents, st, sequence, event, key);
    KeptSize(contents, st, key);
    Sizes(contents, st);
    StripKeep(contents, NotKey(key));
    StripLength(KeepEntries(contents, NotKey(key)));
  }

  lemma CollidingAppendFails(contents: seq<Entry>, st: Stores, sequence: nat, event: MuxEvent, overflowed: bool)
    requires Holds(contents, st) && AtMost(contents, sequence)
    requires KeyOf(event).None? && HasRoom(st) && sequence in st.coalesced
    ensures var stores := AppendStores(st, sequence, event).stores;
            Drain(stores.events, stores.coalesced)
            != Append(Plain(Strip(contents), false, overflowed), event).box.queue
  {
    hide Represents, KeyOf, Drain, Strip;
    SharedNumberReorders(contents, st, sequence, event);
    Sizes(contents, st);
  }

  lemma CollidingPushFails(contents: seq<Entry>, st: Stores, sequence: nat, event: MuxEvent, overflowed: bool)
    requires Holds(contents, st) && AtMost(contents, sequence) && Collides(st, sequence, event)
    ensures var stores := PushStores(st, sequence, event).stores;
            Drain(stores.events, stores.coalesced)
            != PlainPush(Plain(Strip(contents), false, overflowed), event).box.queue
  {
    hide Holds, AtMost, Drain, Strip, Keep, KeepEntries, KeyedMap, DiscardedSurface;
    if KeyOf(event).Some? {
      CollidingKeyFails(contents, st, sequence, event, overflowed);
    } else if event.SurfaceExited? {
      DiscardSurfaceHolds(contents, st, event.surface);
      KeepsAtMost(contents, NotStateOf(event.surface), sequence);
      StripKeep(contents, NotStateOf(event.surface));
      CollidingAppendFails(KeepEntries(contents, NotStateOf(event.surface)), DiscardedSurface(st, event.surface),
                           sequence, event, overflowed);
    } else {
      CollidingAppendFails(contents, st, sequence, event, overflowed);
    }
  }

  /** Main result on one push: with numbers so far at most the drawn one, the stores then deliver what the plain queue
      holds, with the same answer, exactly when the push meets no other keyed event at its number. */
  lemma PushRefinesIffNumberIsFree(
      contents: seq<Entry>, st: Stores, sequence: nat, event: MuxEvent, overflowed: bool)
    requires Holds(contents, st) && AtMost(contents, sequence) && |contents| <= MAX_PENDING_EVENTS
    ensures var push := PushStores(st, sequence, event);
            var plain := PlainPush(Plain(Drain(st.events, st.coalesced), false, overflowed), event);
            (Drain(push.stores.events, push.stores.coalesced) == plain.box.queue && push.accepted == plain.accepted)
            <==> !Collides(st, sequence, event)
  {
    hide Represents, AtMost, Drain, Strip, PlainPush, PushStores, Collides, PushedList;
    DrainIsList(contents, st.events, st.coalesced, st.index);
    if Collides(st, sequence, event) {
      CollidingPushFails(contents, st, sequence, event, overflowed);
    } else {
      var (after, stores) := (PushedList(contents, st, sequence, event), PushStores(st, sequence, event).stores);
      FreePushRefines(contents, st, sequence, event, overflowed);
      DrainIsList(after, stores.events, stores.coalesced, stores.index);
    }
  }

  /** Two titles pushed at the same last number: both are accepted and the first is never delivered. */
  lemma LastNumberLosesATitle(a: SurfaceId, b: SurfaceId)
    requires a != b
    ensures var first := PushStores(Stores([], map[], map[]), U128_MAX, TitleChanged(a, "a"));
            var second := PushStores(first.stores, U128_MAX, TitleChanged(b, "b"));
            && first.accepted && second.accepted
            && Drain(second.stores.events, second.stores.coalesced) == [TitleChanged(b, "b")]
  {
    var m := map[U128_MAX := Coalesced(TitleKey(b), TitleChanged(b, "b"))];
    var first := PushStores(Stores([], map[], map[]), U128_MAX, TitleChanged(a, "a"));
    var second := PushStores(first.stores, U128_MAX, TitleChanged(b, "b"));
    assert second.stores.coalesced == m && second.stores.events == [];
    assert U128_MAX in m && m - {U128_MAX} == map[];
    assert Least(m) == U128_MAX;
    assert Drain([], map[]) == [];
  }
}
