/** Six-character session ids: base-36 numerals with forward probing on collision (short_id.rs). */
module ShortId {
  import opened Prelude

  const WIDTH: nat := 6
  const BASE: nat := 36
  const SPACE: nat := 2176782336

  // ----- Numerals -----

  function DigitChar(digit: nat): char
    requires digit < BASE
  {
    if digit < 10 then '0' + digit as char else 'a' + (digit - 10) as char
  }

  function CharDigit(c: char): nat {
    if '0' <= c <= '9' then (c - '0') as nat else if 'a' <= c <= 'z' then (c - 'a') as nat + 10 else 0
  }

  /** Figures first, then small letters; each is read back as the digit it stands for. */
  lemma DigitsAreFiguresAndLetters(digit: nat)
    requires digit < 36
    ensures digit < 10 ==> '0' <= DigitChar(digit) <= '9' && DigitChar(digit) as int == '0' as int + digit
    ensures digit >= 10 ==> 'a' <= DigitChar(digit) <= 'z' && DigitChar(digit) as int == 'a' as int + (digit - 10)
    ensures CharDigit(DigitChar(digit)) == digit
  {
  }

  /** The low `width` digits of `n`, most significant first. */
  function Numeral(n: nat, width: nat): (s: string)
    ensures |s| == width
  {
    if width == 0 then [] else Numeral(n / BASE, width - 1) + [DigitChar(n % BASE)]
  }

  function Value(s: string): nat {
    if s == [] then 0 else Value(s[..|s| - 1]) * BASE + CharDigit(s[|s| - 1])
  }

  function Power(exponent: nat): nat {
    if exponent == 0 then 1 else BASE * Power(exponent - 1)
  }

  lemma SpaceIsPower()
    ensures Power(WIDTH) == SPACE
  {
    assert Power(1) == 36;
    assert Power(2) == 1296;
    assert Power(3) == 46656;
    assert Power(4) == 1679616;
    assert Power(5) == 60466176;
  }

  lemma QuotientBelow(n: nat, power: nat)
    requires n < BASE * power
    ensures n / BASE < power
  {
  }

  /** Reading a numeral back gives the number, so numerals of small numbers are pairwise different. */
  lemma {:induction false} NumeralReadsBack(n: nat, width: nat)
    requires n < Power(width)
    ensures Value(Numeral(n, width)) == n
  {
    if width > 0 {
      QuotientBelow(n, Power(width - 1));
      NumeralReadsBack(n / BASE, width - 1);
      assert Numeral(n, width)[..width - 1] == Numeral(n / BASE, width - 1);
    }
  }

  method EncodeBase36(value: nat) returns (s: string)
    ensures s == Numeral(value, WIDTH)
  {
    var chars := new char[WIDTH](_ => '0');
    var n: nat := value;
    var i := WIDTH;
    while i > 0
      invariant 0 <= i <= WIDTH
      invariant Numeral(value, WIDTH) == Numeral(n, i) + chars[i..]
    {
      i := i - 1;
      var digit := n % BASE;
      ghost var written := chars[i + 1..];
      chars[i] := if digit < 10 then '0' + digit as char else 'a' + (digit - 10) as char;
      assert chars[i..] == [DigitChar(digit)] + written;
      n := n / BASE;
    }
    assert Numeral(n, 0) == [];
    s := chars[..];
  }

  // ----- Probing -----

  /** Probing steps from `from` to `code`, wrapping at the end of the space. */
  function Gap(from: nat, code: nat): nat
    requires from < SPACE && code < SPACE
  {
    if code >= from then code - from else code + SPACE - from
  }

  /** The code reached first from `from` among those not in use. */
  ghost predicate IsFirstFree(code: nat, from: nat, used: set<nat>)
    requires from < SPACE
  {
    && code < SPACE && code !in used
    && forall c :: 0 <= c < SPACE && c !in used ==> Gap(from, code) <= Gap(from, c)
  }

  lemma FirstFreeUnique(a: nat, b: nat, from: nat, used: set<nat>)
    requires from < SPACE && IsFirstFree(a, from, used) && IsFirstFree(b, from, used)
    ensures a == b
  {
    assert Gap(from, a) == Gap(from, b);
  }

  /** Ids in increasing order each take the first code still free at or after their own value. */
  ghost predicate Assigned(ids: seq<nat>, codes: seq<nat>) {
    && |codes| == |ids|
    && forall i :: 0 <= i < |ids| ==> IsFirstFree(codes[i], ids[i] % SPACE, CodeSet(codes[..i]))
  }

  ghost function CodeSet(codes: seq<nat>): set<nat> {
    set c | c in codes
  }

  ghost predicate StrictlyIncreasing(ids: seq<nat>) {
    forall i, j :: 0 <= i < j < |ids| ==> ids[i] < ids[j]
  }

  // ----- Sorting and removing duplicates -----

  function InsertSorted(ids: seq<nat>, id: nat): seq<nat> {
    if ids == [] || id < ids[0] then [id] + ids
    else if id == ids[0] then ids
    else [ids[0]] + InsertSorted(ids[1..], id)
  }

  function SortedDistinct(ids: seq<nat>): seq<nat> {
    if ids == [] then [] else InsertSorted(SortedDistinct(ids[1..]), ids[0])
  }

  lemma {:induction false} InsertSortedKeeps(ids: seq<nat>, id: nat)
    requires StrictlyIncreasing(ids)
    ensures StrictlyIncreasing(InsertSorted(ids, id))
    ensures forall x :: x in InsertSorted(ids, id) <==> x == id || x in ids
  {
    if ids != [] && id > ids[0] {
      var rest := ids[1..];
      InsertSortedKeeps(rest, id);
      var inserted := InsertSorted(rest, id);
      forall k | 0 <= k < |inserted| ensures ids[0] < inserted[k] {
        if inserted[k] != id {
          assert inserted[k] in rest;
        }
      }
      assert ids == [ids[0]] + rest;
    }
  }

  lemma {:induction false} SortedDistinctKeeps(ids: seq<nat>)
    ensures StrictlyIncreasing(SortedDistinct(ids))
    ensures forall x :: x in SortedDistinct(ids) <==> x in ids
  {
    if ids != [] {
      SortedDistinctKeeps(ids[1..]);
      InsertSortedKeeps(SortedDistinct(ids[1..]), ids[0]);
      assert ids == [ids[0]] + ids[1..];
    }
  }

  ghost predicate AllIn(a: seq<nat>, b: seq<nat>) {
    forall i :: 0 <= i < |a| ==> a[i] in b
  }

  lemma SameStart(a: seq<nat>, b: seq<nat>)
    requires StrictlyIncreasing(a) && StrictlyIncreasing(b) && AllIn(a, b) && AllIn(b, a)
    ensures a == [] <==> b == []
    ensures a != [] ==> b != [] && a[0] == b[0] && StrictlyIncreasing(a[1..]) && StrictlyIncreasing(b[1..])
  {
    assert (a != [] ==> a[0] in b) && (b != [] ==> b[0] in a);
  }

  /** A strictly increasing list is determined by its members. */
  lemma {:induction false} IncreasingIsUnique(a: seq<nat>, b: seq<nat>)
    requires StrictlyIncreasing(a) && StrictlyIncreasing(b) && AllIn(a, b) && AllIn(b, a)
    ensures a == b
  {
    hide StrictlyIncreasing, AllIn;
    SameStart(a, b);
    if a != [] {
      RestIn(a, b);
      RestIn(b, a);
      IncreasingIsUnique(a[1..], b[1..]);
      assert a == [a[0]] + a[1..] && b == [b[0]] + b[1..];
    }
  }

  lemma RestIn(a: seq<nat>, b: seq<nat>)
    requires a != [] && b != [] && a[0] == b[0] && StrictlyIncreasing(a) && AllIn(a, b)
    ensures AllIn(a[1..], b[1..])
  {
    forall i | 0 <= i < |a| - 1 ensures a[1..][i] in b[1..] {
      var j :| 0 <= j < |b| && b[j] == a[i + 1];
      assert b[1..][j - 1] == a[i + 1];
    }
  }

  // ----- Assignment -----

  function Below(k: nat): set<nat> {
    if k == 0 then {} else Below(k - 1) + {k - 1}
  }

  lemma {:induction false} RangeSize(k: nat)
    ensures |Below(k)| == k
    ensures forall c :: c in Below(k) <==> 0 <= c < k
  {
    if k > 0 {
      RangeSize(k - 1);
    }
  }

  lemma {:induction false} CodeSetSize(codes: seq<nat>)
    ensures |CodeSet(codes)| <= |codes|
  {
    if codes != [] {
      var last := |codes| - 1;
      CodeSetSize(codes[..last]);
      assert CodeSet(codes) == CodeSet(codes[..last]) + {codes[last]};
    }
  }

  /** Fewer codes in use than there are: one is free. */
  lemma SomeCodeIsFree(codes: seq<nat>) returns (free: nat)
    requires |codes| < SPACE
    ensures free < SPACE && free !in CodeSet(codes)
  {
    var all := Below(SPACE);
    RangeSize(SPACE);
    CodeSetSize(codes);
    if all <= CodeSet(codes) {
      SubsetSize(all, CodeSet(codes));
    }
    var c :| c in all && c !in CodeSet(codes);
    free := c;
  }

  lemma NumeralInjective(a: nat, b: nat)
    requires a < SPACE && b < SPACE && Numeral(a, WIDTH) == Numeral(b, WIDTH)
    ensures a == b
  {
    SpaceIsPower();
    NumeralReadsBack(a, WIDTH);
    NumeralReadsBack(b, WIDTH);
  }

  /** The strings in use are the numerals of the codes in use. */
  ghost predicate UsedStrings(used: set<string>, codes: seq<nat>) {
    && (forall c :: c in codes ==> c < SPACE && Numeral(c, WIDTH) in used)
    && (forall s :: s in used ==> exists c :: c in codes && Numeral(c, WIDTH) == s)
  }

  method AssignShortIds(input: seq<nat>) returns (out: map<nat, string>, ghost codes: seq<nat>)
    requires |SortedDistinct(input)| <= SPACE
    ensures Assigned(SortedDistinct(input), codes)
    ensures out.Keys == set id | id in input
    ensures forall i :: 0 <= i < |codes| ==>
              var id := SortedDistinct(input)[i];
              id in out && out[id] == Numeral(codes[i], WIDTH)
  {
    hide SortedDistinct, Assigned, UsedStrings, Numeral, Gap, PassedInUse;
    var ids := SortedDistinct(input);
    SortedDistinctKeeps(input);
    NothingAssigned();
    out, codes := map[], [];
    var used: set<string> := {};
    var i := 0;
    while i < |ids|
      invariant 0 <= i <= |ids| && |codes| == i
      invariant Assigned(ids[..i], codes)
      invariant UsedStrings(used, codes)
      invariant forall j :: 0 <= j < i ==> ids[j] in out && out[ids[j]] == Numeral(codes[j], WIDTH)
      invariant forall id :: id in out ==> id in ids[..i]
    {
      var id := ids[i];
      ghost var free := SomeCodeIsFree(codes);
      var n: nat := id % SPACE;
      var candidate := EncodeBase36(n);
      while candidate in used
        invariant n < SPACE && candidate == Numeral(n, WIDTH)
        invariant PassedInUse(id % SPACE, n, codes)
        decreases Gap(n, free)
      {
        CandidateInUse(n, used, codes);
        ProbeStep(id % SPACE, n, free, codes);
        n := (n + 1) % SPACE;
        candidate := EncodeBase36(n);
      }
      FreshCode(n, used, codes);
      AssignedMore(ids, codes, i, n);
      UsedMore(used, codes, n);
      used := used + {candidate};
      out := out[id := candidate];
      codes := codes + [n];
      i := i + 1;
    }
    assert ids[..i] == ids;
  }

  lemma NothingAssigned()
    ensures Assigned([], []) && UsedStrings({}, [])
    ensures forall from: nat, codes | from < SPACE :: PassedInUse(from, from, codes)
  {
  }

  lemma FreshCode(n: nat, used: set<string>, codes: seq<nat>)
    requires n < SPACE && UsedStrings(used, codes) && Numeral(n, WIDTH) !in used
    ensures n !in codes
  {
  }

  /** Codes that a probe starting at `from` passes before it reaches `n` are all in use. */
  ghost predicate PassedInUse(from: nat, n: nat, codes: seq<nat>)
    requires from < SPACE && n < SPACE
  {
    forall c :: 0 <= c < SPACE && Gap(from, c) < Gap(from, n) ==> c in codes
  }

  lemma ProbeStep(from: nat, n: nat, free: nat, codes: seq<nat>)
    requires from < SPACE && n < SPACE && free < SPACE && free !in codes && n in codes
    requires PassedInUse(from, n, codes)
    ensures (n + 1) % SPACE < SPACE
    ensures PassedInUse(from, (n + 1) % SPACE, codes)
    ensures Gap((n + 1) % SPACE, free) < Gap(n, free)
  {
    assert (n + 1) % SPACE == if n + 1 == SPACE then 0 else n + 1;
  }

  lemma CandidateInUse(n: nat, used: set<string>, codes: seq<nat>)
    requires n < SPACE && UsedStrings(used, codes) && Numeral(n, WIDTH) in used
    ensures n in codes
  {
    var c :| c in codes && Numeral(c, WIDTH) == Numeral(n, WIDTH);
    NumeralInjective(c, n);
  }

  lemma AssignedMore(ids: seq<nat>, codes: seq<nat>, i: nat, n: nat)
    requires i < |ids| && Assigned(ids[..i], codes) && n < SPACE && n !in codes
    requires PassedInUse(ids[i] % SPACE, n, codes)
    ensures Assigned(ids[..i + 1], codes + [n])
  {
    var more := codes + [n];
    forall j | 0 <= j <= i ensures IsFirstFree(more[j], ids[j] % SPACE, CodeSet(more[..j])) {
      if j < i {
        assert more[..j] == codes[..j] && ids[..i][j] == ids[j];
      } else {
        assert more[..i] == codes;
      }
    }
  }

  lemma UsedMore(used: set<string>, codes: seq<nat>, n: nat)
    requires UsedStrings(used, codes) && n < SPACE
    ensures UsedStrings(used + {Numeral(n, WIDTH)}, codes + [n])
  {
    forall s | s in used + {Numeral(n, WIDTH)} ensures exists c :: c in codes + [n] && Numeral(c, WIDTH) == s {
      if s in used {
        var c :| c in codes && Numeral(c, WIDTH) == s;
        assert c in codes + [n];
      } else {
        assert n in codes + [n];
      }
    }
  }

  // ----- What the assignment promises -----

  /** The assignment of a list of ids is unique. */
  lemma {:induction false} AssignedUnique(ids: seq<nat>, a: seq<nat>, b: seq<nat>, n: nat)
    requires Assigned(ids, a) && Assigned(ids, b) && n <= |ids|
    ensures a[..n] == b[..n]
  {
    if n > 0 {
      AssignedUnique(ids, a, b, n - 1);
      FirstFreeUnique(a[n - 1], b[n - 1], ids[n - 1] % SPACE, CodeSet(a[..n - 1]));
      assert a[..n] == a[..n - 1] + [a[n - 1]] && b[..n] == b[..n - 1] + [b[n - 1]];
    }
  }

  /** Order and repetition of the input do not matter: the codes depend only on the set of ids. */
  lemma CodesDependOnlyOnSet(a: seq<nat>, b: seq<nat>, aCodes: seq<nat>, bCodes: seq<nat>)
    requires forall x :: x in a <==> x in b
    requires Assigned(SortedDistinct(a), aCodes) && Assigned(SortedDistinct(b), bCodes)
    ensures SortedDistinct(a) == SortedDistinct(b) && aCodes == bCodes
  {
    SortedDistinctKeeps(a);
    SortedDistinctKeeps(b);
    IncreasingIsUnique(SortedDistinct(a), SortedDistinct(b));
    AssignedUnique(SortedDistinct(a), aCodes, bCodes, |aCodes|);
    assert aCodes[..|aCodes|] == aCodes && bCodes[..|bCodes|] == bCodes;
  }

  /** Different ids get different six-character strings. */
  lemma StringsAreDifferent(ids: seq<nat>, codes: seq<nat>, i: nat, j: nat)
    requires Assigned(ids, codes) && i < j < |ids|
    ensures |Numeral(codes[i], WIDTH)| == 6
    ensures Numeral(codes[i], WIDTH) != Numeral(codes[j], WIDTH)
  {
    assert codes[..j][i] == codes[i];
    assert codes[i] in CodeSet(codes[..j]);
    if Numeral(codes[i], WIDTH) == Numeral(codes[j], WIDTH) {
      NumeralInjective(codes[i], codes[j]);
    }
  }

  /** Every id below 36^6 gets its own base-36 numeral. */
  lemma {:induction false} SmallIdsKeepTheirNumeral(ids: seq<nat>, codes: seq<nat>, i: nat)
    requires StrictlyIncreasing(ids) && Assigned(ids, codes) && i < |ids| && ids[i] < SPACE
    ensures codes[i] == ids[i]
  {
    forall j | 0 <= j < i ensures codes[j] == ids[j] {
      SmallIdsKeepTheirNumeral(ids, codes, j);
    }
    assert ids[i] % SPACE == ids[i];
    forall c | c in codes[..i] ensures c < ids[i] {
      var j :| 0 <= j < i && codes[..i][j] == c;
    }
    assert Gap(ids[i], codes[i]) <= Gap(ids[i], ids[i]) == 0;
  }

  /** Up to an id, both inputs have the same ids. */
  ghost predicate AgreeUpTo(a: seq<nat>, b: seq<nat>, x: nat) {
    forall y :: 0 <= y <= x ==> (y in a <==> y in b)
  }

  lemma PrefixAssigned(ids: seq<nat>, codes: seq<nat>, n: nat)
    requires Assigned(ids, codes) && n <= |ids|
    ensures Assigned(ids[..n], codes[..n])
  {
    forall i | 0 <= i < n ensures IsFirstFree(codes[..n][i], ids[..n][i] % SPACE, CodeSet(codes[..n][..i])) {
      assert codes[..n][..i] == codes[..i];
    }
  }

  lemma PrefixMembers(ids: seq<nat>, i: nat, y: nat)
    requires StrictlyIncreasing(ids) && i < |ids|
    ensures y in ids[..i + 1] <==> y in ids && y <= ids[i]
  {
    if y in ids && y <= ids[i] {
      var k :| 0 <= k < |ids| && ids[k] == y;
      assert ids[..i + 1][k] == y;
    }
  }

  /** Sorted lists that agree up to an id of theirs start alike, up to and with that id. */
  lemma SameUpTo(a: seq<nat>, b: seq<nat>, i: nat)
    requires StrictlyIncreasing(a) && StrictlyIncreasing(b) && i < |a| && AgreeUpTo(a, b, a[i])
    ensures i < |b| && b[..i + 1] == a[..i + 1]
  {
    assert a[i] in b;
    var j :| 0 <= j < |b| && b[j] == a[i];
    var (aStart, bStart) := (a[..i + 1], b[..j + 1]);
    forall y: nat ensures y in aStart <==> y in bStart {
      PrefixMembers(a, i, y);
      PrefixMembers(b, j, y);
    }
    IncreasingIsUnique(aStart, bStart);
  }

  /** Which ids are present above an id does not matter to it: inputs that agree up to an id give it the same code. */
  lemma LargerIdsChangeNothing(a: seq<nat>, b: seq<nat>, aCodes: seq<nat>, bCodes: seq<nat>, i: nat)
    requires Assigned(SortedDistinct(a), aCodes) && Assigned(SortedDistinct(b), bCodes)
    requires i < |SortedDistinct(a)| && AgreeUpTo(a, b, SortedDistinct(a)[i])
    ensures i < |SortedDistinct(b)| && SortedDistinct(b)[i] == SortedDistinct(a)[i]
    ensures aCodes[i] == bCodes[i]
  {
    hide Assigned, SortedDistinct;
    var (aIds, bIds) := (SortedDistinct(a), SortedDistinct(b));
    SortedDistinctKeeps(a);
    SortedDistinctKeeps(b);
    SameUpTo(aIds, bIds, i);
    assert bIds[i] == bIds[..i + 1][i] == aIds[..i + 1][i] == aIds[i];
    SameCodeUpTo(aIds, bIds, aCodes, bCodes, i);
  }

  lemma SameCodeUpTo(aIds: seq<nat>, bIds: seq<nat>, aCodes: seq<nat>, bCodes: seq<nat>, i: nat)
    requires Assigned(aIds, aCodes) && Assigned(bIds, bCodes)
    requires i < |aIds| && i < |bIds| && aIds[..i + 1] == bIds[..i + 1]
    ensures aCodes[i] == bCodes[i]
  {
    PrefixAssigned(aIds, aCodes, i + 1);
    PrefixAssigned(bIds, bCodes, i + 1);
    AssignedUnique(aIds[..i + 1], aCodes[..i + 1], bCodes[..i + 1], i + 1);
    assert aCodes[..i + 1][..i + 1] == aCodes[..i + 1] && bCodes[..i + 1][..i + 1] == bCodes[..i + 1];
    assert aCodes[..i + 1][i] == bCodes[..i + 1][i];
  }

  // ----- How many ids there may be -----

  /** The codes of an assignment are pairwise different. */
  lemma {:induction false} AssignedSize(ids: seq<nat>, codes: seq<nat>, n: nat)
    requires Assigned(ids, codes) && n <= |ids|
    ensures |CodeSet(codes[..n])| == n && forall c :: c in CodeSet(codes[..n]) ==> c < SPACE
  {
    if n > 0 {
      AssignedSize(ids, codes, n - 1);
      assert codes[..n] == codes[..n - 1] + [codes[n - 1]];
      assert CodeSet(codes[..n]) == CodeSet(codes[..n - 1]) + {codes[n - 1]};
    }
  }

  /** With more than 36^6 different ids there is no assignment at all: probing for the last one would never end. */
  lemma TooManyIdsHaveNoCodes(ids: seq<nat>, codes: seq<nat>)
    requires Assigned(ids, codes)
    ensures |ids| <= SPACE
  {
    AssignedSize(ids, codes, |ids|);
    RangeSize(SPACE);
    SubsetSize(CodeSet(codes[..|ids|]), Below(SPACE));
  }
}
