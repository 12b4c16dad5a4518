/** Vocabulary shared by every module: optional values, bounded machine arithmetic and sequences. */
module Prelude {
  datatype Option<+T> = None | Some(value: T)

  const U16_MAX: nat := 0xFFFF
  const U64_MAX: nat := 0xFFFF_FFFF_FFFF_FFFF
  const U128_MAX: nat := 0xFFFF_FFFF_FFFF_FFFF_FFFF_FFFF_FFFF_FFFF

  function Min(a: int, b: int): int {
    if a <= b then a else b
  }

  function Max(a: int, b: int): int {
    if a >= b then a else b
  }

  /** Rust's `clamp`: `low <= high` is the caller's obligation. */
  function Clamp(value: int, low: int, high: int): (r: int)
    requires low <= high
  {
    if value < low then low else if value > high then high else value
  }

  /** `saturating_add` of an unsigned type whose largest value is `limit`. */
  function SatAdd(a: nat, b: nat, limit: nat): nat {
    Min(a + b, limit)
  }

  /** `saturating_sub` of an unsigned type. */
  function SatSub(a: nat, b: nat): nat {
    if a <= b then 0 else a - b
  }

  ghost predicate Distinct<T(!new)>(s: seq<T>) {
    forall i, j :: 0 <= i < j < |s| ==> s[i] != s[j]
  }

  lemma DistinctAppend<T(!new)>(s: seq<T>, t: seq<T>)
    requires Distinct(s + t)
    ensures Distinct(s) && Distinct(t)
    ensures forall x :: x in s ==> x !in t
  {
    forall i, j | 0 <= i < j < |s| ensures s[i] != s[j] {
      assert (s + t)[i] == s[i] && (s + t)[j] == s[j];
    }
    forall i, j | 0 <= i < j < |t| ensures t[i] != t[j] {
      assert (s + t)[|s| + i] == t[i] && (s + t)[|s| + j] == t[j];
    }
    forall i, j | 0 <= i < |s| && 0 <= j < |t| ensures s[i] != t[j] {
      assert (s + t)[i] == s[i] && (s + t)[|s| + j] == t[j];
    }
  }

  /** What remains of `t` after leaving out some of its elements. */
  ghost predicate Subsequence<T(!new)>(s: seq<T>, t: seq<T>) {
    if s == [] then true
    else if t == [] then false
    else
      var (s', t') := (s[..|s| - 1], t[..|t| - 1]);
      (s[|s| - 1] == t[|t| - 1] && Subsequence(s', t')) || Subsequence(s, t')
  }

  lemma {:induction false} SubsequenceDropLast<T(!new)>(s: seq<T>, t: seq<T>)
    requires s != [] && Subsequence(s, t)
    ensures Subsequence(s[..|s| - 1], t)
  {
    if Subsequence(s, t[..|t| - 1]) {
      SubsequenceDropLast(s, t[..|t| - 1]);
    }
  }

  lemma SubsequenceMore<T(!new)>(s: seq<T>, t: seq<T>, x: T)
    requires Subsequence(s, t)
    ensures Subsequence(s + [x], t + [x]) && Subsequence(s, t + [x])
  {
    assert (s + [x])[..|s|] == s && (t + [x])[..|t|] == t;
  }

  lemma {:induction false} SubsequenceItself<T(!new)>(s: seq<T>)
    ensures Subsequence(s, s)
  {
    if s != [] {
      SubsequenceItself(s[..|s| - 1]);
    }
  }

  lemma {:induction false} SubsequenceOfSubsequence<T(!new)>(s: seq<T>, t: seq<T>, u: seq<T>)
    requires Subsequence(s, t) && Subsequence(t, u)
    ensures Subsequence(s, u)
    decreases |u|
  {
    if s != [] {
      var (s', t', u') := (s[..|s| - 1], t[..|t| - 1], u[..|u| - 1]);
      if Subsequence(t, u') {
        SubsequenceOfSubsequence(s, t, u');
      } else if Subsequence(s, t') {
        SubsequenceOfSubsequence(s, t', u');
      } else {
        SubsequenceOfSubsequence(s', t', u');
      }
    }
  }

  lemma {:induction false} SubsetSize(small: set<nat>, large: set<nat>)
    requires small <= large
    ensures |small| <= |large|
  {
    if small != {} {
      var x :| x in small;
      SubsetSize(small - {x}, large - {x});
    }
  }
}
