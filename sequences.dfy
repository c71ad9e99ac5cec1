/**
 * The array operations the roster is built from: `filter`, `slice` (with JavaScript's
 * negative-index rule) and the concatenation of a list of chunks.
 */
module Seqs {

  function Min(a: int, b: int): int {
    if a <= b then a else b
  }

  function Max(a: int, b: int): int {
    if a <= b then b else a
  }

  /** `r` is `s` with some elements deleted, the rest kept in their order. */
  predicate IsSubsequence<T(==)>(r: seq<T>, s: seq<T>)
    decreases |s|
  {
    if r == [] then true
    else if s == [] then false
    else (r[0] == s[0] && IsSubsequence(r[1..], s[1..])) || IsSubsequence(r, s[1..])
  }

  /**
   * `s.filter(keep)`: every element that passes is kept as often as it occurs,
   * every other element is dropped.
   */
  function Filter<T(==)>(s: seq<T>, keep: T -> bool): (r: seq<T>)
    ensures |r| <= |s|
    ensures forall x :: x in r ==> x in s && keep(x)
  {
    if s == [] then [] else (if keep(s[0]) then [s[0]] else []) + Filter(s[1..], keep)
  }

  /** Every element that passes survives as often as it occurs; the others not at all. */
  lemma {:induction false} FilterMultiplicity<T>(s: seq<T>, keep: T -> bool, x: T)
    ensures multiset(Filter(s, keep))[x] == if keep(x) then multiset(s)[x] else 0
  {
    if s != [] {
      assert s == [s[0]] + s[1..];
      FilterMultiplicity(s[1..], keep, x);
    }
  }

  /** FilterMultiplicity for every element at once. */
  lemma FilterCounts<T>(s: seq<T>, keep: T -> bool)
    ensures forall x :: multiset(Filter(s, keep))[x] == if keep(x) then multiset(s)[x] else 0
  {
    forall x {
      FilterMultiplicity(s, keep, x);
    }
  }

  /** Filtering never reorders: the survivors form a subsequence of the input. */
  lemma {:induction false} FilterIsSubsequence<T>(s: seq<T>, keep: T -> bool)
    ensures IsSubsequence(Filter(s, keep), s)
  {
    if s != [] {
      FilterIsSubsequence(s[1..], keep);
      var rest := Filter(s[1..], keep);
      if keep(s[0]) {
        assert ([s[0]] + rest)[1..] == rest;
      } else {
        assert Filter(s, keep) == rest;
      }
    }
  }

  /** Filtering with a test every element passes changes nothing. */
  lemma {:induction false} FilterKeepsAll<T>(s: seq<T>, keep: T -> bool)
    requires forall x :: x in s ==> keep(x)
    ensures Filter(s, keep) == s
  {
    if s != [] {
      assert s[0] in s;
      FilterKeepsAll(s[1..], keep);
      assert s == [s[0]] + s[1..];
    }
  }

  /** Two tests that agree on the elements give the same result. */
  lemma {:induction false} FilterAgree<T>(s: seq<T>, f: T -> bool, g: T -> bool)
    requires forall x :: x in s ==> f(x) == g(x)
    ensures Filter(s, f) == Filter(s, g)
  {
    if s != [] {
      assert s[0] in s;
      FilterAgree(s[1..], f, g);
    }
  }

  /** Filtering twice is filtering once with the conjunction of the tests. */
  lemma {:induction false} FilterFuse<T>(s: seq<T>, p: T -> bool, q: T -> bool, both: T -> bool)
    requires forall x :: x in s ==> both(x) == (p(x) && q(x))
    ensures Filter(Filter(s, p), q) == Filter(s, both)
  {
    if s != [] {
      assert s[0] in s;
      FilterFuse(s[1..], p, q, both);
      var rest := Filter(s[1..], p);
      if p(s[0]) {
        var a := [s[0]] + rest;
        assert Filter(s, p) == a;
        assert a[0] == s[0] && a[1..] == rest;
        assert Filter(a, q) == (if q(s[0]) then [s[0]] else []) + Filter(rest, q);
      } else {
        assert Filter(s, p) == rest;
      }
    }
  }

  /** Three filters in a row keep exactly what passes all three, whichever runs first. */
  lemma FilterThree<T>(s: seq<T>, a: T -> bool, b: T -> bool, c: T -> bool, all: T -> bool)
    requires forall x :: x in s ==> all(x) == (a(x) && b(x) && c(x))
    ensures Filter(Filter(Filter(s, a), b), c) == Filter(s, all)
  {
    var ab := x => a(x) && b(x);
    FilterFuse(s, a, b, ab);
    FilterFuse(s, ab, c, all);
  }

  /** How `slice` reads an index: a negative one counts from the end; both are clamped. */
  function RelativeIndex(k: int, n: nat): (r: nat)
    ensures r <= n
    ensures 0 <= k ==> r == Min(k, n)
  {
    if k < 0 then (if n + k > 0 then n + k else 0) else Min(k, n)
  }

  /** `s.slice(start, end)`; an empty result, never an error, when the range is empty. */
  function Slice<T>(s: seq<T>, start: int, end: int): (r: seq<T>)
    ensures |r| <= |s|
    ensures forall i :: 0 <= i < |r| ==> r[i] in s
    ensures 0 <= start <= end ==> r == s[Min(start, |s|)..Min(end, |s|)]
    ensures 0 <= start && 0 <= end ==> |r| <= end - start || r == []
  {
    var from, to := RelativeIndex(start, |s|), RelativeIndex(end, |s|);
    if from < to then s[from..to] else []
  }

  /** A prefix followed by the slice after it is the longer prefix. */
  lemma PrefixThenSlice<T>(s: seq<T>, a: int, b: int)
    requires 0 <= a <= b <= |s|
    ensures s[..a] + s[a..b] == s[..b]
  {
    assert forall i :: 0 <= i < b ==> (s[..a] + s[a..b])[i] == s[i];
  }

  /** The concatenation of a list of chunks. */
  function Flatten<T>(chunks: seq<seq<T>>): seq<T> {
    if chunks == [] then [] else Flatten(chunks[..|chunks| - 1]) + chunks[|chunks| - 1]
  }

  /** Flattening after appending a chunk appends that chunk. */
  lemma FlattenAppend<T>(chunks: seq<seq<T>>, c: seq<T>)
    ensures Flatten(chunks + [c]) == Flatten(chunks) + c
  {
    assert (chunks + [c])[..|chunks|] == chunks;
  }
}
