/**
 * Sequence helpers shared by the pages: `Array.prototype.filter` and the
 * order-preserving subsequence relation that states what a filter keeps.
 */
module Seqs {

  /** The elements of `s` that satisfy `p`, in their original order. */
  function Filter<T>(s: seq<T>, p: T -> bool): (r: seq<T>)
    ensures |r| <= |s|
    ensures forall i :: 0 <= i < |r| ==> p(r[i])
    ensures forall i :: 0 <= i < |r| ==> r[i] in s
    ensures forall i :: 0 <= i < |s| && p(s[i]) ==> s[i] in r
    decreases |s|
  {
    if s == [] then []
    else if p(s[0]) then [s[0]] + Filter(s[1..], p)
    else Filter(s[1..], p)
  }

  /** Filter keeps every element that passes, as often as it occurs, and drops the rest. */
  lemma {:induction false} FilterCounts<T>(s: seq<T>, p: T -> bool)
    ensures forall x :: multiset(Filter(s, p))[x] == if p(x) then multiset(s)[x] else 0
    decreases |s|
  {
    if s != [] {
      FilterCounts(s[1..], p);
      assert s == [s[0]] + s[1..];
      assert multiset(s) == multiset([s[0]]) + multiset(s[1..]);
    }
  }

  /** `a` can be obtained from `b` by deleting elements, keeping the order of the rest. */
  predicate IsSubsequence<T(==)>(a: seq<T>, b: seq<T>)
    decreases |b|
  {
    if a == [] then true
    else if b == [] then false
    else if a[0] == b[0] then IsSubsequence(a[1..], b[1..])
    else IsSubsequence(a, b[1..])
  }

  /** Prepending an element to the longer sequence keeps a subsequence a subsequence. */
  lemma {:induction false} SubsequenceOfTail<T>(a: seq<T>, b: seq<T>)
    requires b != [] && IsSubsequence(a, b[1..])
    ensures IsSubsequence(a, b)
    decreases |a| + |b|
  {
    if a != [] && a[0] == b[0] {
      SubsequenceDropHead(a, b[1..]);
    }
  }

  /** Dropping the first element of a subsequence keeps it a subsequence. */
  lemma {:induction false} SubsequenceDropHead<T>(a: seq<T>, b: seq<T>)
    requires a != [] && IsSubsequence(a, b)
    ensures IsSubsequence(a[1..], b)
    decreases |a| + |b|
  {
    if a[0] != b[0] {
      SubsequenceDropHead(a, b[1..]);
    }
    if a[1..] != [] {
      SubsequenceOfTail(a[1..], b);
    }
  }

  /** Appending one element to the longer sequence, and optionally to the subsequence, keeps the order. */
  lemma {:induction false} SubsequenceSnoc<T>(a: seq<T>, b: seq<T>, x: T, keep: bool)
    requires IsSubsequence(a, b)
    ensures IsSubsequence(a + (if keep then [x] else []), b + [x])
    decreases |b|
  {
    var t: seq<T> := if keep then [x] else [];
    if b != [] {
      assert (b + [x])[1..] == b[1..] + [x];
      if a == [] {
        SubsequenceSnoc(a, b[1..], x, keep);
      } else if a[0] == b[0] {
        SubsequenceSnoc(a[1..], b[1..], x, keep);
        assert (a + t)[1..] == a[1..] + t;
      } else {
        SubsequenceSnoc(a, b[1..], x, keep);
      }
    } else {
      assert a == [];
    }
  }

  /** Filtering keeps an order-preserving subsequence. */
  lemma {:induction false} FilterIsSubsequence<T>(s: seq<T>, p: T -> bool)
    ensures IsSubsequence(Filter(s, p), s)
    decreases |s|
  {
    if s != [] {
      FilterIsSubsequence(s[1..], p);
      if !p(s[0]) {
        SubsequenceOfTail(Filter(s, p), s);
      }
    }
  }

  /** A subsequence is never longer than the sequence it comes from. */
  lemma {:induction false} SubsequenceLength<T>(a: seq<T>, b: seq<T>)
    requires IsSubsequence(a, b)
    ensures |a| <= |b|
    decreases |b|
  {
    if a != [] {
      if a[0] == b[0] {
        SubsequenceLength(a[1..], b[1..]);
      } else {
        SubsequenceLength(a, b[1..]);
      }
    }
  }

  /** Filtering distributes over concatenation. */
  lemma {:induction false} FilterAppend<T>(a: seq<T>, b: seq<T>, p: T -> bool)
    ensures Filter(a + b, p) == Filter(a, p) + Filter(b, p)
    decreases |a|
  {
    if a != [] {
      assert (a + b)[1..] == a[1..] + b;
      FilterAppend(a[1..], b, p);
    } else {
      assert a + b == b;
    }
  }

  /** Two filters applied one after the other keep what their conjunction keeps. */
  lemma {:induction false} FilterFilter<T>(s: seq<T>, p: T -> bool, q: T -> bool, both: T -> bool)
    requires forall x :: both(x) == (p(x) && q(x))
    ensures Filter(Filter(s, p), q) == Filter(s, both)
    decreases |s|
  {
    if s != [] {
      FilterFilter(s[1..], p, q, both);
    }
  }

  /** Filters by predicates that agree on every element give the same result. */
  lemma {:induction false} FilterCongruent<T>(s: seq<T>, p: T -> bool, q: T -> bool)
    requires forall x :: x in s ==> p(x) == q(x)
    ensures Filter(s, p) == Filter(s, q)
    decreases |s|
  {
    if s != [] {
      FilterCongruent(s[1..], p, q);
    }
  }

  /** A filter whose predicate holds of every element keeps everything. */
  lemma {:induction false} FilterAll<T>(s: seq<T>, p: T -> bool)
    requires forall x :: x in s ==> p(x)
    ensures Filter(s, p) == s
    decreases |s|
  {
    if s != [] {
      FilterAll(s[1..], p);
    }
  }

  /**
   * One stage of a chain of conditional filters: when `active`, filtering the
   * survivors of `p` by `q` keeps what `pq` keeps; otherwise the stage is skipped.
   */
  lemma FilterStage<T>(s: seq<T>, p: T -> bool, active: bool, q: T -> bool, pq: T -> bool)
    requires forall x :: pq(x) == (p(x) && (!active || q(x)))
    ensures (if active then Filter(Filter(s, p), q) else Filter(s, p)) == Filter(s, pq)
  {
    if active {
      FilterFilter(s, p, q, pq);
    } else {
      FilterCongruent(s, p, pq);
    }
  }

  /** A stricter predicate keeps a subsequence of what a looser one keeps. */
  lemma FilterMonotone<T>(s: seq<T>, strict: T -> bool, loose: T -> bool)
    requires forall x :: strict(x) ==> loose(x)
    ensures IsSubsequence(Filter(s, strict), Filter(s, loose))
  {
    FilterFilter(s, loose, strict, strict);
    FilterIsSubsequence(Filter(s, loose), strict);
  }

  /**
   * `Array.prototype.slice(start, end)`: negative bounds count from the end, and
   * both bounds are clamped to the sequence.
   */
  function Slice<T>(s: seq<T>, start: int, end: int): (r: seq<T>)
    ensures 0 <= start <= end ==> r == s[Clamp(start, |s|)..Clamp(end, |s|)]
    ensures |r| <= |s|
  {
    var from := if start < 0 then Clamp(|s| + start, |s|) else Clamp(start, |s|);
    var to := if end < 0 then Clamp(|s| + end, |s|) else Clamp(end, |s|);
    if from < to then s[from..to] else []
  }

  /** `n` limited to `0..len`. */
  function Clamp(n: int, len: nat): (r: nat)
    ensures r <= len
    ensures 0 <= n <= len ==> r == n
  {
    if n < 0 then 0 else if n > len then len else n
  }
}
