/**
  The array built-ins the statistics use, over integer sequences:
  `filter`, the `reduce` that sums, `Math.max(...)`, `Math.min(...)` and
  `Math.round` of a mean.
*/
module Aggregates {

  /** `s.filter(p)`: the elements of `s` that satisfy `p`, in their original order. */
  function Filter<T>(s: seq<T>, p: T -> bool): (r: seq<T>)
    ensures |r| <= |s|
    ensures forall x :: x in r ==> x in s && p(x)
    ensures forall x :: x in s && p(x) ==> x in r
  {
    if s == [] then []
    else
      assert s == [s[0]] + s[1..];
      if p(s[0]) then [s[0]] + Filter(s[1..], p)
      else Filter(s[1..], p)
  }

  /**
    `s.filter(p)` keeps each element as many times as `s` holds it when it
    satisfies `p`, and drops it altogether otherwise.
  */
  lemma {:induction false} FilterMultiset<T>(s: seq<T>, p: T -> bool, x: T)
    ensures multiset(Filter(s, p))[x] == if p(x) then multiset(s)[x] else 0
  {
    if s != [] {
      FilterMultiset(s[1..], p, x);
      assert s == [s[0]] + s[1..];
    }
  }

  /** The indices among the first `n` elements of `s` whose element satisfies `p`. */
  function Hits<T>(s: seq<T>, p: T -> bool, n: nat): set<nat>
    requires n <= |s|
  {
    set k: nat | k < n && p(s[k])
  }

  /**
    `s.filter(p).length` is the number of positions of `s` whose element
    satisfies `p`.
  */
  lemma {:induction false} FilterLength<T>(s: seq<T>, p: T -> bool, n: nat)
    requires n <= |s|
    ensures |Filter(s[..n], p)| == |Hits(s, p, n)|
  {
    if n == 0 {
      assert s[..0] == [];
      assert |Hits(s, p, 0)| == 0 by {
        if k :| k in Hits(s, p, 0) { }
      }
    } else {
      FilterLength(s, p, n - 1);
      FilterLengthStep(s, p, n);
      HitsStep(s, p, n);
    }
  }

  lemma FilterLengthStep<T>(s: seq<T>, p: T -> bool, n: nat)
    requires 0 < n <= |s|
    ensures |Filter(s[..n], p)| == |Filter(s[..n - 1], p)| + if p(s[n - 1]) then 1 else 0
  {
    assert s[..n] == s[..n - 1] + [s[n - 1]];
    FilterAppend(s[..n - 1], [s[n - 1]], p);
    assert [s[n - 1]][1..] == [];
  }

  lemma HitsStep<T>(s: seq<T>, p: T -> bool, n: nat)
    requires 0 < n <= |s|
    ensures |Hits(s, p, n)| == |Hits(s, p, n - 1)| + if p(s[n - 1]) then 1 else 0
  {
    if p(s[n - 1]) {
      assert Hits(s, p, n) == Hits(s, p, n - 1) + {n - 1};
    } else {
      assert Hits(s, p, n) == Hits(s, p, n - 1);
    }
  }

  /** Filtering distributes over concatenation. */
  lemma {:induction false} FilterAppend<T>(a: seq<T>, b: seq<T>, p: T -> bool)
    ensures Filter(a + b, p) == Filter(a, p) + Filter(b, p)
  {
    if a == [] {
      assert a + b == b;
    } else {
      assert (a + b)[1..] == a[1..] + b;
      FilterAppend(a[1..], b, p);
    }
  }

  /** Two predicates that agree on every element of `s` select the same elements. */
  lemma {:induction false} FilterAgree<T>(s: seq<T>, p: T -> bool, q: T -> bool)
    requires forall k :: 0 <= k < |s| ==> p(s[k]) == q(s[k])
    ensures Filter(s, p) == Filter(s, q)
  {
    if s != [] {
      FilterAgree(s[1..], p, q);
    }
  }

  /** When exactly the element at `i` satisfies `p`, the filter keeps only that element. */
  lemma {:induction false} FilterSingleHit<T>(s: seq<T>, p: T -> bool, i: nat)
    requires i < |s| && p(s[i])
    requires forall k :: 0 <= k < |s| && k != i ==> !p(s[k])
    ensures Filter(s, p) == [s[i]]
  {
    assert s == s[..i] + [s[i]] + s[i + 1..];
    FilterAppend(s[..i] + [s[i]], s[i + 1..], p);
    FilterAppend(s[..i], [s[i]], p);
    FilterNone(s[..i], p);
    FilterNone(s[i + 1..], p);
    assert [s[i]][1..] == [];
  }

  /** Nothing is selected when no element satisfies `p`. */
  lemma {:induction false} FilterNone<T>(s: seq<T>, p: T -> bool)
    requires forall k :: 0 <= k < |s| ==> !p(s[k])
    ensures Filter(s, p) == []
  {
    if s != [] {
      FilterNone(s[1..], p);
    }
  }

  /** `values.reduce((a, b) => a + b, 0)`: the left fold `((0 + v0) + v1) + ...`. */
  function Sum(values: seq<int>): (s: int)
  {
    if values == [] then 0 else Sum(values[..|values| - 1]) + values[|values| - 1]
  }

  /** A sum of `n` values, each within `[lo, hi]`, lies within `[n * lo, n * hi]`. */
  lemma {:induction false} SumBounds(values: seq<int>, lo: int, hi: int)
    requires forall k :: 0 <= k < |values| ==> lo <= values[k] <= hi
    ensures |values| * lo <= Sum(values) <= |values| * hi
  {
    if values != [] {
      var front := values[..|values| - 1];
      SumBounds(front, lo, hi);
      assert |values| * lo == |front| * lo + lo;
      assert |values| * hi == |front| * hi + hi;
    }
  }

  /** `Math.max(...values)` */
  function MaxOf(values: seq<int>): (m: int)
    requires values != []
    ensures m in values
    ensures forall k :: 0 <= k < |values| ==> values[k] <= m
  {
    if |values| == 1 then values[0]
    else
      var rest := MaxOf(values[1..]);
      if values[0] >= rest then values[0] else rest
  }

  /** `Math.min(...values)` */
  function MinOf(values: seq<int>): (m: int)
    requires values != []
    ensures m in values
    ensures forall k :: 0 <= k < |values| ==> m <= values[k]
  {
    if |values| == 1 then values[0]
    else
      var rest := MinOf(values[1..]);
      if values[0] <= rest then values[0] else rest
  }

  /**
    `Math.round(Sum(values) / |values|)`. `Math.round(x)` is `floor(x + 1/2)`,
    and `floor(S / n + 1/2) == floor((2S + n) / 2n)`, which is exactly
    Euclidean division by the positive `2n` for every integer `S`.
    The result is the nearest integer to the mean, ties going up:
    `r - 1/2 <= S / n < r + 1/2`.
  */
  function RoundedMean(values: seq<int>): (r: int)
    requires values != []
    ensures 2 * |values| * r <= 2 * Sum(values) + |values| < 2 * |values| * r + 2 * |values|
  {
    var n := |values|;
    (2 * Sum(values) + n) / (2 * n)
  }

  /** Rounding the mean of values within `[lo, hi]` stays within `[lo, hi]`. */
  lemma RoundedMeanBounds(values: seq<int>, lo: int, hi: int)
    requires values != []
    requires forall k :: 0 <= k < |values| ==> lo <= values[k] <= hi
    ensures lo <= RoundedMean(values) <= hi
  {
    SumBounds(values, lo, hi);
    RoundedBetween(|values|, Sum(values), RoundedMean(values), lo, hi);
  }

  /**
    The arithmetic behind RoundedMeanBounds: if `r` is `s / n` rounded half
    up and `s / n` lies within `[lo, hi]`, then so does `r`.
  */
  lemma RoundedBetween(n: nat, s: int, r: int, lo: int, hi: int)
    requires n > 0 && n * lo <= s <= n * hi
    requires 2 * n * r <= 2 * s + n < 2 * n * r + 2 * n
    ensures lo <= r <= hi
  {
    var m := 2 * n;
    // 2s + n <= 2n * hi + n < 2n * (hi + 1), so r < hi + 1
    assert m * r < m * (hi + 1) by {
      assert m * (hi + 1) == 2 * (n * hi) + m;
    }
    MulStrictCancel(m, r, hi + 1);
    // 2n * lo < 2n * lo + n <= 2s + n < 2n * (r + 1), so lo < r + 1
    assert m * lo < m * (r + 1) by {
      assert m * lo == 2 * (n * lo);
      assert m * (r + 1) == m * r + m;
    }
    MulStrictCancel(m, lo, r + 1);
  }

  /** A non-negative factor can be cancelled from a strict inequality between products. */
  lemma MulStrictCancel(c: nat, a: int, b: int)
    requires c * a < c * b
    ensures a < b
  {
  }
}
