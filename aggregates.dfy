/**
 * Column aggregates used by the analysis: sum, running sum (pandas cumsum),
 * mean, maximum and minimum. Sums are taken from the back so that the sum of a
 * prefix unfolds one element at a time.
 */
module Aggregates {

  /** Sum of a column of reals. */
  function Sum(xs: seq<real>): real
    decreases |xs|
  {
    if xs == [] then 0.0 else Sum(xs[..|xs| - 1]) + xs[|xs| - 1]
  }

  /** Running total, element by element: pandas `Series.cumsum()`. */
  function CumSum(xs: seq<real>): (s: seq<real>)
    decreases |xs|
    ensures |s| == |xs|
    ensures forall i :: 0 <= i < |xs| ==> s[i] == Sum(xs[..i + 1])
  {
    if xs == [] then []
    else
      var p := CumSum(xs[..|xs| - 1]);
      var last := (if p == [] then 0.0 else p[|p| - 1]) + xs[|xs| - 1];
      PrefixOfPrefix(xs, |xs| - 1);
      assert xs[..|xs|] == xs;
      p + [last]
  }

  /** A prefix of a prefix is a prefix. */
  lemma PrefixOfPrefix<T>(xs: seq<T>, n: nat)
    requires n <= |xs|
    ensures forall k :: 0 <= k <= n ==> xs[..n][..k] == xs[..k]
  {
  }

  /** Every element is at least zero. */
  predicate NonNegative(xs: seq<real>)
  {
    forall i :: 0 <= i < |xs| ==> 0.0 <= xs[i]
  }

  /** The sum of a prefix never exceeds the sum of a longer prefix when no element is negative. */
  lemma {:induction false} SumPrefixMonotone(xs: seq<real>, i: nat, j: nat)
    requires i <= j <= |xs|
    requires NonNegative(xs)
    ensures Sum(xs[..i]) <= Sum(xs[..j])
    decreases j - i
  {
    if i < j {
      SumPrefixMonotone(xs, i, j - 1);
      assert xs[..j][..j - 1] == xs[..j - 1];
      assert Sum(xs[..j]) == Sum(xs[..j - 1]) + xs[j - 1];
    }
  }

  /** A column of zeros sums to zero. */
  lemma {:induction false} SumOfZeros(xs: seq<real>)
    requires forall i :: 0 <= i < |xs| ==> xs[i] == 0.0
    ensures Sum(xs) == 0.0
    decreases |xs|
  {
    if xs != [] {
      SumOfZeros(xs[..|xs| - 1]);
    }
  }

  /** A sum is bounded by the count times any upper bound of the elements. */
  lemma {:induction false} SumAtMostCountTimesBound(xs: seq<real>, b: real)
    requires forall i :: 0 <= i < |xs| ==> xs[i] <= b
    ensures Sum(xs) <= |xs| as real * b
    decreases |xs|
  {
    if xs != [] {
      SumAtMostCountTimesBound(xs[..|xs| - 1], b);
    }
  }

  /** pandas `Series.mean()` over a non-empty column. */
  function Mean(xs: seq<real>): real
    requires |xs| > 0
  {
    Sum(xs) / |xs| as real
  }

  /** pandas `Series.max()` over a non-empty column of reals. */
  function Max(xs: seq<real>): (m: real)
    requires |xs| > 0
    decreases |xs|
    ensures m in xs
    ensures forall i :: 0 <= i < |xs| ==> xs[i] <= m
  {
    if |xs| == 1 then xs[0]
    else
      var m := Max(xs[..|xs| - 1]);
      assert forall i :: 0 <= i < |xs| - 1 ==> xs[i] == xs[..|xs| - 1][i];
      if m < xs[|xs| - 1] then xs[|xs| - 1] else m
  }

  /** pandas `Series.max()` over a non-empty column of integers (timestamps). */
  function MaxInt(xs: seq<int>): (m: int)
    requires |xs| > 0
    decreases |xs|
    ensures m in xs
    ensures forall i :: 0 <= i < |xs| ==> xs[i] <= m
  {
    if |xs| == 1 then xs[0]
    else
      var m := MaxInt(xs[..|xs| - 1]);
      assert forall i :: 0 <= i < |xs| - 1 ==> xs[i] == xs[..|xs| - 1][i];
      if m < xs[|xs| - 1] then xs[|xs| - 1] else m
  }

  /** pandas `Series.min()` over a non-empty column of integers (timestamps). */
  function MinInt(xs: seq<int>): (m: int)
    requires |xs| > 0
    decreases |xs|
    ensures m in xs
    ensures forall i :: 0 <= i < |xs| ==> m <= xs[i]
  {
    if |xs| == 1 then xs[0]
    else
      var m := MinInt(xs[..|xs| - 1]);
      assert forall i :: 0 <= i < |xs| - 1 ==> xs[i] == xs[..|xs| - 1][i];
      if xs[|xs| - 1] < m then xs[|xs| - 1] else m
  }

  /** The mean of a column never exceeds its maximum. */
  lemma MeanAtMostMax(xs: seq<real>)
    requires |xs| > 0
    ensures Mean(xs) <= Max(xs)
  {
    var total, n, m := Sum(xs), |xs| as real, Max(xs);
    SumAtMostCountTimesBound(xs, m);
    QuotientAtMost(total, n, m);
    assert Mean(xs) == total / n;
  }

  lemma QuotientAtMost(a: real, n: real, b: real)
    requires n > 0.0 && a <= n * b
    ensures a / n <= b
  {
    assert a / n * n == a;
  }

  /** On a non-decreasing column the maximum is the last element. */
  lemma MaxOfNonDecreasing(xs: seq<real>)
    requires |xs| > 0
    requires forall i, j :: 0 <= i <= j < |xs| ==> xs[i] <= xs[j]
    ensures Max(xs) == xs[|xs| - 1]
  {
  }
}
