/**
 * Sums and arithmetic means over exact reals. The source computes these with
 * `reduce((sum, val) => sum + val, 0) / values.length` in the frontend and
 * with `sum(xs) / len(xs)` in the analytics views; floating-point rounding is
 * not modelled.
 */
module Reductions {

  /** Left-to-right sum, starting from 0. */
  function Sum(s: seq<real>): real {
    if s == [] then 0.0 else Sum(s[..|s| - 1]) + s[|s| - 1]
  }

  function Mean(s: seq<real>): real
    requires |s| > 0
  {
    Sum(s) / |s| as real
  }

  lemma {:induction false} SumAppend(s: seq<real>, t: seq<real>)
    ensures Sum(s + t) == Sum(s) + Sum(t)
  {
    if t != [] {
      assert (s + t)[..|s + t| - 1] == s + t[..|t| - 1];
      SumAppend(s, t[..|t| - 1]);
    } else {
      assert s + t == s;
    }
  }

  /** Bounds on every element bound the sum. */
  lemma {:induction false} SumBounds(s: seq<real>, lo: real, hi: real)
    requires forall i :: 0 <= i < |s| ==> lo <= s[i] <= hi
    ensures |s| as real * lo <= Sum(s) <= |s| as real * hi
  {
    if s != [] {
      SumBounds(s[..|s| - 1], lo, hi);
    }
  }

  /** A sum of strictly positive values over a non-empty sequence is strictly positive. */
  lemma {:induction false} SumPositive(s: seq<real>)
    requires |s| > 0
    requires forall i :: 0 <= i < |s| ==> s[i] > 0.0
    ensures Sum(s) > 0.0
  {
    if |s| > 1 {
      SumPositive(s[..|s| - 1]);
    }
  }

  /** The mean lies between any lower and upper bound of the values. */
  lemma MeanBounds(s: seq<real>, lo: real, hi: real)
    requires |s| > 0
    requires forall i :: 0 <= i < |s| ==> lo <= s[i] <= hi
    ensures lo <= Mean(s) <= hi
  {
    SumBounds(s, lo, hi);
    var n := |s| as real;
    assert n * lo <= Sum(s) <= n * hi;
    assert Mean(s) * n == Sum(s);
  }

  /** The mean of strictly positive values is strictly positive. */
  lemma MeanPositive(s: seq<real>)
    requires |s| > 0
    requires forall i :: 0 <= i < |s| ==> s[i] > 0.0
    ensures Mean(s) > 0.0
  {
    SumPositive(s);
  }

  /** Strictly above a bound everywhere, strictly above it on the sum. */
  lemma {:induction false} SumStrictlyAbove(s: seq<real>, m: real)
    requires |s| > 0
    requires forall i :: 0 <= i < |s| ==> s[i] > m
    ensures Sum(s) > |s| as real * m
  {
    if |s| > 1 {
      SumStrictlyAbove(s[..|s| - 1], m);
    }
  }

  lemma {:induction false} SumStrictlyBelow(s: seq<real>, m: real)
    requires |s| > 0
    requires forall i :: 0 <= i < |s| ==> s[i] < m
    ensures Sum(s) < |s| as real * m
  {
    if |s| > 1 {
      SumStrictlyBelow(s[..|s| - 1], m);
    }
  }

  /** Some value is at most the mean and some value is at least the mean. */
  lemma MeanBetweenValues(s: seq<real>)
    requires |s| > 0
    ensures exists i :: 0 <= i < |s| && s[i] <= Mean(s)
    ensures exists j :: 0 <= j < |s| && Mean(s) <= s[j]
  {
    var m := Mean(s);
    assert m * |s| as real == Sum(s);
    if forall i :: 0 <= i < |s| ==> s[i] > m {
      SumStrictlyAbove(s, m);
    }
    if forall j :: 0 <= j < |s| ==> s[j] < m {
      SumStrictlyBelow(s, m);
    }
  }
}
