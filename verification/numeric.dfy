/**
 * Exact real arithmetic standing in for the simulator's float64 vectors:
 * clipping, ceiling, sums, and means that report an explicit NaN sentinel
 * for an empty vector instead of letting it propagate silently.
 */
module Numeric {

  /** A reported float: a finite value or NaN. */
  datatype Stat = Finite(value: real) | NaN

  /** The clip margin keeping baseline return probabilities strictly inside (0, 1). */
  const Eps: real := 0.000001

  function Min(a: int, b: int): int { if a <= b then a else b }
  function Max(a: int, b: int): int { if a >= b then a else b }

  /** `np.clip(x, lo, hi)`, i.e. `min(max(x, lo), hi)`. */
  function Clip(x: real, lo: real, hi: real): (r: real)
    ensures lo <= hi ==> lo <= r <= hi
    ensures lo <= x <= hi ==> r == x
    ensures x < lo && lo <= hi ==> r == lo
    ensures hi < x ==> r == hi
  {
    var m := if x < lo then lo else x;
    if m > hi then hi else m
  }

  /** `np.ceil(x)` on a finite value: the least integer not below `x`. */
  function Ceil(x: real): (k: int)
    ensures x <= k as real < x + 1.0
  {
    -((-x).Floor)
  }

  function Sum(xs: seq<real>): real {
    if xs == [] then 0.0 else xs[0] + Sum(xs[1..])
  }

  /** `np.mean(xs)`: NaN for an empty vector. */
  function Mean(xs: seq<real>): (m: Stat)
    ensures m.NaN? <==> |xs| == 0
  {
    if |xs| == 0 then NaN else Finite(Sum(xs) / |xs| as real)
  }

  /** Elementwise `a - b`. */
  function Diff(a: seq<real>, b: seq<real>): (r: seq<real>)
    requires |a| == |b|
    ensures |r| == |a|
  {
    seq(|a|, i requires 0 <= i < |a| => a[i] - b[i])
  }

  /** A sum of a difference is the difference of the sums. */
  lemma {:induction false} SumDiff(a: seq<real>, b: seq<real>)
    requires |a| == |b|
    ensures Sum(Diff(a, b)) == Sum(a) - Sum(b)
  {
    if a != [] {
      assert Diff(a, b)[1..] == Diff(a[1..], b[1..]);
      SumDiff(a[1..], b[1..]);
    }
  }

  /** A sum of values that lie in [lo, hi] lies in [n·lo, n·hi]. */
  lemma {:induction false} SumBounds(xs: seq<real>, lo: real, hi: real)
    requires forall i :: 0 <= i < |xs| ==> lo <= xs[i] <= hi
    ensures |xs| as real * lo <= Sum(xs) <= |xs| as real * hi
  {
    if xs != [] {
      SumBounds(xs[1..], lo, hi);
    }
  }

  /** A sum of zeros is zero. */
  lemma {:induction false} SumZero(xs: seq<real>)
    requires forall i :: 0 <= i < |xs| ==> xs[i] == 0.0
    ensures Sum(xs) == 0.0
  {
    if xs != [] {
      SumZero(xs[1..]);
    }
  }

  /** A sum of non-negative terms is non-negative. */
  lemma {:induction false} SumNonNegative(xs: seq<real>)
    requires forall i :: 0 <= i < |xs| ==> xs[i] >= 0.0
    ensures Sum(xs) >= 0.0
  {
    if xs != [] {
      SumNonNegative(xs[1..]);
    }
  }

  /** A product of naturals is zero exactly when a factor is. */
  lemma ProductZero(a: nat, b: nat)
    ensures a * b == 0 <==> a == 0 || b == 0
  {
    if a > 0 && b > 0 {
      assert a * b >= b by {
        assert a * b == (a - 1) * b + b;
      }
    }
  }

  lemma MulNonNegative(x: real, y: real)
    ensures x >= 0.0 && y >= 0.0 ==> x * y >= 0.0
  {
  }

  /** The mean of non-negative values is non-negative. */
  lemma MeanNonNegative(xs: seq<real>)
    requires |xs| > 0
    requires forall i :: 0 <= i < |xs| ==> xs[i] >= 0.0
    ensures Mean(xs).value >= 0.0
  {
    SumNonNegative(xs);
    var n := |xs| as real;
    assert Sum(xs) / n * n == Sum(xs);
  }

  /** The mean of values in [lo, hi] lies in [lo, hi]. */
  lemma MeanBounds(xs: seq<real>, lo: real, hi: real)
    requires |xs| > 0
    requires forall i :: 0 <= i < |xs| ==> lo <= xs[i] <= hi
    ensures lo <= Mean(xs).value <= hi
  {
    var n := |xs| as real;
    SumBounds(xs, lo, hi);
    assert n * lo <= Sum(xs) <= n * hi;
    assert Sum(xs) / n >= lo by {
      assert Sum(xs) / n * n == Sum(xs);
    }
    assert Sum(xs) / n <= hi by {
      assert Sum(xs) / n * n == Sum(xs);
    }
  }

  /** The mean of a difference is the difference of the means. */
  lemma MeanDiff(a: seq<real>, b: seq<real>)
    requires |a| == |b| > 0
    ensures Mean(Diff(a, b)).value == Mean(a).value - Mean(b).value
  {
    SumDiff(a, b);
    var n := |a| as real;
    assert (Sum(a) - Sum(b)) / n == Sum(a) / n - Sum(b) / n;
  }
}
