/**
 * Numeric helpers for the report: Python's `round(x, 2)`, `sum` and
 * `numpy.mean`, stated on exact reals.
 */
module Rounding {

  /** x is a whole number of hundredths. */
  predicate IsHundredths(x: real) {
    (x * 100.0).Floor as real == x * 100.0
  }

  /**
   * `round(x, 2)`: the nearest multiple of 0.01, ties to the even
   * multiple, as Python rounds an exactly representable tie.
   */
  function Round2(x: real): (r: real)
    ensures IsHundredths(r)
    ensures x - 0.005 <= r <= x + 0.005
  {
    var n := (x * 100.0).Floor;
    var frac := x * 100.0 - n as real;
    var k := if frac < 0.5 then n
             else if frac > 0.5 then n + 1
             else if n % 2 == 0 then n else n + 1;
    assert -0.5 <= k as real - x * 100.0 <= 0.5;
    HundredthsOfInt(k);
    k as real / 100.0
  }

  /** A value exactly halfway between two hundredths goes to the even one. */
  lemma Round2TiesToEven(x: real)
    requires x * 100.0 - (x * 100.0).Floor as real == 0.5
    ensures (Round2(x) * 100.0).Floor % 2 == 0
    ensures Round2(x) == x - 0.005 || Round2(x) == x + 0.005
  {
    var n := (x * 100.0).Floor;
    var k := if n % 2 == 0 then n else n + 1;
    assert Round2(x) == k as real / 100.0;
    assert Round2(x) * 100.0 == k as real;
  }

  /** k hundredths is on the grid. */
  lemma HundredthsOfInt(k: int)
    ensures IsHundredths(k as real / 100.0)
  {
  }

  /** A value already on the hundredths grid is left as it is. */
  lemma Round2Fixes(x: real)
    requires IsHundredths(x)
    ensures Round2(x) == x
  {
  }

  /** Rounding never reverses the order of two values. */
  lemma Round2Monotone(x: real, y: real)
    requires x <= y
    ensures Round2(x) <= Round2(y)
  {
    var n, m := (x * 100.0).Floor, (y * 100.0).Floor;
    assert n <= m;
    if n < m {
      assert Round2(x) * 100.0 <= (n + 1) as real;
      assert (m as real) <= Round2(y) * 100.0;
    }
  }

  /** Rounding keeps a value inside any interval whose ends are on the grid. */
  lemma Round2Within(x: real, lo: real, hi: real)
    requires IsHundredths(lo) && IsHundredths(hi)
    requires lo <= x <= hi
    ensures lo <= Round2(x) <= hi
  {
    Round2Monotone(lo, x);
    Round2Monotone(x, hi);
    Round2Fixes(lo);
    Round2Fixes(hi);
  }

  /** `sum(xs)`: the left-to-right total, starting from 0. */
  function Sum(xs: seq<real>): real
  {
    if xs == [] then 0.0 else Sum(xs[..|xs| - 1]) + xs[|xs| - 1]
  }

  /** `numpy.mean(xs)` for a non-empty list. */
  function Mean(xs: seq<real>): real
    requires xs != []
  {
    Sum(xs) / |xs| as real
  }

  /** A total of grid values is itself on the grid. */
  lemma {:induction false} SumOfHundredths(xs: seq<real>)
    requires forall k :: 0 <= k < |xs| ==> IsHundredths(xs[k])
    ensures IsHundredths(Sum(xs))
  {
    if xs != [] {
      var init, last := xs[..|xs| - 1], xs[|xs| - 1];
      SumOfHundredths(init);
      var a, b := (Sum(init) * 100.0).Floor, (last * 100.0).Floor;
      calc {
        Sum(xs) * 100.0;
        Sum(init) * 100.0 + last * 100.0;
        (a + b) as real;
      }
      assert ((a + b) as real).Floor == a + b;
    }
  }

  /** A total of values bounded by lo and hi lies between n*lo and n*hi. */
  lemma {:induction false} SumBounds(xs: seq<real>, lo: real, hi: real)
    requires forall k :: 0 <= k < |xs| ==> lo <= xs[k] <= hi
    ensures |xs| as real * lo <= Sum(xs) <= |xs| as real * hi
  {
    if xs != [] {
      var init := xs[..|xs| - 1];
      SumBounds(init, lo, hi);
      assert |xs| as real * lo == |init| as real * lo + lo;
      assert |xs| as real * hi == |init| as real * hi + hi;
    }
  }

  /** The mean of values bounded by lo and hi is bounded by them too. */
  lemma MeanBounds(xs: seq<real>, lo: real, hi: real)
    requires xs != []
    requires forall k :: 0 <= k < |xs| ==> lo <= xs[k] <= hi
    ensures lo <= Mean(xs) <= hi
  {
    SumBounds(xs, lo, hi);
    var n := |xs| as real;
    assert Mean(xs) * n == Sum(xs);
  }
}
