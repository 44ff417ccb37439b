/** Rounding of exact rationals to integers, ties to the even neighbour,
    as NumPy's `np.round` does with zero decimals. */
module Rounding {

  /** `n` is a nearest integer to `x`, and on a tie it is the even one. */
  ghost predicate IsRoundHalfEven(x: real, n: int) {
    && -0.5 <= n as real - x <= 0.5
    && (n as real - x == 0.5 || x - n as real == 0.5 ==> n % 2 == 0)
  }

  /** Round half to even on an exact real. */
  function RoundHalfEven(x: real): (r: int)
    ensures IsRoundHalfEven(x, r)
  {
    var f := x.Floor;
    var frac := x - f as real;
    if frac < 0.5 then f
    else if frac > 0.5 then f + 1
    else if f % 2 == 0 then f
    else f + 1
  }

  /** At most one integer rounds `x` half-to-even, so the predicate pins the function down. */
  lemma RoundHalfEvenUnique(x: real, n: int)
    requires IsRoundHalfEven(x, n)
    ensures n == RoundHalfEven(x)
  {
  }

  /** Two integers that both round `x` half to even are the same integer. */
  lemma RoundingIsFunctional(x: real, a: int, b: int)
    requires IsRoundHalfEven(x, a) && IsRoundHalfEven(x, b)
    ensures a == b
  {
  }

  /** An integer rounds to itself. */
  lemma RoundHalfEvenOfInteger(n: int)
    ensures RoundHalfEven(n as real) == n
  {
    RoundHalfEvenUnique(n as real, n);
  }

  /** Rounding never reverses the order of two reals. */
  lemma RoundHalfEvenMonotone(x: real, y: real)
    requires x <= y
    ensures RoundHalfEven(x) <= RoundHalfEven(y)
  {
    var a, b := RoundHalfEven(x), RoundHalfEven(y);
    if a > b {
      assert a == b + 1;
      assert x == y;
    }
  }

  /** Comparing `t` with `c` is the same as comparing `t * den` with `c * den` when `den > 0`. */
  lemma CompareScaled(t: real, c: real, den: int, d: int)
    requires den > 0 && t * den as real == d as real
    ensures t > c ==> d as real > c * den as real
    ensures t < c ==> d as real < c * den as real
    ensures t == c ==> d as real == c * den as real
  {
    var D := den as real;
    assert (t - c) * D == t * D - c * D;
    if t > c {
      assert (t - c) * D > 0.0;
    } else if t < c {
      assert (c - t) * D > 0.0;
    }
  }

  /** Multiplying the distance `t` by a positive `den` turns bounds on `t` into bounds on `d`. */
  lemma ScaledDistance(t: real, den: int, d: int)
    requires den > 0
    requires t * den as real == d as real
    ensures -0.5 <= t <= 0.5 <==> -den <= 2 * d <= den
    ensures t == 0.5 <==> 2 * d == den
    ensures -t == 0.5 <==> -2 * d == den
  {
    CompareScaled(t, 0.5, den, d);
    CompareScaled(t, -0.5, den, d);
  }
}
