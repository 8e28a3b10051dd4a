/**
  `Series.round(decimals=n)` on exact reals: to the nearest multiple of 10^-n, a value
  exactly halfway going to the even neighbour (numpy's rounding).
*/
module Rounding {

  function Pow10(n: nat): (r: nat)
    ensures r >= 1
  {
    if n == 0 then 1 else 10 * Pow10(n - 1)
  }

  /** The integer nearest to `y`, halves to the even one. */
  function Nearest(y: real): int
  {
    var f := y.Floor;
    var frac := y - f as real;
    if frac < 0.5 then f
    else if frac > 0.5 then f + 1
    else if f % 2 == 0 then f
    else f + 1
  }

  /** `round(x, n)`. */
  function Round(x: real, n: nat): real
  {
    RoundTo(x, Pow10(n))
  }

  /** To the nearest multiple of `1 / p`. */
  function RoundTo(x: real, p: nat): real
    requires p >= 1
  {
    Nearest(x * p as real) as real / p as real
  }

  /** The nearest integer is at most one half away. */
  lemma NearestError(y: real)
    ensures -0.5 <= Nearest(y) as real - y <= 0.5
  {
  }

  /** An integer is its own nearest integer. */
  lemma NearestOfInteger(k: int)
    ensures Nearest(k as real) == k
  {
    assert (k as real).Floor == k;
  }

  /** Rounding to the nearest integer keeps order. */
  lemma NearestMonotone(x: real, y: real)
    requires x <= y
    ensures Nearest(x) <= Nearest(y)
  {
    var f, g := x.Floor, y.Floor;
    assert f <= g;
    if f == g {
      assert x - f as real <= y - g as real;
    } else {
      assert Nearest(x) <= f + 1 && g <= Nearest(y);
    }
  }

  /** `Round` undone: the scaled value is the integer one rounding step produced. */
  lemma RoundScaled(x: real, p: nat)
    requires p >= 1
    ensures RoundTo(x, p) * p as real == Nearest(x * p as real) as real
  {
    DivMul(Nearest(x * p as real) as real, p as real);
  }

  /** A rounded value is within half a unit of the last kept decimal of the value. */
  lemma RoundError(x: real, n: nat)
    ensures -0.5 / Pow10(n) as real <= Round(x, n) - x <= 0.5 / Pow10(n) as real
  {
    RoundToError(x, Pow10(n));
  }

  lemma RoundToError(x: real, p: nat)
    requires p >= 1
    ensures -0.5 / p as real <= RoundTo(x, p) - x <= 0.5 / p as real
  {
    var y := x * p as real;
    var k := Nearest(y) as real;
    assert RoundTo(x, p) == k / p as real;
    NearestError(y);
    SubDiv(k, x, p as real);
    DivBounds(k - y, p as real);
  }

  /** Rounding a rounded value changes nothing. */
  lemma RoundIdempotent(x: real, n: nat)
    ensures Round(Round(x, n), n) == Round(x, n)
  {
    RoundToIdempotent(x, Pow10(n));
  }

  lemma RoundToIdempotent(x: real, p: nat)
    requires p >= 1
    ensures RoundTo(RoundTo(x, p), p) == RoundTo(x, p)
  {
    var k := Nearest(x * p as real);
    RoundScaled(x, p);
    NearestOfInteger(k);
  }

  /** Rounding keeps order. */
  lemma RoundMonotone(x: real, y: real, n: nat)
    requires x <= y
    ensures Round(x, n) <= Round(y, n)
  {
    RoundToMonotone(x, y, Pow10(n));
  }

  lemma RoundToMonotone(x: real, y: real, p: nat)
    requires x <= y && p >= 1
    ensures RoundTo(x, p) <= RoundTo(y, p)
  {
    MulMono(x, y, p as real);
    NearestMonotone(x * p as real, y * p as real);
    DivMono(Nearest(x * p as real) as real, Nearest(y * p as real) as real, p as real);
    RoundToIs(x, p);
    RoundToIs(y, p);
  }

  lemma RoundToIs(x: real, p: nat)
    requires p >= 1
    ensures RoundTo(x, p) == Nearest(x * p as real) as real / p as real
  {
  }

  /** Rounding keeps zero, so every non-negative value stays non-negative. */
  lemma RoundNonNegative(x: real, n: nat)
    requires x >= 0.0
    ensures Round(x, n) >= 0.0
  {
    RoundMonotone(0.0, x, n);
    NearestOfInteger(0);
  }

  lemma DivMul(a: real, p: real)
    requires p > 0.0
    ensures (a / p) * p == a
  {
  }

  lemma DivBounds(e: real, p: real)
    requires -0.5 <= e <= 0.5 && p >= 1.0
    ensures -0.5 / p <= e / p <= 0.5 / p
  {
    DivMono(-0.5, e, p);
    DivMono(e, 0.5, p);
  }

  lemma DivMono(a: real, b: real, p: real)
    requires a <= b && p > 0.0
    ensures a / p <= b / p
  {
    assert b / p - a / p == (b - a) / p;
  }

  lemma MulMono(x: real, y: real, p: real)
    requires x <= y && p >= 1.0
    ensures x * p <= y * p
  {
    assert y * p - x * p == (y - x) * p;
  }

  lemma SubDiv(k: real, x: real, p: real)
    requires p > 0.0
    ensures k / p - x == (k - x * p) / p
  {
  }

  /** A share rounds to 0 at three decimals exactly when it is at most 0.0005 (the half goes to the even 0). */
  lemma RoundsToZero(x: real)
    requires x >= 0.0
    ensures Round(x, 3) == 0.0 <==> x <= 0.0005
  {
    var y := x * 1000.0;
    assert Pow10(3) == 1000;
    assert Round(x, 3) == Nearest(y) as real / 1000.0 by {
      assert Round(x, 3) == RoundTo(x, 1000);
    }
    var f := y.Floor;
    assert f >= 0;
    if x <= 0.0005 {
      assert f == 0;
    } else {
      assert Nearest(y) >= 1;
    }
  }

  /** A share rounds below 0.005 at three decimals exactly when it is at most 0.0045 (0.0045 goes to the even 0.004). */
  lemma RoundsBelowFiveThousandths(x: real)
    requires x >= 0.0
    ensures Round(x, 3) < 0.005 <==> x <= 0.0045
  {
    var y := x * 1000.0;
    assert Pow10(3) == 1000;
    assert Round(x, 3) == Nearest(y) as real / 1000.0 by {
      assert Round(x, 3) == RoundTo(x, 1000);
    }
    var f := y.Floor;
    if x <= 0.0045 {
      assert f <= 4;
      assert Nearest(y) <= 4;
    } else {
      assert Nearest(y) >= 5;
    }
  }
}
