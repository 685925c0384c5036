/**
 * Python's `round(x, places)` (and pandas' `Series.round`) on exact values:
 * to the nearest multiple of `10^-places`, a tie going to the even multiple.
 */
module Rounding {
  import Text

  function Scale(places: nat): (s: real)
    ensures s >= 1.0
  {
    Text.Pow10(places) as real
  }

  /** The integer nearest to `y`; of two equally near, the even one. */
  function RoundHalfEven(y: real): (n: int)
    ensures -0.5 <= n as real - y <= 0.5
    ensures (n as real - y == 0.5 || y - n as real == 0.5) ==> n % 2 == 0
  {
    var f := y.Floor;
    var frac := y - f as real;
    if frac < 0.5 then f
    else if frac > 0.5 then f + 1
    else if f % 2 == 0 then f
    else f + 1
  }

  /** The two properties above single out one integer. */
  lemma HalfEvenUnique(y: real, n: int, m: int)
    requires -0.5 <= n as real - y <= 0.5 && ((n as real - y == 0.5 || y - n as real == 0.5) ==> n % 2 == 0)
    requires -0.5 <= m as real - y <= 0.5 && ((m as real - y == 0.5 || y - m as real == 0.5) ==> m % 2 == 0)
    ensures n == m
  {
  }

  lemma {:induction false} HalfEvenMonotone(y1: real, y2: real)
    requires y1 <= y2
    ensures RoundHalfEven(y1) <= RoundHalfEven(y2)
  {
  }

  lemma HalfEvenOfInteger(n: int)
    ensures RoundHalfEven(n as real) == n
  {
    HalfEvenUnique(n as real, RoundHalfEven(n as real), n);
  }

  /** `round(x, places)`: the nearest multiple of `10^-places`, ties to even. */
  function Round(x: real, places: nat): real
  {
    RoundHalfEven(x * Scale(places)) as real / Scale(places)
  }

  lemma Scale5()
    ensures Scale(5) == 100000.0
  {
    assert Text.Pow10(5) == 100000;
  }

  // The tables round rates to 5 places; the lemmas below are stated for
  // that precision, where the scale is the constant 100000, and one for 4.

  /** `round(x, 5)` moves its argument by at most half a step of `10^-5`. */
  lemma RoundError(x: real)
    ensures -0.000005 <= Round(x, 5) - x <= 0.000005
  {
    Scale5();
  }

  /** `round(x, 5)` is a whole number of `10^-5` steps. */
  lemma RoundIsWholeSteps(x: real)
    ensures Round(x, 5) * 100000.0 == RoundHalfEven(x * 100000.0) as real
  {
    Scale5();
  }

  /** Rounding keeps the order of its arguments (ties may merge). */
  lemma RoundMonotone(x: real, y: real)
    requires x <= y
    ensures Round(x, 5) <= Round(y, 5)
  {
    Scale5();
    HalfEvenMonotone(x * 100000.0, y * 100000.0);
  }

  /** Rounding a rounded value changes nothing. */
  lemma RoundIdempotent(x: real)
    ensures Round(Round(x, 5), 5) == Round(x, 5)
  {
    Scale5();
    var n := RoundHalfEven(x * 100000.0);
    assert Round(x, 5) * 100000.0 == n as real;
    HalfEvenOfInteger(n);
  }

  lemma Scale4()
    ensures Scale(4) == 10000.0
  {
    assert Text.Pow10(4) == 10000;
  }

  /** `round(x, 4)`, the precision of the recommended rate, moves its argument by at most half a step of `10^-4`. */
  lemma RoundError4(x: real)
    ensures -0.00005 <= Round(x, 4) - x <= 0.00005
  {
    Scale4();
  }

  /** Zero rounds to zero. */
  lemma RoundZero()
    ensures Round(0.0, 5) == 0.0
  {
    Scale5();
    HalfEvenOfInteger(0);
  }
}
