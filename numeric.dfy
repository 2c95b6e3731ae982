/**
 * The arithmetic the dashboard applies to its ratios, on exact reals:
 * rounding to one decimal (`round(x, 1)`, `Series.round(1)`), truncation
 * towards zero (`astype(int)`), and percentages.
 */
module Numeric {

  /** `r` is a whole number of tenths. */
  predicate IsTenth(r: real)
  {
    (r * 10.0).Floor as real == r * 10.0
  }

  /**
   * Rounding to one decimal place: the nearest whole number of tenths, and
   * on an exact tie the even number of tenths (round half to even).
   */
  function RoundTenth(x: real): (r: real)
    ensures IsTenth(r)
    ensures -0.05 <= r - x <= 0.05
    ensures r - x == 0.05 || x - r == 0.05 ==> (r * 10.0).Floor % 2 == 0
  {
    var y := x * 10.0;
    var f := y.Floor;
    var frac := y - f as real;
    var n := if frac < 0.5 then f
             else if frac > 0.5 then f + 1
             else if f % 2 == 0 then f else f + 1;
    assert (n as real / 10.0) * 10.0 == n as real;
    n as real / 10.0
  }

  /** Away from a tie, rounding picks the one whole number of tenths within half a tenth. */
  lemma RoundTenthNearest(x: real, n: int)
    requires n as real - 0.5 < x * 10.0 < n as real + 0.5
    ensures RoundTenth(x) == n as real / 10.0
  {
    var r := RoundTenth(x);
    var k := (r * 10.0).Floor;
    assert k as real == r * 10.0;
    assert -0.5 <= k as real - x * 10.0 <= 0.5;
    assert k == n;
  }

  /** A value that is already a whole number of tenths is left as it is. */
  lemma RoundTenthOfTenth(n: int)
    ensures RoundTenth(n as real / 10.0) == n as real / 10.0
  {
    RoundTenthNearest(n as real / 10.0, n);
  }

  /** Rounding keeps a value inside a range whose ends are whole numbers of tenths. */
  lemma RoundTenthBetween(x: real, lo: int, hi: int)
    requires lo as real / 10.0 <= x <= hi as real / 10.0
    ensures lo as real / 10.0 <= RoundTenth(x) <= hi as real / 10.0
  {
    var r := RoundTenth(x);
    var k := (r * 10.0).Floor;
    assert k as real == r * 10.0;
    assert lo as real - 0.5 <= k as real <= hi as real + 0.5;
    assert lo <= k <= hi;
  }

  /**
   * Truncation towards zero, as `int(x)` and `astype(int)` convert a float:
   * the whole number between zero and `x` that is less than one away from it.
   */
  function Trunc(x: real): (n: int)
    ensures 0.0 <= x ==> 0 <= n && n as real <= x < n as real + 1.0
    ensures x < 0.0 ==> n <= 0 && n as real - 1.0 < x <= n as real
  {
    if x >= 0.0 then x.Floor else -((-x).Floor)
  }

  /** `part` as a percentage of `whole`, before any rounding. */
  function Percent(part: int, whole: int): real
    requires whole != 0
  {
    part as real / whole as real * 100.0
  }

  /** A part between zero and the (positive) whole is between 0 and 100 percent. */
  lemma PercentBounds(part: int, whole: int)
    requires 0 <= part <= whole && whole > 0
    ensures 0.0 <= Percent(part, whole) <= 100.0
  {
    assert part as real / whole as real <= 1.0 by {
      assert part as real <= whole as real;
    }
  }
}
