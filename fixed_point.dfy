/**
 * `parseFloat(x.toFixed(2))`, the rounding every chart value goes through, on exact
 * numbers: the nearest multiple of 0.01, a half rounding away from zero.
 */
module FixedPoint {

  /** `x` is a whole number of hundredths. */
  predicate WholeCents(x: real) {
    (x * 100.0).Floor as real == x * 100.0
  }

  /** A non-negative number rounded to the nearest hundredth, a half rounding up. */
  function RoundCents(m: real): (r: real)
    requires m >= 0.0
    ensures r >= 0.0
    ensures -0.005 < r - m <= 0.005
    ensures WholeCents(r)
    ensures WholeCents(m) ==> r == m
  {
    var n := (m * 100.0 + 0.5).Floor;
    var r := n as real / 100.0;
    assert r * 100.0 == n as real;
    assert WholeCents(m) ==> n == (m * 100.0).Floor;
    r
  }

  /**
   * `parseFloat(x.toFixed(2))`: `toFixed` writes the sign, then the magnitude rounded
   * to two decimals; reading it back gives that rounded value. The result is within half
   * a hundredth of `x`, is a whole number of hundredths, keeps a non-negative `x`
   * non-negative, and is `x` itself when `x` already is a whole number of hundredths.
   */
  function ToFixed2(x: real): (r: real)
    ensures x >= 0.0 ==> r >= 0.0
    ensures -0.005 <= r - x <= 0.005
    ensures WholeCents(r)
    ensures WholeCents(x) ==> r == x
  {
    if x < 0.0 then
      var m := RoundCents(-x);
      WholeCentsSum(m, 0.0);
      assert WholeCents(x) ==> WholeCents(-x) by {
        if WholeCents(x) { WholeCentsSum(x, 0.0); }
      }
      -m
    else RoundCents(x)
  }

  /** A number that is `n` hundredths is a whole number of hundredths. */
  lemma HundredthsAreWhole(x: real, n: int)
    requires x * 100.0 == n as real
    ensures WholeCents(x)
  {
    assert (n as real).Floor == n;
  }

  /** Adding whole numbers of hundredths gives a whole number of hundredths. */
  lemma WholeCentsSum(x: real, y: real)
    requires WholeCents(x) && WholeCents(y)
    ensures WholeCents(x + y) && WholeCents(x - y) && WholeCents(-x)
  {
    var n, m := (x * 100.0).Floor, (y * 100.0).Floor;
    HundredthsAreWhole(x + y, n + m);
    HundredthsAreWhole(x - y, n - m);
    HundredthsAreWhole(-x, -n);
  }
}
