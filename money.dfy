/** Currency arithmetic shared by both front ends. Amounts are exact reals;
    the only rounding the source performs on purpose is the cents rounding of
    the browser payment plan. */
module Money {

  /** Monthly periodic rate of an annual percentage rate: rate / 12 / 100. */
  function MonthlyRate(annualRate: real): real {
    annualRate / 12.0 / 100.0
  }

  function Min(a: real, b: real): (r: real)
    ensures r <= a && r <= b
    ensures r == a || r == b
  {
    if a <= b then a else b
  }

  function Max(a: real, b: real): (r: real)
    ensures r >= a && r >= b
    ensures r == a || r == b
  {
    if a >= b then a else b
  }

  /** Math.round(x * 100) / 100: Math.round rounds halves towards +infinity,
      so it is Floor(y + 1/2). */
  function RoundCents(x: real): real {
    (x * 100.0 + 0.5).Floor as real / 100.0
  }

  /** The rounded amount is a whole number of cents within half a cent of
      `x`, and never negative when `x` is not. */
  lemma RoundCentsBounds(x: real)
    ensures var r := RoundCents(x);
      && x - 0.005 < r <= x + 0.005
      && (r * 100.0).Floor as real == r * 100.0
      && (x >= 0.0 ==> r >= 0.0)
  {
    var f := (x * 100.0 + 0.5).Floor;
    assert f as real / 100.0 * 100.0 == f as real;
  }

  /** Math.ceil on a finite number. */
  function Ceil(x: real): (n: int)
    ensures n as real - 1.0 < x <= n as real
  {
    -((-x).Floor)
  }
}
