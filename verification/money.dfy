/** Monetary amounts. System.Decimal is modelled as an exact real, and
    `Math.Round(d, 2)` as rounding to a whole cent with ties going to the even
    cent (MidpointRounding.ToEven, the default of Math.Round). */
module Money {

  /** The nearest integer to `y`; from a tie, the even one. */
  function RoundHalfEven(y: real): (n: int)
    ensures -0.5 <= n as real - y <= 0.5
    ensures (n as real - y == 0.5 || y - n as real == 0.5) ==> n % 2 == 0
  {
    var f := y.Floor;
    var frac := y - f as real;
    if frac < 0.5 then f
    else if frac > 0.5 then f + 1
    else if f % 2 == 0 then f else f + 1
  }

  /** `v` is a whole number of cents: at most two fractional digits. */
  predicate IsCents(v: real) {
    (v * 100.0).Floor as real == v * 100.0
  }

  /** Math.Round(x, 2) with banker's rounding. */
  function Round2(x: real): (r: real)
    ensures IsCents(r)
    ensures -0.005 <= r - x <= 0.005
  {
    RoundHalfEven(x * 100.0) as real / 100.0
  }

  /** Round2 gives a whole number of cents within half a cent of `x`, and on a
      tie the even cent. */
  lemma Round2Spec(x: real)
    ensures IsCents(Round2(x))
    ensures -0.005 <= Round2(x) - x <= 0.005
    ensures (Round2(x) - x == 0.005 || x - Round2(x) == 0.005) ==> (Round2(x) * 100.0).Floor % 2 == 0
  {
    var n := RoundHalfEven(x * 100.0);
    assert Round2(x) * 100.0 == n as real;
  }

  /** The contract of RoundHalfEven pins its result down. */
  lemma RoundHalfEvenUnique(y: real, n: int)
    requires -0.5 <= n as real - y <= 0.5
    requires (n as real - y == 0.5 || y - n as real == 0.5) ==> n % 2 == 0
    ensures n == RoundHalfEven(y)
  {
  }

  /** The contract of Round2 pins its result down: a whole number of cents,
      within half a cent, and on a tie the even cent. */
  lemma Round2Unique(x: real, r: real)
    requires IsCents(r)
    requires -0.005 <= r - x <= 0.005
    requires (r - x == 0.005 || x - r == 0.005) ==> (r * 100.0).Floor % 2 == 0
    ensures r == Round2(x)
  {
    var n := (r * 100.0).Floor;
    assert n as real == r * 100.0;
    RoundHalfEvenUnique(x * 100.0, n);
    assert Round2(x) * 100.0 == n as real;
  }

  lemma RoundHalfEvenMonotone(x: real, y: real)
    requires x <= y
    ensures RoundHalfEven(x) <= RoundHalfEven(y)
  {
  }

  /** Rounding never reverses the order of two amounts. */
  lemma Round2Monotone(x: real, y: real)
    requires x <= y
    ensures Round2(x) <= Round2(y)
  {
    RoundHalfEvenMonotone(x * 100.0, y * 100.0);
  }

  /** Rounding a non-negative amount gives a non-negative amount. */
  lemma Round2NonNegative(x: real)
    requires x >= 0.0
    ensures Round2(x) >= 0.0
  {
    Round2Monotone(0.0, x);
  }

  /** An amount already in whole cents is left as it is. */
  lemma Round2OfCents(x: real)
    requires IsCents(x)
    ensures Round2(x) == x
  {
    Round2Unique(x, x);
  }

  lemma Round2Idempotent(x: real)
    ensures Round2(Round2(x)) == Round2(x)
  {
    Round2OfCents(Round2(x));
  }
}
