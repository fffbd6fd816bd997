/** `round(x, 1)`: rounding to one decimal place, over exact reals. */
module Rounding {

  /** True when `x` is a whole number of tenths. */
  predicate IsTenth(x: real) {
    (x * 10.0).Floor as real == x * 10.0
  }

  /**
   * The multiple of 0.1 nearest to `x`; a tie (an exact half-tenth) goes up.
   */
  function Round1(x: real): (r: real)
    ensures IsTenth(r)
    ensures x - 0.05 < r <= x + 0.05
  {
    ((x * 10.0 + 0.5).Floor as real) / 10.0
  }

  /** A value that already has one decimal place is left as it is. */
  lemma Round1OfTenth(x: real)
    requires IsTenth(x)
    ensures Round1(x) == x
  {
    var k := (x * 10.0).Floor;
    assert (x * 10.0 + 0.5).Floor == k;
  }

  /** Rounding twice is rounding once. */
  lemma Round1Idempotent(x: real)
    ensures Round1(Round1(x)) == Round1(x)
  {
    Round1OfTenth(Round1(x));
  }

  /** Rounding never reverses the order of two values. */
  lemma Round1Monotone(x: real, y: real)
    requires x <= y
    ensures Round1(x) <= Round1(y)
  {
    assert (x * 10.0 + 0.5).Floor <= (y * 10.0 + 0.5).Floor;
  }

  /** Rounding a non-negative value gives a non-negative value. */
  lemma Round1NonNegative(x: real)
    requires x >= 0.0
    ensures Round1(x) >= 0.0
  {
    assert (x * 10.0 + 0.5).Floor >= 0;
  }
}
