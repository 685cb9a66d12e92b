/** Amounts of money. The backend keeps prices, totals and multipliers in
    JavaScript numbers; here they are exact rationals (`real`), and the two
    roundings the code performs are written out: `Math.round(x)` and
    `Math.round(x * 100) / 100`. */
module Money {

  /** `Math.round(x)`: the nearest integer, with halves going up (towards
      positive infinity, so -2.5 rounds to -2). */
  function RoundHalfUp(x: real): (n: int)
    ensures x - 0.5 < n as real <= x + 0.5
  {
    (x + 0.5).Floor
  }

  /** A whole number of cents. */
  predicate IsCents(x: real) {
    (x * 100.0).Floor as real == x * 100.0
  }

  /** `Math.round(x * 100) / 100`: round to two decimal places. */
  function Round2(x: real): (r: real)
    ensures IsCents(r)
    ensures x - 0.005 < r <= x + 0.005
  {
    var n := RoundHalfUp(x * 100.0);
    assert (n as real / 100.0) * 100.0 == n as real;
    n as real / 100.0
  }

  /** The integer nearest to `x` can only grow with `x`. */
  lemma RoundHalfUpMonotone(x: real, y: real)
    requires x <= y
    ensures RoundHalfUp(x) <= RoundHalfUp(y)
  {
  }

  /** An integer is its own rounding. */
  lemma RoundHalfUpOfInteger(n: int)
    ensures RoundHalfUp(n as real) == n
  {
  }

  /** Rounding to cents leaves an amount that is already in cents alone. */
  lemma Round2OfCents(x: real)
    requires IsCents(x)
    ensures Round2(x) == x
  {
    RoundHalfUpOfInteger((x * 100.0).Floor);
  }

  lemma Round2Monotone(x: real, y: real)
    requires x <= y
    ensures Round2(x) <= Round2(y)
  {
    RoundHalfUpMonotone(x * 100.0, y * 100.0);
  }

  /** Sums and differences of whole cents are whole cents. */
  lemma CentsClosed(x: real, y: real)
    requires IsCents(x) && IsCents(y)
    ensures IsCents(x - y) && IsCents(x + y)
  {
    var a := (x * 100.0).Floor;
    var b := (y * 100.0).Floor;
    assert x * 100.0 == a as real;
    assert y * 100.0 == b as real;
    assert (x - y) * 100.0 == x * 100.0 - y * 100.0;
    assert (x + y) * 100.0 == x * 100.0 + y * 100.0;
    assert ((x - y) * 100.0).Floor == a - b;
    assert ((x + y) * 100.0).Floor == a + b;
  }

  lemma IntegerIsCents(n: int)
    ensures IsCents(n as real)
  {
    assert n as real * 100.0 == (n * 100) as real;
  }
}
