/** Small facts about division of reals, kept apart so each proof sees only its own arithmetic. */
module Fractions {

  lemma DivAdd(a: real, b: real, d: real)
    requires d > 0.0
    ensures (a + b) / d == a / d + b / d
  {
  }

  lemma MulDiv(x: real, m: real)
    requires m > 0.0
    ensures m * (x / m) == x
  {
  }

  lemma DivSelf(d: real)
    requires d > 0.0
    ensures d / d == 1.0
  {
  }

  lemma PositiveDiv(a: real, d: real)
    requires a > 0.0 && d > 0.0
    ensures a / d > 0.0
  {
  }

  lemma NonNegativeDiv(a: real, d: real)
    requires a >= 0.0 && d > 0.0
    ensures a / d >= 0.0
  {
  }

  /** A part of a whole, divided by the whole, lies between 0 and 1. */
  lemma UnitDiv(a: real, d: real)
    requires 0.0 <= a <= d && d > 0.0
    ensures 0.0 <= a / d <= 1.0
  {
  }

  /** One more copy of `x`. */
  lemma MulSucc(k: real, x: real)
    ensures k * x + x == (k + 1.0) * x
  {
  }
}
