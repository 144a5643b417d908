/** Arithmetic over the reals shared by the animation and gesture models. */
module Reals {
  function Abs(value: real): (magnitude: real)
    ensures magnitude >= 0.0
  {
    if value < 0.0 then -value else value
  }

  function Min(a: real, b: real): real {
    if b < a then b else a
  }

  function Max(a: real, b: real): real {
    if a < b then b else a
  }

  function Clamp(value: real, low: real, high: real): (clamped: real)
    requires low <= high
    ensures low <= clamped <= high
    ensures low <= value <= high ==> clamped == value
  {
    if value < low then low else if high < value then high else value
  }

  function Ceiling(value: real): (ceiling: int)
    ensures value <= ceiling as real < value + 1.0
  {
    -((-value).Floor)
  }

  /** `std::round` and `std::lround`: to the nearest integer, halfway cases away from zero. */
  function Round(x: real): int {
    if x >= 0.0 then (x + 0.5).Floor else -((-x + 0.5).Floor)
  }

  function HalfToThe(n: nat): (r: real)
    ensures r > 0.0
  {
    if n == 0 then 1.0 else HalfToThe(n - 1) / 2.0
  }

  function TwoToThe(n: nat): (r: real)
    ensures r >= n as real && r >= 1.0
  {
    if n == 0 then 1.0 else 2.0 * TwoToThe(n - 1)
  }

  lemma Product(a: real, b: real)
    requires a >= 0.0 && b >= 0.0
    ensures a * b >= 0.0
  {
  }

  lemma Quotients(a: real, b: real, total: real)
    requires 0.0 <= a <= b <= total && total > 0.0
    ensures 0.0 <= a / total <= b / total <= 1.0
    ensures total / total == 1.0 && 0.0 / total == 0.0
  {
    Difference(b, a, total);
    Difference(total, b, total);
  }

  lemma Difference(a: real, b: real, total: real)
    requires total > 0.0
    ensures a / total - b / total == (a - b) / total
    ensures a >= b ==> a / total >= b / total
  {
  }

  lemma Positive(a: real, b: real)
    requires a > 0.0 && b > 0.0
    ensures a * b > 0.0
  {
  }

  lemma Square(a: real)
    ensures a * a >= 0.0
  {
  }
}
