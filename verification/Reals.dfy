/** Arithmetic on reals: exact, with no rounding. */
module Reals {
  function Max(x: real, y: real): real {
    if x < y then y else x
  }

  function Min(x: real, y: real): real {
    if y < x then y else x
  }

  function Abs(x: real): real {
    if x < 0.0 then -x else x
  }

  /** A product; named so that equal products are recognised as equal terms. */
  function Mul(a: real, b: real): real {
    a * b
  }

  lemma MulAdd(c: real, a: real, b: real)
    ensures Mul(c, a + b) == Mul(c, a) + Mul(c, b)
    ensures Mul(c, 0.0) == 0.0
  {
  }

  lemma Scale(a: real, b: real, c: real)
    requires a <= b && c >= 0.0
    ensures a * c <= b * c
  {
  }

  lemma ScaleStrict(a: real, b: real, c: real)
    requires a < b && c > 0.0
    ensures a * c < b * c
  {
  }

  lemma Divide(a: real, c: real)
    requires c != 0.0
    ensures a / c * c == a
  {
  }
}
