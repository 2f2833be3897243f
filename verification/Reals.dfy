/** Small facts about real multiplication and division that the solver does not find by itself. */
module Reals {

  /** The machine epsilon of a double, 2^-52. */
  const EPSILON := 1.0 / 4503599627370496.0

  const PI := 3.14159265358979323846

  function Min(x: real, y: real): real { if x <= y then x else y }

  function Max(x: real, y: real): real { if x <= y then y else x }

  function Square(x: real): real { x * x }

  function Abs(x: real): real { if x < 0.0 then -x else x }

  lemma Extremes(x: real, y: real)
    ensures Min(x, y) == (if x < y then x else y) && Max(x, y) == (if x > y then x else y)
    ensures Abs(x) == if x >= 0.0 then x else -x
  {
  }

  lemma MulMono(t: real, a: real, b: real)
    requires t >= 0.0 && a <= b
    ensures t * a <= t * b
  {
    assert t * (b - a) >= 0.0;
  }

  lemma MulStrict(t: real, a: real, b: real)
    requires t > 0.0 && a < b
    ensures t * a < t * b
  {
    assert t * (b - a) > 0.0;
  }

  lemma MulSign(t: real, x: real)
    requires t > 0.0 && t * x >= 0.0
    ensures x >= 0.0
  {
    if x < 0.0 { MulStrict(t, x, 0.0); }
  }

  lemma SquareNonNegative(x: real)
    ensures x * x >= 0.0
  {
  }

  lemma WeightedSquare(w: real, x: real)
    requires w >= 0.0
    ensures w * Square(x) >= 0.0
  {
    SquareNonNegative(x);
    MulMono(w, 0.0, Square(x));
  }

  /** q is the quotient n / d when q * d == n. */
  lemma Quotient(n: real, d: real, q: real)
    requires d != 0.0 && q * d == n
    ensures n / d == q
  {
    var z := n / d;
    assert z * d == n;
    assert (z - q) * d == 0.0;
  }

  lemma CancelLeft(d: real, x: real)
    requires d != 0.0
    ensures (d * x) / d == x
  {
    Quotient(d * x, d, x);
  }

  lemma DivMono(a: real, b: real, d: real)
    requires a <= b && d > 0.0
    ensures a / d <= b / d
  {
    var x, y := a / d, b / d;
    assert x * d == a && y * d == b;
    assert x > y ==> (x - y) * d > 0.0;
  }
}
