/** Elementary facts about products of reals, stated once so that no proof leans on nonlinear search. */
module RealFacts {

  function Abs(x: real): real {
    if x < 0.0 then -x else x
  }

  lemma SquareNonnegative(a: real)
    ensures a * a >= 0.0
  {
  }

  lemma ProductNonnegative(a: real, b: real)
    requires a >= 0.0 && b >= 0.0
    ensures a * b >= 0.0
  {
  }

  lemma QuotientNonnegative(a: real, n: real)
    requires a >= 0.0 && n > 0.0
    ensures a / n >= 0.0
  {
  }

  lemma ProductMonotone(a: real, b: real, c: real)
    requires a <= b && c >= 0.0
    ensures a * c <= b * c
  {
  }

  /** Dividing an inequality by a positive factor. */
  lemma CancelFactor(a: real, b: real, c: real)
    requires c > 0.0 && c * a <= c * b
    ensures a <= b
  {
  }

  lemma CancelEqual(a: real, b: real, c: real)
    requires c != 0.0 && c * a == c * b
    ensures a == b
  {
  }

  lemma Quotient(a: real, n: real, q: real)
    requires n != 0.0 && q == a / n
    ensures n * q == a
  {
  }

  lemma AbsProduct(a: real, b: real)
    ensures Abs(a * b) == Abs(a) * Abs(b)
  {
  }

  /** A factor in [-1, 1] does not enlarge a product. */
  lemma UnitProduct(a: real, b: real)
    requires Abs(a) <= 1.0
    ensures Abs(a * b) <= Abs(b)
    ensures Abs(b * a) <= Abs(b)
  {
  }

  lemma AbsSum(a: real, b: real)
    ensures Abs(a + b) <= Abs(a) + Abs(b)
  {
  }

  /** A square at most 1 has its root in [-1, 1]. */
  lemma UnitSquare(a: real)
    requires a * a <= 1.0
    ensures Abs(a) <= 1.0
  {
  }
}
