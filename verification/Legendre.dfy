/**
  The Legendre polynomials P_n and their derivatives P'_n as the Green's function tables evaluate
  them, by three-term recurrences, and bounds on [-1, 1]:
      |P_n(x)| <= 1  (ValueBound)   and   |P'_n(x)| <= n(n+1)/2, reached at x = 1  (DerivativeBound).
 */
module Legendre {
  import opened RealFacts

  /** P_n(x) */
  function P(n: nat, x: real): real {
    if n == 0 then 1.0
    else if n == 1 then x
    else ((2 * n - 1) as real * x * P(n - 1, x) - (n - 1) as real * P(n - 2, x)) / n as real
  }

  /** P'_n(x), the derivative in x. */
  function DP(n: nat, x: real): real {
    if n == 0 then 0.0
    else if n == 1 then 1.0
    else ((2 * n - 1) as real * (P(n - 1, x) + x * DP(n - 1, x)) - (n - 1) as real * DP(n - 2, x)) / n as real
  }

  // ---------------------------------------------------------------- the recurrences, without division

  lemma FirstValues(x: real)
    ensures P(0, x) == 1.0 && P(1, x) == x
    ensures DP(0, x) == 0.0 && DP(1, x) == 1.0
  {
  }

  lemma StepP(n: nat, x: real)
    requires n >= 2
    ensures P(n, x) == ((2 * n - 1) as real * x * P(n - 1, x) - (n - 1) as real * P(n - 2, x)) / n as real
  {
  }

  lemma StepDP(n: nat, x: real)
    requires n >= 2
    ensures DP(n, x)
         == ((2 * n - 1) as real * (P(n - 1, x) + x * DP(n - 1, x)) - (n - 1) as real * DP(n - 2, x)) / n as real
  {
    hide P;
  }

  lemma RecurrenceP(n: nat, x: real)
    requires n >= 2
    ensures n as real * P(n, x) == (2.0 * n as real - 1.0) * x * P(n - 1, x) - (n as real - 1.0) * P(n - 2, x)
  {
    hide P;
    StepP(n, x);
    assert (2 * n - 1) as real == 2.0 * n as real - 1.0 && (n - 1) as real == n as real - 1.0;
    Quotient((2 * n - 1) as real * x * P(n - 1, x) - (n - 1) as real * P(n - 2, x), n as real, P(n, x));
  }

  lemma RecurrenceDP(n: nat, x: real)
    requires n >= 2
    ensures n as real * DP(n, x)
         == (2.0 * n as real - 1.0) * (P(n - 1, x) + x * DP(n - 1, x)) - (n as real - 1.0) * DP(n - 2, x)
  {
  }

  // ---------------------------------------------------------------- |P_n| <= 1

  /** For a = P_n and b = P_(n-1): the quantity that the recurrence never increases. */
  function Energy(a: real, b: real, x: real): real {
    a * a - 2.0 * x * a * b + b * b
  }

  lemma EnergySplit(a: real, b: real, x: real)
    ensures Energy(a, b, x) == (a - x * b) * (a - x * b) + (1.0 - x * x) * (b * b)
    ensures Energy(a, b, x) == (x * a - b) * (x * a - b) + (1.0 - x * x) * (a * a)
  {
  }

  /** One step of the recurrence, with c = P_n, a = P_(n-1), b = P_(n-2): n^2 times the energy drop. */
  lemma EnergyDrop(n: real, x: real, a: real, b: real, c: real)
    requires n * c == (2.0 * n - 1.0) * x * a - (n - 1.0) * b
    ensures n * n * (Energy(a, b, x) - Energy(c, a, x)) == (2.0 * n - 1.0) * ((x * a - b) * (x * a - b))
  {
  }

  lemma {:induction false} EnergyBound(n: nat, x: real)
    requires n >= 1
    ensures Energy(P(n, x), P(n - 1, x), x) <= 1.0 - x * x
  {
    hide P;
    FirstValues(x);
    if n >= 2 {
      EnergyBound(n - 1, x);
      RecurrenceP(n, x);
      hide Energy;
      var r, a, b, c := n as real, P(n - 1, x), P(n - 2, x), P(n, x);
      EnergyDrop(r, x, a, b, c);
      SquareNonnegative(x * a - b);
      ProductNonnegative(2.0 * r - 1.0, (x * a - b) * (x * a - b));
      assert r * r > 0.0;
      CancelFactor(0.0, Energy(a, b, x) - Energy(c, a, x), r * r);
    }
  }

  lemma {:induction false} EndValues(n: nat)
    ensures P(n, 1.0) == 1.0
    ensures P(n, -1.0) == if n % 2 == 0 then 1.0 else -1.0
  {
    hide P;
    FirstValues(1.0);
    FirstValues(-1.0);
    if n >= 2 {
      EndValues(n - 1);
      EndValues(n - 2);
      RecurrenceP(n, 1.0);
      RecurrenceP(n, -1.0);
      CancelEqual(P(n, 1.0), 1.0, n as real);
      CancelEqual(P(n, -1.0), if n % 2 == 0 then 1.0 else -1.0, n as real);
    }
  }

  /** Every value left by the recurrence on [-1, 1] is at most 1 in size. */
  lemma ValueBound(n: nat, x: real)
    requires -1.0 <= x <= 1.0
    ensures Abs(P(n, x)) <= 1.0
  {
    hide P;
    if x == 1.0 || x == -1.0 {
      EndValues(n);
    } else {
      EnergyBound(n + 1, x);
      hide Energy;
      var c, a := P(n + 1, x), P(n, x);
      EnergySplit(c, a, x);
      SquareNonnegative(c - x * a);
      InsideUnit(x);
      CancelFactor(a * a, 1.0, 1.0 - x * x);
      UnitSquare(a);
    }
  }

  lemma InsideUnit(x: real)
    requires -1.0 < x < 1.0
    ensures 1.0 - x * x > 0.0
  {
  }

  // ---------------------------------------------------------------- derivatives

  /** P'_n = n P_(n-1) + x P'_(n-1)  and  x P'_n - P'_(n-1) = n P_n. */
  lemma {:induction false} DerivativeIdentities(n: nat, x: real)
    requires n >= 1
    ensures DP(n, x) == n as real * P(n - 1, x) + x * DP(n - 1, x)
    ensures x * DP(n, x) - DP(n - 1, x) == n as real * P(n, x)
  {
    hide P;
    hide DP;
    FirstValues(x);
    if n >= 2 {
      DerivativeIdentities(n - 1, x);
      RecurrenceP(n, x);
      RecurrenceDP(n, x);
      DerivativeAlgebra(n as real, x, P(n, x), P(n - 1, x), P(n - 2, x), DP(n, x), DP(n - 1, x), DP(n - 2, x));
    }
  }

  lemma DerivativeAlgebra(n: real, x: real, c: real, a: real, b: real, c': real, a': real, b': real)
    requires n > 1.0
    requires n * c == (2.0 * n - 1.0) * x * a - (n - 1.0) * b
    requires n * c' == (2.0 * n - 1.0) * (a + x * a') - (n - 1.0) * b'
    requires a' == (n - 1.0) * b + x * b'
    requires x * a' - b' == (n - 1.0) * a
    ensures c' == n * a + x * a'
    ensures x * c' - a' == n * c
  {
  }

  lemma CombinationBound(n: real, p: real, x: real, d: real, t: real)
    requires n >= 0.0 && Abs(p) <= 1.0 && Abs(x) <= 1.0 && Abs(d) <= t
    ensures Abs(n * p + x * d) <= n + t
  {
    AbsSum(n * p, x * d);
    UnitProduct(p, n);
    UnitProduct(x, d);
  }

  /** n(n+1)/2 */
  function Triangular(n: nat): real {
    n as real * (n as real + 1.0) / 2.0
  }

  lemma TriangularStep(n: nat)
    ensures Triangular(0) == 0.0
    ensures n >= 1 ==> Triangular(n) == n as real + Triangular(n - 1)
  {
  }

  /** Every derivative left by the recurrence on [-1, 1] is at most n(n+1)/2 in size ... */
  lemma {:induction false} DerivativeBound(n: nat, x: real)
    requires -1.0 <= x <= 1.0
    ensures Abs(DP(n, x)) <= Triangular(n)
  {
    hide P;
    hide DP;
    hide Triangular;
    FirstValues(x);
    TriangularStep(n);
    if n >= 1 {
      DerivativeBound(n - 1, x);
      DerivativeIdentities(n, x);
      ValueBound(n - 1, x);
      CombinationBound(n as real, P(n - 1, x), x, DP(n - 1, x), Triangular(n - 1));
    }
  }

  /** ... and exactly that at x = 1. */
  lemma {:induction false} DerivativeAtOne(n: nat)
    ensures DP(n, 1.0) == Triangular(n)
  {
    hide P;
    hide DP;
    hide Triangular;
    FirstValues(1.0);
    TriangularStep(n);
    if n >= 1 {
      DerivativeAtOne(n - 1);
      DerivativeIdentities(n, 1.0);
      EndValues(n - 1);
    }
  }
}
