/**
  What the recurrences of module Legendre compute, told without recurrences.

  A polynomial is the sequence of its coefficients. The values P(n, x) and DP(n, x) are those of one
  polynomial and of its formal derivative (PolynomialValue, DerivativeValue), and that polynomial is
  the only one of degree at most n that solves Legendre's equation
      (1 - x^2) p'' - 2x p' + n(n+1) p = 0
  and is 1 at x = 1 (LegendreEquation, OnlyLegendre).
 */
module LegendrePolynomial {
  import opened LinearAlgebra
  import opened RealFacts
  import opened Legendre

  /** The value at x, by Horner's rule. */
  function Eval(p: seq<real>, x: real): real {
    if |p| == 0 then 0.0 else p[0] + x * Eval(p[1..], x)
  }

  /** The formal derivative. */
  function Derivative(p: seq<real>): seq<real> {
    if |p| == 0 then [] else seq(|p| - 1, k requires 0 <= k < |p| - 1 => Times((k + 1) as real, p[k + 1]))
  }

  /** x * p */
  function Shift(p: seq<real>): seq<real> {
    [0.0] + p
  }

  /** The coefficients the recurrence gives to P_n. */
  function Coefficients(n: nat): (p: seq<real>)
    ensures |p| == n + 1
  {
    if n == 0 then [1.0]
    else if n == 1 then [0.0, 1.0]
    else
      var p, q := Coefficients(n - 1), Coefficients(n - 2);
      seq(n + 1, k => NextCoefficient(n, At(Shift(p), k), At(q, k)))
  }

  function NextCoefficient(n: nat, u: real, v: real): real
    requires n > 0
  {
    ((2 * n - 1) as real * u - (n - 1) as real * v) / n as real
  }

  predicate Balanced(c: real, r: real, a: real, p: real, b: real, q: real) {
    c * r == a * p + b * q
  }

  /** c*r = a*p + b*q, coefficient by coefficient. */
  ghost predicate Combines(c: real, r: seq<real>, a: real, p: seq<real>, b: real, q: seq<real>) {
    forall k: nat :: Balanced(c, At(r, k), a, At(p, k), b, At(q, k))
  }

  function Tail(p: seq<real>): seq<real> {
    if |p| == 0 then [] else p[1..]
  }

  lemma {:induction false} EvalCombines(c: real, r: seq<real>, a: real, p: seq<real>, b: real, q: seq<real>, x: real)
    requires Combines(c, r, a, p, b, q)
    ensures c * Eval(r, x) == a * Eval(p, x) + b * Eval(q, x)
    decreases |r| + |p| + |q|
  {
    hide Balanced;
    hide Eval;
    EvalTail(r, x);
    EvalTail(p, x);
    EvalTail(q, x);
    EvalEmpty(x);
    if |r| + |p| + |q| > 0 {
      var r', p', q' := Tail(r), Tail(p), Tail(q);
      forall k: nat ensures Balanced(c, At(r', k), a, At(p', k), b, At(q', k)) {
        assert Balanced(c, At(r, k + 1), a, At(p, k + 1), b, At(q, k + 1));
      }
      EvalCombines(c, r', a, p', b, q', x);
      assert Balanced(c, At(r, 0), a, At(p, 0), b, At(q, 0));
      HornerStep(c, At(r, 0), Eval(r', x), a, At(p, 0), Eval(p', x), b, At(q, 0), Eval(q', x), x);
    }
  }

  lemma EvalEmpty(x: real)
    ensures Eval([], x) == 0.0
  {
  }

  lemma EvalTail(p: seq<real>, x: real)
    ensures Eval(p, x) == At(p, 0) + x * Eval(Tail(p), x)
  {
  }

  lemma HornerStep(c: real, r: real, r': real, a: real, p: real, p': real, b: real, q: real, q': real, x: real)
    requires Balanced(c, r, a, p, b, q)
    requires c * r' == a * p' + b * q'
    ensures c * (r + x * r') == a * (p + x * p') + b * (q + x * q')
  {
  }

  lemma EvalShift(p: seq<real>, x: real)
    ensures Eval(Shift(p), x) == x * Eval(p, x)
  {
  }

  lemma DerivativeAt(p: seq<real>, k: nat)
    ensures At(Derivative(p), k) == Times((k + 1) as real, At(p, k + 1))
  {
  }

  lemma DerivativeCombines(c: real, r: seq<real>, a: real, p: seq<real>, b: real, q: seq<real>)
    requires Combines(c, r, a, p, b, q)
    ensures Combines(c, Derivative(r), a, Derivative(p), b, Derivative(q))
  {
    hide Balanced;
    hide Times;
    forall k: nat
      ensures Balanced(c, At(Derivative(r), k), a, At(Derivative(p), k), b, At(Derivative(q), k))
    {
      assert Balanced(c, At(r, k + 1), a, At(p, k + 1), b, At(q, k + 1));
      DerivativeAt(p, k);
      DerivativeAt(q, k);
      DerivativeAt(r, k);
      ScaleEquation((k + 1) as real, c, At(r, k + 1), a, At(p, k + 1), b, At(q, k + 1));
    }
  }

  lemma ScaleEquation(s: real, c: real, r: real, a: real, p: real, b: real, q: real)
    requires Balanced(c, r, a, p, b, q)
    ensures Balanced(c, Times(s, r), a, Times(s, p), b, Times(s, q))
  {
  }

  lemma ShiftedDerivative(c: seq<real>, k: nat)
    ensures At(Shift(Derivative(c)), k) == Times(k as real, At(c, k))
  {
  }

  /** (x p)' = p + x p' */
  lemma DerivativeShift(p: seq<real>)
    ensures Combines(1.0, Derivative(Shift(p)), 1.0, p, 1.0, Shift(Derivative(p)))
  {
    hide Balanced;
    hide Derivative;
    hide Shift;
    hide Times;
    forall k: nat ensures Balanced(1.0, At(Derivative(Shift(p)), k), 1.0, At(p, k), 1.0, At(Shift(Derivative(p)), k)) {
      DerivativeAt(Shift(p), k);
      ShiftAt(p, k);
      ShiftedDerivative(p, k);
      NextMultiple(k, At(p, k));
    }
  }

  lemma ShiftAt(p: seq<real>, k: nat)
    ensures At(Shift(p), k + 1) == At(p, k)
  {
  }

  lemma NextMultiple(k: nat, c: real)
    ensures Balanced(1.0, Times((k + 1) as real, c), 1.0, c, 1.0, Times(k as real, c))
  {
  }

  lemma CoefficientsCombine(n: nat)
    requires n >= 2
    ensures Combines(n as real, Coefficients(n), 2.0 * n as real - 1.0, Shift(Coefficients(n - 1)),
                     -(n as real - 1.0), Coefficients(n - 2))
  {
    var r, p, q := Coefficients(n), Shift(Coefficients(n - 1)), Coefficients(n - 2);
    hide Balanced;
    hide NextCoefficient;
    forall k: nat
      ensures Balanced(n as real, At(r, k), 2.0 * n as real - 1.0, At(p, k), -(n as real - 1.0), At(q, k))
    {
      NextBalanced(n, At(p, k), At(q, k));
      NoneBalanced(n as real, 2.0 * n as real - 1.0, -(n as real - 1.0));
    }
  }

  lemma NoneBalanced(c: real, a: real, b: real)
    ensures Balanced(c, 0.0, a, 0.0, b, 0.0)
  {
  }

  lemma NextBalanced(n: nat, u: real, v: real)
    requires n > 0
    ensures Balanced(n as real, NextCoefficient(n, u, v), 2.0 * n as real - 1.0, u, -(n as real - 1.0), v)
  {
  }

  lemma FirstPolynomials(x: real)
    ensures Coefficients(0) == [1.0] && Coefficients(1) == [0.0, 1.0]
    ensures Eval([1.0], x) == 1.0 && Eval([0.0, 1.0], x) == x
    ensures Derivative([1.0]) == [] && Derivative([0.0, 1.0]) == [1.0]
  {
  }

  /** The recurrence evaluates the polynomial ... */
  lemma {:induction false} PolynomialValue(n: nat, x: real)
    ensures Eval(Coefficients(n), x) == P(n, x)
  {
    hide Coefficients;
    hide P;
    hide Eval;
    FirstPolynomials(x);
    FirstValues(x);
    if n >= 2 {
      PolynomialValue(n - 1, x);
      PolynomialValue(n - 2, x);
      CoefficientsCombine(n);
      EvalCombines(n as real, Coefficients(n), 2.0 * n as real - 1.0, Shift(Coefficients(n - 1)),
                   -(n as real - 1.0), Coefficients(n - 2), x);
      EvalShift(Coefficients(n - 1), x);
      RecurrenceP(n, x);
      CancelEqual(Eval(Coefficients(n), x), P(n, x), n as real);
    }
  }

  /** ... and its formal derivative. */
  lemma {:induction false} DerivativeValue(n: nat, x: real)
    ensures Eval(Derivative(Coefficients(n)), x) == DP(n, x)
  {
    hide Coefficients;
    hide P;
    hide DP;
    hide Eval;
    hide Derivative;
    FirstPolynomials(x);
    FirstValues(x);
    EvalEmpty(x);
    if n >= 2 {
      DerivativeValue(n - 1, x);
      DerivativeValue(n - 2, x);
      PolynomialValue(n - 1, x);
      CoefficientsCombine(n);
      var r, p, q := Coefficients(n), Coefficients(n - 1), Coefficients(n - 2);
      var c, a, b := n as real, 2.0 * n as real - 1.0, -(n as real - 1.0);
      DerivativeCombines(c, r, a, Shift(p), b, q);
      EvalCombines(c, Derivative(r), a, Derivative(Shift(p)), b, Derivative(q), x);
      DerivativeShift(p);
      EvalCombines(1.0, Derivative(Shift(p)), 1.0, p, 1.0, Shift(Derivative(p)), x);
      EvalShift(Derivative(p), x);
      RecurrenceDP(n, x);
      SameDerivative(c, Eval(Derivative(r), x), DP(n, x), a, Eval(Derivative(Shift(p)), x), P(n - 1, x), x, DP(n - 1, x),
                     b, DP(n - 2, x));
    }
  }

  lemma SameDerivative(c: real, e: real, d: real, a: real, s: real, p: real, x: real, dp: real, b: real, dq: real)
    requires c != 0.0 && c * e == a * s + b * dq && s == p + x * dp
    requires c * d == a * (p + x * dp) + b * dq
    ensures e == d
  {
    CancelEqual(e, d, c);
  }

  // ---------------------------------------------------------------- Legendre's equation

  /** The coefficient of x^k in P_n. */
  function Coef(n: nat, k: int): real {
    At(Coefficients(n), k)
  }

  lemma FirstCoefs(k: int)
    ensures Coef(0, k) == if k == 0 then 1.0 else 0.0
    ensures Coef(1, k) == if k == 1 then 1.0 else 0.0
  {
  }

  lemma CoefRecurrence(n: nat, k: int)
    requires n >= 2
    ensures n as real * Coef(n, k)
         == (2.0 * n as real - 1.0) * Coef(n - 1, k - 1) - (n as real - 1.0) * Coef(n - 2, k)
  {
    hide Coefficients;
    hide Balanced;
    CoefficientsCombine(n);
    var r, p, q := Coefficients(n), Coefficients(n - 1), Coefficients(n - 2);
    var c, a, b := n as real, 2.0 * n as real - 1.0, -(n as real - 1.0);
    if k >= 0 {
      assert Balanced(c, At(r, k), a, At(Shift(p), k), b, At(q, k));
      BalancedMeans(c, At(r, k), a, At(Shift(p), k), b, At(q, k));
      assert At(Shift(p), k) == At(p, k - 1);
    } else {
      assert At(r, k) == At(p, k - 1) == At(q, k) == 0.0;
    }
  }

  lemma BalancedMeans(c: real, r: real, a: real, p: real, b: real, q: real)
    requires Balanced(c, r, a, p, b, q)
    ensures c * r == a * p + b * q
  {
  }

  /** (k+1) c_n[k+1] = (n+k) c_(n-1)[k] */
  predicate Raises(n: nat, k: nat)
    requires n >= 1
  {
    (k as real + 1.0) * Coef(n, k + 1) == (n as real + k as real) * Coef(n - 1, k)
  }

  /** (k-n) c_n[k] = (k+1) c_(n-1)[k+1] */
  predicate Lowers(n: nat, k: nat)
    requires n >= 1
  {
    (k as real - n as real) * Coef(n, k) == (k as real + 1.0) * Coef(n - 1, k + 1)
  }

  lemma {:induction false} CoefIdentities(n: nat, k: nat)
    requires n >= 1
    ensures Raises(n, k) && Lowers(n, k)
  {
    hide Coef;
    if n == 1 {
      FirstCoefs(k);
      FirstCoefs(k + 1);
    } else {
      hide Raises;
      hide Lowers;
      CoefIdentities(n - 1, k);
      RaisesNext(n, k);
      if k > 0 {
        CoefIdentities(n - 1, k - 1);
      }
      LowersNext(n, k);
    }
  }

  lemma RaisesNext(n: nat, k: nat)
    requires n >= 2 && Lowers(n - 1, k)
    ensures Raises(n, k)
  {
    hide Coef;
    CoefRecurrence(n, k + 1);
    assert (n - 1) as real == n as real - 1.0;
    RaiseAlgebra(n as real, k as real, Coef(n, k + 1), Coef(n - 1, k), Coef(n - 2, k + 1));
  }

  lemma LowersNext(n: nat, k: nat)
    requires n >= 2 && Raises(n - 1, k) && (k > 0 ==> Lowers(n - 1, k - 1))
    ensures Lowers(n, k)
  {
    hide Coef;
    CoefRecurrence(n, k);
    assert (n - 1) as real == n as real - 1.0;
    if k > 0 {
      assert (k - 1) as real == k as real - 1.0;
    } else {
      NoNegativePower(n - 1);
    }
    LowerAlgebra(n as real, k as real, Coef(n, k), Coef(n - 1, k - 1), Coef(n - 2, k), Coef(n - 1, k + 1));
  }

  lemma NoNegativePower(n: nat)
    ensures Coef(n, -1) == 0.0
  {
  }

  lemma RaiseAlgebra(n: real, k: real, c: real, a: real, b: real)
    requires n > 0.0
    requires n * c == (2.0 * n - 1.0) * a - (n - 1.0) * b
    requires (k - (n - 1.0)) * a == (k + 1.0) * b
    ensures (k + 1.0) * c == (n + k) * a
  {
  }

  lemma LowerAlgebra(n: real, k: real, c: real, a: real, b: real, d: real)
    requires n > 0.0
    requires n * c == (2.0 * n - 1.0) * a - (n - 1.0) * b
    requires (k + 1.0) * d == (n - 1.0 + k) * b
    requires (k - n) * a == k * b
    ensures (k - n) * c == (k + 1.0) * d
  {
  }

  /** The coefficient of x^k in (1 - x^2) p'' - 2x p' + n(n+1) p vanishes, for every k. */
  ghost predicate SolvesLegendreEquation(p: seq<real>, n: nat) {
    forall k: nat :: EquationAt(n, k, At(p, k), At(p, k + 2))
  }

  predicate EquationAt(n: nat, k: nat, c: real, c2: real) {
    (k as real + 2.0) * ((k as real + 1.0) * c2) == (k as real - n as real) * ((k as real + n as real + 1.0) * c)
  }

  lemma EquationHolds(n: nat)
    ensures SolvesLegendreEquation(Coefficients(n), n)
  {
    hide Coefficients;
    hide EquationAt;
    forall k: nat ensures EquationAt(n, k, At(Coefficients(n), k), At(Coefficients(n), k + 2)) {
      EquationHoldsAt(n, k);
    }
  }

  lemma EquationHoldsAt(n: nat, k: nat)
    ensures EquationAt(n, k, Coef(n, k), Coef(n, k + 2))
  {
    hide Coef;
    if n == 0 {
      FirstCoefs(k);
      FirstCoefs(k + 2);
    } else {
      CoefIdentities(n, k);
      CoefIdentities(n, k + 1);
      var r, s := n as real, k as real;
      assert (k + 1) as real == s + 1.0;
      EquationAlgebra(r, s, Coef(n, k), Coef(n, k + 2), Coef(n - 1, k + 1));
    }
  }

  lemma EquationAlgebra(n: real, k: real, c: real, c2: real, d: real)
    requires (k + 2.0) * c2 == (n + k + 1.0) * d
    requires (k - n) * c == (k + 1.0) * d
    ensures (k + 2.0) * ((k + 1.0) * c2) == (k - n) * ((k + n + 1.0) * c)
  {
  }

  /** The leading coefficient is positive. */
  lemma {:induction false} LeadingPositive(n: nat)
    ensures Coef(n, n) > 0.0
  {
    hide Coef;
    FirstCoefs(n);
    if n >= 2 {
      LeadingPositive(n - 1);
      CoefIdentities(n, n - 1);
      assert (n - 1) as real == n as real - 1.0;
      CancelPositive(n as real, Coef(n, n), 2.0 * n as real - 1.0, Coef(n - 1, n - 1));
    }
  }

  lemma CancelPositive(n: real, c: real, m: real, d: real)
    requires n > 0.0 && m > 0.0 && d > 0.0 && n * c == m * d
    ensures c > 0.0
  {
  }

  lemma AboveDegree(n: nat, k: nat)
    ensures k > n ==> Coef(n, k) == 0.0
  {
  }

  /** A solution of degree at most n is determined by its leading coefficient. */
  lemma {:induction false} Proportional(p: seq<real>, n: nat, k: nat)
    requires |p| <= n + 1 && SolvesLegendreEquation(p, n)
    ensures Times(Coef(n, n), At(p, k)) == Times(At(p, n), Coef(n, k))
    decreases if k <= n then n - k else 0
  {
    hide Coef;
    EquationHoldsAt(n, k);
    assert EquationAt(n, k, At(p, k), At(p, k + 2));
    AboveDegree(n, k);
    if k < n {
      Proportional(p, n, k + 2);
      ProportionalAlgebra(n as real, k as real, Coef(n, n), At(p, n), At(p, k), At(p, k + 2), Coef(n, k), Coef(n, k + 2));
    }
  }

  lemma ProportionalAlgebra(n: real, k: real, c: real, q: real, a: real, a2: real, b: real, b2: real)
    requires 0.0 <= k < n
    requires (k + 2.0) * ((k + 1.0) * a2) == (k - n) * ((k + n + 1.0) * a)
    requires (k + 2.0) * ((k + 1.0) * b2) == (k - n) * ((k + n + 1.0) * b)
    requires Times(c, a2) == Times(q, b2)
    ensures Times(c, a) == Times(q, b)
  {
  }

  /** Its leading coefficient is that of P_n if it is 1 at 1. */
  lemma SameLeading(p: seq<real>, n: nat)
    requires |p| <= n + 1 && SolvesLegendreEquation(p, n) && Eval(p, 1.0) == 1.0
    ensures At(p, n) == Coef(n, n)
  {
    hide Balanced;
    hide Eval;
    hide P;
    hide EquationAt;
    hide Coefficients;
    hide Times;
    var c, l := Coefficients(n), Coef(n, n);
    forall k: nat ensures Balanced(At(p, n), At(c, k), l, At(p, k), 0.0, At([], k)) {
      hide Coef;
      Proportional(p, n, k);
      ProportionBalanced(l, At(p, k), At(p, n), Coef(n, k));
      assert Coef(n, k) == At(c, k);
    }
    EvalCombines(At(p, n), c, l, p, 0.0, [], 1.0);
    PolynomialValue(n, 1.0);
    EndValues(n);
  }

  ghost predicate SameCoefficients(p: seq<real>, n: nat) {
    forall k: nat :: At(p, k) == Coef(n, k)
  }

  lemma SameValues(p: seq<real>, n: nat, x: real)
    requires SameCoefficients(p, n)
    ensures Eval(p, x) == P(n, x)
  {
    hide Eval;
    hide P;
    hide Coefficients;
    var c := Coefficients(n);
    forall k: nat ensures Balanced(1.0, At(p, k), 1.0, At(c, k), 0.0, At([], k)) {
      assert At(p, k) == Coef(n, k);
    }
    EvalCombines(1.0, p, 1.0, c, 0.0, [], x);
    PolynomialValue(n, x);
  }

  /**
    Among the polynomials of degree at most n, exactly the one the recurrence computes solves Legendre's equation with
    value 1 at 1.
   */
  lemma OnlyLegendre(p: seq<real>, n: nat)
    requires |p| <= n + 1
    ensures SolvesLegendreEquation(p, n) && Eval(p, 1.0) == 1.0 <==> SameCoefficients(p, n)
    ensures SameCoefficients(p, n) ==> forall x :: Eval(p, x) == P(n, x)
  {
    hide Eval;
    hide P;
    hide EquationAt;
    hide Coefficients;
    hide Times;
    if SolvesLegendreEquation(p, n) && Eval(p, 1.0) == 1.0 {
      hide Coef;
      SameLeading(p, n);
      LeadingPositive(n);
      forall k: nat ensures At(p, k) == Coef(n, k) {
        Proportional(p, n, k);
        CancelTimes(Coef(n, n), At(p, k), Coef(n, k));
      }
    }
    if SameCoefficients(p, n) {
      EquationHolds(n);
      forall k: nat ensures EquationAt(n, k, At(p, k), At(p, k + 2)) {
        assert At(p, k) == Coef(n, k) && At(p, k + 2) == Coef(n, k + 2);
      }
      forall x ensures Eval(p, x) == P(n, x) {
        SameValues(p, n, x);
      }
      EndValues(n);
    }
  }

  lemma CancelTimes(l: real, a: real, b: real)
    requires l > 0.0 && Times(l, a) == Times(l, b)
    ensures a == b
  {
  }

  lemma ProportionBalanced(l: real, a: real, q: real, b: real)
    requires Times(l, a) == Times(q, b)
    ensures Balanced(q, b, l, a, 0.0, 0.0)
  {
  }

  /** The coefficients of 2x p' - m p, for p with coefficients c. */
  function LowTerms(c: seq<real>, m: real): seq<real> {
    seq(|c|, k requires 0 <= k < |c| => Times(2.0 * k as real - m, c[k]))
  }

  lemma LowBalanced(m: real, k: real, c: real)
    ensures Balanced(1.0, Times(2.0 * k - m, c), 2.0, Times(k, c), -m, c)
    ensures Times(2.0 * k - m, 0.0) == 0.0
  {
  }

  lemma TwiceShifted(c: seq<real>, k: nat)
    ensures At(Shift(Shift(Derivative(Derivative(c)))), k) == Times(k as real - 1.0, Times(k as real, At(c, k)))
  {
  }

  lemma EquationBalanced(n: nat, k: nat, c: real, c2: real)
    requires EquationAt(n, k, c, c2)
    ensures Balanced(1.0, Times((k + 1) as real, Times((k + 2) as real, c2)),
                     1.0, Times(k as real - 1.0, Times(k as real, c)),
                     1.0, Times(2.0 * k as real - n as real * (n as real + 1.0), c))
  {
  }

  /** The polynomial of the table solves  (1 - x^2) p'' - 2x p' + n(n+1) p = 0  at every x. */
  lemma LegendreEquation(n: nat, x: real)
    ensures (1.0 - x * x) * Eval(Derivative(Derivative(Coefficients(n))), x) - 2.0 * x * DP(n, x)
            + n as real * (n as real + 1.0) * P(n, x) == 0.0
  {
    hide Eval;
    hide P;
    hide DP;
    hide Derivative;
    hide Coefficients;
    hide Balanced;
    var c, m := Coefficients(n), n as real * (n as real + 1.0);
    var d := Derivative(c);
    var e, low := Derivative(d), LowTerms(c, m);
    forall k: nat ensures Balanced(1.0, At(low, k), 2.0, At(Shift(d), k), -m, At(c, k)) {
      ShiftedDerivative(c, k);
      LowBalanced(m, k as real, At(c, k));
    }
    forall k: nat ensures Balanced(1.0, At(e, k), 1.0, At(Shift(Shift(e)), k), 1.0, At(low, k)) {
      EquationHoldsAt(n, k);
      DerivativeAt(d, k);
      DerivativeAt(c, k + 1);
      TwiceShifted(c, k);
      EquationBalanced(n, k, At(c, k), At(c, k + 2));
    }
    EvalCombines(1.0, low, 2.0, Shift(d), -m, c, x);
    EvalCombines(1.0, e, 1.0, Shift(Shift(e)), 1.0, low, x);
    EvalShift(d, x);
    EvalShift(e, x);
    EvalShift(Shift(e), x);
    PolynomialValue(n, x);
    DerivativeValue(n, x);
  }
}
