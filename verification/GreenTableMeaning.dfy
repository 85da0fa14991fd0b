/**
  What the entries of H mean: sin(alpha) times the slope in cos(alpha) of the polynomial whose Legendre coefficients are
  the Love numbers l, that is, minus its derivative with respect to the angle.
 */
module GreenTableMeaning {
  import opened LinearAlgebra
  import opened Legendre
  import opened LegendrePolynomial
  import opened GreenTables

  /** The coefficients of the sum over the degrees i < n of l[i] times the i-th Legendre polynomial. */
  function Potential(l: seq<real>, n: nat): (q: seq<real>)
    requires n <= |l|
    ensures |q| == n
  {
    if n == 0 then []
    else
      var before := Potential(l, n - 1);
      seq(n, k requires 0 <= k < n => At(before, k) + Times(l[n - 1], Coef(n - 1, k)))
  }

  lemma PotentialStep(l: seq<real>, n: nat)
    requires 0 < n <= |l|
    ensures Combines(1.0, Potential(l, n), 1.0, Potential(l, n - 1), l[n - 1], Coefficients(n - 1))
  {
    hide Coefficients;
    hide Balanced;
    var q, before, c := Potential(l, n), Potential(l, n - 1), Coefficients(n - 1);
    forall k: nat ensures Balanced(1.0, At(q, k), 1.0, At(before, k), l[n - 1], At(c, k)) {
      TermBalanced(At(before, k), l[n - 1], At(c, k));
      assert k >= n ==> At(q, k) == At(before, k) == At(c, k) == 0.0;
      assert k < n ==> At(q, k) == At(before, k) + Times(l[n - 1], At(c, k));
    }
  }

  lemma TermBalanced(a: real, l: real, c: real)
    ensures Balanced(1.0, a + Times(l, c), 1.0, a, l, c)
    ensures c == 0.0 ==> Balanced(1.0, a, 1.0, a, l, c)
  {
  }

  lemma {:induction false} SumIsSlope(love: Love, a: Angle, n: nat)
    requires love.Valid() && n <= |love.l|
    ensures SumH(love, a, n) == Times(a.sin, Eval(Derivative(Potential(love.l, n)), a.cos))
  {
    hide Eval;
    hide Derivative;
    hide DP;
    hide Combines;
    hide Coefficients;
    if n == 0 {
      NoSlope(a.cos);
    } else {
      var l, x := love.l[n - 1], a.cos;
      var q, before, c := Potential(love.l, n), Potential(love.l, n - 1), Coefficients(n - 1);
      SumIsSlope(love, a, n - 1);
      PotentialStep(love.l, n);
      DerivativeCombines(1.0, q, 1.0, before, l, c);
      EvalCombines(1.0, Derivative(q), 1.0, Derivative(before), l, Derivative(c), x);
      DerivativeValue(n - 1, x);
      SlopeStep(a.sin, l, Eval(Derivative(before), x), DP(n - 1, x), Eval(Derivative(q), x));
    }
  }

  lemma NoSlope(x: real)
    ensures Eval(Derivative([]), x) == 0.0
  {
  }

  lemma SlopeStep(s: real, l: real, e: real, d: real, q: real)
    requires 1.0 * q == 1.0 * e + l * d
    ensures Times(s, e) + Times(Times(s, l), d) == Times(s, q)
  {
  }

  /** An entry of H is the sine times the slope of the sum over n of l_n P_n at the cosine; it vanishes at both poles. */
  lemma HorizontalMeaning(love: Love, a: Angle)
    requires love.Valid()
    ensures EntryH(love, a) == a.sin * Eval(Derivative(Potential(love.l, |love.l|)), a.cos)
    ensures a.sin == 0.0 ==> EntryH(love, a) == 0.0
  {
    hide Eval;
    hide Derivative;
    hide Potential;
    hide SumH;
    SumIsSlope(love, a, |love.l|);
  }

  /** The polynomial itself is the sum over the degrees of l_n P_n. */
  lemma {:induction false} PotentialValue(l: seq<real>, n: nat, x: real)
    requires n <= |l|
    ensures Eval(Potential(l, n), x) == WeightedSum(l, n, x)
  {
    hide Eval;
    hide P;
    hide Coefficients;
    hide Combines;
    if n == 0 {
      EvalEmpty(x);
    } else {
      PotentialValue(l, n - 1, x);
      PotentialStep(l, n);
      EvalCombines(1.0, Potential(l, n), 1.0, Potential(l, n - 1), l[n - 1], Coefficients(n - 1), x);
      PolynomialValue(n - 1, x);
    }
  }

  function WeightedSum(l: seq<real>, n: nat, x: real): real
    requires n <= |l|
  {
    if n == 0 then 0.0 else WeightedSum(l, n - 1, x) + l[n - 1] * P(n - 1, x)
  }
}
