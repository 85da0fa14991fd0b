/**
  The balance-thickness inversion sums its gradient and its costs with different quadrature rules. Here the gradient
  is compared with the cost that is really computed: when it is exact, on which inputs, and what a vanishing gradient
  then says.
 */
module BalanceRules {
  import opened LinearAlgebra
  import opened RealFacts
  import opened BalanceGradient

  /** The mesh with the cost functions' rule in place of the gradient's. */
  function CostMesh(es: seq<Element>, n: nat): (cs: seq<Element>)
    requires ValidElements(es, n)
    ensures |cs| == |es| && ValidElements(cs, n)
  {
    seq(|es|, i requires 0 <= i < |es| => es[i].(points := es[i].costPoints))
  }

  /** The summed cost as the program computes it. */
  function J(es: seq<Element>, h: seq<real>): real
    requires ValidElements(es, |h|)
  {
    Cost(CostMesh(es, |h|), h, |h|, |es|)
  }

  /** The gradient as the program computes it. */
  function GradJ(es: seq<Element>, h: seq<real>): (s: seq<real>)
    requires ValidElements(es, |h|)
    ensures |s| == |h|
  {
    Gradient(es, h, |es|)
  }

  /** The gradient the cost functions' rule would give. */
  function CostGradJ(es: seq<Element>, h: seq<real>): (s: seq<real>)
    requires ValidElements(es, |h|)
    ensures |s| == |h|
  {
    Gradient(CostMesh(es, |h|), h, |es|)
  }

  function Curvature(es: seq<Element>, d: seq<real>): real
    requires ValidElements(es, |d|)
  {
    Gram(CostMesh(es, |d|), d, d, |d|, |es|)
  }

  ghost predicate ExpandsAt(es: seq<Element>, h: seq<real>, d: seq<real>)
    requires |h| == |d| && ValidElements(es, |h|)
  {
    J(es, Plus(h, d)) == J(es, h) - Dot(GradJ(es, h), d, |h|) + 0.5 * Curvature(es, d)
  }

  /** The computed vector is the negative gradient of the computed cost. */
  ghost predicate ExactAt(es: seq<Element>, h: seq<real>)
    requires ValidElements(es, |h|)
  {
    forall d: seq<real> :: |d| == |h| ==> ExpandsAt(es, h, d)
  }

  lemma CostExpansion(es: seq<Element>, h: seq<real>, d: seq<real>)
    requires |h| == |d| && ValidElements(es, |h|)
    ensures J(es, Plus(h, d)) == J(es, h) - Dot(CostGradJ(es, h), d, |h|) + 0.5 * Curvature(es, d)
  {
    hide Cost;
    hide Gradient;
    hide Gram;
    hide Dot;
    hide ValidElements;
    SameRuleExpansion(CostMesh(es, |h|), h, d, |es|);
  }

  lemma UnitsDecide(a: seq<real>, b: seq<real>, n: nat)
    requires |a| == |b| == n
    requires forall k: nat :: k < n ==> Dot(a, Unit(n, k), n) == Dot(b, Unit(n, k), n)
    ensures a == b
  {
    hide Dot;
    forall k: nat | k < n ensures a[k] == b[k] {
      DotUnit(a, n, k, n);
      DotUnit(b, n, k, n);
    }
  }

  /** The gradient is exact at h just when both rules give the same one. */
  lemma GradientIsExact(es: seq<Element>, h: seq<real>)
    requires ValidElements(es, |h|)
    ensures ExactAt(es, h) <==> GradJ(es, h) == CostGradJ(es, h)
  {
    hide Dot;
    hide J;
    hide GradJ;
    hide CostGradJ;
    hide Curvature;
    hide ValidElements;
    forall d: seq<real> | |d| == |h|
      ensures ExpandsAt(es, h, d) <==> Dot(GradJ(es, h), d, |h|) == Dot(CostGradJ(es, h), d, |h|)
    {
      CostExpansion(es, h, d);
    }
    if ExactAt(es, h) {
      var n := |h|;
      forall k: nat | k < n ensures Dot(GradJ(es, h), Unit(n, k), n) == Dot(CostGradJ(es, h), Unit(n, k), n) {
        assert ExpandsAt(es, h, Unit(n, k));
      }
      UnitsDecide(GradJ(es, h), CostGradJ(es, h), n);
    }
  }

  // ---------------------------------------------------------------- moments

  function SourceUpTo(e: Element, b: seq<real>, g: nat, r: nat): real
    requires e.Valid() && g <= |e.points| && r <= |e.responses| && (g == |e.points| ==> r == 0)
    decreases g, r
  {
    if r > 0 then
      var q := e.points[g];
      SourceUpTo(e, b, g, r - 1) + PointSource(e.responses[r - 1], q, q.coefs[r - 1], FieldAt(q, b, |e.vertices|))
    else if g > 0 then SourceUpTo(e, b, g - 1, |e.responses|)
    else 0.0
  }

  /** The part of the summed cost that is linear in a field. */
  function Source(es: seq<Element>, b: seq<real>, n: nat, m: nat): real
    requires ValidElements(es, n) && m <= |es|
  {
    if m == 0 then 0.0
    else
      var e := es[m - 1];
      Source(es, b, n, m - 1) + if e.icy then SourceUpTo(e, Gather(b, e.vertices), |e.points|, 0) else 0.0
  }

  lemma {:induction false} ElementMoments(e: Element, h: seq<real>, y: seq<real>, g: nat, r: nat)
    requires e.Valid() && g <= |e.points| && r <= |e.responses| && (g == |e.points| ==> r == 0)
    requires |h| == |e.vertices|
    ensures Dot(GradientUpTo(e, h, g, r), y, |e.vertices|) == SourceUpTo(e, y, g, r) - GramUpTo(e, h, y, g, r)
    decreases g, r
  {
    hide PointGradient;
    hide PointSource;
    hide PointGram;
    hide Dot;
    hide AddPoint;
    var n := |e.vertices|;
    if r > 0 {
      ElementMoments(e, h, y, g, r - 1);
      var q := e.points[g];
      var resp, coef := e.responses[r - 1], q.coefs[r - 1];
      AddPointDot(GradientUpTo(e, h, g, r - 1), resp, q, coef, FieldAt(q, h, n), y, n);
      GradientParts(resp, q, coef, FieldAt(q, h, n), FieldAt(q, y, n));
    } else if g > 0 {
      ElementMoments(e, h, y, g - 1, |e.responses|);
    } else {
      DotZero(Constant(n, 0.0), y, n);
    }
  }

  lemma {:induction false} GradientMoments(es: seq<Element>, h: seq<real>, y: seq<real>, m: nat)
    requires ValidElements(es, |h|) && m <= |es|
    ensures Dot(Gradient(es, h, m), y, |h|) == Source(es, y, |h|, m) - Gram(es, h, y, |h|, m)
  {
    hide Dot;
    hide Gather;
    hide GradientUpTo;
    hide SourceUpTo;
    hide GramUpTo;
    hide VectorAdded;
    var n := |h|;
    if m == 0 {
      DotZero(Constant(n, 0.0), y, n);
    } else {
      GradientMoments(es, h, y, m - 1);
      var e := es[m - 1];
      if e.icy {
        var dofs := e.vertices;
        GatherLength(h, dofs);
        ElementMoments(e, Gather(h, dofs), Gather(y, dofs), |e.points|, 0);
        DotVectorAdded(Gradient(es, h, m - 1), GradientUpTo(e, Gather(h, dofs), |e.points|, 0), dofs, |dofs|, y);
      }
    }
  }

  lemma GramPointLinear(resp: Response, q: Point, coef: real, a: Field, b: Field, c: real, y: Field)
    requires q.speed >= 0.0
    ensures PointGram(resp, q, coef, FieldSum(a, Scaled(b, c)), y)
         == PointGram(resp, q, coef, a, y) + Times(c, PointGram(resp, q, coef, b, y))
    ensures PointGram(resp, q, coef, a, y) == PointGram(resp, q, coef, y, a)
  {
    hide Unit1;
    hide Unit2;
    var k := coef * q.jdet * q.weight;
    match resp
    case AbsMisfit =>
      LinearStep(k, a.v, b.v, c, y.v);
    case AbsGradient =>
      LinearStep(k, a.x, b.x, c, y.x);
      LinearStep(k, a.y, b.y, c, y.y);
    case AlongGradient =>
      SlopeSum(Unit1(q), Unit2(q), a, b, c);
      LinearStep(k, Unit1(q) * a.x + Unit2(q) * a.y, Unit1(q) * b.x + Unit2(q) * b.y, c, Unit1(q) * y.x + Unit2(q) * y.y);
    case AcrossGradient =>
      SlopeSum(-Unit2(q), Unit1(q), a, b, c);
      LinearStep(k, -Unit2(q) * a.x + Unit1(q) * a.y, -Unit2(q) * b.x + Unit1(q) * b.y, c, -Unit2(q) * y.x + Unit1(q) * y.y);
    case BalanceMisfit =>
      SlopeSum(q.vx, q.vy, a, b, c);
      Distribute(q.dvxdx + q.dvydy, a.v, b.v * c);
      LinearStep(k, BalanceOf(q, a), BalanceOf(q, b), c, BalanceOf(q, y));
    case Unsupported =>
  }

  lemma SlopeSum(u: real, v: real, a: Field, b: Field, c: real)
    ensures u * (a.x + b.x * c) + v * (a.y + b.y * c) == u * a.x + v * a.y + c * (u * b.x + v * b.y)
  {
  }

  lemma LinearStep(k: real, a: real, b: real, c: real, y: real)
    ensures k * ((a + c * b) * y) == k * (a * y) + c * (k * (b * y))
    ensures k * ((a + b * c) * y) == k * (a * y) + c * (k * (b * y))
    ensures a * y == y * a
  {
  }

  lemma DotAxpyRight(w: seq<real>, a: seq<real>, c: real, b: seq<real>, n: nat)
    requires n <= |a|
    ensures Dot(w, Axpy(a, c, b), n) == Dot(w, a, n) + Dot(w, b, n) * c
  {
    hide Dot;
    DotAxpy(a, c, b, w, n);
    DotSymmetric(w, Axpy(a, c, b), n);
    DotSymmetric(w, a, n);
    DotSymmetric(w, b, n);
  }

  lemma FieldAxpy(q: Point, a: seq<real>, c: real, b: seq<real>, n: nat)
    requires n <= |a|
    ensures FieldAt(q, Axpy(a, c, b), n) == FieldSum(FieldAt(q, a, n), Scaled(FieldAt(q, b, n), c))
  {
    hide Dot;
    hide Axpy;
    DotAxpyRight(q.basis, a, c, b, n);
    DotAxpyRight(q.dx, a, c, b, n);
    DotAxpyRight(q.dy, a, c, b, n);
  }

  lemma {:induction false} GramElementLinear(e: Element, a: seq<real>, c: real, b: seq<real>, y: seq<real>, g: nat, r: nat)
    requires e.Valid() && g <= |e.points| && r <= |e.responses| && (g == |e.points| ==> r == 0)
    requires |a| == |e.vertices|
    ensures GramUpTo(e, Axpy(a, c, b), y, g, r) == GramUpTo(e, a, y, g, r) + Times(c, GramUpTo(e, b, y, g, r))
    ensures GramUpTo(e, a, y, g, r) == GramUpTo(e, y, a, g, r)
    decreases g, r
  {
    hide PointGram;
    hide FieldAt;
    hide Axpy;
    hide Times;
    TimesZero(c);
    if r > 0 {
      GramElementLinear(e, a, c, b, y, g, r - 1);
      var q, n := e.points[g], |e.vertices|;
      FieldAxpy(q, a, c, b, n);
      var resp, coef := e.responses[r - 1], q.coefs[r - 1];
      GramPointLinear(resp, q, coef, FieldAt(q, a, n), FieldAt(q, b, n), c, FieldAt(q, y, n));
      TimesSum(c, GramUpTo(e, b, y, g, r - 1), PointGram(resp, q, coef, FieldAt(q, b, n), FieldAt(q, y, n)));
    } else if g > 0 {
      GramElementLinear(e, a, c, b, y, g - 1, |e.responses|);
    }
  }

  lemma GatherAxpy(a: seq<real>, c: real, b: seq<real>, dofs: seq<nat>)
    requires |a| == |b| && DofsWithin(dofs, |a|)
    ensures Gather(Axpy(a, c, b), dofs) == Axpy(Gather(a, dofs), c, Gather(b, dofs))
  {
    var s, t := Gather(Axpy(a, c, b), dofs), Axpy(Gather(a, dofs), c, Gather(b, dofs));
    forall i | 0 <= i < |dofs| ensures s[i] == t[i] {
      assert s[i] == a[dofs[i]] + c * b[dofs[i]];
    }
  }

  lemma {:induction false} GramLinear(es: seq<Element>, a: seq<real>, c: real, b: seq<real>, y: seq<real>, n: nat, m: nat)
    requires |a| == |b| == n && ValidElements(es, n) && m <= |es|
    ensures Gram(es, Axpy(a, c, b), y, n, m) == Gram(es, a, y, n, m) + Times(c, Gram(es, b, y, n, m))
    ensures Gram(es, a, y, n, m) == Gram(es, y, a, n, m)
  {
    hide GramUpTo;
    hide Gather;
    hide Axpy;
    hide Times;
    TimesZero(c);
    if m > 0 {
      GramLinear(es, a, c, b, y, n, m - 1);
      var e := es[m - 1];
      if e.icy {
        var dofs := e.vertices;
        GatherAxpy(a, c, b, dofs);
        GatherLength(a, dofs);
        GramElementLinear(e, Gather(a, dofs), c, Gather(b, dofs), Gather(y, dofs), |e.points|, 0);
        TimesSum(c, Gram(es, b, y, n, m - 1), GramUpTo(e, Gather(b, dofs), Gather(y, dofs), |e.points|, 0));
      }
    }
  }

  /** The first k nodal values, zeros after them. */
  function Prefix(h: seq<real>, k: nat): (s: seq<real>)
    ensures |s| == |h|
  {
    seq(|h|, i requires 0 <= i < |h| => if i < k then h[i] else 0.0)
  }

  lemma PrefixStep(h: seq<real>, k: nat)
    requires k < |h|
    ensures Prefix(h, k + 1) == Axpy(Prefix(h, k), h[k], Unit(|h|, k))
    ensures Prefix(h, |h|) == h
  {
  }

  lemma GramOfZero(es: seq<Element>, h: seq<real>, y: seq<real>, n: nat, m: nat)
    requires |h| == n && ValidElements(es, n) && m <= |es|
    ensures Gram(es, Prefix(h, 0), y, n, m) == 0.0
  {
    hide Gram;
    var zero := Prefix(h, 0);
    assert Axpy(zero, 1.0, zero) == zero;
    GramLinear(es, zero, 1.0, zero, y, n, m);
  }

  /** A bilinear sum is known from its values on unit fields. */
  lemma {:induction false} GramByUnits(es: seq<Element>, cs: seq<Element>, h: seq<real>, y: seq<real>, n: nat, k: nat)
    requires |h| == n && k <= n && |es| == |cs| && ValidElements(es, n) && ValidElements(cs, n)
    requires forall j: nat :: j < n ==> Gram(es, Unit(n, j), y, n, |es|) == Gram(cs, Unit(n, j), y, n, |es|)
    ensures Gram(es, Prefix(h, k), y, n, |es|) == Gram(cs, Prefix(h, k), y, n, |es|)
  {
    hide Gram;
    hide Prefix;
    hide Axpy;
    if k == 0 {
      GramOfZero(es, h, y, n, |es|);
      GramOfZero(cs, h, y, n, |es|);
    } else {
      var j := k - 1;
      GramByUnits(es, cs, h, y, n, j);
      PrefixStep(h, j);
      GramLinear(es, Prefix(h, j), h[j], Unit(n, j), y, n, |es|);
      GramLinear(cs, Prefix(h, j), h[j], Unit(n, j), y, n, |es|);
    }
  }

  ghost predicate SourcesAgree(es: seq<Element>, n: nat, i: nat)
    requires ValidElements(es, n)
  {
    Source(es, Unit(n, i), n, |es|) == Source(CostMesh(es, n), Unit(n, i), n, |es|)
  }

  ghost predicate GramsAgree(es: seq<Element>, n: nat, i: nat, j: nat)
    requires ValidElements(es, n)
  {
    Gram(es, Unit(n, j), Unit(n, i), n, |es|) == Gram(CostMesh(es, n), Unit(n, j), Unit(n, i), n, |es|)
  }

  /**
    Both rules sum coefficient times every product of two basis functions, and coefficient times data times every
    basis function, to the same values.
   */
  ghost predicate MomentsAgree(es: seq<Element>, n: nat)
    requires ValidElements(es, n)
  {
    && (forall i: nat :: i < n ==> SourcesAgree(es, n, i))
    && (forall i: nat, j: nat :: i < n && j < n ==> GramsAgree(es, n, i, j))
  }

  ghost predicate ExactEverywhere(es: seq<Element>, n: nat)
    requires ValidElements(es, n)
  {
    forall h: seq<real> :: |h| == n ==> ExactAt(es, h)
  }

  /** One component of both gradients. */
  lemma Component(es: seq<Element>, h: seq<real>, i: nat)
    requires ValidElements(es, |h|) && i < |h|
    ensures var n, cs := |h|, CostMesh(es, |h|);
            && Dot(GradJ(es, h), Unit(n, i), n) == Source(es, Unit(n, i), n, |es|) - Gram(es, h, Unit(n, i), n, |es|)
            && Dot(CostGradJ(es, h), Unit(n, i), n) == Source(cs, Unit(n, i), n, |es|) - Gram(cs, h, Unit(n, i), n, |es|)
  {
    hide Dot;
    hide Gradient;
    hide Source;
    hide Gram;
    hide ValidElements;
    GradientMoments(es, h, Unit(|h|, i), |es|);
    GradientMoments(CostMesh(es, |h|), h, Unit(|h|, i), |es|);
  }

  lemma MomentsSuffice(es: seq<Element>, h: seq<real>)
    requires ValidElements(es, |h|) && MomentsAgree(es, |h|)
    ensures GradJ(es, h) == CostGradJ(es, h)
  {
    hide Dot;
    hide Source;
    hide Gram;
    hide GradJ;
    hide CostGradJ;
    hide CostMesh;
    hide Unit;
    hide Prefix;
    hide ValidElements;
    var n, cs := |h|, CostMesh(es, |h|);
    forall i: nat | i < n ensures Dot(GradJ(es, h), Unit(n, i), n) == Dot(CostGradJ(es, h), Unit(n, i), n) {
      Component(es, h, i);
      assert SourcesAgree(es, n, i);
      forall j: nat | j < n
        ensures Gram(es, Unit(n, j), Unit(n, i), n, |es|) == Gram(cs, Unit(n, j), Unit(n, i), n, |es|)
      {
        assert GramsAgree(es, n, i, j);
      }
      GramByUnits(es, cs, h, Unit(n, i), n, n);
      PrefixStep(h, i);
    }
    UnitsDecide(GradJ(es, h), CostGradJ(es, h), n);
  }

  lemma ExactComponents(es: seq<Element>, n: nat, h: seq<real>, i: nat)
    requires ValidElements(es, n) && |h| == n && i < n && ExactEverywhere(es, n)
    ensures Dot(GradJ(es, h), Unit(n, i), n) == Dot(CostGradJ(es, h), Unit(n, i), n)
  {
    hide Dot;
    hide ExactAt;
    hide GradJ;
    hide CostGradJ;
    hide ValidElements;
    assert ExactAt(es, h);
    GradientIsExact(es, h);
  }

  lemma MomentsNeeded(es: seq<Element>, n: nat, i: nat, j: nat)
    requires ValidElements(es, n) && i < n && j < n && ExactEverywhere(es, n)
    ensures SourcesAgree(es, n, i) && GramsAgree(es, n, i, j)
  {
    hide Dot;
    hide Source;
    hide Gram;
    hide GradJ;
    hide CostGradJ;
    hide CostMesh;
    hide ExactEverywhere;
    hide ValidElements;
    var cs := CostMesh(es, n);
    var zero := Prefix(Constant(n, 0.0), 0);
    ExactComponents(es, n, zero, i);
    Component(es, zero, i);
    GramOfZero(es, Constant(n, 0.0), Unit(n, i), n, |es|);
    GramOfZero(cs, Constant(n, 0.0), Unit(n, i), n, |es|);
    ExactComponents(es, n, Unit(n, j), i);
    Component(es, Unit(n, j), i);
  }

  /** The gradient is exact for every thickness just when the moments of the two rules agree. */
  lemma ExactEverywhereIff(es: seq<Element>, n: nat)
    requires ValidElements(es, n)
    ensures ExactEverywhere(es, n) <==> MomentsAgree(es, n)
  {
    hide ExactAt;
    hide GradJ;
    hide CostGradJ;
    hide SourcesAgree;
    hide GramsAgree;
    hide ValidElements;
    if MomentsAgree(es, n) {
      forall h: seq<real> | |h| == n ensures ExactAt(es, h) {
        MomentsSuffice(es, h);
        GradientIsExact(es, h);
      }
    }
    if ExactEverywhere(es, n) {
      forall i: nat, j: nat | i < n && j < n ensures SourcesAgree(es, n, i) && GramsAgree(es, n, i, j) {
        MomentsNeeded(es, n, i, j);
      }
      forall i: nat | i < n ensures SourcesAgree(es, n, i) {
        MomentsNeeded(es, n, i, i);
      }
    }
  }

  // ---------------------------------------------------------------- minima

  ghost predicate Minimal(es: seq<Element>, h: seq<real>)
    requires ValidElements(es, |h|)
  {
    forall h': seq<real> :: |h'| == |h| ==> J(es, h) <= J(es, h')
  }

  ghost predicate Vanishes(s: seq<real>) {
    forall k :: 0 <= k < |s| ==> s[k] == 0.0
  }

  function Minus(a: seq<real>, b: seq<real>): (s: seq<real>)
    requires |a| == |b|
    ensures |s| == |a|
  {
    seq(|a|, k requires 0 <= k < |a| => a[k] - b[k])
  }

  lemma MinusPlus(a: seq<real>, b: seq<real>)
    requires |a| == |b|
    ensures Plus(b, Minus(a, b)) == a
  {
  }

  function Multiple(t: real, g: seq<real>): (s: seq<real>)
    ensures |s| == |g|
  {
    Axpy(Constant(|g|, 0.0), t, g)
  }

  lemma CurvatureScales(es: seq<Element>, t: real, g: seq<real>)
    requires ValidElements(es, |g|)
    ensures Curvature(es, Multiple(t, g)) == t * (t * Curvature(es, g))
  {
    hide Gram;
    hide Dot;
    hide Axpy;
    hide CostMesh;
    hide ValidElements;
    var n, cs, d := |g|, CostMesh(es, |g|), Multiple(t, g);
    var zero := Constant(n, 0.0);
    assert zero == Prefix(zero, 0);
    GramOfZero(cs, zero, d, n, |es|);
    GramOfZero(cs, zero, g, n, |es|);
    GramLinear(cs, zero, t, g, d, n, |es|);
    GramLinear(cs, g, t, g, d, n, |es|);
    GramLinear(cs, zero, t, g, g, n, |es|);
  }

  lemma SelfDot(g: seq<real>, n: nat)
    requires n <= |g|
    ensures Dot(g, g, n) >= 0.0
    ensures Dot(g, g, n) == 0.0 ==> forall k :: 0 <= k < n ==> g[k] == 0.0
  {
    if n > 0 {
      SelfDot(g, n - 1);
      SquareSign(At(g, n - 1));
    }
  }

  lemma SquareSign(a: real)
    ensures a * a >= 0.0 && (a * a == 0.0 ==> a == 0.0)
  {
    if a > 0.0 {
      TimesPositive(a, a);
    } else if a < 0.0 {
      TimesPositive(-a, -a);
    }
  }

  /** A step small enough along a direction of descent costs less. */
  lemma DescentStep(s: real, q: real) returns (t: real)
    requires s > 0.0 && q >= 0.0
    ensures -(t * s) + 0.5 * (t * (t * q)) < 0.0
  {
    t := s / (s + q);
    Quotient(s, s + q, t);
    assert t > 0.0;
    assert t * q < s + s;
    assert t * (t * q - 2.0 * s) < 0.0;
  }

  lemma CostDescends(es: seq<Element>, h: seq<real>)
    requires ValidElements(es, |h|) && NonnegativeElements(CostMesh(es, |h|)) && !Vanishes(CostGradJ(es, h))
    ensures !Minimal(es, h)
  {
    hide Dot;
    hide J;
    hide Axpy;
    hide CostGradJ;
    hide Curvature;
    hide ValidElements;
    var g := CostGradJ(es, h);
    SelfDot(g, |h|);
    CurvatureNonnegative(es, g);
    var s, q := Dot(g, g, |h|), Curvature(es, g);
    var t := DescentStep(s, q);
    var d := Multiple(t, g);
    CostExpansion(es, h, d);
    CurvatureScales(es, t, g);
    DotZero(Constant(|g|, 0.0), g, |h|);
    DotAxpyRight(g, Constant(|g|, 0.0), t, g, |h|);
    DotSymmetric(g, Constant(|g|, 0.0), |h|);
    assert J(es, Plus(h, d)) < J(es, h);
  }

  lemma CurvatureNonnegative(es: seq<Element>, d: seq<real>)
    requires ValidElements(es, |d|) && NonnegativeElements(CostMesh(es, |d|))
    ensures Curvature(es, d) >= 0.0
  {
    hide Gram;
    hide ValidElements;
    hide NonnegativeElements;
    GramNonnegative(CostMesh(es, |d|), d, |d|, |es|);
  }

  /** A thickness is the cheapest of all just when the gradient by the cost functions' own rule vanishes. */
  lemma MinimalIff(es: seq<Element>, h: seq<real>)
    requires ValidElements(es, |h|) && NonnegativeElements(CostMesh(es, |h|))
    ensures Minimal(es, h) <==> Vanishes(CostGradJ(es, h))
  {
    hide Dot;
    hide J;
    hide CostGradJ;
    hide Curvature;
    hide ValidElements;
    hide NonnegativeElements;
    if Vanishes(CostGradJ(es, h)) {
      forall h': seq<real> | |h'| == |h| ensures J(es, h) <= J(es, h') {
        var d := Minus(h', h);
        MinusPlus(h', h);
        CostExpansion(es, h, d);
        CurvatureNonnegative(es, d);
        DotZero(CostGradJ(es, h), d, |h|);
      }
    } else {
      CostDescends(es, h);
    }
  }

  /** Where the computed gradient vanishes, the thickness is the cheapest just when that gradient is exact there. */
  lemma StationaryIsMinimal(es: seq<Element>, h: seq<real>)
    requires ValidElements(es, |h|) && NonnegativeElements(CostMesh(es, |h|))
    requires Vanishes(GradJ(es, h))
    ensures Minimal(es, h) <==> ExactAt(es, h)
  {
    hide J;
    hide GradJ;
    hide CostGradJ;
    hide ExactAt;
    hide Minimal;
    hide ValidElements;
    hide NonnegativeElements;
    MinimalIff(es, h);
    GradientIsExact(es, h);
    if Vanishes(CostGradJ(es, h)) {
      assert GradJ(es, h) == CostGradJ(es, h);
    }
  }
}
