/**
  The balance-thickness gradient on sampled inputs. It is exact wherever the coefficients are constant and everything
  else is linear in an element, for any two rules that integrate products of two basis functions alike; a coefficient
  that varies over a triangle is enough to make it wrong.
 */
module BalanceSamples {
  import opened LinearAlgebra
  import opened BalanceGradient
  import opened BalanceRules

  // ---------------------------------------------------------------- constant coefficients and linear fields

  /** What an element's points are sampled from: constants, and values at the vertices. */
  datatype Inputs = Inputs(dx: seq<real>, dy: seq<real>, coefs: seq<real>, u: real, v: real,
                           obs: seq<real>, vx: seq<real>, vy: seq<real>, div: real, balance: seq<real>)

  predicate Directional(resp: Response) {
    resp.AlongGradient? || resp.AcrossGradient?
  }

  /** Constant coefficients, linear fields; for costs along or across the flow, a constant flow direction. */
  ghost predicate SampledAt(q: Point, f: Inputs, n: nat, directional: bool) {
    && q.speed >= 0.0
    && |q.basis| == |f.vx| == |f.vy| == n
    && Total(q.basis, n) == 1.0
    && q.dx == f.dx && q.dy == f.dy && q.coefs == f.coefs
    && q.obs == Dot(q.basis, f.obs, n)
    && q.vx == Dot(q.basis, f.vx, n) && q.vy == Dot(q.basis, f.vy, n)
    && q.dvxdx + q.dvydy == f.div
    && q.smb - q.melt - q.dhdt == Dot(q.basis, f.balance, n)
    && (directional ==> Unit1(q) == f.u && Unit2(q) == f.v)
  }

  ghost predicate NeedsDirection(e: Element) {
    exists r :: 0 <= r < |e.responses| && Directional(e.responses[r])
  }

  ghost predicate Sampled(e: Element, f: Inputs) {
    && (forall g :: 0 <= g < |e.points| ==> SampledAt(e.points[g], f, |e.vertices|, NeedsDirection(e)))
    && (forall g :: 0 <= g < |e.costPoints| ==> SampledAt(e.costPoints[g], f, |e.vertices|, NeedsDirection(e)))
  }

  /** What a rule makes of the products of two basis functions. */
  function Mass(points: seq<Point>, n: nat, g: nat): (v: Matrix)
    requires g <= |points|
    ensures |v| == n
  {
    if g == 0 then ZeroMatrix(n)
    else
      var q := points[g - 1];
      OuterSum(Mass(points, n, g - 1), PointWeight(q), q.basis, q.basis)
  }

  lemma {:induction false} MassShape(points: seq<Point>, n: nat, g: nat)
    requires g <= |points|
    ensures Shape(Mass(points, n, g), n, n)
  {
    if g > 0 {
      MassShape(points, n, g - 1);
    }
  }

  /** s*a + t*b + h*c */
  function Affine(s: seq<real>, a: real, t: seq<real>, b: real, h: seq<real>, c: real): (r: seq<real>)
    ensures |r| == |h|
  {
    seq(|h|, i requires 0 <= i < |h| => At(s, i) * a + At(t, i) * b + h[i] * c)
  }

  lemma {:induction false} DotAffine(w: seq<real>, s: seq<real>, a: real, t: seq<real>, b: real, h: seq<real>, c: real, n: nat)
    requires n <= |h|
    ensures Dot(w, Affine(s, a, t, b, h, c), n) == Dot(w, s, n) * a + Dot(w, t, n) * b + Dot(w, h, n) * c
  {
    if n > 0 {
      var i := n - 1;
      DotAffine(w, s, a, t, b, h, c, i);
      AffineStep(At(w, i), At(s, i), a, At(t, i), b, At(h, i), c);
      AffineGrow(Dot(w, s, i), At(w, i) * At(s, i), a);
      AffineGrow(Dot(w, t, i), At(w, i) * At(t, i), b);
      AffineGrow(Dot(w, h, i), At(w, i) * At(h, i), c);
    }
  }

  lemma AffineStep(w: real, s: real, a: real, t: real, b: real, h: real, c: real)
    ensures w * (s * a + t * b + h * c) == w * s * a + w * t * b + w * h * c
  {
  }

  lemma AffineGrow(d: real, p: real, a: real)
    ensures (d + p) * a == d * a + p * a
  {
  }

  function SlopeMisfit(f: Inputs, h: seq<real>, y: seq<real>, n: nat): real {
    -(Dot(f.dx, h, n) * Dot(f.dx, y, n) + Dot(f.dy, h, n) * Dot(f.dy, y, n))
  }

  function DirectedMisfit(u: real, v: real, f: Inputs, h: seq<real>, y: seq<real>, n: nat): real {
    -((u * Dot(f.dx, h, n) + v * Dot(f.dy, h, n)) * (u * Dot(f.dx, y, n) + v * Dot(f.dy, y, n)))
  }

  /** The misfit of a response at thickness h, by vertices; where the test field is constant too, times it. */
  function Misfit(resp: Response, f: Inputs, h: seq<real>, y: seq<real>, n: nat): seq<real>
    requires |h| == n
  {
    var hx, hy := Dot(f.dx, h, n), Dot(f.dy, h, n);
    match resp
    case AbsMisfit => Affine(f.obs, 1.0, f.obs, 0.0, h, -1.0)
    case AbsGradient => Constant(n, SlopeMisfit(f, h, y, n))
    case AlongGradient => Constant(n, DirectedMisfit(f.u, f.v, f, h, y, n))
    case AcrossGradient => Constant(n, DirectedMisfit(-f.v, f.u, f, h, y, n))
    case BalanceMisfit => Axpy(Affine(f.vx, -hx, f.vy, -hy, h, -f.div), 1.0, f.balance)
    case Unsupported => Constant(n, 0.0)
  }

  /** What the misfit is weighed with for a test field y, by vertices. */
  function Test(resp: Response, f: Inputs, y: seq<real>, n: nat): seq<real>
    requires |y| == n
  {
    match resp
    case AbsMisfit => y
    case BalanceMisfit => Affine(f.vx, Dot(f.dx, y, n), f.vy, Dot(f.dy, y, n), y, f.div)
    case _ => Constant(n, 1.0)
  }

  /** At a sampled point the gradient is a product of two linear fields. */
  lemma SampledPoint(resp: Response, q: Point, f: Inputs, coef: real, h: seq<real>, y: seq<real>, n: nat)
    requires |h| == |y| == n && SampledAt(q, f, n, Directional(resp))
    ensures PointGradient(resp, q, coef, FieldAt(q, h, n), FieldAt(q, y, n))
         == Times(coef, Times(PointWeight(q),
              Times(Dot(q.basis, Misfit(resp, f, h, y, n), n), Dot(q.basis, Test(resp, f, y, n), n))))
  {
    hide Dot;
    hide Total;
    hide Unit1;
    hide Unit2;
    hide Affine;
    hide Constant;
    var hx, hy := Dot(f.dx, h, n), Dot(f.dy, h, n);
    var yx, yy := Dot(f.dx, y, n), Dot(f.dy, y, n);
    ConstantField(q.basis, 1.0, n);
    match resp
    case AbsMisfit =>
      DotAffine(q.basis, f.obs, 1.0, f.obs, 0.0, h, -1.0, n);
    case AbsGradient =>
      ConstantField(q.basis, SlopeMisfit(f, h, y, n), n);
      TwoSlopes(coef, q.jdet, q.weight, hx, yx, hy, yy);
    case AlongGradient =>
      ConstantField(q.basis, DirectedMisfit(f.u, f.v, f, h, y, n), n);
    case AcrossGradient =>
      ConstantField(q.basis, DirectedMisfit(-f.v, f.u, f, h, y, n), n);
    case BalanceMisfit =>
      DotAffine(q.basis, f.vx, yx, f.vy, yy, y, f.div, n);
      DotAffine(q.basis, f.vx, -hx, f.vy, -hy, h, -f.div, n);
      DotAxpyRight(q.basis, Affine(f.vx, -hx, f.vy, -hy, h, -f.div), 1.0, f.balance, n);
    case Unsupported =>
      ConstantField(q.basis, 0.0, n);
  }

  lemma ConstantField(basis: seq<real>, c: real, n: nat)
    requires Total(basis, n) == 1.0
    ensures Dot(basis, Constant(n, c), n) == c
  {
    DotConstant(basis, n, c, n);
  }

  lemma TwoSlopes(coef: real, j: real, w: real, hx: real, yx: real, hy: real, yy: real)
    ensures -coef * hx * yx * j * w + -coef * hy * yy * j * w == Times(coef, Times(j * w, -(hx * yx + hy * yy)))
  {
    OneSlope(coef, j, w, hx, yx);
    OneSlope(coef, j, w, hy, yy);
    Distribute(j * w, hx * yx, hy * yy);
    Distribute(coef, j * w * (hx * yx), j * w * (hy * yy));
  }

  lemma OneSlope(coef: real, j: real, w: real, h: real, y: real)
    ensures -coef * h * y * j * w == -(coef * (j * w * (h * y)))
  {
  }

  function PointWeight(q: Point): real {
    q.jdet * q.weight
  }

  /** The responses' part in the gradient tested with y, for a matrix of products of basis functions. */
  function Modes(e: Element, f: Inputs, m: Matrix, h: seq<real>, y: seq<real>, k: nat): real
    requires k <= |e.responses| && |h| == |y| == |e.vertices|
  {
    if k == 0 then 0.0
    else
      var resp, n := e.responses[k - 1], |e.vertices|;
      Modes(e, f, m, h, y, k - 1) + Times(At(f.coefs, k - 1), Form(m, Misfit(resp, f, h, y, n), Test(resp, f, y, n), n, n))
  }

  /** The same for one quadrature point. */
  function PointModes(e: Element, f: Inputs, q: Point, h: seq<real>, y: seq<real>, k: nat): real
    requires k <= |e.responses| && |h| == |y| == |e.vertices|
  {
    if k == 0 then 0.0
    else
      var resp, n := e.responses[k - 1], |e.vertices|;
      PointModes(e, f, q, h, y, k - 1)
      + Times(At(f.coefs, k - 1), Times(PointWeight(q),
          Times(Dot(q.basis, Misfit(resp, f, h, y, n), n), Dot(q.basis, Test(resp, f, y, n), n))))
  }

  lemma {:induction false} ModesStep(e: Element, f: Inputs, m: Matrix, q: Point, h: seq<real>, y: seq<real>, k: nat)
    requires k <= |e.responses| && |h| == |y| == |e.vertices| && Shape(m, |e.vertices|, |e.vertices|)
    ensures Modes(e, f, OuterSum(m, PointWeight(q), q.basis, q.basis), h, y, k)
         == Modes(e, f, m, h, y, k) + PointModes(e, f, q, h, y, k)
  {
    hide Form;
    hide Dot;
    hide OuterSum;
    hide Misfit;
    hide Test;
    hide Times;
    if k > 0 {
      ModesStep(e, f, m, q, h, y, k - 1);
      var resp, n := e.responses[k - 1], |e.vertices|;
      var a, b := Misfit(resp, f, h, y, n), Test(resp, f, y, n);
      var c := PointWeight(q);
      FormOuter(m, c, q.basis, q.basis, a, b, n);
      TimesSum(At(f.coefs, k - 1), Form(m, a, b, n, n), Times(c, Times(Dot(q.basis, a, n), Dot(q.basis, b, n))));
    }
  }

  lemma {:induction false} SampledGradient(e: Element, f: Inputs, h: seq<real>, y: seq<real>, g: nat, r: nat)
    requires e.Valid() && g <= |e.points| && r <= |e.responses| && (g == |e.points| ==> r == 0)
    requires |h| == |y| == |e.vertices| && Sampled(e, f)
    ensures Dot(GradientUpTo(e, h, g, r), y, |e.vertices|)
         == Modes(e, f, Mass(e.points, |e.vertices|, g), h, y, |e.responses|)
            + if r > 0 then PointModes(e, f, e.points[g], h, y, r) else 0.0
    decreases g, r
  {
    hide PointGradient;
    hide Dot;
    hide AddPoint;
    hide OuterSum;
    hide Misfit;
    hide Test;
    hide Form;
    hide Times;
    hide SampledAt;
    var n := |e.vertices|;
    if r > 0 {
      SampledGradient(e, f, h, y, g, r - 1);
      var q := e.points[g];
      var resp, coef := e.responses[r - 1], q.coefs[r - 1];
      AddPointDot(GradientUpTo(e, h, g, r - 1), resp, q, coef, FieldAt(q, h, n), y, n);
      SampledFor(e, f, g, r - 1);
      SampledPoint(resp, q, f, coef, h, y, n);
    } else if g > 0 {
      SampledGradient(e, f, h, y, g - 1, |e.responses|);
      MassShape(e.points, n, g - 1);
      ModesStep(e, f, Mass(e.points, n, g - 1), e.points[g - 1], h, y, |e.responses|);
    } else {
      DotZero(Constant(n, 0.0), y, n);
      ModesOfZero(e, f, h, y, |e.responses|);
    }
  }

  lemma SampledFor(e: Element, f: Inputs, g: nat, r: nat)
    requires e.Valid() && Sampled(e, f) && g < |e.points| && r < |e.responses|
    ensures SampledAt(e.points[g], f, |e.vertices|, Directional(e.responses[r]))
    ensures e.points[g].coefs[r] == At(f.coefs, r)
  {
    assert Directional(e.responses[r]) ==> NeedsDirection(e);
  }

  lemma {:induction false} ModesOfZero(e: Element, f: Inputs, h: seq<real>, y: seq<real>, k: nat)
    requires k <= |e.responses| && |h| == |y| == |e.vertices|
    ensures Modes(e, f, ZeroMatrix(|e.vertices|), h, y, k) == 0.0
  {
    hide Form;
    hide Misfit;
    hide Test;
    hide ZeroMatrix;
    if k > 0 {
      ModesOfZero(e, f, h, y, k - 1);
      var resp, n := e.responses[k - 1], |e.vertices|;
      ZeroForm(n, Misfit(resp, f, h, y, n), Test(resp, f, y, n));
    }
  }

  /** Both rules integrate products of two basis functions alike. */
  ghost predicate SameMass(e: Element) {
    Mass(e.points, |e.vertices|, |e.points|) == Mass(e.costPoints, |e.vertices|, |e.costPoints|)
  }

  lemma SampledElement(e: Element, f: Inputs, h: seq<real>)
    requires e.Valid() && |h| == |e.vertices| && Sampled(e, f) && SameMass(e)
    ensures var c := e.(points := e.costPoints);
            GradientUpTo(e, h, |e.points|, 0) == GradientUpTo(c, h, |c.points|, 0)
  {
    hide Dot;
    hide GradientUpTo;
    hide Modes;
    hide Mass;
    hide Unit;
    hide SampledAt;
    var n, c := |e.vertices|, e.(points := e.costPoints);
    forall k: nat | k < n
      ensures Dot(GradientUpTo(e, h, |e.points|, 0), Unit(n, k), n) == Dot(GradientUpTo(c, h, |c.points|, 0), Unit(n, k), n)
    {
      UnitLength(n, k);
      assert Sampled(c, f);
      SampledGradient(e, f, h, Unit(n, k), |e.points|, 0);
      SampledGradient(c, f, h, Unit(n, k), |c.points|, 0);
      SameModes(e, c, f, Mass(e.points, n, |e.points|), h, Unit(n, k), |e.responses|);
    }
    UnitsDecide(GradientUpTo(e, h, |e.points|, 0), GradientUpTo(c, h, |c.points|, 0), n);
  }

  lemma UnitLength(n: nat, k: nat)
    ensures |Unit(n, k)| == n
  {
  }

  lemma {:induction false} SameModes(e: Element, c: Element, f: Inputs, m: Matrix, h: seq<real>, y: seq<real>, k: nat)
    requires k <= |e.responses| && |h| == |y| == |e.vertices|
    requires c.responses == e.responses && c.vertices == e.vertices
    ensures Modes(e, f, m, h, y, k) == Modes(c, f, m, h, y, k)
  {
    if k > 0 {
      SameModes(e, c, f, m, h, y, k - 1);
    }
  }

  ghost predicate SampledMesh(es: seq<Element>, fs: seq<Inputs>) {
    |fs| == |es| && forall i :: 0 <= i < |es| && es[i].icy ==> Sampled(es[i], fs[i]) && SameMass(es[i])
  }

  lemma {:induction false} SampledGradients(es: seq<Element>, fs: seq<Inputs>, h: seq<real>, m: nat)
    requires ValidElements(es, |h|) && SampledMesh(es, fs) && m <= |es|
    ensures Gradient(es, h, m) == Gradient(CostMesh(es, |h|), h, m)
  {
    hide GradientUpTo;
    hide Gather;
    hide VectorAdded;
    hide Sampled;
    hide SameMass;
    if m > 0 {
      SampledGradients(es, fs, h, m - 1);
      var e := es[m - 1];
      if e.icy {
        GatherLength(h, e.vertices);
        SampledElement(e, fs[m - 1], Gather(h, e.vertices));
      }
    }
  }

  /** Constant coefficients and linear fields: the gradient is exact for every thickness. */
  lemma LinearInputsExact(es: seq<Element>, fs: seq<Inputs>, n: nat)
    requires ValidElements(es, n) && SampledMesh(es, fs)
    ensures ExactEverywhere(es, n)
  {
    hide ExactAt;
    hide Gradient;
    hide SampledMesh;
    hide ValidElements;
    forall h: seq<real> | |h| == n ensures ExactAt(es, h) {
      SampledGradients(es, fs, h, |es|);
      GradientIsExact(es, h);
    }
  }

  // ---------------------------------------------------------------- a coefficient that varies

  /** A point of a triangle, with the first basis function for coefficient and nothing observed. */
  function Corner(weight: real, b0: real, b1: real, b2: real): Point {
    Point(weight, 1.0, [b0, b1, b2], [-1.0, 1.0, 0.0], [-1.0, 0.0, 1.0], [b0],
          0.0, 0.0, 0.0, 0.0, 0.0, 0.0, 0.0, 0.0, 0.0)
  }

  /** The tabulated rule of order 2. */
  function OrderTwo(): seq<Point> {
    [Corner(0.577350269189625, 0.666666666666667, 0.166666666666667, 0.166666666666667),
     Corner(0.577350269189625, 0.166666666666667, 0.666666666666667, 0.166666666666667),
     Corner(0.577350269189625, 0.166666666666667, 0.166666666666667, 0.666666666666667)]
  }

  /** The tabulated rule of order 4. */
  function OrderFour(): seq<Point> {
    [Corner(0.386908262797819, 0.108103018168070, 0.445948490915965, 0.445948490915965),
     Corner(0.386908262797819, 0.445948490915965, 0.108103018168070, 0.445948490915965),
     Corner(0.386908262797819, 0.445948490915965, 0.445948490915965, 0.108103018168070),
     Corner(0.190442006391807, 0.816847572980459, 0.091576213509771, 0.091576213509771),
     Corner(0.190442006391807, 0.091576213509771, 0.816847572980459, 0.091576213509771),
     Corner(0.190442006391807, 0.091576213509771, 0.091576213509771, 0.816847572980459)]
  }

  function Triangle(): Element {
    Element(true, [0, 1, 2], [AbsMisfit], OrderFour(), OrderTwo())
  }

  function Bump(): seq<real> {
    [1.0, 0.0, 0.0]
  }

  ghost predicate IsCorner(q: Point) {
    |q.basis| == 3 && q == Corner(q.weight, q.basis[0], q.basis[1], q.basis[2])
  }

  function Cubes(points: seq<Point>, g: nat): real
    requires g <= |points|
  {
    if g == 0 then 0.0
    else
      var q := points[g - 1];
      Cubes(points, g - 1) + q.weight * (At(q.basis, 0) * At(q.basis, 0) * At(q.basis, 0))
  }

  lemma CornerPoint(q: Point)
    requires IsCorner(q)
    ensures Fits(q, 3, 1) && q.coefs[0] == At(q.basis, 0)
    ensures var b := At(q.basis, 0);
            PointGradient(AbsMisfit, q, b, FieldAt(q, Bump(), 3), FieldAt(q, Bump(), 3)) == -(q.weight * (b * b * b))
  {
    assert Dot(q.basis, Bump(), 1) == At(q.basis, 0);
    assert Dot(q.basis, Bump(), 2) == At(q.basis, 0);
    assert Dot(q.basis, Bump(), 3) == At(q.basis, 0);
  }

  lemma {:induction false} CornerGradient(e: Element, g: nat)
    requires e.Valid() && |e.vertices| == 3 && e.responses == [AbsMisfit] && g <= |e.points|
    requires forall k :: 0 <= k < |e.points| ==> IsCorner(e.points[k])
    ensures Dot(GradientUpTo(e, Bump(), g, 0), Bump(), 3) == -Cubes(e.points, g)
  {
    hide Dot;
    hide AddPoint;
    hide PointGradient;
    hide Bump;
    BumpLength();
    if g == 0 {
      DotZero(Constant(3, 0.0), Bump(), 3);
    } else {
      CornerGradient(e, g - 1);
      var q := e.points[g - 1];
      CornerPoint(q);
      assert GradientUpTo(e, Bump(), g, 0) == GradientUpTo(e, Bump(), g - 1, 1);
      AddPointDot(GradientUpTo(e, Bump(), g - 1, 0), AbsMisfit, q, q.coefs[0], FieldAt(q, Bump(), 3), Bump(), 3);
    }
  }

  lemma BumpLength()
    ensures |Bump()| == 3
  {
  }

  function Products(points: seq<Point>, g: nat, i: nat, j: nat): real
    requires g <= |points|
  {
    if g == 0 then 0.0
    else Products(points, g - 1, i, j) + points[g - 1].weight * (At(points[g - 1].basis, i) * At(points[g - 1].basis, j))
  }

  function Pick(a: real, b: real, c: real, i: nat): real {
    if i == 0 then a else if i == 1 then b else c
  }

  lemma ProductsStep(points: seq<Point>, g: nat, w: real, a: real, b: real, c: real, i: nat, j: nat)
    requires i < 3 && j < 3 && g < |points| && points[g] == Corner(w, a, b, c)
    ensures Products(points, g + 1, i, j) == Products(points, g, i, j) + w * (Pick(a, b, c, i) * Pick(a, b, c, j))
  {
  }

  function CycleSum(w: real, a: real, b: real, i: nat, j: nat): real {
    w * (if i == j then a * a + 2.0 * b * b else 2.0 * a * b + b * b)
  }

  /** Three points that permute one. */
  lemma CycleProducts(points: seq<Point>, g: nat, w: real, a: real, b: real, i: nat, j: nat)
    requires i < 3 && j < 3 && g + 3 <= |points|
    requires points[g] == Corner(w, a, b, b) && points[g + 1] == Corner(w, b, a, b) && points[g + 2] == Corner(w, b, b, a)
    ensures Products(points, g + 3, i, j) == Products(points, g, i, j) + CycleSum(w, a, b, i, j)
  {
    hide Products;
    hide Corner;
    ProductsStep(points, g, w, a, b, b, i, j);
    ProductsStep(points, g + 1, w, b, a, b, i, j);
    ProductsStep(points, g + 2, w, b, b, a, i, j);
  }

  /** The tabulated rules integrate products of two basis functions alike, up to the digits of the tables. */
  lemma SecondMoments(i: nat, j: nat)
    requires i < 3 && j < 3
    ensures -0.00000000000001 < Products(OrderTwo(), 3, i, j) - Products(OrderFour(), 6, i, j) < 0.00000000000001
  {
    hide Products;
    ProductsOfNone(OrderTwo(), i, j);
    ProductsOfNone(OrderFour(), i, j);
    CycleProducts(OrderTwo(), 0, 0.577350269189625, 0.666666666666667, 0.166666666666667, i, j);
    CycleProducts(OrderFour(), 0, 0.386908262797819, 0.108103018168070, 0.445948490915965, i, j);
    CycleProducts(OrderFour(), 3, 0.190442006391807, 0.816847572980459, 0.091576213509771, i, j);
  }

  lemma ProductsOfNone(points: seq<Point>, i: nat, j: nat)
    ensures Products(points, 0, i, j) == 0.0
  {
  }

  /** Products of three differ by far more. */
  lemma ThirdMoments()
    ensures Cubes(OrderTwo(), 3) - Cubes(OrderFour(), 6) > 0.003
  {
    var s, t := OrderTwo(), OrderFour();
    assert Cubes(s, 2) == Cubes(s, 1) + s[1].weight * (0.166666666666667 * 0.166666666666667 * 0.166666666666667);
    assert Cubes(t, 4) == Cubes(t, 3) + t[3].weight * (0.816847572980459 * 0.816847572980459 * 0.816847572980459);
  }

  lemma CornersFit(w: real, b0: real, b1: real, b2: real)
    ensures IsCorner(Corner(w, b0, b1, b2)) && Fits(Corner(w, b0, b1, b2), 3, 1)
  {
  }

  lemma TriangleValid()
    ensures Triangle().Valid() && Triangle().(points := OrderTwo()).Valid()
    ensures forall k :: 0 <= k < 6 ==> IsCorner(OrderFour()[k])
    ensures forall k :: 0 <= k < 3 ==> IsCorner(OrderTwo()[k])
  {
    hide Corner;
    hide Fits;
    hide IsCorner;
    forall w: real, b0: real, b1: real, b2: real ensures IsCorner(Corner(w, b0, b1, b2)) && Fits(Corner(w, b0, b1, b2), 3, 1) {
      CornersFit(w, b0, b1, b2);
    }
  }

  lemma BumpGathered()
    ensures Gather(Bump(), [0, 1, 2]) == Bump()
  {
  }

  lemma BumpWork(ge: seq<real>)
    ensures Dot(VectorAdded(Constant(3, 0.0), ge, [0, 1, 2], 3), Bump(), 3) == Dot(ge, Bump(), 3)
  {
    hide Dot;
    hide VectorAdded;
    BumpLength();
    DotVectorAdded(Constant(3, 0.0), ge, [0, 1, 2], 3, Bump());
    DotZero(Constant(3, 0.0), Bump(), 3);
    BumpGathered();
  }

  /** The work of the gradient of a one-triangle mesh on the bump. */
  lemma TriangleGradient(e: Element, points: seq<Point>)
    requires e == Element(true, [0, 1, 2], [AbsMisfit], points, OrderTwo()) && e.Valid()
    requires forall k :: 0 <= k < |points| ==> IsCorner(points[k])
    ensures ValidElements([e], 3)
    ensures Dot(Gradient([e], Bump(), 1), Bump(), 3) == -Cubes(points, |points|)
  {
    hide Dot;
    hide GradientUpTo;
    hide VectorAdded;
    hide Bump;
    hide Cubes;
    hide IsCorner;
    hide Gather;
    BumpLength();
    BumpGathered();
    CornerGradient(e, |points|);
    BumpWork(GradientUpTo(e, Bump(), |points|, 0));
    assert Gradient([e], Bump(), 0) == Constant(3, 0.0);
  }

  lemma RuleLengths()
    ensures |OrderTwo()| == 3 && |OrderFour()| == 6
  {
  }

  /** A coefficient that varies linearly over one triangle: the computed gradient is not the cost's. */
  lemma VaryingCoefficientMisses()
    ensures ValidElements([Triangle()], |Bump()|)
    ensures Dot(GradJ([Triangle()], Bump()), Bump(), 3) - Dot(CostGradJ([Triangle()], Bump()), Bump(), 3) > 0.003
    ensures !ExactAt([Triangle()], Bump())
  {
    hide Dot;
    hide Gradient;
    hide ExactAt;
    hide OrderTwo;
    hide OrderFour;
    hide Cubes;
    hide Bump;
    hide IsCorner;
    BumpLength();
    TriangleValid();
    RuleLengths();
    var e, c := Triangle(), Triangle().(points := OrderTwo());
    TriangleGradient(e, OrderFour());
    TriangleGradient(c, OrderTwo());
    assert CostMesh([e], 3) == [c];
    ThirdMoments();
    GradientIsExact([e], Bump());
  }
}
