/** What the smoothing system promises, for every mesh and multiplier. */
module SmoothingLaws {
  import opened LinearAlgebra
  import opened RealFacts
  import opened Quadrature
  import opened Smoothing
  import A = Assembly

  // ---------------------------------------------------------------- integrals over the mesh

  /** A quantity that depends on a point, its input and the field there, summed over an element. */
  datatype Integrand = Field | FieldSquared | GradientSquared | Value | ValueSquared

  function At1(k: Integrand, q: Point, p: Params, i: Inputs, x: seq<real>): real {
    match k
    case Field => Times(q.weight * q.jdet, q.Value(x))
    case FieldSquared => Times(q.weight * q.jdet, q.Value(x) * q.Value(x))
    case GradientSquared =>
      var h := if i.thickness > 50.0 then i.thickness else 50.0;
      Times(q.weight * q.jdet * ((p.multiplier * h) * (p.multiplier * h)), q.Dx(x) * q.Dx(x) + q.Dy(x) * q.Dy(x))
    case Value => Times(q.weight * q.jdet, FieldValue(p, i))
    case ValueSquared => Times(q.weight * q.jdet, FieldValue(p, i) * FieldValue(p, i))
  }

  function ElementIntegral(k: Integrand, e: Element, p: Params, x: seq<real>, m: nat): real
    requires e.Valid() && m <= |e.points|
  {
    if m == 0 then 0.0 else ElementIntegral(k, e, p, x, m - 1) + At1(k, e.points[m - 1], p, e.inputs[m - 1], x)
  }

  /** The integral over the first m elements. */
  function Integral(k: Integrand, es: seq<Element>, p: Params, n: nat, x: seq<real>, m: nat): real
    requires ValidElements(es, n) && m <= |es|
  {
    if m == 0 then 0.0
    else
      var e := es[m - 1];
      Integral(k, es, p, n, x, m - 1) + ElementIntegral(k, e, p, Gather(x, e.nodes), |e.points|)
  }

  // ---------------------------------------------------------------- symmetry and energy

  lemma PointSymmetric(q: Point, length: real, y: seq<real>, x: seq<real>)
    ensures PointForm(q, length, y, x) == PointForm(q, length, x, y)
  {
    hide Dot;
    hide Factors;
  }

  lemma {:induction false} ElementSymmetric(e: Element, p: Params, y: seq<real>, x: seq<real>, m: nat)
    requires e.Valid() && m <= |e.points|
    ensures ElementForm(e, p, y, x, m) == ElementForm(e, p, x, y, m)
  {
    hide PointForm;
    if m > 0 {
      ElementSymmetric(e, p, y, x, m - 1);
      PointSymmetric(e.points[m - 1], Length(p, e.inputs[m - 1]), y, x);
    }
  }

  lemma {:induction false} MeshSymmetric(es: seq<Element>, p: Params, n: nat, y: seq<real>, x: seq<real>, m: nat)
    requires ValidElements(es, n) && m <= |es|
    ensures MeshForm(es, p, n, y, x, m) == MeshForm(es, p, n, x, y, m)
  {
    hide ElementForm;
    if m > 0 {
      MeshSymmetric(es, p, n, y, x, m - 1);
      ElementSymmetric(es[m - 1], p, Gather(y, es[m - 1].nodes), Gather(x, es[m - 1].nodes), |es[m - 1].points|);
    }
  }

  /** The assembled matrix is symmetric: K[r, s] = K[s, r]. */
  lemma StiffnessSymmetric(es: seq<Element>, p: Params, n: nat, r: nat, s: nat)
    requires ValidElements(es, n) && r < n && s < n
    ensures Entry(A.Stiffness(System(es, p, n), n, |es|), r, s) == Entry(A.Stiffness(System(es, p, n), n, |es|), s, r)
  {
    hide A.Stiffness;
    hide Form;
    hide MeshForm;
    var cs := System(es, p, n);
    FormUnits(A.Stiffness(cs, n, |es|), n, r, s);
    FormUnits(A.Stiffness(cs, n, |es|), n, s, r);
    A.StiffnessForm(cs, n, Unit(n, r), Unit(n, s), |es|);
    A.StiffnessForm(cs, n, Unit(n, s), Unit(n, r), |es|);
    SystemForm(es, p, n, Unit(n, r), Unit(n, s), |es|);
    SystemForm(es, p, n, Unit(n, s), Unit(n, r), |es|);
    MeshSymmetric(es, p, n, Unit(n, r), Unit(n, s), |es|);
  }

  lemma FormUnits(k: Matrix, n: nat, r: nat, s: nat)
    requires r < n && s < n
    ensures Form(k, Unit(n, r), Unit(n, s), n, n) == Entry(k, r, s)
  {
    FormUnit(k, r, Unit(n, s), n);
    DotUnit(RowAt(k, r), n, s, n);
  }

  lemma LengthIs(p: Params, i: Inputs)
    ensures Length(p, i) == p.multiplier * if i.thickness > 50.0 then i.thickness else 50.0
  {
  }

  lemma PointEnergy(q: Point, p: Params, i: Inputs, x: seq<real>)
    requires q.Nonnegative()
    ensures PointForm(q, Length(p, i), x, x) == At1(FieldSquared, q, p, i, x) + At1(GradientSquared, q, p, i, x)
    ensures At1(FieldSquared, q, p, i, x) >= 0.0 && At1(GradientSquared, q, p, i, x) >= 0.0
    ensures 2.0 * Times(LoadFactor(q, p, i), q.Value(x)) <= At1(ValueSquared, q, p, i, x) + At1(FieldSquared, q, p, i, x)
  {
    hide Dot;
    hide Length;
    hide FieldValue;
    var c, l := q.weight * q.jdet, Length(p, i);
    LengthIs(p, i);
    ProductNonnegative(q.weight, q.jdet);
    SquareNonnegative(l);
    ProductNonnegative(c, l * l);
    EnergyAlgebra(c, c * (l * l), q.Value(x), q.Dx(x), q.Dy(x), FieldValue(p, i));
  }

  lemma EnergyAlgebra(c: real, l: real, v: real, x: real, y: real, f: real)
    requires c >= 0.0 && l >= 0.0
    ensures Times(c, Times(v, v)) + Times(l, Times(x, x)) + Times(l, Times(y, y)) == Times(c, v * v) + Times(l, x * x + y * y)
    ensures Times(c, v * v) >= 0.0 && Times(l, x * x + y * y) >= 0.0
    ensures 2.0 * Times(c * f, v) <= Times(c, f * f) + Times(c, v * v)
  {
    SquareNonnegative(v);
    SquareNonnegative(x);
    SquareNonnegative(y);
    SquareNonnegative(f - v);
    ProductNonnegative(c, v * v);
    ProductNonnegative(l, x * x + y * y);
    ProductNonnegative(c, (f - v) * (f - v));
    assert c * ((f - v) * (f - v)) == c * (f * f) + c * (v * v) - 2.0 * (c * f * v);
    assert l * (x * x + y * y) == l * (x * x) + l * (y * y);
  }

  lemma {:induction false} ElementEnergy(e: Element, p: Params, x: seq<real>, m: nat)
    requires e.Valid() && e.Nonnegative() && m <= |e.points|
    ensures ElementForm(e, p, x, x, m) == ElementIntegral(FieldSquared, e, p, x, m) + ElementIntegral(GradientSquared, e, p, x, m)
    ensures ElementIntegral(FieldSquared, e, p, x, m) >= 0.0 && ElementIntegral(GradientSquared, e, p, x, m) >= 0.0
    ensures 2.0 * ElementWork(e, p, x, m) <= ElementIntegral(ValueSquared, e, p, x, m) + ElementIntegral(FieldSquared, e, p, x, m)
  {
    hide PointForm;
    hide At1;
    hide LoadFactor;
    hide Times;
    if m > 0 {
      ElementEnergy(e, p, x, m - 1);
      PointEnergy(e.points[m - 1], p, e.inputs[m - 1], x);
    }
  }

  ghost predicate NonnegativeElements(es: seq<Element>) {
    forall i :: 0 <= i < |es| ==> es[i].Nonnegative()
  }

  /** x' K x is the integral of x^2 + (l H)^2 |grad x|^2, never negative; and the load's work is bounded. */
  lemma {:induction false} MeshEnergy(es: seq<Element>, p: Params, n: nat, x: seq<real>, m: nat)
    requires ValidElements(es, n) && NonnegativeElements(es) && m <= |es|
    ensures MeshForm(es, p, n, x, x, m) == Integral(FieldSquared, es, p, n, x, m) + Integral(GradientSquared, es, p, n, x, m)
    ensures Integral(FieldSquared, es, p, n, x, m) >= 0.0 && Integral(GradientSquared, es, p, n, x, m) >= 0.0
    ensures 2.0 * MeshWork(es, p, n, x, m) <= Integral(ValueSquared, es, p, n, x, m) + Integral(FieldSquared, es, p, n, x, m)
  {
    hide ElementForm;
    hide ElementIntegral;
    hide ElementWork;
    hide Gather;
    if m > 0 {
      MeshEnergy(es, p, n, x, m - 1);
      ElementEnergy(es[m - 1], p, Gather(x, es[m - 1].nodes), |es[m - 1].points|);
      ElementValueSquared(es[m - 1], p, Gather(x, es[m - 1].nodes), Gather(x, es[m - 1].nodes), |es[m - 1].points|);
    }
  }

  /** The integral of the input does not look at the field. */
  lemma {:induction false} ElementValueSquared(e: Element, p: Params, x: seq<real>, x': seq<real>, m: nat)
    requires e.Valid() && m <= |e.points|
    ensures ElementIntegral(ValueSquared, e, p, x, m) == ElementIntegral(ValueSquared, e, p, x', m)
    ensures ElementIntegral(Value, e, p, x, m) == ElementIntegral(Value, e, p, x', m)
  {
    if m > 0 {
      ElementValueSquared(e, p, x, x', m - 1);
    }
  }

  // ---------------------------------------------------------------- the driving stress

  /** At a speed above 15 m/yr. */
  ghost predicate Fast(i: Inputs) {
    var slow := 15.0 / (365.0 * 24.0 * 3600.0);
    i.hasVelocity && i.vx * i.vx + i.vy * i.vy > slow * slow
  }

  function Overburden(p: Params, i: Inputs): real {
    p.rhoIce * p.gravity * i.thickness
  }

  /** The squared surface slope, offset as the program does it. */
  function SlopeSquared(i: Inputs): real {
    i.slopeX * i.slopeX + i.slopeY * i.slopeY + 0.0000000001
  }

  /** (x, y) points against the flow and has the size that the slope gives it. */
  ghost predicate OpposesFlow(weight: real, i: Inputs, x: real, y: real) {
    && x * i.vy == y * i.vx
    && x * i.vx + y * i.vy == -(weight * i.surfaceNorm * i.speed)
    && x * x + y * y == weight * weight * SlopeSquared(i)
  }

  ghost predicate FollowsSlope(weight: real, i: Inputs, x: real, y: real) {
    x == weight * i.slopeX && y == weight * i.slopeY
  }

  /**
    The two components of the driving stress. Where the ice is fast they point against the flow, with the size that the
    surface slope gives them; elsewhere they follow the slope.
   */
  lemma DrivingStress(p: Params, i: Inputs)
    requires i.hasVelocity ==> i.Valid()
    ensures var x, y := FieldValue(p.(input := DrivingStressX), i), FieldValue(p.(input := DrivingStressY), i);
      if Fast(i) then OpposesFlow(Overburden(p, i), i, x, y) else FollowsSlope(Overburden(p, i), i, x, y)
  {
    hide FieldValue;
    hide Overburden;
    hide OpposesFlow;
    hide FollowsSlope;
    hide Fast;
    FastIff(i);
    StressIs(p, i, Overburden(p, i));
  }

  lemma StressIs(p: Params, i: Inputs, weight: real)
    requires weight == Overburden(p, i) && (i.hasVelocity ==> i.Valid())
    ensures var x, y := FieldValue(p.(input := DrivingStressX), i), FieldValue(p.(input := DrivingStressY), i);
      if i.hasVelocity && i.speed > SLOW then OpposesFlow(weight, i, x, y) else FollowsSlope(weight, i, x, y)
  {
    hide OpposesFlow;
    var x, y := FieldValue(p.(input := DrivingStressX), i), FieldValue(p.(input := DrivingStressY), i);
    if i.hasVelocity && i.speed > SLOW {
      FastStress(weight, i, x, y);
    }
  }

  lemma FastStress(weight: real, i: Inputs, x: real, y: real)
    requires i.Valid() && i.speed > SLOW
    requires x == weight * (-i.vx / i.speed * i.surfaceNorm) && y == weight * (-i.vy / i.speed * i.surfaceNorm)
    ensures OpposesFlow(weight, i, x, y)
  {
    AgainstFlow(weight, i.surfaceNorm, i.speed, i.vx, i.vy, x, y, SlopeSquared(i));
  }

  lemma FastIff(i: Inputs)
    requires i.hasVelocity ==> i.Valid()
    ensures Fast(i) <==> i.hasVelocity && i.speed > SLOW
  {
    if i.hasVelocity {
      FasterIff(i.speed, SLOW);
    }
  }

  lemma FasterIff(a: real, b: real)
    requires a >= 0.0 && b >= 0.0
    ensures a > b <==> Times(a, a) > Times(b, b)
  {
    hide Times;
    if a > b {
      TimesMonotone(b, a, b);
      TimesStrict(b, a, a);
    } else {
      TimesMonotone(a, b, a);
      TimesMonotone(a, b, b);
    }
  }

  lemma TimesMonotone(a: real, b: real, c: real)
    requires a <= b && c >= 0.0
    ensures Times(a, c) <= Times(b, c)
    ensures Times(a, c) == Times(c, a) && Times(b, c) == Times(c, b)
  {
    ProductMonotone(a, b, c);
  }

  lemma TimesStrict(a: real, b: real, c: real)
    requires a < b && c > 0.0
    ensures Times(a, c) < Times(b, c)
  {
    if a * c >= b * c {
      CancelFactor(b, a, c);
    }
  }

  lemma Against(w: real, norm: real, speed: real, v: real, x: real)
    requires speed > 0.0 && x == w * (-v / speed * norm)
    ensures speed * x == -(w * norm) * v
  {
    var u := -v / speed;
    Quotient(-v, speed, u);
    assert speed * x == w * norm * (speed * u);
  }

  lemma AgainstFlow(w: real, norm: real, s: real, u: real, v: real, x: real, y: real, slope: real)
    requires s > 0.0 && s * s == u * u + v * v && norm * norm == slope
    requires x == w * (-u / s * norm) && y == w * (-v / s * norm)
    ensures x * v == y * u
    ensures x * u + y * v == -(w * norm * s)
    ensures x * x + y * y == w * w * slope
  {
    var c := w * norm;
    Against(w, norm, s, u, x);
    Against(w, norm, s, v, y);
    OfSize(c, s, u, v, x, y);
    assert c * c == w * w * (norm * norm);
  }

  lemma OfSize(c: real, s: real, u: real, v: real, x: real, y: real)
    requires s > 0.0 && s * s == u * u + v * v && s * x == -c * u && s * y == -c * v
    ensures x * v == y * u
    ensures x * u + y * v == -(c * s)
    ensures x * x + y * y == c * c
  {
    assert s * (x * v) == s * x * v == s * y * u == s * (y * u);
    CancelEqual(x * v, y * u, s);
    assert s * (x * u + y * v) == s * x * u + s * y * v == -c * (u * u + v * v) == s * -(c * s);
    CancelEqual(x * u + y * v, -(c * s), s);
    assert s * (s * (x * x + y * y)) == (s * x) * (s * x) + (s * y) * (s * y) == c * c * (u * u + v * v) == s * (s * (c * c));
    CancelEqual(s * (x * x + y * y), s * (c * c), s);
    CancelEqual(x * x + y * y, c * c, s);
  }

  /** A smoothed field is no larger in the mean square than the field it smooths, and its gradient is controlled. */
  lemma SmoothingContracts(es: seq<Element>, p: Params, n: nat, x: seq<real>)
    requires ValidElements(es, n) && NonnegativeElements(es)
    requires A.Solution(System(es, p, n), n, x)
    ensures Integral(FieldSquared, es, p, n, x, |es|) + 2.0 * Integral(GradientSquared, es, p, n, x, |es|)
         <= Integral(ValueSquared, es, p, n, x, |es|)
  {
    hide *;
    A.SolutionTested(System(es, p, n), n, x, x);
    SystemForm(es, p, n, x, x, |es|);
    MeshEnergy(es, p, n, x, |es|);
  }

  // ---------------------------------------------------------------- conservation

  lemma PointTestedByOne(q: Point, p: Params, i: Inputs, n: nat, c: real, x: seq<real>)
    requires q.PartitionOfUnity(n)
    ensures PointForm(q, Length(p, i), Constant(n, c), x) == Times(c, At1(Field, q, p, i, x))
    ensures Times(LoadFactor(q, p, i), q.Value(Constant(n, c))) == Times(c, At1(Value, q, p, i, x))
  {
    hide Dot;
    hide FieldValue;
    hide Length;
    hide Constant;
    ConstantField(q, n, c);
    TestAlgebra(q.weight * q.jdet, Factors(q, Length(p, i)).1, c, q.Value(x), q.Dx(x), q.Dy(x), FieldValue(p, i));
  }

  lemma TestAlgebra(w: real, l: real, c: real, v: real, x: real, y: real, f: real)
    ensures Times(w, Times(c, v)) + Times(l, Times(0.0, x)) + Times(l, Times(0.0, y)) == Times(c, Times(w, v))
    ensures Times(w * f, c) == Times(c, Times(w, f))
  {
  }

  lemma {:induction false} ElementTestedByOne(e: Element, p: Params, c: real, x: seq<real>, m: nat)
    requires e.Valid() && m <= |e.points|
    ensures ElementForm(e, p, Constant(|e.nodes|, c), x, m) == Times(c, ElementIntegral(Field, e, p, x, m))
    ensures ElementWork(e, p, Constant(|e.nodes|, c), m) == Times(c, ElementIntegral(Value, e, p, x, m))
  {
    hide PointForm;
    hide At1;
    hide LoadFactor;
    hide Constant;
    hide Times;
    TimesZero(c);
    if m > 0 {
      ElementTestedByOne(e, p, c, x, m - 1);
      PointTestedByOne(e.points[m - 1], p, e.inputs[m - 1], |e.nodes|, c, x);
      TimesSum(c, ElementIntegral(Field, e, p, x, m - 1), At1(Field, e.points[m - 1], p, e.inputs[m - 1], x));
      TimesSum(c, ElementIntegral(Value, e, p, x, m - 1), At1(Value, e.points[m - 1], p, e.inputs[m - 1], x));
    }
  }

  lemma {:induction false} MeshTestedByOne(es: seq<Element>, p: Params, n: nat, c: real, x: seq<real>, m: nat)
    requires ValidElements(es, n) && m <= |es|
    ensures MeshForm(es, p, n, Constant(n, c), x, m) == Times(c, Integral(Field, es, p, n, x, m))
    ensures MeshWork(es, p, n, Constant(n, c), m) == Times(c, Integral(Value, es, p, n, x, m))
  {
    hide ElementForm;
    hide ElementWork;
    hide ElementIntegral;
    hide Gather;
    hide Constant;
    hide Times;
    TimesZero(c);
    if m > 0 {
      MeshTestedByOne(es, p, n, c, x, m - 1);
      var e := es[m - 1];
      GatherConstant(n, c, e.nodes);
      ElementTestedByOne(e, p, c, Gather(x, e.nodes), |e.points|);
      TimesSum(c, Integral(Field, es, p, n, x, m - 1), ElementIntegral(Field, e, p, Gather(x, e.nodes), |e.points|));
      TimesSum(c, Integral(Value, es, p, n, x, m - 1), ElementIntegral(Value, e, p, Gather(x, e.nodes), |e.points|));
    }
  }

  /** Smoothing conserves: the smoothed field has the integral of the input. */
  lemma SmoothingConserves(es: seq<Element>, p: Params, n: nat, x: seq<real>)
    requires ValidElements(es, n)
    requires A.Solution(System(es, p, n), n, x)
    ensures Integral(Field, es, p, n, x, |es|) == Integral(Value, es, p, n, x, |es|)
  {
    hide *;
    var one := Constant(n, 1.0);
    A.SolutionTested(System(es, p, n), n, x, one);
    SystemForm(es, p, n, one, x, |es|);
    MeshTestedByOne(es, p, n, 1.0, x, |es|);
    TimesOne(Integral(Field, es, p, n, x, |es|));
    TimesOne(Integral(Value, es, p, n, x, |es|));
  }

  lemma TimesOne(a: real)
    ensures Times(1.0, a) == a
  {
  }

  ghost predicate ConstantInput(es: seq<Element>, p: Params, c: real) {
    forall i, g :: 0 <= i < |es| && 0 <= g < |es[i].inputs| ==> FieldValue(p, es[i].inputs[g]) == c
  }

  lemma {:induction false} ElementOfConstant(e: Element, p: Params, c: real, y: seq<real>, m: nat)
    requires e.Valid() && m <= |e.points|
    requires forall g :: 0 <= g < |e.inputs| ==> FieldValue(p, e.inputs[g]) == c
    ensures ElementWork(e, p, y, m) == Times(c, ElementIntegral(Field, e, p, y, m))
  {
    hide FieldValue;
    hide Dot;
    if m > 0 {
      ElementOfConstant(e, p, c, y, m - 1);
      ConstantWork(e.points[m - 1].weight, e.points[m - 1].jdet, c, e.points[m - 1].Value(y), ElementIntegral(Field, e, p, y, m - 1));
    }
  }

  lemma ConstantWork(w: real, j: real, c: real, v: real, s: real)
    ensures Times(c, s) + Times(j * w * c, v) == Times(c, s + Times(w * j, v))
  {
  }

  lemma {:induction false} MeshOfConstant(es: seq<Element>, p: Params, n: nat, c: real, y: seq<real>, m: nat)
    requires ValidElements(es, n) && m <= |es| && ConstantInput(es, p, c)
    ensures MeshWork(es, p, n, y, m) == Times(c, Integral(Field, es, p, n, y, m))
  {
    hide ElementWork;
    hide ElementIntegral;
    hide FieldValue;
    hide Times;
    hide Gather;
    TimesZero(c);
    if m > 0 {
      MeshOfConstant(es, p, n, c, y, m - 1);
      var e := es[m - 1];
      ElementOfConstant(e, p, c, Gather(y, e.nodes), |e.points|);
      TimesSum(c, Integral(Field, es, p, n, y, m - 1), ElementIntegral(Field, e, p, Gather(y, e.nodes), |e.points|));
    }
  }

  /** A constant field is left as it is. */
  lemma ConstantsAreSmooth(es: seq<Element>, p: Params, n: nat, c: real)
    requires ValidElements(es, n) && ConstantInput(es, p, c)
    ensures A.Solution(System(es, p, n), n, Constant(n, c))
  {
    hide *;
    var cs, x := System(es, p, n), Constant(n, c);
    forall r: nat | r < n ensures A.FormSum(cs, Unit(n, r), x, |cs|) == A.WorkSum(cs, Unit(n, r), |cs|) {
      var y := Unit(n, r);
      SystemForm(es, p, n, y, x, |es|);
      MeshSymmetric(es, p, n, y, x, |es|);
      MeshTestedByOne(es, p, n, c, y, |es|);
      MeshOfConstant(es, p, n, c, y, |es|);
    }
    A.TestedSolution(cs, n, x);
  }

  ghost predicate Everywhere(es: seq<Element>, slopeX: real, slopeY: real) {
    forall i, g :: 0 <= i < |es| && 0 <= g < |es[i].inputs| ==>
      es[i].inputs[g].slopeX == slopeX && es[i].inputs[g].slopeY == slopeY
  }

  /** The smoothed slopes of a plane surface are its slopes. */
  lemma PlaneIsSmooth(es: seq<Element>, p: Params, n: nat, slopeX: real, slopeY: real)
    requires ValidElements(es, n) && Everywhere(es, slopeX, slopeY)
    ensures p.input == SurfaceSlopeX ==> A.Solution(System(es, p, n), n, Constant(n, slopeX))
    ensures p.input == SurfaceSlopeY ==> A.Solution(System(es, p, n), n, Constant(n, slopeY))
  {
    hide A.Solution;
    hide Constant;
    if p.input == SurfaceSlopeX {
      ConstantsAreSmooth(es, p, n, slopeX);
    } else if p.input == SurfaceSlopeY {
      ConstantsAreSmooth(es, p, n, slopeY);
    }
  }
}
