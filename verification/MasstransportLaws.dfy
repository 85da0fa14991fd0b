/**
  The exact meaning of the three mass-transport matrices.

  CG is mass + dt * (divergence + advection + stabilisation), plus what the scratch matrix's stale off-diagonal adds
  under streamline upwinding. DG advection is minus the transpose of CG advection, and FCT annihilates constants.
 */
module MasstransportLaws {
  import opened LinearAlgebra
  import opened RealFacts
  import opened Quadrature
  import opened FreeSurface
  import opened FreeSurfaceLaws
  import opened Masstransport

  // ---------------------------------------------------------------- CG

  /** div v at the point. */
  function Divergence(s: Sample, dim: nat): real {
    s.dvxdx + if dim == 1 then 0.0 else s.dvydy
  }

  /** The advection term of CG. */
  function AdvectedCG(q: Point, f: Flow, dim: nat, dt: real, y: seq<real>, x: seq<real>): real {
    Times(StepFactor(q, dt), q.Value(y) * Along(q, f, dim, x))
  }

  /** Mass + dt * (divergence + advection + stabilisation). */
  function DesignForm(q: Point, s: Sample, dim: nat, size: real, stabilization: int, dt: real, y: seq<real>, x: seq<real>): real
    requires s.flow.Valid()
  {
    Times(MassFactor(q), q.Value(y) * q.Value(x))
    + Times(StepFactor(q, dt), Times(Divergence(s, dim), q.Value(y) * q.Value(x)))
    + AdvectedCG(q, s.flow, dim, dt, y, x)
    + Times(StepFactor(q, dt), Stabilising(q, s.flow, dim, size, stabilization, y, x))
  }

  /** What the off-diagonal o left by the previous point adds. */
  function Stale(q: Point, dim: nat, o: real, y: seq<real>, x: seq<real>): real {
    if dim == 1 then 0.0 else Times(o, q.Value(y) * (2.0 * q.Value(x) + q.Dx(x) + q.Dy(x)))
  }

  function CellDesign(e: Cell, stabilization: int, dt: real, y: seq<real>, x: seq<real>, m: nat): real
    requires e.Valid() && m <= |e.points|
  {
    if m == 0 then 0.0
    else CellDesign(e, stabilization, dt, y, x, m - 1)
         + DesignForm(e.points[m - 1], e.samples[m - 1], e.dim, e.size, stabilization, dt, y, x)
  }

  function CellStale(e: Cell, stabilization: int, dt: real, y: seq<real>, x: seq<real>, m: nat): real
    requires e.Valid() && m <= |e.points|
  {
    if m == 0 then 0.0
    else CellStale(e, stabilization, dt, y, x, m - 1)
         + Stale(e.points[m - 1], e.dim, Carried(e, stabilization, dt, m - 1), y, x)
  }

  lemma DivergenceForm(q: Point, dim: nat, c: real, a: real, b: real, o: real, y: seq<real>, x: seq<real>, n: nat)
    requires (dim == 1 || dim == 2) && q.Sized(n)
    ensures Sandwich(B(q, dim), Scratch(dim, Times(c, a), Times(c, b), o), B(q, dim), y, x, n, dim, dim)
         == Times(c, Times(a + if dim == 1 then 0.0 else b, q.Value(y) * q.Value(x)))
            + if dim == 1 then 0.0 else Times(o, 2.0 * (q.Value(y) * q.Value(x)))
  {
    hide Dot;
    hide Sandwich;
    if dim == 1 {
      SandwichOne(q.basis, Times(c, a), q.basis, y, x, n);
    } else {
      SandwichTwo(q.basis, q.basis, Times(c, a), o, o, Times(c, b), q.basis, q.basis, y, x, n);
    }
    DivergenceAlgebra(c, a, b, o, q.Value(y), q.Value(x));
  }

  lemma DivergenceAlgebra(c: real, a: real, b: real, o: real, y: real, x: real)
    ensures Times(Times(c, a), Times(y, x)) == Times(c, Times(a + 0.0, y * x))
    ensures Times(Times(c, a), Times(y, x)) + Times(o, Times(y, x)) + Times(o, Times(y, x)) + Times(Times(c, b), Times(y, x))
         == Times(c, Times(a + b, y * x)) + Times(o, 2.0 * (y * x))
  {
  }

  lemma AdvectionFormCG(q: Point, f: Flow, dim: nat, c: real, o: real, y: seq<real>, x: seq<real>, n: nat)
    requires (dim == 1 || dim == 2) && q.Sized(n)
    ensures Sandwich(B(q, dim), Scratch(dim, Times(c, f.vx), Times(c, f.vy), o), Bprime(q, dim), y, x, n, dim, dim)
         == Times(c, q.Value(y) * Along(q, f, dim, x)) + if dim == 1 then 0.0 else Times(o, q.Value(y) * (q.Dx(x) + q.Dy(x)))
  {
    hide Dot;
    hide Sandwich;
    if dim == 1 {
      SandwichOne(q.basis, Times(c, f.vx), q.dx, y, x, n);
    } else {
      SandwichTwo(q.basis, q.basis, Times(c, f.vx), o, o, Times(c, f.vy), q.dx, q.dy, y, x, n);
    }
    AdvectionAlgebraCG(c, f.vx, f.vy, o, q.Value(y), q.Dx(x), q.Dy(x));
  }

  lemma AdvectionAlgebraCG(s: real, u: real, v: real, o: real, b: real, x: real, y: real)
    ensures Times(Times(s, u), Times(b, x)) == Times(s, b * (u * x + 0.0))
    ensures Times(Times(s, u), Times(b, x)) + Times(o, Times(b, y)) + Times(o, Times(b, x)) + Times(Times(s, v), Times(b, y))
         == Times(s, b * (u * x + v * y)) + Times(o, b * (x + y))
  {
  }

  lemma StaleSum(q: Point, dim: nat, o: real, y: seq<real>, x: seq<real>)
    ensures Stale(q, dim, o, y, x)
         == if dim == 1 then 0.0
            else Times(o, 2.0 * (q.Value(y) * q.Value(x))) + Times(o, q.Value(y) * (q.Dx(x) + q.Dy(x)))
  {
  }

  lemma WithPointFormCG(v: Matrix, q: Point, s: Sample, o: real, dim: nat, size: real, stabilization: int, dt: real,
                        y: seq<real>, x: seq<real>, n: nat)
    requires Shape(v, n, n) && (dim == 1 || dim == 2) && q.Sized(n) && s.flow.Valid()
    ensures Shape(WithPointCG(v, q, s, o, dim, size, stabilization, dt), n, n)
    ensures Form(WithPointCG(v, q, s, o, dim, size, stabilization, dt), y, x, n, n)
         == Form(v, y, x, n, n) + DesignForm(q, s, dim, size, stabilization, dt, y, x) + Stale(q, dim, o, y, x)
  {
    hide Form;
    hide Dot;
    hide OuterSum;
    hide TripleSum;
    hide Sandwich;
    hide Scratch;
    hide Diffusion;
    hide B;
    hide Bprime;
    hide Along;
    hide MassFactor;
    hide StepFactor;
    hide ScaleMatrix;
    hide Stale;
    var c, b, b' := StepFactor(q, dt), B(q, dim), Bprime(q, dim);
    var mass := OuterSum(v, MassFactor(q), q.basis, q.basis);
    var d0 := Scratch(dim, Times(c, s.dvxdx), Times(c, s.dvydy), o);
    var d1 := Scratch(dim, Times(c, s.flow.vx), Times(c, s.flow.vy), o);
    var diverged := TripleSum(mass, b, d0, b, dim, dim);
    var advected := TripleSum(diverged, b, d1, b', dim, dim);
    FormOuter(v, MassFactor(q), q.basis, q.basis, y, x, n);
    FormTriple(mass, b, d0, b, y, x, n, dim, dim);
    DivergenceForm(q, dim, c, s.dvxdx, s.dvydy, o, y, x, n);
    FormTriple(diverged, b, d1, b', y, x, n, dim, dim);
    AdvectionFormCG(q, s.flow, dim, c, o, y, x, n);
    StaleSum(q, dim, o, y, x);
    if stabilization == 1 || stabilization == 2 {
      FormTriple(advected, b', ScaleMatrix(Diffusion(s.flow, dim, size, stabilization), c), b', y, x, n, dim, dim);
      DiffusionForm(q, s.flow, dim, size, stabilization, c, y, x, n);
    }
    TimesZero(c);
  }

  /** The CG loop computes the designed form plus the stale off-diagonals, for any number of points. */
  lemma {:induction false} CGForm(e: Cell, stabilization: int, dt: real, y: seq<real>, x: seq<real>, m: nat)
    requires e.Valid() && m <= |e.points|
    ensures Shape(StiffnessCG(e, stabilization, dt, m), |e.nodes|, |e.nodes|)
    ensures Form(StiffnessCG(e, stabilization, dt, m), y, x, |e.nodes|, |e.nodes|)
         == CellDesign(e, stabilization, dt, y, x, m) + CellStale(e, stabilization, dt, y, x, m)
  {
    hide Form;
    hide WithPointCG;
    hide DesignForm;
    hide Stale;
    hide Carried;
    if m == 0 {
      ZeroForm(|e.nodes|, y, x);
    } else {
      CGForm(e, stabilization, dt, y, x, m - 1);
      WithPointFormCG(StiffnessCG(e, stabilization, dt, m - 1), e.points[m - 1], e.samples[m - 1],
                      Carried(e, stabilization, dt, m - 1),
                      e.dim, e.size, stabilization, dt, y, x, |e.nodes|);
    }
  }

  // ---------------------------------------------------------------- when CG meets its design

  /** The sum of the off-diagonals that points inherit. */
  function TotalCarried(e: Cell, stabilization: int, dt: real, m: nat): real
    requires e.Valid() && m <= |e.points|
  {
    if m == 0 then 0.0 else TotalCarried(e, stabilization, dt, m - 1) + Carried(e, stabilization, dt, m - 1)
  }

  lemma StaleConstant(q: Point, o: real, n: nat)
    requires q.PartitionOfUnity(n)
    ensures Stale(q, 2, o, Constant(n, 1.0), Constant(n, 1.0)) == 2.0 * o
  {
    hide Dot;
    hide Constant;
    ConstantField(q, n, 1.0);
    assert Times(o, 1.0 * (2.0 * 1.0 + 0.0 + 0.0)) == 2.0 * o;
  }

  /** On constants, the CG matrix is off by twice the inherited off-diagonals. */
  lemma {:induction false} ConstantsSeeCarried(e: Cell, stabilization: int, dt: real, m: nat)
    requires e.Valid() && e.dim == 2 && m <= |e.points|
    ensures var one := Constant(|e.nodes|, 1.0);
      CellStale(e, stabilization, dt, one, one, m) == 2.0 * TotalCarried(e, stabilization, dt, m)
  {
    hide Stale;
    hide Carried;
    hide Constant;
    if m > 0 {
      ConstantsSeeCarried(e, stabilization, dt, m - 1);
      StaleConstant(e.points[m - 1], Carried(e, stabilization, dt, m - 1), |e.nodes|);
    }
  }

  /** The element's total mass is the designed one exactly when the inherited off-diagonals cancel. */
  lemma TotalMassIff(e: Cell, stabilization: int, dt: real)
    requires e.Valid()
    ensures var one := Constant(|e.nodes|, 1.0);
      var total := Form(StiffnessCG(e, stabilization, dt, |e.points|), one, one, |e.nodes|, |e.nodes|);
      total == CellDesign(e, stabilization, dt, one, one, |e.points|)
      <==> e.dim == 1 || TotalCarried(e, stabilization, dt, |e.points|) == 0.0
  {
    hide *;
    var one := Constant(|e.nodes|, 1.0);
    CGForm(e, stabilization, dt, one, one, |e.points|);
    if e.dim == 1 {
      NeverStale(e, stabilization, dt, one, one, |e.points|);
    } else {
      DimIsTwo(e);
      ConstantsSeeCarried(e, stabilization, dt, |e.points|);
    }
  }

  lemma DimIsTwo(e: Cell)
    requires e.Valid() && e.dim != 1
    ensures e.dim == 2
  {
  }

  /** No stale terms when no point that is followed by another leaves anything. */
  lemma {:induction false} NeverStale(e: Cell, stabilization: int, dt: real, y: seq<real>, x: seq<real>, m: nat)
    requires e.Valid() && m <= |e.points|
    requires e.dim == 1 || forall g: nat :: g < m ==> Carried(e, stabilization, dt, g) == 0.0
    ensures CellStale(e, stabilization, dt, y, x, m) == 0.0
  {
    hide Carried;
    hide Dot;
    if m > 0 {
      NeverStale(e, stabilization, dt, y, x, m - 1);
      assert e.dim == 1 || Carried(e, stabilization, dt, m - 1) == 0.0;
    }
  }

  /** Without streamline upwinding, or on sections, CG meets its design for all fields. */
  lemma CGMeetsDesign(e: Cell, stabilization: int, dt: real, y: seq<real>, x: seq<real>)
    requires e.Valid() && (stabilization != 2 || e.dim == 1)
    ensures Form(StiffnessCG(e, stabilization, dt, |e.points|), y, x, |e.nodes|, |e.nodes|)
         == CellDesign(e, stabilization, dt, y, x, |e.points|)
  {
    hide *;
    forall g: nat | g < |e.points| ensures Carried(e, stabilization, dt, g) == 0.0 {
      CarriedZero(e, stabilization, dt, g);
    }
    NeverStale(e, stabilization, dt, y, x, |e.points|);
    CGForm(e, stabilization, dt, y, x, |e.points|);
  }

  function Cross(e: Cell, g: nat): real
    requires g < |e.samples|
  {
    e.samples[g].flow.vx * e.samples[g].flow.vy
  }

  /** A triangle with some extent and a time step. */
  ghost predicate Upwinded(e: Cell, dt: real) {
    e.Valid() && e.dim == 2 && e.size > 0.0 && forall g :: 0 <= g < |e.points| ==> StepFactor(e.points[g], dt) > 0.0
  }

  /** The sum over the first m points of c[g] times the i-th basis function. */
  function Combination(e: Cell, c: seq<real>, i: nat, m: nat): real
    requires m <= |e.points|
  {
    if m == 0 then 0.0 else Combination(e, c, i, m - 1) + At(c, m - 1) * At(e.points[m - 1].basis, i)
  }

  ghost predicate Annihilates(e: Cell, c: seq<real>) {
    forall i: nat :: i < |e.nodes| ==> Combination(e, c, i, |e.points|) == 0.0
  }

  ghost predicate AllZero(c: seq<real>) {
    forall g :: 0 <= g < |c| ==> c[g] == 0.0
  }

  /** The vectors of basis values at the quadrature points are linearly independent. */
  ghost predicate Independent(e: Cell) {
    forall c: seq<real> :: |c| == |e.points| && Annihilates(e, c) ==> AllZero(c)
  }

  /** What a point leaves behind has the sign of vx * vy. */
  lemma CarriedSign(e: Cell, dt: real, g: nat)
    requires e.Valid() && e.dim == 2 && e.size > 0.0 && g < |e.points| && StepFactor(e.points[g], dt) > 0.0
    ensures Cross(e, g) == 0.0 <==> Carried(e, 2, dt, g + 1) == 0.0
    ensures Cross(e, g) > 0.0 <==> Carried(e, 2, dt, g + 1) > 0.0
  {
  }

  ghost predicate MeetsDesign(e: Cell, stabilization: int, dt: real, y: seq<real>, x: seq<real>)
    requires e.Valid()
  {
    Form(StiffnessCG(e, stabilization, dt, |e.points|), y, x, |e.nodes|, |e.nodes|)
    == CellDesign(e, stabilization, dt, y, x, |e.points|)
  }

  /** What the points inherit, by points. */
  function Inherited(e: Cell, dt: real): (c: seq<real>)
    requires e.Valid()
    ensures |c| == |e.points|
  {
    seq(|e.points|, g requires 0 <= g < |e.points| => Carried(e, 2, dt, g))
  }

  lemma StaleUnit(q: Point, o: real, n: nat, i: nat)
    requires q.PartitionOfUnity(n) && i < n
    ensures Stale(q, 2, o, Unit(n, i), Constant(n, 1.0)) == 2.0 * (o * At(q.basis, i))
  {
    hide Dot;
    hide Constant;
    ConstantField(q, n, 1.0);
    DotUnit(q.basis, n, i, n);
    assert Times(o, At(q.basis, i) * (2.0 * 1.0 + 0.0 + 0.0)) == 2.0 * (o * At(q.basis, i));
  }

  /** Tested with one node and on constants, the matrix is off by twice a combination of the inherited off-diagonals. */
  lemma {:induction false} UnitsSeeCarried(e: Cell, dt: real, i: nat, m: nat)
    requires e.Valid() && e.dim == 2 && i < |e.nodes| && m <= |e.points|
    ensures CellStale(e, 2, dt, Unit(|e.nodes|, i), Constant(|e.nodes|, 1.0), m) == 2.0 * Combination(e, Inherited(e, dt), i, m)
  {
    hide Stale;
    hide Carried;
    hide Constant;
    hide Unit;
    if m > 0 {
      UnitsSeeCarried(e, dt, i, m - 1);
      StaleUnit(e.points[m - 1], Carried(e, 2, dt, m - 1), |e.nodes|, i);
    }
  }

  lemma DesignNeedsNothingCarried(e: Cell, dt: real)
    requires Upwinded(e, dt) && Independent(e)
    requires forall y: seq<real>, x: seq<real> :: MeetsDesign(e, 2, dt, y, x)
    ensures AllZero(Inherited(e, dt))
  {
    hide Form;
    hide StiffnessCG;
    hide CellDesign;
    hide CellStale;
    hide Combination;
    hide Inherited;
    hide AllZero;
    hide StepFactor;
    hide Constant;
    hide Unit;
    var n := |e.nodes|;
    forall i: nat | i < n ensures Combination(e, Inherited(e, dt), i, |e.points|) == 0.0 {
      var y, x := Unit(n, i), Constant(n, 1.0);
      assert MeetsDesign(e, 2, dt, y, x);
      CGForm(e, 2, dt, y, x, |e.points|);
      UnitsSeeCarried(e, dt, i, |e.points|);
    }
    assert Annihilates(e, Inherited(e, dt));
  }

  /**
    Under streamline upwinding, where the basis vectors at the points are independent, CG meets its design for all
    fields exactly when vx * vy = 0 at every point but the last.
   */
  lemma UpwindMeetsDesignIff(e: Cell, dt: real)
    requires Upwinded(e, dt) && Independent(e)
    ensures (forall y: seq<real>, x: seq<real> :: MeetsDesign(e, 2, dt, y, x))
         <==> (forall g: nat :: g + 1 < |e.points| ==> Cross(e, g) == 0.0)
  {
    hide Form;
    hide StiffnessCG;
    hide CellDesign;
    hide CellStale;
    hide Cross;
    hide StepFactor;
    hide Upwind;
    hide Times;
    hide Independent;
    var m := |e.points|;
    if forall g: nat :: g + 1 < m ==> Cross(e, g) == 0.0 {
      forall g: nat | g < m ensures Carried(e, 2, dt, g) == 0.0 {
        if g > 0 {
          assert Cross(e, g - 1) == 0.0;
          CarriedSign(e, dt, g - 1);
        }
      }
      forall y: seq<real>, x: seq<real> ensures MeetsDesign(e, 2, dt, y, x) {
        NeverStale(e, 2, dt, y, x, m);
        CGForm(e, 2, dt, y, x, m);
      }
    }
    if forall y: seq<real>, x: seq<real> :: MeetsDesign(e, 2, dt, y, x) {
      DesignNeedsNothingCarried(e, dt);
      forall g: nat | g + 1 < m ensures Cross(e, g) == 0.0 {
        CarriedSign(e, dt, g);
        assert Inherited(e, dt)[g + 1] == 0.0;
      }
    }
  }

  /** The three-point rule of a triangle: each point has one basis value a and two values b. */
  ghost predicate ThreePointRule(e: Cell, a: real, b: real) {
    && |e.points| == |e.nodes| == 3
    && e.points[0].basis == [a, b, b] && e.points[1].basis == [b, a, b] && e.points[2].basis == [b, b, a]
  }

  lemma CombinationOfThree(e: Cell, c: seq<real>, i: nat)
    requires |e.points| == |c| == 3
    ensures Combination(e, c, i, 3)
         == c[0] * At(e.points[0].basis, i) + c[1] * At(e.points[1].basis, i) + c[2] * At(e.points[2].basis, i)
  {
    assert Combination(e, c, i, 1) == c[0] * At(e.points[0].basis, i);
  }

  lemma ThreeUnknowns(a: real, b: real, x: real, y: real, z: real)
    requires a != b && a + 2.0 * b == 1.0
    requires x * a + y * b + z * b == 0.0 && x * b + y * a + z * b == 0.0 && x * b + y * b + z * a == 0.0
    ensures x == 0.0
  {
    assert (x + y + z) * (a + 2.0 * b) == 0.0;
    assert x + y + z == 0.0;
    CancelEqual(x, 0.0, a - b);
  }

  /** That rule has independent basis vectors. */
  lemma ThreePointsIndependent(e: Cell, a: real, b: real)
    requires ThreePointRule(e, a, b) && a != b && a + 2.0 * b == 1.0
    ensures Independent(e)
  {
    hide Combination;
    forall c: seq<real> | |c| == 3 && Annihilates(e, c) ensures AllZero(c) {
      CombinationOfThree(e, c, 0);
      CombinationOfThree(e, c, 1);
      CombinationOfThree(e, c, 2);
      assert Combination(e, c, 0, 3) == Combination(e, c, 1, 3) == Combination(e, c, 2, 3) == 0.0;
      ThreeUnknowns(a, b, c[0], c[1], c[2]);
      ThreeUnknowns(a, b, c[1], c[0], c[2]);
      ThreeUnknowns(a, b, c[2], c[0], c[1]);
    }
  }

  // ---------------------------------------------------------------- a triangle where it does not

  /** A triangle under the three-point rule, with one flow of speed 5 at each point. */
  function Witness(u0: real, v0: real, u1: real, v1: real, u2: real, v2: real): Cell {
    var a, b := 2.0 / 3.0, 1.0 / 6.0;
    var p := (basis: seq<real>) => Point(0.577350269189625, 1.0, basis, [-1.0, 1.0, 0.0], [-1.0, 0.0, 1.0]);
    var s := (u: real, v: real) => Sample(Flow(u, v, u, v, 5.0), 0.0, 0.0);
    var dry := Supply(1.0, 0.0, 1.0, 0.0, 0.0);
    Cell(2, 1.0, [0, 1, 2], [p([a, b, b]), p([b, a, b]), p([b, b, a])], [s(u0, v0), s(u1, v1), s(u2, v2)], [dry, dry, dry])
  }

  lemma BasisOfWitness(q: Point)
    requires q.dx == [-1.0, 1.0, 0.0] && q.dy == [-1.0, 0.0, 1.0] && |q.basis| == 3
    requires q.basis[0] + q.basis[1] + q.basis[2] == 1.0
    ensures q.PartitionOfUnity(3)
  {
    assert Total(q.basis, 1) == q.basis[0] && Total(q.dx, 1) == -1.0 && Total(q.dy, 1) == -1.0;
    assert Total(q.basis, 2) == q.basis[0] + q.basis[1] && Total(q.dx, 2) == 0.0 && Total(q.dy, 2) == -1.0;
  }

  lemma WitnessFacts(u0: real, v0: real, u1: real, v1: real, u2: real, v2: real)
    requires u0 * u0 + v0 * v0 == 25.0 && u1 * u1 + v1 * v1 == 25.0 && u2 * u2 + v2 * v2 == 25.0
    ensures var e := Witness(u0, v0, u1, v1, u2, v2);
      && Upwinded(e, 1.0) && Independent(e) && |e.points| == 3
      && Cross(e, 0) == u0 * v0 && Cross(e, 1) == u1 * v1
  {
    hide Independent;
    hide Point.PartitionOfUnity;
    var e := Witness(u0, v0, u1, v1, u2, v2);
    BasisOfWitness(e.points[0]);
    BasisOfWitness(e.points[1]);
    BasisOfWitness(e.points[2]);
    ThreePointsIndependent(e, 2.0 / 3.0, 1.0 / 6.0);
  }

  lemma TotalOfThree(e: Cell, dt: real)
    requires e.Valid() && |e.points| == 3
    ensures TotalCarried(e, 2, dt, 3) == Carried(e, 2, dt, 1) + Carried(e, 2, dt, 2)
  {
    hide LeftBehind;
    assert TotalCarried(e, 2, dt, 1) == 0.0;
    assert TotalCarried(e, 2, dt, 2) == Carried(e, 2, dt, 1);
  }

  lemma WitnessExtent(e: Cell)
    requires Upwinded(e, 1.0) && |e.points| == 3
    ensures e.Valid() && e.dim == 2 && e.size > 0.0
    ensures StepFactor(e.points[0], 1.0) > 0.0 && StepFactor(e.points[1], 1.0) > 0.0
  {
  }

  /** A uniform flow across the axes: the loop misses its design, and even the total mass of the element. */
  lemma UpwindMissesDesign()
    ensures var e, one := Witness(3.0, 4.0, 3.0, 4.0, 3.0, 4.0), Constant(3, 1.0);
      && e.Valid() && |e.points| == 3
      && Form(StiffnessCG(e, 2, 1.0, 3), one, one, |e.nodes|, |e.nodes|) != CellDesign(e, 2, 1.0, one, one, 3)
  {
    hide *;
    var e := Witness(3.0, 4.0, 3.0, 4.0, 3.0, 4.0);
    WitnessFacts(3.0, 4.0, 3.0, 4.0, 3.0, 4.0);
    WitnessExtent(e);
    CarriedSign(e, 1.0, 0);
    CarriedSign(e, 1.0, 1);
    TotalOfThree(e, 1.0);
    TotalMassIff(e, 2, 1.0);
    WitnessNodes(3.0, 4.0, 3.0, 4.0, 3.0, 4.0);
  }

  lemma WitnessNodes(u0: real, v0: real, u1: real, v1: real, u2: real, v2: real)
    ensures |Witness(u0, v0, u1, v1, u2, v2).nodes| == 3
  {
  }

  lemma OpposedCarried()
    ensures var e := Witness(3.0, 4.0, 3.0, -4.0, 3.0, 4.0);
      e.Valid() && |e.points| == 3 && Carried(e, 2, 1.0, 1) + Carried(e, 2, 1.0, 2) == 0.0
  {
    hide Point.PartitionOfUnity;
    hide Independent;
    WitnessFacts(3.0, 4.0, 3.0, -4.0, 3.0, 4.0);
  }

  /** Where the flow turns between the points the total mass can be right while the matrix still misses its design. */
  lemma RightTotalCanMiss()
    ensures var e, one := Witness(3.0, 4.0, 3.0, -4.0, 3.0, 4.0), Constant(3, 1.0);
      && e.Valid() && |e.points| == |e.nodes| == 3
      && Form(StiffnessCG(e, 2, 1.0, 3), one, one, |e.nodes|, |e.nodes|) == CellDesign(e, 2, 1.0, one, one, 3)
      && exists y: seq<real>, x: seq<real> :: !MeetsDesign(e, 2, 1.0, y, x)
  {
    hide *;
    var e := Witness(3.0, 4.0, 3.0, -4.0, 3.0, 4.0);
    WitnessFacts(3.0, 4.0, 3.0, -4.0, 3.0, 4.0);
    WitnessExtent(e);
    WitnessNodes(3.0, 4.0, 3.0, -4.0, 3.0, 4.0);
    OpposedCarried();
    TotalOfThree(e, 1.0);
    TotalMassIff(e, 2, 1.0);
    UpwindMeetsDesignIff(e, 1.0);
    assert Cross(e, 0) == 12.0;
  }

  // ---------------------------------------------------------------- DG and FCT

  /** A point of DG: mass, minus the CG advection with the two fields exchanged. */
  function PointFormDG(q: Point, f: Flow, dt: real, y: seq<real>, x: seq<real>): real {
    Times(MassFactor(q), q.Value(y) * q.Value(x)) - AdvectedCG(q, f, 2, dt, x, y)
  }

  function CellFormDG(e: Cell, dt: real, y: seq<real>, x: seq<real>, m: nat): real
    requires e.Valid() && m <= |e.points|
  {
    if m == 0 then 0.0
    else CellFormDG(e, dt, y, x, m - 1) + PointFormDG(e.points[m - 1], e.samples[m - 1].flow, dt, y, x)
  }

  lemma BackwardForm(q: Point, f: Flow, dt: real, y: seq<real>, x: seq<real>, n: nat)
    requires q.Sized(n)
    ensures Sandwich(Bprime(q, 2), Advection(f, 2, Backward(q, dt)), B(q, 2), y, x, n, 2, 2) == -AdvectedCG(q, f, 2, dt, x, y)
  {
    hide Dot;
    hide Sandwich;
    var c := Backward(q, dt);
    SandwichTwo(q.dx, q.dy, Times(c, f.vx), 0.0, 0.0, Times(c, f.vy), q.basis, q.basis, y, x, n);
    BackwardAlgebra(q.weight, q.jdet, dt, f.vx, f.vy, q.Value(x), q.Dx(y), q.Dy(y));
  }

  lemma BackwardAlgebra(w: real, j: real, dt: real, u: real, v: real, b: real, x: real, y: real)
    ensures Times(Times(-dt * w * j, u), Times(x, b)) + Times(0.0, Times(x, b)) + Times(0.0, Times(y, b))
            + Times(Times(-dt * w * j, v), Times(y, b))
         == -Times(dt * w * j, b * (u * x + v * y))
  {
  }

  /** The DG loop: mass, minus the transpose of CG advection. */
  lemma {:induction false} DGForm(e: Cell, dt: real, y: seq<real>, x: seq<real>, m: nat)
    requires e.Valid() && m <= |e.points|
    ensures Shape(StiffnessDG(e, dt, m), |e.nodes|, |e.nodes|)
    ensures Form(StiffnessDG(e, dt, m), y, x, |e.nodes|, |e.nodes|) == CellFormDG(e, dt, y, x, m)
  {
    hide Form;
    hide Dot;
    hide OuterSum;
    hide TripleSum;
    hide Sandwich;
    hide AdvectedCG;
    hide MassFactor;
    hide Advection;
    hide B;
    hide Bprime;
    hide Backward;
    var n := |e.nodes|;
    if m == 0 {
      ZeroForm(n, y, x);
    } else {
      DGForm(e, dt, y, x, m - 1);
      var q, f, v := e.points[m - 1], e.samples[m - 1].flow, StiffnessDG(e, dt, m - 1);
      var mass := OuterSum(v, MassFactor(q), q.basis, q.basis);
      FormOuter(v, MassFactor(q), q.basis, q.basis, y, x, n);
      FormTriple(mass, Bprime(q, 2), Advection(f, 2, Backward(q, dt)), B(q, 2), y, x, n, 2, 2);
      BackwardForm(q, f, dt, y, x, n);
    }
  }

  /** The mass in an element. */
  function CellMass(e: Cell, x: seq<real>, m: nat): real
    requires e.Valid() && m <= |e.points|
  {
    if m == 0 then 0.0 else CellMass(e, x, m - 1) + Times(MassFactor(e.points[m - 1]), e.points[m - 1].Value(x))
  }

  /** Constants feel no advection. */
  lemma ConstantAdvected(q: Point, f: Flow, dim: nat, dt: real, n: nat, y: seq<real>)
    requires q.PartitionOfUnity(n)
    ensures AdvectedCG(q, f, dim, dt, y, Constant(n, 1.0)) == 0.0
    ensures Times(MassFactor(q), q.Value(Constant(n, 1.0)) * q.Value(y)) == Times(MassFactor(q), q.Value(y))
  {
    hide Dot;
    hide Constant;
    hide StepFactor;
    hide MassFactor;
    ConstantField(q, n, 1.0);
  }

  lemma PointConserves(q: Point, f: Flow, dt: real, n: nat, x: seq<real>)
    requires q.PartitionOfUnity(n)
    ensures PointFormDG(q, f, dt, Constant(n, 1.0), x) == Times(MassFactor(q), q.Value(x))
  {
    hide AdvectedCG;
    hide Dot;
    hide Constant;
    hide MassFactor;
    ConstantAdvected(q, f, 2, dt, n, x);
    ConstantField(q, n, 1.0);
  }

  /** The columns of DG advection sum to zero: inside an element, advection moves mass without changing it. */
  lemma {:induction false} DGConserves(e: Cell, dt: real, x: seq<real>, m: nat)
    requires e.Valid() && m <= |e.points|
    ensures CellFormDG(e, dt, Constant(|e.nodes|, 1.0), x, m) == CellMass(e, x, m)
  {
    hide PointFormDG;
    hide Constant;
    hide Dot;
    hide MassFactor;
    if m > 0 {
      DGConserves(e, dt, x, m - 1);
      PointConserves(e.points[m - 1], e.samples[m - 1].flow, dt, |e.nodes|, x);
    }
  }

  /** The sum of v . grad x against y, for a unit time step. */
  function CellAdvected(e: Cell, y: seq<real>, x: seq<real>, m: nat): real
    requires e.Valid() && m <= |e.points|
  {
    if m == 0 then 0.0 else CellAdvected(e, y, x, m - 1) + AdvectedCG(e.points[m - 1], e.samples[m - 1].flow, 2, 1.0, y, x)
  }

  lemma ForwardForm(q: Point, f: Flow, y: seq<real>, x: seq<real>, n: nat)
    requires q.Sized(n)
    ensures Sandwich(B(q, 2), Advection(f, 2, -MassFactor(q)), Bprime(q, 2), y, x, n, 2, 2) == -AdvectedCG(q, f, 2, 1.0, y, x)
  {
    hide Along;
    hide Sandwich;
    hide Dot;
    AdvectionForm(q, f, 2, -MassFactor(q), y, x, n);
    NegatedTimes(MassFactor(q), StepFactor(q, 1.0), q.Value(y) * Along(q, f, 2, x));
  }

  lemma NegatedTimes(a: real, b: real, c: real)
    requires a == b
    ensures Times(-a, c) == -Times(b, c)
  {
  }

  /** The FCT matrix is minus the CG advection of a unit time step, and its rows sum to zero. */
  lemma {:induction false} FCTForm(e: Cell, y: seq<real>, x: seq<real>, m: nat)
    requires e.Valid() && m <= |e.points|
    ensures Shape(StiffnessFCT(e, m), |e.nodes|, |e.nodes|)
    ensures Form(StiffnessFCT(e, m), y, x, |e.nodes|, |e.nodes|) == -CellAdvected(e, y, x, m)
    ensures x == Constant(|e.nodes|, 1.0) ==> CellAdvected(e, y, x, m) == 0.0
  {
    hide Form;
    hide Dot;
    hide TripleSum;
    hide Sandwich;
    hide AdvectedCG;
    hide MassFactor;
    hide Advection;
    hide B;
    hide Bprime;
    hide Constant;
    var n := |e.nodes|;
    if m == 0 {
      ZeroForm(n, y, x);
    } else {
      FCTForm(e, y, x, m - 1);
      var q, f, v := e.points[m - 1], e.samples[m - 1].flow, StiffnessFCT(e, m - 1);
      FormTriple(v, B(q, 2), Advection(f, 2, -MassFactor(q)), Bprime(q, 2), y, x, n, 2, 2);
      ForwardForm(q, f, y, x, n);
      ConstantAdvected(q, f, 2, 1.0, n, y);
    }
  }
}
