/**
  What the assembled free-surface system says: the volume under the surface changes by transport and sources
  only, whatever the stabilisation, and a level surface rises evenly under an even source, whatever the flow.
 */
module FreeSurfaceBalance {
  import opened LinearAlgebra
  import opened Quadrature
  import opened FreeSurface
  import opened FreeSurfaceLaws
  import A = Assembly

  // ---------------------------------------------------------------- integrals over the mesh

  datatype Quantity = Height | Transport | Elevation | Rate

  function AtPoint(k: Quantity, e: Element, dt: real, g: nat, x: seq<real>): real
    requires e.Valid() && g < |e.points|
  {
    var q := e.points[g];
    match k
    case Height => Times(MassFactor(q), q.Value(x))
    case Transport => Times(StepFactor(q, dt), Along(q, e.flow[g], e.dim, x))
    case Elevation => Times(MassFactor(q), e.source[g].Elevation())
    case Rate => Times(StepFactor(q, dt), e.source[g].Rate())
  }

  function ElementIntegral(k: Quantity, e: Element, dt: real, x: seq<real>, m: nat): real
    requires e.Valid() && m <= |e.points|
  {
    if m == 0 then 0.0 else ElementIntegral(k, e, dt, x, m - 1) + AtPoint(k, e, dt, m - 1, x)
  }

  /** The integral of a quantity over the first m elements. */
  function Integral(k: Quantity, es: seq<Element>, dt: real, n: nat, x: seq<real>, m: nat): real
    requires ValidMesh(es, n) && m <= |es|
  {
    if m == 0 then 0.0
    else
      var e := es[m - 1];
      Integral(k, es, dt, n, x, m - 1) + ElementIntegral(k, e, dt, Gather(x, e.nodes), |e.points|)
  }

  // ---------------------------------------------------------------- the load

  lemma PointWork(q: Point, s: Source, dt: real, v: real)
    ensures Times(LoadFactor(q, s, dt), v)
         == Times(Times(MassFactor(q), s.Elevation()) + Times(StepFactor(q, dt), s.Rate()), v)
  {
  }

  /** The load tested by a field is the integral of the targets against it. */
  function ElementWork(e: Element, dt: real, y: seq<real>, m: nat): real
    requires e.Valid() && m <= |e.points|
  {
    if m == 0 then 0.0
    else ElementWork(e, dt, y, m - 1)
         + Times(AtPoint(Elevation, e, dt, m - 1, y) + AtPoint(Rate, e, dt, m - 1, y), e.points[m - 1].Value(y))
  }

  lemma {:induction false} LoadForm(e: Element, dt: real, y: seq<real>, m: nat)
    requires e.Valid() && m <= |e.points|
    ensures Dot(Load(e, dt, m), y, |e.nodes|) == ElementWork(e, dt, y, m)
  {
    hide Dot;
    hide Axpy;
    hide LoadFactor;
    hide Times;
    hide MassFactor;
    hide StepFactor;
    if m == 0 {
      ZeroForm(|e.nodes|, y, y);
    } else {
      LoadForm(e, dt, y, m - 1);
      var q := e.points[m - 1];
      DotAxpy(Load(e, dt, m - 1), LoadFactor(q, e.source[m - 1], dt), q.basis, y, |e.nodes|);
      PointWork(q, e.source[m - 1], dt, q.Value(y));
    }
  }

  // ---------------------------------------------------------------- testing with constants

  /** Tested by 1, a point gives its height and the transport through it. */
  lemma PointTestedByOne(q: Point, f: Flow, dim: nat, size: real, stabilization: int, dt: real, n: nat, x: seq<real>)
    requires q.PartitionOfUnity(n) && f.Valid()
    ensures PointForm(q, f, dim, size, stabilization, dt, Constant(n, 1.0), x)
         == Times(MassFactor(q), q.Value(x)) + Times(StepFactor(q, dt), Along(q, f, dim, x))
  {
    hide Dot;
    hide Stabilising;
    hide Along;
    hide Constant;
    hide MassFactor;
    hide StepFactor;
    ConstantField(q, n, 1.0);
    ConstantPoint(q, f, dim, size, stabilization, dt, n, 1.0, x);
    StabilisingSymmetric(q, f, dim, size, stabilization, Constant(n, 1.0), x);
  }

  lemma {:induction false} ElementTestedByOne(e: Element, stabilization: int, dt: real, x: seq<real>, m: nat)
    requires e.Valid() && m <= |e.points|
    ensures ElementForm(e, stabilization, dt, Constant(|e.nodes|, 1.0), x, m)
         == ElementIntegral(Height, e, dt, x, m) + ElementIntegral(Transport, e, dt, x, m)
    ensures ElementWork(e, dt, Constant(|e.nodes|, 1.0), m)
         == ElementIntegral(Elevation, e, dt, x, m) + ElementIntegral(Rate, e, dt, x, m)
  {
    hide PointForm;
    hide Constant;
    hide Times;
    hide Along;
    hide Dot;
    hide MassFactor;
    hide StepFactor;
    if m > 0 {
      ElementTestedByOne(e, stabilization, dt, x, m - 1);
      PointTestedByOne(e.points[m - 1], e.flow[m - 1], e.dim, e.size, stabilization, dt, |e.nodes|, x);
      ConstantField(e.points[m - 1], |e.nodes|, 1.0);
      TimesOne(AtPoint(Elevation, e, dt, m - 1, x) + AtPoint(Rate, e, dt, m - 1, x));
    }
  }

  lemma TimesOne(a: real)
    ensures Times(a, 1.0) == a
  {
  }

  lemma {:induction false} MeshTestedByOne(es: seq<Element>, stabilization: int, dt: real, n: nat, x: seq<real>, m: nat)
    requires ValidMesh(es, n) && m <= |es|
    ensures A.FormSum(System(es, stabilization, dt, n), Constant(n, 1.0), x, m)
         == Integral(Height, es, dt, n, x, m) + Integral(Transport, es, dt, n, x, m)
    ensures A.WorkSum(System(es, stabilization, dt, n), Constant(n, 1.0), m)
         == Integral(Elevation, es, dt, n, x, m) + Integral(Rate, es, dt, n, x, m)
  {
    hide Form;
    hide Dot;
    hide Stiffness;
    hide Load;
    hide ElementForm;
    hide ElementWork;
    hide ElementIntegral;
    hide Gather;
    hide Constant;
    if m > 0 {
      MeshTestedByOne(es, stabilization, dt, n, x, m - 1);
      var e := es[m - 1];
      GatherConstant(n, 1.0, e.nodes);
      StiffnessForm(e, stabilization, dt, Constant(|e.nodes|, 1.0), Gather(x, e.nodes), |e.points|);
      LoadForm(e, dt, Constant(|e.nodes|, 1.0), |e.points|);
      ElementTestedByOne(e, stabilization, dt, Gather(x, e.nodes), |e.points|);
    }
  }

  /**
    The volume under a solved surface is the old volume, plus the sources, minus what the flow carries away;
    the stabilisation neither makes nor destroys any.
   */
  lemma VolumeBalance(es: seq<Element>, stabilization: int, dt: real, n: nat, x: seq<real>)
    requires ValidMesh(es, n) && A.Solution(System(es, stabilization, dt, n), n, x)
    ensures Integral(Height, es, dt, n, x, |es|) + Integral(Transport, es, dt, n, x, |es|)
         == Integral(Elevation, es, dt, n, x, |es|) + Integral(Rate, es, dt, n, x, |es|)
  {
    hide *;
    var cs := System(es, stabilization, dt, n);
    A.SolutionTested(cs, n, x, Constant(n, 1.0));
    MeshTestedByOne(es, stabilization, dt, n, x, |es|);
  }

  // ---------------------------------------------------------------- level surfaces

  /**
    The old surface is level at c and every point rises at the rate a: by the mass balance at the top; at the base by the
    grounded melt where phi is positive and by the floating melt elsewhere.
   */
  ghost predicate Level(es: seq<Element>, c: real, a: real) {
    forall i :: 0 <= i < |es| ==> LevelElement(es[i], c, a)
  }

  ghost predicate LevelElement(e: Element, c: real, a: real) {
    forall g :: 0 <= g < |e.source| ==> LevelSource(e.source[g], c, a)
  }

  predicate LevelSource(s: Source, c: real, a: real) {
    match s
    case Top(surface, massBalance, vz) => surface == c && massBalance + vz == a
    case Bottom(base, phi, groundedMelt, floatingMelt, vz) =>
      base == c && (phi > 0.0 ==> groundedMelt + vz == a) && (phi <= 0.0 ==> floatingMelt + vz == a)
  }

  lemma LevelSourceIs(s: Source, c: real, a: real)
    requires LevelSource(s, c, a)
    ensures s.Elevation() == c && s.Rate() == a
  {
  }

  lemma LevelAlgebra(q: Point, dt: real, c: real, a: real, v: real, h: real)
    requires h == c + dt * a
    ensures Times(Times(MassFactor(q), c) + Times(StepFactor(q, dt), a), v) == Times(MassFactor(q), Times(v, h))
  {
  }

  lemma {:induction false} ElementLevel(e: Element, stabilization: int, dt: real, c: real, a: real, h: real, y: seq<real>, m: nat)
    requires e.Valid() && m <= |e.points| && LevelElement(e, c, a) && h == c + dt * a
    ensures ElementForm(e, stabilization, dt, y, Constant(|e.nodes|, h), m) == ElementWork(e, dt, y, m)
  {
    hide PointForm;
    hide Constant;
    hide Times;
    hide Dot;
    hide MassFactor;
    hide StepFactor;
    if m > 0 {
      var q := e.points[m - 1];
      ElementLevel(e, stabilization, dt, c, a, h, y, m - 1);
      ConstantPoint(q, e.flow[m - 1], e.dim, e.size, stabilization, dt, |e.nodes|, h, y);
      LevelAlgebra(q, dt, c, a, q.Value(y), h);
      LevelSourceIs(e.source[m - 1], c, a);
    }
  }

  lemma {:induction false} MeshLevel(es: seq<Element>, stabilization: int, dt: real, n: nat, c: real, a: real, y: seq<real>, m: nat)
    requires ValidMesh(es, n) && m <= |es| && Level(es, c, a)
    ensures A.FormSum(System(es, stabilization, dt, n), y, Constant(n, c + dt * a), m)
         == A.WorkSum(System(es, stabilization, dt, n), y, m)
  {
    hide Form;
    hide Dot;
    hide Stiffness;
    hide Load;
    hide ElementForm;
    hide ElementWork;
    hide Gather;
    hide Constant;
    hide LevelElement;
    if m > 0 {
      MeshLevel(es, stabilization, dt, n, c, a, y, m - 1);
      var e := es[m - 1];
      GatherConstant(n, c + dt * a, e.nodes);
      StiffnessForm(e, stabilization, dt, Gather(y, e.nodes), Constant(|e.nodes|, c + dt * a), |e.points|);
      LoadForm(e, dt, Gather(y, e.nodes), |e.points|);
      ElementLevel(e, stabilization, dt, c, a, c + dt * a, Gather(y, e.nodes), |e.points|);
    }
  }

  /** A level surface under an even source stays level and rises by dt * a: the discrete flow cannot tilt it. */
  lemma LevelRises(es: seq<Element>, stabilization: int, dt: real, n: nat, c: real, a: real)
    requires ValidMesh(es, n) && Level(es, c, a)
    ensures A.Solution(System(es, stabilization, dt, n), n, Constant(n, c + dt * a))
  {
    hide *;
    var cs := System(es, stabilization, dt, n);
    var x := Constant(n, c + dt * a);
    forall r: nat | r < n ensures A.FormSum(cs, Unit(n, r), x, |cs|) == A.WorkSum(cs, Unit(n, r), |cs|) {
      MeshLevel(es, stabilization, dt, n, c, a, Unit(n, r), |es|);
    }
    A.TestedSolution(cs, n, x);
  }
}
