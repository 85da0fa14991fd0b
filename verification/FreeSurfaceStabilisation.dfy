/**
  The free-surface matrix as mass + dt * advection + dt * S over elements and meshes. S, the sum that the loops
  assemble from the stabilisation of all points, is symmetric, never negative, and sums to zero along rows and columns.
 */
module FreeSurfaceStabilisation {
  import opened LinearAlgebra
  import opened RealFacts
  import opened Quadrature
  import opened FreeSurface
  import opened FreeSurfaceLaws
  import A = Assembly

  datatype Part = Mass | Advected | Stabilised

  function PartAt(k: Part, e: Element, stabilization: int, dt: real, g: nat, y: seq<real>, x: seq<real>): real
    requires e.Valid() && g < |e.points|
  {
    var q, v := e.points[g], e.flow[g];
    match k
    case Mass => q.weight * q.jdet * (q.Value(y) * q.Value(x))
    case Advected => dt * (q.weight * q.jdet) * (q.Value(y) * (v.vx * q.Dx(x) + if e.dim == 1 then 0.0 else v.vy * q.Dy(x)))
    case Stabilised => dt * (q.weight * q.jdet) * Stabilising(q, v, e.dim, e.size, stabilization, y, x)
  }

  /** One part of an element's form, over its first m points. */
  function ElementPart(k: Part, e: Element, stabilization: int, dt: real, y: seq<real>, x: seq<real>, m: nat): real
    requires e.Valid() && m <= |e.points|
  {
    if m == 0 then 0.0 else ElementPart(k, e, stabilization, dt, y, x, m - 1) + PartAt(k, e, stabilization, dt, m - 1, y, x)
  }

  lemma PointParts(e: Element, stabilization: int, dt: real, g: nat, y: seq<real>, x: seq<real>)
    requires e.Valid() && g < |e.points|
    ensures PointForm(e.points[g], e.flow[g], e.dim, e.size, stabilization, dt, y, x)
         == PartAt(Mass, e, stabilization, dt, g, y, x) + PartAt(Advected, e, stabilization, dt, g, y, x)
            + PartAt(Stabilised, e, stabilization, dt, g, y, x)
  {
    hide Dot;
    hide Along;
    hide Stabilising;
    hide MassFactor;
    hide StepFactor;
    PartIs(Mass, e, stabilization, dt, g, y, x);
    PartIs(Advected, e, stabilization, dt, g, y, x);
    PartIs(Stabilised, e, stabilization, dt, g, y, x);
    hide PartAt;
  }

  lemma PartIs(k: Part, e: Element, stabilization: int, dt: real, g: nat, y: seq<real>, x: seq<real>)
    requires e.Valid() && g < |e.points|
    ensures var q, v := e.points[g], e.flow[g];
      PartAt(k, e, stabilization, dt, g, y, x) == match k
        case Mass => Times(MassFactor(q), q.Value(y) * q.Value(x))
        case Advected => Times(StepFactor(q, dt), q.Value(y) * Along(q, v, e.dim, x))
        case Stabilised => Times(StepFactor(q, dt), Stabilising(q, v, e.dim, e.size, stabilization, y, x))
  {
    hide Dot;
    hide Stabilising;
    var q, v := e.points[g], e.flow[g];
    match k
    case Mass =>
    case Advected => FactorAlgebra(dt, q.weight, q.jdet, q.Value(y) * Along(q, v, e.dim, x));
    case Stabilised => FactorAlgebra(dt, q.weight, q.jdet, Stabilising(q, v, e.dim, e.size, stabilization, y, x));
  }

  lemma FactorAlgebra(dt: real, w: real, j: real, s: real)
    ensures dt * (w * j) * s == Times(dt * w * j, s)
  {
  }

  lemma {:induction false} ElementParts(e: Element, stabilization: int, dt: real, y: seq<real>, x: seq<real>, m: nat)
    requires e.Valid() && m <= |e.points|
    ensures ElementForm(e, stabilization, dt, y, x, m)
         == ElementPart(Mass, e, stabilization, dt, y, x, m) + ElementPart(Advected, e, stabilization, dt, y, x, m)
            + ElementPart(Stabilised, e, stabilization, dt, y, x, m)
  {
    hide PartAt;
    hide PointForm;
    if m > 0 {
      ElementParts(e, stabilization, dt, y, x, m - 1);
      PointParts(e, stabilization, dt, m - 1, y, x);
    }
  }

  /** The same over the first m elements of a mesh of n nodes. */
  function MeshPart(k: Part, es: seq<Element>, stabilization: int, dt: real, n: nat, y: seq<real>, x: seq<real>, m: nat): real
    requires ValidMesh(es, n) && m <= |es|
  {
    if m == 0 then 0.0
    else
      var e := es[m - 1];
      MeshPart(k, es, stabilization, dt, n, y, x, m - 1)
      + ElementPart(k, e, stabilization, dt, Gather(y, e.nodes), Gather(x, e.nodes), |e.points|)
  }

  lemma {:induction false} MeshParts(es: seq<Element>, stabilization: int, dt: real, n: nat, y: seq<real>, x: seq<real>, m: nat)
    requires ValidMesh(es, n) && m <= |es|
    ensures A.FormSum(System(es, stabilization, dt, n), y, x, m)
         == MeshPart(Mass, es, stabilization, dt, n, y, x, m) + MeshPart(Advected, es, stabilization, dt, n, y, x, m)
            + MeshPart(Stabilised, es, stabilization, dt, n, y, x, m)
  {
    hide Form;
    hide Stiffness;
    hide Load;
    hide ElementForm;
    hide ElementPart;
    hide Gather;
    if m > 0 {
      MeshParts(es, stabilization, dt, n, y, x, m - 1);
      var e := es[m - 1];
      StiffnessForm(e, stabilization, dt, Gather(y, e.nodes), Gather(x, e.nodes), |e.points|);
      ElementParts(e, stabilization, dt, Gather(y, e.nodes), Gather(x, e.nodes), |e.points|);
    }
  }

  /** The assembled matrix is mass + dt * advection + dt * S. */
  lemma AssembledParts(es: seq<Element>, stabilization: int, dt: real, n: nat, y: seq<real>, x: seq<real>)
    requires ValidMesh(es, n)
    ensures Form(A.Stiffness(System(es, stabilization, dt, n), n, |es|), y, x, n, n)
         == MeshPart(Mass, es, stabilization, dt, n, y, x, |es|) + MeshPart(Advected, es, stabilization, dt, n, y, x, |es|)
            + MeshPart(Stabilised, es, stabilization, dt, n, y, x, |es|)
  {
    hide *;
    A.StiffnessForm(System(es, stabilization, dt, n), n, y, x, |es|);
    MeshParts(es, stabilization, dt, n, y, x, |es|);
  }

  // ---------------------------------------------------------------- S is symmetric

  lemma {:induction false} ElementSymmetric(e: Element, stabilization: int, dt: real, y: seq<real>, x: seq<real>, m: nat)
    requires e.Valid() && m <= |e.points|
    ensures ElementPart(Stabilised, e, stabilization, dt, y, x, m) == ElementPart(Stabilised, e, stabilization, dt, x, y, m)
  {
    hide Stabilising;
    if m > 0 {
      ElementSymmetric(e, stabilization, dt, y, x, m - 1);
      StabilisingSymmetric(e.points[m - 1], e.flow[m - 1], e.dim, e.size, stabilization, y, x);
    }
  }

  /** y'Sx = x'Sy for the S that the mesh assembles. */
  lemma {:induction false} StabilisationSymmetric(es: seq<Element>, stabilization: int, dt: real, n: nat,
                                                  y: seq<real>, x: seq<real>, m: nat)
    requires ValidMesh(es, n) && m <= |es|
    ensures MeshPart(Stabilised, es, stabilization, dt, n, y, x, m) == MeshPart(Stabilised, es, stabilization, dt, n, x, y, m)
  {
    hide ElementPart;
    hide Gather;
    if m > 0 {
      StabilisationSymmetric(es, stabilization, dt, n, y, x, m - 1);
      var e := es[m - 1];
      ElementSymmetric(e, stabilization, dt, Gather(y, e.nodes), Gather(x, e.nodes), |e.points|);
    }
  }

  // ---------------------------------------------------------------- S is never negative

  /** Weights, Jacobians and the characteristic length are not negative. */
  ghost predicate Positive(e: Element) {
    e.size >= 0.0 && forall g :: 0 <= g < |e.points| ==> e.points[g].Nonnegative()
  }

  ghost predicate PositiveMesh(es: seq<Element>) {
    forall i :: 0 <= i < |es| ==> Positive(es[i])
  }

  lemma StepNonnegative(q: Point, dt: real)
    requires q.Nonnegative() && dt >= 0.0
    ensures StepFactor(q, dt) >= 0.0
  {
    ProductNonnegative(dt, q.weight);
    ProductNonnegative(dt * q.weight, q.jdet);
  }

  lemma TimesNonnegative(a: real, b: real)
    requires a >= 0.0 && b >= 0.0
    ensures Times(a, b) >= 0.0
  {
  }

  lemma {:induction false} ElementNonnegative(e: Element, stabilization: int, dt: real, x: seq<real>, m: nat)
    requires e.Valid() && Positive(e) && dt >= 0.0 && m <= |e.points|
    ensures ElementPart(Stabilised, e, stabilization, dt, x, x, m) >= 0.0
  {
    hide Times;
    hide Stabilising;
    hide StepFactor;
    hide PartAt;
    if m > 0 {
      ElementNonnegative(e, stabilization, dt, x, m - 1);
      PartIs(Stabilised, e, stabilization, dt, m - 1, x, x);
      var q, f := e.points[m - 1], e.flow[m - 1];
      StepNonnegative(q, dt);
      StabilisingNonnegative(q, f, e.dim, e.size, stabilization, x);
      TimesNonnegative(StepFactor(q, dt), Stabilising(q, f, e.dim, e.size, stabilization, x, x));
    }
  }

  /** x'Sx >= 0. */
  lemma {:induction false} StabilisationNonnegative(es: seq<Element>, stabilization: int, dt: real, n: nat, x: seq<real>, m: nat)
    requires ValidMesh(es, n) && PositiveMesh(es) && dt >= 0.0 && m <= |es|
    ensures MeshPart(Stabilised, es, stabilization, dt, n, x, x, m) >= 0.0
  {
    hide ElementPart;
    hide Gather;
    hide Positive;
    if m > 0 {
      StabilisationNonnegative(es, stabilization, dt, n, x, m - 1);
      var e := es[m - 1];
      ElementNonnegative(e, stabilization, dt, Gather(x, e.nodes), |e.points|);
    }
  }

  // ---------------------------------------------------------------- S ignores constants

  lemma PointIgnoresConstants(e: Element, stabilization: int, dt: real, g: nat, c: real, y: seq<real>)
    requires e.Valid() && g < |e.points|
    ensures PartAt(Stabilised, e, stabilization, dt, g, y, Constant(|e.nodes|, c)) == 0.0
    ensures PartAt(Stabilised, e, stabilization, dt, g, Constant(|e.nodes|, c), y) == 0.0
    ensures PartAt(Advected, e, stabilization, dt, g, y, Constant(|e.nodes|, c)) == 0.0
  {
    hide Dot;
    hide Stabilising;
    hide Constant;
    var q, f := e.points[g], e.flow[g];
    ConstantPoint(q, f, e.dim, e.size, stabilization, dt, |e.nodes|, c, y);
    ConstantField(q, |e.nodes|, c);
  }

  lemma {:induction false} ElementIgnoresConstants(e: Element, stabilization: int, dt: real, c: real, y: seq<real>, m: nat)
    requires e.Valid() && m <= |e.points|
    ensures ElementPart(Stabilised, e, stabilization, dt, y, Constant(|e.nodes|, c), m) == 0.0
    ensures ElementPart(Stabilised, e, stabilization, dt, Constant(|e.nodes|, c), y, m) == 0.0
    ensures ElementPart(Advected, e, stabilization, dt, y, Constant(|e.nodes|, c), m) == 0.0
  {
    hide PartAt;
    hide Constant;
    if m > 0 {
      ElementIgnoresConstants(e, stabilization, dt, c, y, m - 1);
      PointIgnoresConstants(e, stabilization, dt, m - 1, c, y);
    }
  }

  /** Rows and columns of S sum to zero, and so do the rows of advection. */
  lemma {:induction false} StabilisationIgnoresConstants(es: seq<Element>, stabilization: int, dt: real, n: nat, c: real,
                                                         y: seq<real>, m: nat)
    requires ValidMesh(es, n) && m <= |es|
    ensures MeshPart(Stabilised, es, stabilization, dt, n, y, Constant(n, c), m) == 0.0
    ensures MeshPart(Stabilised, es, stabilization, dt, n, Constant(n, c), y, m) == 0.0
    ensures MeshPart(Advected, es, stabilization, dt, n, y, Constant(n, c), m) == 0.0
  {
    hide ElementPart;
    hide Gather;
    hide Constant;
    if m > 0 {
      StabilisationIgnoresConstants(es, stabilization, dt, n, c, y, m - 1);
      var e := es[m - 1];
      GatherConstant(n, c, e.nodes);
      ElementIgnoresConstants(e, stabilization, dt, c, Gather(y, e.nodes), |e.points|);
    }
  }

  /** Stabilising a system never takes away from what mass and advection make of a field against itself. */
  lemma StabilisationAdds(es: seq<Element>, stabilization: int, dt: real, n: nat, x: seq<real>)
    requires ValidMesh(es, n) && PositiveMesh(es) && dt >= 0.0
    ensures Form(A.Stiffness(System(es, stabilization, dt, n), n, |es|), x, x, n, n)
         >= MeshPart(Mass, es, stabilization, dt, n, x, x, |es|) + MeshPart(Advected, es, stabilization, dt, n, x, x, |es|)
  {
    hide *;
    AssembledParts(es, stabilization, dt, n, x, x);
    StabilisationNonnegative(es, stabilization, dt, n, x, |es|);
  }

  // ---------------------------------------------------------------- how much S there is

  /** Upwinding is diffusion along the flow by half the size times the speed: 2 (|v| + 1e-8) S = size (v . grad y) (v . grad x). */
  lemma UpwindSize(q: Point, f: Flow, dim: nat, size: real, y: seq<real>, x: seq<real>)
    requires f.Valid()
    ensures var slopeY := f.vx * q.Dx(y) + (if dim == 1 then 0.0 else f.vy * q.Dy(y));
      var slopeX := f.vx * q.Dx(x) + (if dim == 1 then 0.0 else f.vy * q.Dy(x));
      2.0 * ((if dim == 1 then Abs(f.vx) else f.speed) + 0.00000001) * Stabilising(q, f, dim, size, 2, y, x)
      == size * (slopeY * slopeX)
  {
    hide Dot;
    var c := UpwindFactor(f, dim, size);
    Quotient(size, 2.0 * Speed(f, dim), c);
    hide UpwindFactor;
    UpwindAlgebraSize(2.0 * Speed(f, dim), c, size, Along(q, f, dim, y), Along(q, f, dim, x));
  }

  lemma UpwindAlgebraSize(v: real, c: real, size: real, a: real, b: real)
    requires v * c == size
    ensures v * Times(c, Times(a, b)) == size * (a * b)
  {
    assert v * (c * (a * b)) == v * c * (a * b);
  }

  /** Artificial diffusion in each direction is half the size times the average speed there. */
  lemma ArtificialSize(q: Point, f: Flow, dim: nat, size: real, y: seq<real>, x: seq<real>)
    requires f.Valid()
    ensures 2.0 * Stabilising(q, f, dim, size, 1, y, x)
         == size * (Abs(f.averageVx) * (q.Dx(y) * q.Dx(x)) + if dim == 1 then 0.0 else Abs(f.averageVy) * (q.Dy(y) * q.Dy(x)))
  {
    hide Dot;
    hide Abs;
    ArtificialAlgebraSize(size, Abs(f.averageVx), q.Dx(y) * q.Dx(x));
    ArtificialAlgebraSize(size, Abs(f.averageVy), q.Dy(y) * q.Dy(x));
    Distribute(size, Abs(f.averageVx) * (q.Dx(y) * q.Dx(x)), Abs(f.averageVy) * (q.Dy(y) * q.Dy(x)));
  }

  lemma ArtificialAlgebraSize(size: real, a: real, s: real)
    ensures 2.0 * (size / 2.0 * a * s) == size * (a * s)
  {
    assert size / 2.0 * a * s == size / 2.0 * (a * s);
  }
}
