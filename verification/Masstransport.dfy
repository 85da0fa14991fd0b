/**
  The ice-thickness equation: the continuous (CG) and discontinuous (DG) Galerkin stiffness loops, the flux-corrected
  transport (FCT) matrix and the load.

  The CG loop keeps one scratch matrix D for all quadrature points and only writes its off-diagonal for streamline
  upwinding, so a point starts from the off-diagonal its predecessor left.
 */
module Masstransport {
  import opened LinearAlgebra
  import opened Quadrature
  import opened FreeSurface
  import A = Assembly

  /** The depth-averaged flow at a point, with the derivatives dvx/dx and dvy/dy. */
  datatype Sample = Sample(flow: Flow, dvxdx: real, dvydy: real)

  /** What feeds the ice at a point; ice is grounded where phi > 0. */
  datatype Supply = Supply(thickness: real, massBalance: real, phi: real, groundedMelt: real, floatingMelt: real) {
    function Melt(): real {
      if phi > 0.0 then groundedMelt else floatingMelt
    }
  }

  datatype Cell = Cell(dim: nat, size: real, nodes: seq<nat>, points: seq<Point>, samples: seq<Sample>, supply: seq<Supply>) {
    ghost predicate Valid() {
      && (dim == 1 || dim == 2)
      && |points| == |samples| == |supply|
      && (forall g :: 0 <= g < |points| ==> points[g].PartitionOfUnity(|nodes|))
      && (forall g :: 0 <= g < |samples| ==> samples[g].flow.Valid())
    }
  }

  // ---------------------------------------------------------------- CG matrices

  /** The scratch matrix: a and b on the diagonal, o beside it. */
  function Scratch(dim: nat, a: real, b: real, o: real): Matrix {
    if dim == 1 then [[a]] else [[a, o], [o, b]]
  }

  /** The off-diagonal that a point leaves in the scratch matrix. */
  function LeftBehind(q: Point, f: Flow, dim: nat, size: real, stabilization: int, dt: real): real
    requires f.Valid()
  {
    if dim == 2 && stabilization == 2 then Times(StepFactor(q, dt), Upwind(UpwindFactor(f, dim, size), f.vx, f.vy)) else 0.0
  }

  /** The off-diagonal in the scratch matrix after m points. */
  function Carried(e: Cell, stabilization: int, dt: real, m: nat): real
    requires e.Valid() && m <= |e.points|
  {
    if m == 0 then 0.0 else LeftBehind(e.points[m - 1], e.samples[m - 1].flow, e.dim, e.size, stabilization, dt)
  }

  /** v plus one point's terms, for a scratch matrix that starts with o off its diagonal. */
  function WithPointCG(v: Matrix, q: Point, s: Sample, o: real, dim: nat, size: real, stabilization: int, dt: real): Matrix
    requires s.flow.Valid()
  {
    var c := StepFactor(q, dt);
    var b, b' := B(q, dim), Bprime(q, dim);
    var mass := OuterSum(v, MassFactor(q), q.basis, q.basis);
    var diverged := TripleSum(mass, b, Scratch(dim, Times(c, s.dvxdx), Times(c, s.dvydy), o), b, dim, dim);
    var advected := TripleSum(diverged, b, Scratch(dim, Times(c, s.flow.vx), Times(c, s.flow.vy), o), b', dim, dim);
    if stabilization == 1 || stabilization == 2 then
      TripleSum(advected, b', ScaleMatrix(Diffusion(s.flow, dim, size, stabilization), c), b', dim, dim)
    else advected
  }

  function StiffnessCG(e: Cell, stabilization: int, dt: real, m: nat): Matrix
    requires e.Valid() && m <= |e.points|
  {
    if m == 0 then ZeroMatrix(|e.nodes|)
    else
      WithPointCG(StiffnessCG(e, stabilization, dt, m - 1), e.points[m - 1], e.samples[m - 1],
                  Carried(e, stabilization, dt, m - 1), e.dim, e.size, stabilization, dt)
  }

  // ---------------------------------------------------------------- DG and FCT matrices

  /** v plus one point's mass and advection; derivatives and values trade places compared to CG. */
  function WithPointDG(v: Matrix, q: Point, f: Flow, dt: real): Matrix {
    TripleSum(OuterSum(v, MassFactor(q), q.basis, q.basis), Bprime(q, 2), Advection(f, 2, Backward(q, dt)), B(q, 2), 2, 2)
  }

  function Backward(q: Point, dt: real): real {
    -dt * q.weight * q.jdet
  }

  function StiffnessDG(e: Cell, dt: real, m: nat): Matrix
    requires e.Valid() && m <= |e.points|
  {
    if m == 0 then ZeroMatrix(|e.nodes|) else WithPointDG(StiffnessDG(e, dt, m - 1), e.points[m - 1], e.samples[m - 1].flow, dt)
  }

  function StiffnessFCT(e: Cell, m: nat): Matrix
    requires e.Valid() && m <= |e.points|
  {
    if m == 0 then ZeroMatrix(|e.nodes|)
    else
      var q := e.points[m - 1];
      TripleSum(StiffnessFCT(e, m - 1), B(q, 2), Advection(e.samples[m - 1].flow, 2, -MassFactor(q)), Bprime(q, 2), 2, 2)
  }

  // ---------------------------------------------------------------- the load

  function SupplyFactor(q: Point, s: Supply, dt: real): real {
    q.jdet * q.weight * (s.thickness + dt * (s.massBalance - s.Melt()))
  }

  function SupplyLoad(e: Cell, dt: real, m: nat): (s: seq<real>)
    requires e.Valid() && m <= |e.points|
    ensures |s| == |e.nodes|
  {
    if m == 0 then Constant(|e.nodes|, 0.0)
    else Axpy(SupplyLoad(e, dt, m - 1), SupplyFactor(e.points[m - 1], e.supply[m - 1], dt), e.points[m - 1].basis)
  }

  ghost predicate ValidMesh(es: seq<Cell>, n: nat) {
    forall i :: 0 <= i < |es| ==> es[i].Valid() && DofsWithin(es[i].nodes, n)
  }

  /** What an icy element adds to the continuous system. */
  function Contribution(e: Cell, stabilization: int, dt: real): A.Contribution
    requires e.Valid()
  {
    A.Contribution(e.nodes, StiffnessCG(e, stabilization, dt, |e.points|), SupplyLoad(e, dt, |e.points|))
  }

  function System(es: seq<Cell>, stabilization: int, dt: real, n: nat): (cs: seq<A.Contribution>)
    requires ValidMesh(es, n)
    ensures |cs| == |es| && A.Fits(cs, n)
    ensures forall i :: 0 <= i < |es| ==> cs[i] == Contribution(es[i], stabilization, dt)
  {
    seq(|es|, i requires 0 <= i < |es| => Contribution(es[i], stabilization, dt))
  }

  // ---------------------------------------------------------------- the loops

  method SetDiagonal(d: array2<real>, a: real, b: real, ghost o: real)
    requires d.Length0 == d.Length1 && (d.Length0 == 1 || d.Length0 == 2)
    requires d.Length0 == 2 ==> d[0, 1] == o && d[1, 0] == o
    modifies d
    ensures Values(d) == Scratch(d.Length0, a, b, o)
    ensures d.Length0 == 2 ==> d[0, 1] == o && d[1, 0] == o
  {
    d[0, 0] := a;
    if d.Length0 == 2 {
      d[1, 1] := b;
    }
    SmallMatrix(d);
  }

  method AddPointCG(ke: array2<real>, d: array2<real>, q: Point, s: Sample, size: real, stabilization: int, dt: real, ghost o: real)
    requires ke != d && ke.Length0 == ke.Length1 && q.Sized(ke.Length0) && s.flow.Valid()
    requires d.Length0 == d.Length1 && (d.Length0 == 1 || d.Length0 == 2)
    requires d.Length0 == 2 ==> d[0, 1] == o && d[1, 0] == o
    requires stabilization == 0 || stabilization == 1 || stabilization == 2
    requires stabilization != 2 ==> o == 0.0
    modifies ke, d
    ensures Values(ke) == WithPointCG(old(Values(ke)), q, s, o, d.Length0, size, stabilization, dt)
    ensures d.Length0 == 2 ==>
      d[0, 1] == d[1, 0] == LeftBehind(q, s.flow, 2, size, stabilization, dt)
  {
    hide OuterSum;
    hide TripleSum;
    hide Scratch;
    hide ScaleMatrix;
    hide Diffusion;
    hide LeftBehind;
    var dim := d.Length0;
    var c := dt * q.weight * q.jdet;
    assert c == StepFactor(q, dt) && q.weight * q.jdet == MassFactor(q);
    AddOuter(ke, q.weight * q.jdet, q.basis, q.basis);
    var b, b' := B(q, dim), Bprime(q, dim);
    SetDiagonal(d, Times(c, s.dvxdx), Times(c, s.dvydy), o);
    TripleMultiply(ke, b, d, b);
    SetDiagonal(d, Times(c, s.flow.vx), Times(c, s.flow.vy), o);
    TripleMultiply(ke, b, d, b');
    if stabilization == 1 || stabilization == 2 {
      SetDiffusion(d, s.flow, size, stabilization);
      ScaleInPlace(d, c);
      assert dim == 2 ==> d[0, 1] == Values(d)[0][1] && d[1, 0] == Values(d)[1][0];
      LeftByDiffusion(q, s.flow, dim, size, stabilization, dt);
      TripleMultiply(ke, b', d, b');
    } else {
      LeftByNothing(q, s.flow, size, stabilization, dt);
    }
  }

  lemma LeftByDiffusion(q: Point, f: Flow, dim: nat, size: real, stabilization: int, dt: real)
    requires f.Valid() && (stabilization == 1 || stabilization == 2) && (dim == 1 || dim == 2)
    ensures dim == 2 ==>
      var v := ScaleMatrix(Diffusion(f, dim, size, stabilization), StepFactor(q, dt));
      |v| == 2 && |v[0]| == |v[1]| == 2 && v[0][1] == v[1][0] == LeftBehind(q, f, 2, size, stabilization, dt)
  {
  }

  lemma LeftByNothing(q: Point, f: Flow, size: real, stabilization: int, dt: real)
    requires f.Valid() && stabilization == 0
    ensures LeftBehind(q, f, 2, size, stabilization, dt) == 0.0
  {
  }

  /** The CG stiffness, or nothing when the stabilisation is unknown. */
  method CreateKMatrixCG(e: Cell, stabilization: int, dt: real) returns (ok: bool, ke: array2<real>)
    requires e.Valid()
    ensures fresh(ke) && ke.Length0 == ke.Length1 == |e.nodes|
    ensures ok == (stabilization == 0 || stabilization == 1 || stabilization == 2 || |e.points| == 0)
    ensures ok ==> Values(ke) == StiffnessCG(e, stabilization, dt, |e.points|)
  {
    hide WithPointCG;
    hide LeftBehind;
    hide Point.PartitionOfUnity;
    ke := NewMatrix(|e.nodes|);
    var d := NewMatrix(e.dim);
    assert e.dim == 2 ==> d[0, 1] == Values(d)[0][1] == 0.0 && d[1, 0] == Values(d)[1][0] == 0.0;
    for g := 0 to |e.points|
      invariant g > 0 ==> stabilization == 0 || stabilization == 1 || stabilization == 2
      invariant Values(ke) == StiffnessCG(e, stabilization, dt, g)
      invariant e.dim == 2 ==> d[0, 1] == d[1, 0] == Carried(e, stabilization, dt, g)
    {
      if stabilization != 0 && stabilization != 1 && stabilization != 2 {
        return false, ke;
      }
      CarriedZero(e, stabilization, dt, g);
      PointSized(e.points[g], |e.nodes|);
      AddPointCG(ke, d, e.points[g], e.samples[g], e.size, stabilization, dt, Carried(e, stabilization, dt, g));
    }
    ok := true;
  }

  lemma PointSized(q: Point, n: nat)
    requires q.PartitionOfUnity(n)
    ensures q.Sized(n)
  {
  }

  lemma CarriedZero(e: Cell, stabilization: int, dt: real, m: nat)
    requires e.Valid() && m <= |e.points|
    ensures stabilization != 2 || e.dim == 1 ==> Carried(e, stabilization, dt, m) == 0.0
  {
    hide UpwindFactor;
    hide Times;
  }

  method CreateKMatrixDG(e: Cell, dt: real) returns (ke: array2<real>)
    requires e.Valid()
    ensures fresh(ke) && ke.Length0 == ke.Length1 == |e.nodes|
    ensures Values(ke) == StiffnessDG(e, dt, |e.points|)
  {
    hide OuterSum;
    hide TripleSum;
    ke := NewMatrix(|e.nodes|);
    var d := new real[2, 2];
    for g := 0 to |e.points|
      invariant Values(ke) == StiffnessDG(e, dt, g)
    {
      var q, f := e.points[g], e.samples[g].flow;
      var mass, scale := q.weight * q.jdet, -dt * q.weight * q.jdet;
      assert mass == MassFactor(q) && scale == Backward(q, dt);
      AddOuter(ke, mass, q.basis, q.basis);
      SetAdvection(d, f, scale);
      TripleMultiply(ke, Bprime(q, 2), d, B(q, 2));
    }
  }

  method CreateFctKMatrix(e: Cell) returns (ke: array2<real>)
    requires e.Valid()
    ensures fresh(ke) && ke.Length0 == ke.Length1 == |e.nodes|
    ensures Values(ke) == StiffnessFCT(e, |e.points|)
  {
    hide TripleSum;
    hide Point.PartitionOfUnity;
    ke := NewMatrix(|e.nodes|);
    var d := NewMatrix(2);
    assert d[0, 1] == Values(d)[0][1] && d[1, 0] == Values(d)[1][0];
    for g := 0 to |e.points|
      invariant Values(ke) == StiffnessFCT(e, g)
      invariant d[0, 1] == d[1, 0] == 0.0
    {
      var q, f := e.points[g], e.samples[g].flow;
      var a, b := -q.weight * f.vx * q.jdet, -q.weight * f.vy * q.jdet;
      PointSized(q, |e.nodes|);
      Regroup(q.weight, f.vx, q.jdet);
      Regroup(q.weight, f.vy, q.jdet);
      assert a == Times(-MassFactor(q), f.vx) && b == Times(-MassFactor(q), f.vy);
      SetDiagonal(d, a, b, 0.0);
      TripleMultiply(ke, B(q, 2), d, Bprime(q, 2));
    }
  }

  lemma Regroup(w: real, v: real, j: real)
    ensures -w * v * j == Times(-(w * j), v)
  {
  }

  method CreatePVector(e: Cell, dt: real) returns (pe: array<real>)
    requires e.Valid()
    ensures fresh(pe) && pe.Length == |e.nodes|
    ensures pe[..] == SupplyLoad(e, dt, |e.points|)
  {
    pe := NewVector(|e.nodes|);
    for g := 0 to |e.points|
      invariant pe[..] == SupplyLoad(e, dt, g)
    {
      var q, s := e.points[g], e.supply[g];
      var melt := if s.phi > 0.0 then s.groundedMelt else s.floatingMelt;
      var c := q.jdet * q.weight * (s.thickness + dt * (s.massBalance - melt));
      assert c == SupplyFactor(q, s, dt);
      AddToVector(pe, c, q.basis);
    }
  }

  /** The continuous system of the icy elements; fails when the stabilisation is unknown. */
  method AssembleCG(es: seq<Cell>, stabilization: int, dt: real, n: nat) returns (ok: bool, k: array2<real>, f: array<real>)
    requires ValidMesh(es, n)
    ensures stabilization == 0 || stabilization == 1 || stabilization == 2 ==> ok
    ensures ok ==> Values(k) == A.Stiffness(System(es, stabilization, dt, n), n, |es|)
    ensures ok ==> f[..] == A.Load(System(es, stabilization, dt, n), n, |es|)
  {
    hide StiffnessCG;
    hide SupplyLoad;
    hide Added;
    hide VectorAdded;
    k := NewMatrix(n);
    f := NewVector(n);
    ghost var cs := System(es, stabilization, dt, n);
    for i := 0 to |es|
      invariant k.Length0 == k.Length1 == f.Length == n
      invariant Values(k) == A.Stiffness(cs, n, i) && f[..] == A.Load(cs, n, i)
    {
      var known, ke := CreateKMatrixCG(es[i], stabilization, dt);
      if !known {
        return false, k, f;
      }
      AddToGlobal(k, ke, es[i].nodes);
      var pe := CreatePVector(es[i], dt);
      AddVectorToGlobal(f, pe, es[i].nodes);
    }
    ok := true;
  }
}
