/**
  The free-surface equations: the element stiffness is exactly mass + dt * advection + dt * stabilisation,
  the stabilisation is symmetric, non-negative and blind to constants, and a flat surface with no source
  stays flat, whatever the velocities.
 */
module FreeSurface {
  import opened LinearAlgebra
  import opened RealFacts
  import opened Quadrature
  import Assembly

  /** Velocities at a quadrature point, their element averages, and the point's speed. */
  datatype Flow = Flow(vx: real, vy: real, averageVx: real, averageVy: real, speed: real) {
    /** speed is the square root that the program takes of vx^2 + vy^2. */
    predicate Valid() {
      speed >= 0.0 && speed * speed == vx * vx + vy * vy
    }
  }

  /** What moves the surface at a quadrature point; at the base, phi > 0 where ice is grounded. */
  datatype Source =
    | Top(surface: real, massBalance: real, vz: real)
    | Bottom(base: real, phi: real, groundedMelt: real, floatingMelt: real, vz: real)
  {
    function Elevation(): real {
      if Top? then surface else base
    }

    function Balance(): real {
      if Top? then massBalance else if phi > 0.0 then groundedMelt else floatingMelt
    }

    function Rate(): real {
      Balance() + vz
    }
  }

  /** dim is 1 on vertical sections and 2 elsewhere; size is the characteristic length. */
  datatype Element = Element(dim: nat, size: real, nodes: seq<nat>, points: seq<Point>, flow: seq<Flow>, source: seq<Source>) {
    ghost predicate Valid() {
      && (dim == 1 || dim == 2)
      && |points| == |flow| == |source|
      && (forall g :: 0 <= g < |points| ==> points[g].PartitionOfUnity(|nodes|))
      && (forall g :: 0 <= g < |flow| ==> flow[g].Valid())
    }
  }

  // ---------------------------------------------------------------- the matrices of one point

  /** dim copies of the basis functions. */
  function B(q: Point, dim: nat): Matrix {
    if dim == 1 then [q.basis] else [q.basis, q.basis]
  }

  /** The derivatives, by direction. */
  function Bprime(q: Point, dim: nat): Matrix {
    if dim == 1 then [q.dx] else [q.dx, q.dy]
  }

  /** The advection matrix D. */
  function Advection(f: Flow, dim: nat, scale: real): Matrix {
    if dim == 1 then [[Times(scale, f.vx)]] else [[Times(scale, f.vx), 0.0], [0.0, Times(scale, f.vy)]]
  }

  /** |v| + 1e-8 */
  function Speed(f: Flow, dim: nat): real {
    (if dim == 1 then Abs(f.vx) else f.speed) + 0.00000001
  }

  /** The stabilisation matrix D: streamline upwinding (2) or artificial diffusion (1). */
  function Diffusion(f: Flow, dim: nat, size: real, stabilization: int): Matrix
    requires f.Valid() && (stabilization == 1 || stabilization == 2)
  {
    if stabilization == 2 then
      var c := UpwindFactor(f, dim, size);
      if dim == 1 then [[Upwind(c, f.vx, f.vx)]]
      else [[Upwind(c, f.vx, f.vx), Upwind(c, f.vx, f.vy)], [Upwind(c, f.vy, f.vx), Upwind(c, f.vy, f.vy)]]
    else if dim == 1 then [[Artificial(size, f.averageVx)]]
    else [[Artificial(size, f.averageVx), 0.0], [0.0, Artificial(size, f.averageVy)]]
  }

  function UpwindFactor(f: Flow, dim: nat, size: real): real
    requires f.Valid()
  {
    size / (2.0 * Speed(f, dim))
  }

  function Upwind(c: real, u: real, v: real): real {
    c * u * v
  }

  function Artificial(size: real, v: real): real {
    size / 2.0 * Abs(v)
  }

  /** The factors of mass and of the time-stepped terms. */
  function MassFactor(q: Point): real {
    q.weight * q.jdet
  }

  function StepFactor(q: Point, dt: real): real {
    dt * q.weight * q.jdet
  }

  function ScaleMatrix(d: Matrix, s: real): Matrix {
    seq(|d|, i requires 0 <= i < |d| => seq(|d[i]|, j requires 0 <= j < |d[i]| => Times(s, d[i][j])))
  }

  /** v plus one point's mass, advection and stabilisation. */
  function WithPoint(v: Matrix, q: Point, f: Flow, dim: nat, size: real, stabilization: int, dt: real): Matrix
    requires f.Valid()
  {
    var scale := StepFactor(q, dt);
    var mass := OuterSum(v, MassFactor(q), q.basis, q.basis);
    var advected := TripleSum(mass, B(q, dim), Advection(f, dim, scale), Bprime(q, dim), dim, dim);
    if stabilization == 1 || stabilization == 2 then
      TripleSum(advected, Bprime(q, dim), ScaleMatrix(Diffusion(f, dim, size, stabilization), scale), Bprime(q, dim), dim, dim)
    else advected
  }

  function Stiffness(e: Element, stabilization: int, dt: real, m: nat): Matrix
    requires e.Valid() && m <= |e.points|
  {
    if m == 0 then ZeroMatrix(|e.nodes|)
    else WithPoint(Stiffness(e, stabilization, dt, m - 1), e.points[m - 1], e.flow[m - 1], e.dim, e.size, stabilization, dt)
  }

  function LoadFactor(q: Point, s: Source, dt: real): real {
    q.jdet * q.weight * (s.Elevation() + dt * s.Balance() + dt * s.vz)
  }

  function Load(e: Element, dt: real, m: nat): (s: seq<real>)
    requires e.Valid() && m <= |e.points|
    ensures |s| == |e.nodes|
  {
    if m == 0 then Constant(|e.nodes|, 0.0)
    else Axpy(Load(e, dt, m - 1), LoadFactor(e.points[m - 1], e.source[m - 1], dt), e.points[m - 1].basis)
  }

  ghost predicate ValidMesh(es: seq<Element>, n: nat) {
    forall i :: 0 <= i < |es| ==> es[i].Valid() && DofsWithin(es[i].nodes, n)
  }

  /** What an element adds to the system. */
  function Contribution(e: Element, stabilization: int, dt: real): Assembly.Contribution
    requires e.Valid()
  {
    Assembly.Contribution(e.nodes, Stiffness(e, stabilization, dt, |e.points|), Load(e, dt, |e.points|))
  }

  function System(es: seq<Element>, stabilization: int, dt: real, n: nat): (cs: seq<Assembly.Contribution>)
    requires ValidMesh(es, n)
    ensures |cs| == |es| && Assembly.Fits(cs, n)
    ensures forall i :: 0 <= i < |es| ==> cs[i] == Contribution(es[i], stabilization, dt)
  {
    seq(|es|, i requires 0 <= i < |es| => Contribution(es[i], stabilization, dt))
  }

  // ---------------------------------------------------------------- the loops

  /** D = 0 but for the advection on the diagonal. */
  method SetAdvection(d: array2<real>, f: Flow, scale: real)
    requires d.Length0 == d.Length1 && (d.Length0 == 1 || d.Length0 == 2)
    modifies d
    ensures Values(d) == Advection(f, d.Length0, scale)
  {
    var dim := d.Length0;
    for i := 0 to dim
      invariant forall a, b :: 0 <= a < i && 0 <= b < dim ==> d[a, b] == 0.0
    {
      for j := 0 to dim
        invariant forall a, b :: 0 <= a < i && 0 <= b < dim ==> d[a, b] == 0.0
        invariant forall b :: 0 <= b < j ==> d[i, b] == 0.0
      {
        d[i, j] := 0.0;
      }
    }
    d[0, 0] := scale * f.vx;
    if dim == 2 {
      d[1, 1] := scale * f.vy;
    }
    assert d[0, 0] == Times(scale, f.vx) && (dim == 2 ==> d[1, 1] == Times(scale, f.vy));
    SmallMatrix(d);
  }

  /** A matrix of at most two rows, written out. */
  lemma SmallMatrix(d: array2<real>)
    requires d.Length0 == d.Length1
    ensures d.Length0 == 1 ==> Values(d) == [[d[0, 0]]]
    ensures d.Length0 == 2 ==> Values(d) == [[d[0, 0], d[0, 1]], [d[1, 0], d[1, 1]]]
  {
    if d.Length0 == 1 {
      assert Values(d)[0] == [d[0, 0]];
    } else if d.Length0 == 2 {
      assert Values(d)[0] == [d[0, 0], d[0, 1]];
      assert Values(d)[1] == [d[1, 0], d[1, 1]];
    }
  }

  /** Overwrites D by the stabilisation; artificial diffusion leaves the off-diagonals as it finds them. */
  method SetDiffusion(d: array2<real>, f: Flow, size: real, stabilization: int)
    requires d.Length0 == d.Length1 && (d.Length0 == 1 || d.Length0 == 2) && f.Valid()
    requires stabilization == 1 || stabilization == 2
    requires stabilization == 1 && d.Length0 == 2 ==> d[0, 1] == 0.0 && d[1, 0] == 0.0
    modifies d
    ensures Values(d) == Diffusion(f, d.Length0, size, stabilization)
  {
    var dim := d.Length0;
    if stabilization == 2 {
      if dim == 1 {
        var vel := Abs(f.vx) + 0.00000001;
        var c := size / (2.0 * vel);
        d[0, 0] := c * f.vx * f.vx;
        assert c == UpwindFactor(f, dim, size) && d[0, 0] == Upwind(c, f.vx, f.vx);
      } else {
        var vel := f.speed + 0.00000001;
        var c := size / (2.0 * vel);
        d[0, 0] := c * f.vx * f.vx;
        d[1, 0] := c * f.vy * f.vx;
        d[0, 1] := c * f.vx * f.vy;
        d[1, 1] := c * f.vy * f.vy;
        assert c == UpwindFactor(f, dim, size);
        assert d[0, 0] == Upwind(c, f.vx, f.vx) && d[0, 1] == Upwind(c, f.vx, f.vy);
        assert d[1, 0] == Upwind(c, f.vy, f.vx) && d[1, 1] == Upwind(c, f.vy, f.vy);
      }
    } else {
      d[0, 0] := size / 2.0 * Abs(f.averageVx);
      if dim == 2 {
        d[1, 1] := size / 2.0 * Abs(f.averageVy);
      }
      assert d[0, 0] == Artificial(size, f.averageVx) && (dim == 2 ==> d[1, 1] == Artificial(size, f.averageVy));
    }
    SmallMatrix(d);
  }

  /** D *= s */
  method ScaleInPlace(d: array2<real>, s: real)
    modifies d
    ensures Values(d) == ScaleMatrix(old(Values(d)), s)
  {
    ghost var v := Values(d);
    for i := 0 to d.Length0
      invariant forall a, b :: 0 <= a < d.Length0 && 0 <= b < d.Length1 ==> d[a, b] == if a < i then Times(s, v[a][b]) else v[a][b]
    {
      for j := 0 to d.Length1
        invariant forall a, b :: 0 <= a < d.Length0 && 0 <= b < d.Length1 ==>
          d[a, b] == if a < i || (a == i && b < j) then Times(s, v[a][b]) else v[a][b]
      {
        d[i, j] := Times(s, d[i, j]);
      }
    }
    forall a | 0 <= a < d.Length0 ensures Values(d)[a] == ScaleMatrix(v, s)[a] {
      assert forall b :: 0 <= b < d.Length1 ==> Values(d)[a][b] == ScaleMatrix(v, s)[a][b];
    }
  }

  method AddPoint(ke: array2<real>, d: array2<real>, q: Point, f: Flow, size: real, stabilization: int, dt: real)
    requires ke != d && ke.Length0 == ke.Length1 && q.Sized(ke.Length0) && f.Valid()
    requires d.Length0 == d.Length1 && (d.Length0 == 1 || d.Length0 == 2)
    modifies ke, d
    ensures Values(ke) == WithPoint(old(Values(ke)), q, f, d.Length0, size, stabilization, dt)
  {
    hide OuterSum;
    hide TripleSum;
    hide Diffusion;
    hide ScaleMatrix;
    var dim := d.Length0;
    var mass, scale := q.weight * q.jdet, dt * q.weight * q.jdet;
    assert mass == MassFactor(q) && scale == StepFactor(q, dt);
    AddOuter(ke, mass, q.basis, q.basis);
    var b, bprime := B(q, dim), Bprime(q, dim);
    SetAdvection(d, f, scale);
    TripleMultiply(ke, b, d, bprime);
    if stabilization == 1 || stabilization == 2 {
      assert dim == 2 ==> d[0, 1] == Values(d)[0][1] && d[1, 0] == Values(d)[1][0];
      SetDiffusion(d, f, size, stabilization);
      ScaleInPlace(d, scale);
      TripleMultiply(ke, bprime, d, bprime);
    }
  }

  method CreateKMatrix(e: Element, stabilization: int, dt: real) returns (ke: array2<real>)
    requires e.Valid()
    ensures fresh(ke) && ke.Length0 == ke.Length1 == |e.nodes|
    ensures Values(ke) == Stiffness(e, stabilization, dt, |e.points|)
  {
    hide WithPoint;
    ke := NewMatrix(|e.nodes|);
    var d := new real[e.dim, e.dim];
    for g := 0 to |e.points|
      invariant Values(ke) == Stiffness(e, stabilization, dt, g)
    {
      AddPoint(ke, d, e.points[g], e.flow[g], e.size, stabilization, dt);
    }
  }

  method CreatePVector(e: Element, dt: real) returns (pe: array<real>)
    requires e.Valid()
    ensures fresh(pe) && pe.Length == |e.nodes|
    ensures pe[..] == Load(e, dt, |e.points|)
  {
    pe := NewVector(|e.nodes|);
    for g := 0 to |e.points|
      invariant pe[..] == Load(e, dt, g)
    {
      var q, s := e.points[g], e.source[g];
      var c := q.jdet * q.weight * (s.Elevation() + dt * s.Balance() + dt * s.vz);
      assert c == LoadFactor(q, s, dt);
      AddToVector(pe, c, q.basis);
    }
  }

  /** The system of the whole mesh. */
  method Assemble(es: seq<Element>, stabilization: int, dt: real, n: nat) returns (k: array2<real>, f: array<real>)
    requires ValidMesh(es, n)
    ensures Values(k) == Assembly.Stiffness(System(es, stabilization, dt, n), n, |es|)
    ensures f[..] == Assembly.Load(System(es, stabilization, dt, n), n, |es|)
  {
    hide Stiffness;
    hide Load;
    hide Added;
    hide VectorAdded;
    k := NewMatrix(n);
    f := NewVector(n);
    ghost var cs := System(es, stabilization, dt, n);
    for i := 0 to |es|
      invariant k.Length0 == k.Length1 == f.Length == n
      invariant Values(k) == Assembly.Stiffness(cs, n, i) && f[..] == Assembly.Load(cs, n, i)
    {
      var ke := CreateKMatrix(es[i], stabilization, dt);
      AddToGlobal(k, ke, es[i].nodes);
      var pe := CreatePVector(es[i], dt);
      AddVectorToGlobal(f, pe, es[i].nodes);
    }
  }
}
