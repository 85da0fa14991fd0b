/** The exact meaning of the free-surface stiffness, and what follows from it. */
module FreeSurfaceLaws {
  import opened LinearAlgebra
  import opened RealFacts
  import opened Quadrature
  import opened FreeSurface

  /** v . grad x at the point. */
  function Along(q: Point, f: Flow, dim: nat, x: seq<real>): real {
    f.vx * q.Dx(x) + if dim == 1 then 0.0 else f.vy * q.Dy(x)
  }

  /** The stabilisation's form at the point: upwinding along the flow, or diffusion in each direction. */
  function Stabilising(q: Point, f: Flow, dim: nat, size: real, stabilization: int, y: seq<real>, x: seq<real>): real
    requires f.Valid()
  {
    if stabilization == 2 then Times(UpwindFactor(f, dim, size), Times(Along(q, f, dim, y), Along(q, f, dim, x)))
    else if stabilization == 1 then
      Times(Artificial(size, f.averageVx), Times(q.Dx(y), q.Dx(x)))
      + if dim == 1 then 0.0 else Times(Artificial(size, f.averageVy), Times(q.Dy(y), q.Dy(x)))
    else 0.0
  }

  /** Mass + dt * advection + dt * stabilisation at one point. */
  function PointForm(q: Point, f: Flow, dim: nat, size: real, stabilization: int, dt: real, y: seq<real>, x: seq<real>): real
    requires f.Valid()
  {
    Times(MassFactor(q), q.Value(y) * q.Value(x))
    + Times(StepFactor(q, dt), q.Value(y) * Along(q, f, dim, x))
    + Times(StepFactor(q, dt), Stabilising(q, f, dim, size, stabilization, y, x))
  }

  function ElementForm(e: Element, stabilization: int, dt: real, y: seq<real>, x: seq<real>, m: nat): real
    requires e.Valid() && m <= |e.points|
  {
    if m == 0 then 0.0
    else ElementForm(e, stabilization, dt, y, x, m - 1)
         + PointForm(e.points[m - 1], e.flow[m - 1], e.dim, e.size, stabilization, dt, y, x)
  }

  // ---------------------------------------------------------------- the loop computes the form

  lemma AdvectionForm(q: Point, f: Flow, dim: nat, scale: real, y: seq<real>, x: seq<real>, n: nat)
    requires (dim == 1 || dim == 2) && q.Sized(n)
    ensures Sandwich(B(q, dim), Advection(f, dim, scale), Bprime(q, dim), y, x, n, dim, dim)
         == Times(scale, q.Value(y) * Along(q, f, dim, x))
  {
    hide Dot;
    hide Sandwich;
    if dim == 1 {
      SandwichOne(q.basis, Times(scale, f.vx), q.dx, y, x, n);
    } else {
      SandwichTwo(q.basis, q.basis, Times(scale, f.vx), 0.0, 0.0, Times(scale, f.vy), q.dx, q.dy, y, x, n);
    }
    AdvectionAlgebra(scale, f.vx, f.vy, q.Value(y), q.Dx(x), q.Dy(x));
  }

  lemma AdvectionAlgebra(s: real, u: real, v: real, b: real, x: real, y: real)
    ensures Times(Times(s, u), Times(b, x)) == Times(s, b * (u * x + 0.0))
    ensures Times(Times(s, u), Times(b, x)) + Times(0.0, Times(b, y)) + Times(0.0, Times(b, x)) + Times(Times(s, v), Times(b, y))
         == Times(s, b * (u * x + v * y))
  {
  }

  lemma DiffusionForm(q: Point, f: Flow, dim: nat, size: real, stabilization: int, scale: real, y: seq<real>, x: seq<real>, n: nat)
    requires (dim == 1 || dim == 2) && q.Sized(n) && f.Valid() && (stabilization == 1 || stabilization == 2)
    ensures Sandwich(Bprime(q, dim), ScaleMatrix(Diffusion(f, dim, size, stabilization), scale), Bprime(q, dim), y, x, n, dim, dim)
         == Times(scale, Stabilising(q, f, dim, size, stabilization, y, x))
  {
    hide Dot;
    hide Sandwich;
    hide UpwindFactor;
    hide Artificial;
    hide ScaleMatrix;
    hide Upwind;
    hide Times;
    var d := Diffusion(f, dim, size, stabilization);
    if dim == 1 {
      ScaleOne(d[0][0], scale);
      assert d == [[d[0][0]]];
      SandwichOne(q.dx, Times(scale, d[0][0]), q.dx, y, x, n);
      assert Along(q, f, dim, y) == f.vx * q.Dx(y) && Along(q, f, dim, x) == f.vx * q.Dx(x);
      OneDirection(scale, UpwindFactor(f, dim, size), f.vx, Artificial(size, f.averageVx), q.Dx(y), q.Dx(x),
                   Along(q, f, dim, y), Along(q, f, dim, x));
      if stabilization == 2 {
        assert d[0][0] == Upwind(UpwindFactor(f, dim, size), f.vx, f.vx);
      } else {
        assert d[0][0] == Artificial(size, f.averageVx);
      }
    } else {
      ScaleTwo(d[0][0], d[0][1], d[1][0], d[1][1], scale);
      assert d == [[d[0][0], d[0][1]], [d[1][0], d[1][1]]];
      SandwichTwo(q.dx, q.dy, Times(scale, d[0][0]), Times(scale, d[0][1]), Times(scale, d[1][0]), Times(scale, d[1][1]),
                  q.dx, q.dy, y, x, n);
      if stabilization == 2 {
        assert Along(q, f, dim, y) == f.vx * q.Dx(y) + f.vy * q.Dy(y) && Along(q, f, dim, x) == f.vx * q.Dx(x) + f.vy * q.Dy(x);
        UpwindAlgebra(scale, UpwindFactor(f, dim, size), f.vx, f.vy, q.Dx(y), q.Dy(y), q.Dx(x), q.Dy(x),
                      Along(q, f, dim, y), Along(q, f, dim, x));
        assert d[0][1] == Upwind(UpwindFactor(f, dim, size), f.vx, f.vy);
      } else {
        ArtificialAlgebra(scale, Artificial(size, f.averageVx), Artificial(size, f.averageVy), q.Dx(y), q.Dy(y), q.Dx(x), q.Dy(x));
        assert d[0][1] == 0.0 && d[1][0] == 0.0;
      }
    }
  }

  lemma ScaleOne(a: real, s: real)
    ensures ScaleMatrix([[a]], s) == [[Times(s, a)]]
  {
    assert ScaleMatrix([[a]], s)[0] == [Times(s, a)];
  }

  lemma ScaleTwo(a: real, b: real, c: real, d: real, s: real)
    ensures ScaleMatrix([[a, b], [c, d]], s) == [[Times(s, a), Times(s, b)], [Times(s, c), Times(s, d)]]
  {
    hide Times;
    var m := ScaleMatrix([[a, b], [c, d]], s);
    assert m[0] == [Times(s, a), Times(s, b)];
    assert m[1] == [Times(s, c), Times(s, d)];
  }

  lemma OneDirection(s: real, c: real, v: real, a: real, y: real, x: real, alongY: real, alongX: real)
    requires alongY == v * y && alongX == v * x
    ensures Times(Times(s, Upwind(c, v, v)), Times(y, x)) == Times(s, Times(c, Times(alongY, alongX)))
    ensures Times(Times(s, a), Times(y, x)) == Times(s, Times(a, Times(y, x)))
  {
  }

  lemma UpwindAlgebra(s: real, c: real, u: real, v: real, y0: real, y1: real, x0: real, x1: real, alongY: real, alongX: real)
    requires alongY == u * y0 + v * y1 && alongX == u * x0 + v * x1
    ensures Times(Times(s, Upwind(c, u, u)), Times(y0, x0)) + Times(Times(s, Upwind(c, u, v)), Times(y0, x1))
            + Times(Times(s, Upwind(c, v, u)), Times(y1, x0)) + Times(Times(s, Upwind(c, v, v)), Times(y1, x1))
         == Times(s, Times(c, Times(alongY, alongX)))
  {
    hide *;
    UpwindExpanded(s, c, u, v, y0, y1, x0, x1);
  }

  lemma UpwindExpanded(s: real, c: real, u: real, v: real, y0: real, y1: real, x0: real, x1: real)
    ensures Times(Times(s, Upwind(c, u, u)), Times(y0, x0)) + Times(Times(s, Upwind(c, u, v)), Times(y0, x1))
            + Times(Times(s, Upwind(c, v, u)), Times(y1, x0)) + Times(Times(s, Upwind(c, v, v)), Times(y1, x1))
         == Times(s, Times(c, Times(u * y0 + v * y1, u * x0 + v * x1)))
  {
  }

  lemma ArtificialAlgebra(s: real, a: real, b: real, y0: real, y1: real, x0: real, x1: real)
    ensures Times(Times(s, a), Times(y0, x0)) + Times(Times(s, 0.0), Times(y0, x1)) + Times(Times(s, 0.0), Times(y1, x0))
            + Times(Times(s, b), Times(y1, x1))
         == Times(s, Times(a, Times(y0, x0)) + Times(b, Times(y1, x1)))
  {
  }

  lemma WithPointForm(v: Matrix, q: Point, f: Flow, dim: nat, size: real, stabilization: int, dt: real,
                      y: seq<real>, x: seq<real>, n: nat)
    requires Shape(v, n, n) && (dim == 1 || dim == 2) && q.Sized(n) && f.Valid()
    ensures Shape(WithPoint(v, q, f, dim, size, stabilization, dt), n, n)
    ensures Form(WithPoint(v, q, f, dim, size, stabilization, dt), y, x, n, n)
         == Form(v, y, x, n, n) + PointForm(q, f, dim, size, stabilization, dt, y, x)
  {
    hide Form;
    hide Dot;
    hide OuterSum;
    hide TripleSum;
    hide Sandwich;
    hide Advection;
    hide Diffusion;
    hide B;
    hide Bprime;
    hide Along;
    hide Upwind;
    hide MassFactor;
    hide StepFactor;
    hide ScaleMatrix;
    var scale, mass := StepFactor(q, dt), OuterSum(v, MassFactor(q), q.basis, q.basis);
    var advected := TripleSum(mass, B(q, dim), Advection(f, dim, scale), Bprime(q, dim), dim, dim);
    FormOuter(v, MassFactor(q), q.basis, q.basis, y, x, n);
    FormTriple(mass, B(q, dim), Advection(f, dim, scale), Bprime(q, dim), y, x, n, dim, dim);
    AdvectionForm(q, f, dim, scale, y, x, n);
    if stabilization == 1 || stabilization == 2 {
      FormTriple(advected, Bprime(q, dim), ScaleMatrix(Diffusion(f, dim, size, stabilization), scale), Bprime(q, dim),
                 y, x, n, dim, dim);
      DiffusionForm(q, f, dim, size, stabilization, scale, y, x, n);
    }
    TimesZero(scale);
  }

  /** The element stiffness is mass + dt * advection + dt * stabilisation, summed over any number of points. */
  lemma {:induction false} StiffnessForm(e: Element, stabilization: int, dt: real, y: seq<real>, x: seq<real>, m: nat)
    requires e.Valid() && m <= |e.points|
    ensures Shape(Stiffness(e, stabilization, dt, m), |e.nodes|, |e.nodes|)
    ensures Form(Stiffness(e, stabilization, dt, m), y, x, |e.nodes|, |e.nodes|) == ElementForm(e, stabilization, dt, y, x, m)
  {
    hide Form;
    hide WithPoint;
    hide PointForm;
    if m == 0 {
      ZeroForm(|e.nodes|, y, x);
    } else {
      StiffnessForm(e, stabilization, dt, y, x, m - 1);
      WithPointForm(Stiffness(e, stabilization, dt, m - 1), e.points[m - 1], e.flow[m - 1], e.dim, e.size, stabilization, dt,
                    y, x, |e.nodes|);
    }
  }

  // ---------------------------------------------------------------- the stabilisation

  lemma StabilisingSymmetric(q: Point, f: Flow, dim: nat, size: real, stabilization: int, y: seq<real>, x: seq<real>)
    requires f.Valid()
    ensures Stabilising(q, f, dim, size, stabilization, y, x) == Stabilising(q, f, dim, size, stabilization, x, y)
  {
    hide Along;
    hide UpwindFactor;
    hide Artificial;
    hide Dot;
  }

  lemma StabilisingNonnegative(q: Point, f: Flow, dim: nat, size: real, stabilization: int, x: seq<real>)
    requires f.Valid() && size >= 0.0
    ensures Stabilising(q, f, dim, size, stabilization, x, x) >= 0.0
  {
    hide Along;
    hide Dot;
    QuotientNonnegative(size, 2.0 * Speed(f, dim));
    ProductNonnegative(size / 2.0, Abs(f.averageVx));
    ProductNonnegative(size / 2.0, Abs(f.averageVy));
    SquareNonnegative(Along(q, f, dim, x));
    SquareNonnegative(q.Dx(x));
    SquareNonnegative(q.Dy(x));
    ProductNonnegative(UpwindFactor(f, dim, size), Along(q, f, dim, x) * Along(q, f, dim, x));
    ProductNonnegative(Artificial(size, f.averageVx), q.Dx(x) * q.Dx(x));
    ProductNonnegative(Artificial(size, f.averageVy), q.Dy(x) * q.Dy(x));
  }

  /** Constants feel neither advection nor stabilisation: only the mass is left. */
  lemma ConstantPoint(q: Point, f: Flow, dim: nat, size: real, stabilization: int, dt: real, n: nat, c: real, y: seq<real>)
    requires q.PartitionOfUnity(n) && f.Valid()
    ensures Stabilising(q, f, dim, size, stabilization, y, Constant(n, c)) == 0.0
    ensures Stabilising(q, f, dim, size, stabilization, Constant(n, c), y) == 0.0
    ensures PointForm(q, f, dim, size, stabilization, dt, y, Constant(n, c)) == Times(MassFactor(q), Times(q.Value(y), c))
  {
    hide Dot;
    hide UpwindFactor;
    hide Artificial;
    hide StepFactor;
    hide MassFactor;
    hide Constant;
    ConstantField(q, n, c);
  }
}
