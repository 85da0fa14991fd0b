/**
  Uniform ice under the continuous thickness equation: where thickness, divergence and supply are the same at every
  point, one step leaves it uniform, thicker by the supply and thinner by the stretching, whatever the flow.
 */
module MasstransportUniform {
  import opened LinearAlgebra
  import opened Quadrature
  import opened FreeSurface
  import opened FreeSurfaceLaws
  import opened Masstransport
  import opened MasstransportLaws
  import A = Assembly

  /** The flow stretches at the rate div. */
  predicate Stretches(s: Sample, dim: nat, div: real) {
    s.dvxdx + (if dim == 1 then 0.0 else s.dvydy) == div
  }

  /** Ice of thickness c gains a: the mass balance less the grounded melt where phi is positive, the floating melt elsewhere. */
  predicate Supplies(f: Supply, c: real, a: real) {
    && f.thickness == c
    && (f.phi > 0.0 ==> f.massBalance - f.groundedMelt == a)
    && (f.phi <= 0.0 ==> f.massBalance - f.floatingMelt == a)
  }

  ghost predicate UniformCell(e: Cell, c: real, a: real, div: real) {
    && (forall g :: 0 <= g < |e.samples| ==> Stretches(e.samples[g], e.dim, div))
    && (forall g :: 0 <= g < |e.supply| ==> Supplies(e.supply[g], c, a))
  }

  ghost predicate Uniform(es: seq<Cell>, c: real, a: real, div: real) {
    forall i :: 0 <= i < |es| ==> UniformCell(es[i], c, a, div)
  }

  lemma PointUniform(q: Point, s: Sample, f: Supply, dim: nat, size: real, stabilization: int, dt: real, n: nat,
                     c: real, a: real, div: real, h: real, y: seq<real>)
    requires q.PartitionOfUnity(n) && s.flow.Valid() && Stretches(s, dim, div) && Supplies(f, c, a)
    requires h + dt * (div * h) == c + dt * a
    ensures DesignForm(q, s, dim, size, stabilization, dt, y, Constant(n, h)) == Times(SupplyFactor(q, f, dt), q.Value(y))
  {
    hide Dot;
    hide Stabilising;
    hide Constant;
    ConstantField(q, n, h);
    ConstantPoint(q, s.flow, dim, size, stabilization, dt, n, h, y);
    UniformAlgebra(q.weight, q.jdet, dt, div, h, q.Value(y), f.thickness + dt * (f.massBalance - f.Melt()));
  }

  lemma UniformAlgebra(w: real, j: real, dt: real, div: real, h: real, v: real, load: real)
    requires h + dt * (div * h) == load
    ensures Times(w * j, v * h) + Times(dt * w * j, Times(div, v * h)) + Times(dt * w * j, v * 0.0) + Times(dt * w * j, 0.0)
         == Times(j * w * load, v)
  {
    assert w * j * (v * h) + dt * w * j * (div * (v * h)) == w * j * v * (h + dt * (div * h));
  }

  lemma {:induction false} CellUniform(e: Cell, stabilization: int, dt: real, c: real, a: real, div: real, h: real, y: seq<real>, m: nat)
    requires e.Valid() && m <= |e.points| && UniformCell(e, c, a, div) && h + dt * (div * h) == c + dt * a
    ensures CellDesign(e, stabilization, dt, y, Constant(|e.nodes|, h), m) == Dot(SupplyLoad(e, dt, m), y, |e.nodes|)
  {
    hide DesignForm;
    hide Constant;
    hide Dot;
    hide Axpy;
    hide SupplyFactor;
    hide Stretches;
    hide Supplies;
    if m == 0 {
      ZeroForm(|e.nodes|, y, y);
    } else {
      CellUniform(e, stabilization, dt, c, a, div, h, y, m - 1);
      var q, s, f := e.points[m - 1], e.samples[m - 1], e.supply[m - 1];
      PointUniform(q, s, f, e.dim, e.size, stabilization, dt, |e.nodes|, c, a, div, h, y);
      DotAxpy(SupplyLoad(e, dt, m - 1), SupplyFactor(q, f, dt), q.basis, y, |e.nodes|);
    }
  }

  lemma NothingStale(e: Cell, stabilization: int, dt: real, y: seq<real>, x: seq<real>)
    requires e.Valid() && stabilization != 2
    ensures CellStale(e, stabilization, dt, y, x, |e.points|) == 0.0
  {
    hide Carried;
    hide CellStale;
    forall g: nat | g < |e.points| ensures Carried(e, stabilization, dt, g) == 0.0 {
      CarriedZero(e, stabilization, dt, g);
    }
    NeverStale(e, stabilization, dt, y, x, |e.points|);
  }

  lemma {:induction false} MeshUniform(es: seq<Cell>, stabilization: int, dt: real, n: nat, c: real, a: real, div: real, h: real,
                                       y: seq<real>, m: nat)
    requires Masstransport.ValidMesh(es, n) && m <= |es| && stabilization != 2
    requires Uniform(es, c, a, div) && h + dt * (div * h) == c + dt * a
    ensures A.FormSum(Masstransport.System(es, stabilization, dt, n), y, Constant(n, h), m)
         == A.WorkSum(Masstransport.System(es, stabilization, dt, n), y, m)
  {
    hide Form;
    hide Dot;
    hide StiffnessCG;
    hide SupplyLoad;
    hide CellDesign;
    hide CellStale;
    hide Gather;
    hide Constant;
    hide UniformCell;
    if m > 0 {
      MeshUniform(es, stabilization, dt, n, c, a, div, h, y, m - 1);
      var e := es[m - 1];
      GatherConstant(n, h, e.nodes);
      CGForm(e, stabilization, dt, Gather(y, e.nodes), Constant(|e.nodes|, h), |e.points|);
      CellUniform(e, stabilization, dt, c, a, div, h, Gather(y, e.nodes), |e.points|);
      NothingStale(e, stabilization, dt, Gather(y, e.nodes), Constant(|e.nodes|, h));
    }
  }

  /** Uniform ice stays uniform: the new thickness h solves the system where h (1 + dt div) = c + dt a. */
  lemma UniformThickens(es: seq<Cell>, stabilization: int, dt: real, n: nat, c: real, a: real, div: real, h: real)
    requires Masstransport.ValidMesh(es, n) && stabilization != 2
    requires Uniform(es, c, a, div) && h + dt * (div * h) == c + dt * a
    ensures A.Solution(Masstransport.System(es, stabilization, dt, n), n, Constant(n, h))
  {
    hide *;
    var cs := Masstransport.System(es, stabilization, dt, n);
    var x := Constant(n, h);
    forall r: nat | r < n ensures A.FormSum(cs, Unit(n, r), x, |cs|) == A.WorkSum(cs, Unit(n, r), |cs|) {
      MeshUniform(es, stabilization, dt, n, c, a, div, h, Unit(n, r), |es|);
    }
    A.TestedSolution(cs, n, x);
  }
}
