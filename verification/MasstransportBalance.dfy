/**
  The continuous thickness equation balances ice: over the mesh, the new volume plus what the flow carries away
  is the old volume plus the supply, whatever the artificial diffusion; streamline upwinding adds its stale terms.
 */
module MasstransportBalance {
  import opened LinearAlgebra
  import opened Quadrature
  import opened FreeSurface
  import opened FreeSurfaceLaws
  import opened Masstransport
  import opened MasstransportLaws
  import A = Assembly

  datatype Quantity = Volume | Flux | OldVolume | Gain

  /** div(v h) at a point is h div v + v . grad h. */
  function AtPoint(k: Quantity, e: Cell, dt: real, g: nat, x: seq<real>): real
    requires e.Valid() && g < |e.points|
  {
    var q, s, f := e.points[g], e.samples[g], e.supply[g];
    match k
    case Volume => Times(MassFactor(q), q.Value(x))
    case Flux => Times(StepFactor(q, dt), Times(Divergence(s, e.dim), q.Value(x)) + Along(q, s.flow, e.dim, x))
    case OldVolume => Times(MassFactor(q), f.thickness)
    case Gain => Times(StepFactor(q, dt), f.massBalance - f.Melt())
  }

  function CellIntegral(k: Quantity, e: Cell, dt: real, x: seq<real>, m: nat): real
    requires e.Valid() && m <= |e.points|
  {
    if m == 0 then 0.0 else CellIntegral(k, e, dt, x, m - 1) + AtPoint(k, e, dt, m - 1, x)
  }

  function Integral(k: Quantity, es: seq<Cell>, dt: real, n: nat, x: seq<real>, m: nat): real
    requires Masstransport.ValidMesh(es, n) && m <= |es|
  {
    if m == 0 then 0.0
    else
      var e := es[m - 1];
      Integral(k, es, dt, n, x, m - 1) + CellIntegral(k, e, dt, Gather(x, e.nodes), |e.points|)
  }

  /** The stale terms of the mesh, tested by 1. */
  function MeshStale(es: seq<Cell>, stabilization: int, dt: real, n: nat, x: seq<real>, m: nat): real
    requires Masstransport.ValidMesh(es, n) && m <= |es|
  {
    if m == 0 then 0.0
    else
      var e := es[m - 1];
      MeshStale(es, stabilization, dt, n, x, m - 1)
      + CellStale(e, stabilization, dt, Constant(|e.nodes|, 1.0), Gather(x, e.nodes), |e.points|)
  }

  lemma PointTestedByOne(q: Point, s: Sample, f: Supply, dim: nat, size: real, stabilization: int, dt: real, n: nat, x: seq<real>)
    requires q.PartitionOfUnity(n) && s.flow.Valid()
    ensures DesignForm(q, s, dim, size, stabilization, dt, Constant(n, 1.0), x)
         == Times(MassFactor(q), q.Value(x))
            + Times(StepFactor(q, dt), Times(Divergence(s, dim), q.Value(x)) + Along(q, s.flow, dim, x))
    ensures Times(SupplyFactor(q, f, dt), q.Value(Constant(n, 1.0)))
         == Times(MassFactor(q), f.thickness) + Times(StepFactor(q, dt), f.massBalance - f.Melt())
  {
    hide Dot;
    hide Stabilising;
    hide Along;
    hide Constant;
    hide Divergence;
    ConstantField(q, n, 1.0);
    ConstantPoint(q, s.flow, dim, size, stabilization, dt, n, 1.0, x);
    StabilisingSymmetric(q, s.flow, dim, size, stabilization, Constant(n, 1.0), x);
    DesignAlgebra(MassFactor(q), StepFactor(q, dt), Divergence(s, dim), q.Value(x), Along(q, s.flow, dim, x));
    SupplyAlgebra(q.weight, q.jdet, dt, f.thickness, f.massBalance - f.Melt());
  }

  lemma DesignAlgebra(m: real, c: real, d: real, v: real, a: real)
    ensures Times(m, 1.0 * v) + Times(c, Times(d, 1.0 * v)) + Times(c, 1.0 * a) + Times(c, 0.0)
         == Times(m, v) + Times(c, Times(d, v) + a)
  {
  }

  lemma SupplyAlgebra(w: real, j: real, dt: real, h: real, b: real)
    ensures Times(j * w * (h + dt * b), 1.0) == Times(w * j, h) + Times(dt * w * j, b)
  {
  }

  lemma {:induction false} CellTestedByOne(e: Cell, stabilization: int, dt: real, x: seq<real>, m: nat)
    requires e.Valid() && m <= |e.points|
    ensures CellDesign(e, stabilization, dt, Constant(|e.nodes|, 1.0), x, m)
         == CellIntegral(Volume, e, dt, x, m) + CellIntegral(Flux, e, dt, x, m)
    ensures Dot(SupplyLoad(e, dt, m), Constant(|e.nodes|, 1.0), |e.nodes|)
         == CellIntegral(OldVolume, e, dt, x, m) + CellIntegral(Gain, e, dt, x, m)
  {
    hide DesignForm;
    hide Constant;
    hide Times;
    hide Along;
    hide Dot;
    hide Axpy;
    hide SupplyFactor;
    hide MassFactor;
    hide StepFactor;
    hide Divergence;
    var one := Constant(|e.nodes|, 1.0);
    if m == 0 {
      ZeroForm(|e.nodes|, one, one);
    } else {
      var q := e.points[m - 1];
      CellTestedByOne(e, stabilization, dt, x, m - 1);
      PointTestedByOne(q, e.samples[m - 1], e.supply[m - 1], e.dim, e.size, stabilization, dt, |e.nodes|, x);
      DotAxpy(SupplyLoad(e, dt, m - 1), SupplyFactor(q, e.supply[m - 1], dt), q.basis, one, |e.nodes|);
    }
  }

  lemma {:induction false} MeshTestedByOne(es: seq<Cell>, stabilization: int, dt: real, n: nat, x: seq<real>, m: nat)
    requires Masstransport.ValidMesh(es, n) && m <= |es|
    ensures A.FormSum(Masstransport.System(es, stabilization, dt, n), Constant(n, 1.0), x, m)
         == Integral(Volume, es, dt, n, x, m) + Integral(Flux, es, dt, n, x, m) + MeshStale(es, stabilization, dt, n, x, m)
    ensures A.WorkSum(Masstransport.System(es, stabilization, dt, n), Constant(n, 1.0), m)
         == Integral(OldVolume, es, dt, n, x, m) + Integral(Gain, es, dt, n, x, m)
  {
    hide Form;
    hide Dot;
    hide StiffnessCG;
    hide SupplyLoad;
    hide CellDesign;
    hide CellStale;
    hide CellIntegral;
    hide Gather;
    hide Constant;
    if m > 0 {
      MeshTestedByOne(es, stabilization, dt, n, x, m - 1);
      var e := es[m - 1];
      GatherConstant(n, 1.0, e.nodes);
      CGForm(e, stabilization, dt, Constant(|e.nodes|, 1.0), Gather(x, e.nodes), |e.points|);
      CellTestedByOne(e, stabilization, dt, Gather(x, e.nodes), |e.points|);
    }
  }

  /** Ice is balanced up to the stale terms. */
  lemma IceBalance(es: seq<Cell>, stabilization: int, dt: real, n: nat, x: seq<real>)
    requires Masstransport.ValidMesh(es, n) && A.Solution(Masstransport.System(es, stabilization, dt, n), n, x)
    ensures Integral(Volume, es, dt, n, x, |es|) + Integral(Flux, es, dt, n, x, |es|) + MeshStale(es, stabilization, dt, n, x, |es|)
         == Integral(OldVolume, es, dt, n, x, |es|) + Integral(Gain, es, dt, n, x, |es|)
  {
    hide *;
    A.SolutionTested(Masstransport.System(es, stabilization, dt, n), n, x, Constant(n, 1.0));
    MeshTestedByOne(es, stabilization, dt, n, x, |es|);
  }

  /** Without streamline upwinding there are none. */
  lemma {:induction false} MeshNeverStale(es: seq<Cell>, stabilization: int, dt: real, n: nat, x: seq<real>, m: nat)
    requires Masstransport.ValidMesh(es, n) && m <= |es| && stabilization != 2
    ensures MeshStale(es, stabilization, dt, n, x, m) == 0.0
  {
    hide CellStale;
    hide Gather;
    hide Constant;
    hide Carried;
    if m > 0 {
      var e := es[m - 1];
      MeshNeverStale(es, stabilization, dt, n, x, m - 1);
      forall g: nat | g < |e.points| ensures Carried(e, stabilization, dt, g) == 0.0 {
        CarriedZero(e, stabilization, dt, g);
      }
      NeverStale(e, stabilization, dt, Constant(|e.nodes|, 1.0), Gather(x, e.nodes), |e.points|);
    }
  }

  /** Ice is balanced exactly without streamline upwinding. */
  lemma IceConserved(es: seq<Cell>, stabilization: int, dt: real, n: nat, x: seq<real>)
    requires Masstransport.ValidMesh(es, n) && A.Solution(Masstransport.System(es, stabilization, dt, n), n, x)
    requires stabilization != 2
    ensures Integral(Volume, es, dt, n, x, |es|) + Integral(Flux, es, dt, n, x, |es|)
         == Integral(OldVolume, es, dt, n, x, |es|) + Integral(Gain, es, dt, n, x, |es|)
  {
    hide *;
    IceBalance(es, stabilization, dt, n, x);
    MeshNeverStale(es, stabilization, dt, n, x, |es|);
  }
}
