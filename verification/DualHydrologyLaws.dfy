/**
  What the two hydrology layers share: each element's melt load enters exactly one of them, the transfer between them
  cancels node by node when each sees the other's head, and the coupled system balances water over the mesh.
 */
module DualHydrologyLaws {
  import opened LinearAlgebra
  import opened Quadrature
  import opened DualHydrology

  // ---------------------------------------------------------------- forms of the element matrices and loads

  /** Diffusion of x against y. */
  function Diffusing(q: Point, m: Material, dt: real, y: seq<real>, x: seq<real>): real {
    Times(DiffusionFactor(q, m, dt), q.Dx(y) * q.Dx(x) + q.Dy(y) * q.Dy(x))
  }

  function PointForm(q: Point, m: Material, p: Params, exchanges: bool, y: seq<real>, x: seq<real>): real {
    Diffusing(q, m, p.dt, y, x)
    + (if p.dt == 0.0 then 0.0 else Times(StorageFactor(q, m), Times(q.Value(y), q.Value(x))))
    + if p.dt == 0.0 || !exchanges then 0.0 else Times(TransferFactor(q, p), Times(q.Value(y), q.Value(x)))
  }

  function ElementForm(l: Layer, e: Element, p: Params, y: seq<real>, x: seq<real>, m: nat): real
    requires e.Valid() && m <= |e.points|
  {
    if m == 0 then 0.0
    else ElementForm(l, e, p, y, x, m - 1) + PointForm(e.points[m - 1], e.samples[m - 1].Of(l), p, e.Exchanges(l, p), y, x)
  }

  function PointWork(q: Point, s: Sample, l: Layer, p: Params, loaded: bool, transfer: real, y: seq<real>): real {
    (if loaded then Times(LoadFactor(q, s, p.dt), q.Value(y)) else 0.0)
    + if p.dt == 0.0 then 0.0 else Times(MemoryFactor(q, s.Of(l), p.dt, transfer), q.Value(y))
  }

  function ElementWork(l: Layer, e: Element, p: Params, otherHead: seq<real>, y: seq<real>, m: nat): real
    requires e.Valid() && m <= |e.points|
  {
    if m == 0 then 0.0
    else
      var q := e.points[m - 1];
      ElementWork(l, e, p, otherHead, y, m - 1)
      + PointWork(q, e.samples[m - 1], l, p, e.Loaded(l, p), Sent(l, e, p, q, otherHead), y)
  }

  lemma DiffusionForm(q: Point, m: Material, dt: real, y: seq<real>, x: seq<real>, n: nat)
    requires q.Sized(n)
    ensures Sandwich(Gradient(q), Isotropic(DiffusionFactor(q, m, dt)), Gradient(q), y, x, n, 2, 2) == Diffusing(q, m, dt, y, x)
  {
    hide Dot;
    hide Sandwich;
    hide DiffusionFactor;
    var c := DiffusionFactor(q, m, dt);
    SandwichTwo(q.dx, q.dy, c, 0.0, 0.0, c, q.dx, q.dy, y, x, n);
    IsotropicAlgebra(c, q.Dx(y), q.Dx(x), q.Dy(y), q.Dy(x));
  }

  lemma IsotropicAlgebra(c: real, a: real, a': real, b: real, b': real)
    ensures Times(c, Times(a, a')) + Times(0.0, Times(a, b')) + Times(0.0, Times(b, a')) + Times(c, Times(b, b'))
         == Times(c, a * a' + b * b')
  {
  }

  lemma WithPointForm(v: Matrix, q: Point, m: Material, p: Params, exchanges: bool, y: seq<real>, x: seq<real>, n: nat)
    requires Shape(v, n, n) && q.Sized(n)
    ensures Shape(WithPoint(v, q, m, p, exchanges), n, n)
    ensures Form(WithPoint(v, q, m, p, exchanges), y, x, n, n) == Form(v, y, x, n, n) + PointForm(q, m, p, exchanges, y, x)
  {
    hide Form;
    hide Dot;
    hide OuterSum;
    hide TripleSum;
    hide Sandwich;
    hide Gradient;
    hide Isotropic;
    hide Diffusing;
    hide StorageFactor;
    hide TransferFactor;
    hide Times;
    var c := DiffusionFactor(q, m, p.dt);
    var diffused := TripleSum(v, Gradient(q), Isotropic(c), Gradient(q), 2, 2);
    FormTriple(v, Gradient(q), Isotropic(c), Gradient(q), y, x, n, 2, 2);
    DiffusionForm(q, m, p.dt, y, x, n);
    if p.dt != 0.0 {
      var stored := OuterSum(diffused, StorageFactor(q, m), q.basis, q.basis);
      FormOuter(diffused, StorageFactor(q, m), q.basis, q.basis, y, x, n);
      FormOuter(stored, TransferFactor(q, p), q.basis, q.basis, y, x, n);
    }
  }

  lemma {:induction false} StiffnessForm(l: Layer, e: Element, p: Params, y: seq<real>, x: seq<real>, m: nat)
    requires e.Valid() && m <= |e.points|
    ensures Shape(Stiffness(l, e, p, m), |e.nodes|, |e.nodes|)
    ensures Form(Stiffness(l, e, p, m), y, x, |e.nodes|, |e.nodes|) == ElementForm(l, e, p, y, x, m)
  {
    hide Form;
    hide WithPoint;
    hide PointForm;
    if m == 0 {
      ZeroForm(|e.nodes|, y, x);
    } else {
      StiffnessForm(l, e, p, y, x, m - 1);
      WithPointForm(Stiffness(l, e, p, m - 1), e.points[m - 1], e.samples[m - 1].Of(l), p, e.Exchanges(l, p), y, x, |e.nodes|);
    }
  }

  lemma {:induction false} PointLoadsWork(l: Layer, e: Element, p: Params, otherHead: seq<real>, y: seq<real>, m: nat)
    requires e.Valid() && m <= |e.points|
    ensures Dot(PointLoads(l, e, p, otherHead, m), y, |e.nodes|) == ElementWork(l, e, p, otherHead, y, m)
  {
    hide Dot;
    hide Axpy;
    hide LoadFactor;
    hide MemoryFactor;
    hide Sent;
    hide Times;
    if m == 0 {
      ZeroForm(|e.nodes|, y, y);
    } else {
      var q, s := e.points[m - 1], e.samples[m - 1];
      var v := PointLoads(l, e, p, otherHead, m - 1);
      PointLoadsWork(l, e, p, otherHead, y, m - 1);
      var w := if e.Loaded(l, p) then Axpy(v, LoadFactor(q, s, p.dt), q.basis) else v;
      DotAxpy(v, LoadFactor(q, s, p.dt), q.basis, y, |e.nodes|);
      DotAxpy(w, MemoryFactor(q, s.Of(l), p.dt, Sent(l, e, p, q, otherHead)), q.basis, y, |e.nodes|);
    }
  }

  lemma LoadWork(l: Layer, e: Element, p: Params, otherHead: seq<real>, y: seq<real>)
    requires e.Valid()
    ensures Dot(Load(l, e, p, otherHead), y, |e.nodes|)
         == ElementWork(l, e, p, otherHead, y, |e.points|) + if l.Efficient? then Dot(Shares(e), y, |e.nodes|) else 0.0
  {
    hide Dot;
    hide PointLoads;
    hide ElementWork;
    hide Shares;
    var r := PointLoads(l, e, p, otherHead, |e.points|);
    PointLoadsWork(l, e, p, otherHead, y, |e.points|);
    DotPlus(y, r, Shares(e), |e.nodes|);
    DotSymmetric(y, Plus(r, Shares(e)), |e.nodes|);
    DotSymmetric(y, r, |e.nodes|);
    DotSymmetric(y, Shares(e), |e.nodes|);
  }

  // ---------------------------------------------------------------- the coupled residual of an element

  /** K * head - P of one layer, tested by y. */
  function LayerResidual(l: Layer, e: Element, p: Params, y: seq<real>, head: seq<real>, otherHead: seq<real>): real
    requires e.Valid()
  {
    Form(Stiffness(l, e, p, |e.points|), y, head, |e.nodes|, |e.nodes|) - Dot(Load(l, e, p, otherHead), y, |e.nodes|)
  }

  /** Both layers' residuals; the efficient layer takes part where it is active. */
  function CoupledResidual(e: Element, p: Params, y: seq<real>, sediment: seq<real>, efficient: seq<real>): real
    requires e.Valid()
  {
    LayerResidual(Sediment, e, p, y, sediment, efficient)
    + if e.Coupled(p) then LayerResidual(Efficient, e, p, y, efficient, sediment) else 0.0
  }

  /** The change of stored water in a transient run. */
  function Storing(q: Point, m: Material, dt: real, y: seq<real>, head: seq<real>): real {
    if dt == 0.0 then 0.0 else Times(StorageFactor(q, m), Times(q.Value(y), q.Value(head) - m.previousHead))
  }

  /** Diffusion and storage of one layer. */
  function Flow(l: Layer, e: Element, p: Params, g: nat, y: seq<real>, head: seq<real>): real
    requires e.Valid() && g < |e.points|
  {
    Diffusing(e.points[g], e.samples[g].Of(l), p.dt, y, head) + Storing(e.points[g], e.samples[g].Of(l), p.dt, y, head)
  }

  /** One point of the coupled balance. There is one load, whichever layer takes it, and no transfer. */
  function PointBalance(e: Element, p: Params, g: nat, y: seq<real>, sediment: seq<real>, efficient: seq<real>): real
    requires e.Valid() && g < |e.points|
  {
    Flow(Sediment, e, p, g, y, sediment)
    + (if e.Coupled(p) then Flow(Efficient, e, p, g, y, efficient) else 0.0)
    - Times(LoadFactor(e.points[g], e.samples[g], p.dt), e.points[g].Value(y))
  }

  function Balance(e: Element, p: Params, y: seq<real>, sediment: seq<real>, efficient: seq<real>, m: nat): real
    requires e.Valid() && m <= |e.points|
  {
    if m == 0 then 0.0 else Balance(e, p, y, sediment, efficient, m - 1) + PointBalance(e, p, m - 1, y, sediment, efficient)
  }

  /** Form minus work of one layer at a point: its flow, its load if any, and what it gives minus what it gets. */
  lemma PointLayer(l: Layer, e: Element, p: Params, g: nat, y: seq<real>, head: seq<real>, otherHead: seq<real>)
    requires e.Valid() && g < |e.points|
    ensures var q, s := e.points[g], e.samples[g];
      PointForm(q, s.Of(l), p, e.Exchanges(l, p), y, head)
      - PointWork(q, s, l, p, e.Loaded(l, p), Sent(l, e, p, q, otherHead), y)
      == Flow(l, e, p, g, y, head)
         - (if e.Loaded(l, p) then Times(LoadFactor(q, s, p.dt), q.Value(y)) else 0.0)
         + if p.dt == 0.0 || !e.Exchanges(l, p) then 0.0
           else Times(TransferFactor(q, p), Times(q.Value(y), q.Value(head) - q.Value(otherHead)))
  {
    hide Dot;
    hide Diffusing;
    hide LoadFactor;
    hide StorageFactor;
    hide TransferFactor;
    hide MemoryFactor;
    hide Times;
    hide Params.Transfer;
    var q, m := e.points[g], e.samples[g].Of(l);
    MemoryExchanged(q, m, p, q.Value(y), q.Value(head), q.Value(otherHead));
    MemoryKept(q, m, p.dt, q.Value(y), q.Value(head));
  }

  lemma MemoryExchanged(q: Point, m: Material, p: Params, y: real, h: real, o: real)
    ensures Times(StorageFactor(q, m), Times(y, h)) + Times(TransferFactor(q, p), Times(y, h))
            - Times(MemoryFactor(q, m, p.dt, Times(o, p.Transfer())), y)
         == Times(StorageFactor(q, m), Times(y, h - m.previousHead)) + Times(TransferFactor(q, p), Times(y, h - o))
  {
  }

  lemma MemoryKept(q: Point, m: Material, dt: real, y: real, h: real)
    ensures Times(StorageFactor(q, m), Times(y, h)) - Times(MemoryFactor(q, m, dt, 0.0), y)
         == Times(StorageFactor(q, m), Times(y, h - m.previousHead))
  {
  }

  lemma PointCoupled(e: Element, p: Params, g: nat, y: seq<real>, sediment: seq<real>, efficient: seq<real>)
    requires e.Valid() && g < |e.points|
    ensures var q, s := e.points[g], e.samples[g];
      PointForm(q, s.Of(Sediment), p, e.Exchanges(Sediment, p), y, sediment)
      - PointWork(q, s, Sediment, p, e.Loaded(Sediment, p), Sent(Sediment, e, p, q, efficient), y)
      + (if e.Coupled(p) then
           PointForm(q, s.Of(Efficient), p, e.Exchanges(Efficient, p), y, efficient)
           - PointWork(q, s, Efficient, p, e.Loaded(Efficient, p), Sent(Efficient, e, p, q, sediment), y)
         else 0.0)
      == PointBalance(e, p, g, y, sediment, efficient)
  {
    hide Dot;
    hide Flow;
    hide LoadFactor;
    hide TransferFactor;
    hide PointForm;
    hide PointWork;
    hide Sent;
    PointLayer(Sediment, e, p, g, y, sediment, efficient);
    PointLayer(Efficient, e, p, g, y, efficient, sediment);
    var q := e.points[g];
    Opposite(TransferFactor(q, p), q.Value(y), q.Value(sediment), q.Value(efficient));
  }

  lemma Opposite(c: real, y: real, a: real, b: real)
    ensures Times(c, Times(y, a - b)) + Times(c, Times(y, b - a)) == 0.0
  {
  }

  lemma {:induction false} CoupledSum(e: Element, p: Params, y: seq<real>, sediment: seq<real>, efficient: seq<real>, m: nat)
    requires e.Valid() && m <= |e.points|
    ensures ElementForm(Sediment, e, p, y, sediment, m) - ElementWork(Sediment, e, p, efficient, y, m)
            + (if e.Coupled(p) then
                 ElementForm(Efficient, e, p, y, efficient, m) - ElementWork(Efficient, e, p, sediment, y, m)
               else 0.0)
         == Balance(e, p, y, sediment, efficient, m)
  {
    hide PointForm;
    hide PointWork;
    hide PointBalance;
    hide Sent;
    hide Element.Exchanges;
    hide Element.Loaded;
    if m > 0 {
      CoupledSum(e, p, y, sediment, efficient, m - 1);
      PointCoupled(e, p, m - 1, y, sediment, efficient);
    }
  }

  /**
    The layers' residuals add up to diffusion, storage, one melt load and the element's share of the sediment residual:
    whatever one layer gives, the other gets.
   */
  lemma CoupledBalance(e: Element, p: Params, y: seq<real>, sediment: seq<real>, efficient: seq<real>)
    requires e.Valid()
    ensures CoupledResidual(e, p, y, sediment, efficient)
         == Balance(e, p, y, sediment, efficient, |e.points|) - if e.Coupled(p) then Dot(Shares(e), y, |e.nodes|) else 0.0
  {
    hide *;
    CoupledResidualIs(e, p, y, sediment, efficient);
    StiffnessForm(Sediment, e, p, y, sediment, |e.points|);
    StiffnessForm(Efficient, e, p, y, efficient, |e.points|);
    LoadWork(Sediment, e, p, efficient, y);
    LoadWork(Efficient, e, p, sediment, y);
    CoupledSum(e, p, y, sediment, efficient, |e.points|);
  }

  lemma CoupledResidualIs(e: Element, p: Params, y: seq<real>, sediment: seq<real>, efficient: seq<real>)
    requires e.Valid()
    ensures CoupledResidual(e, p, y, sediment, efficient)
         == Form(Stiffness(Sediment, e, p, |e.points|), y, sediment, |e.nodes|, |e.nodes|)
            - Dot(Load(Sediment, e, p, efficient), y, |e.nodes|)
            + if e.Coupled(p) then
                Form(Stiffness(Efficient, e, p, |e.points|), y, efficient, |e.nodes|, |e.nodes|)
                - Dot(Load(Efficient, e, p, sediment), y, |e.nodes|)
              else 0.0
  {
    hide Form;
    hide Dot;
    hide Stiffness;
    hide Load;
  }

  /** The residual of a layer at node i. */
  function NodeResidual(l: Layer, e: Element, p: Params, i: nat, head: seq<real>, otherHead: seq<real>): real
    requires e.Valid() && i < |e.nodes|
  {
    Dot(RowAt(Stiffness(l, e, p, |e.points|), i), head, |e.nodes|) - At(Load(l, e, p, otherHead), i)
  }

  lemma NodeIsTest(l: Layer, e: Element, p: Params, i: nat, head: seq<real>, otherHead: seq<real>)
    requires e.Valid() && i < |e.nodes|
    ensures NodeResidual(l, e, p, i, head, otherHead) == LayerResidual(l, e, p, Unit(|e.nodes|, i), head, otherHead)
  {
    hide Dot;
    hide Form;
    hide Stiffness;
    hide Load;
    FormUnit(Stiffness(l, e, p, |e.points|), i, head, |e.nodes|);
    DotUnit(Load(l, e, p, otherHead), |e.nodes|, i, |e.nodes|);
  }

  lemma {:induction false} BalanceIgnoresTransfer(e: Element, p: Params, p': Params, y: seq<real>, sediment: seq<real>,
                                                  efficient: seq<real>, m: nat)
    requires e.Valid() && m <= |e.points|
    requires p'.dt == p.dt && p'.hasEfficientLayer == p.hasEfficientLayer
    ensures Balance(e, p, y, sediment, efficient, m) == Balance(e, p', y, sediment, efficient, m)
  {
    hide Diffusing;
    hide LoadFactor;
    hide Storing;
    hide Dot;
    if m > 0 {
      BalanceIgnoresTransfer(e, p, p', y, sediment, efficient, m - 1);
    }
  }

  /**
    Node by node, the transfer cancels in an active element: the two layers' residuals add up to the same whatever the
    transfer method and the leakage, for every pair of heads.
   */
  lemma TransferCancels(e: Element, p: Params, p': Params, i: nat, sediment: seq<real>, efficient: seq<real>)
    requires e.Valid() && e.Coupled(p) && i < |e.nodes|
    requires p'.dt == p.dt && p'.hasEfficientLayer == p.hasEfficientLayer
    ensures NodeResidual(Sediment, e, p, i, sediment, efficient) + NodeResidual(Efficient, e, p, i, efficient, sediment)
         == NodeResidual(Sediment, e, p', i, sediment, efficient) + NodeResidual(Efficient, e, p', i, efficient, sediment)
  {
    hide NodeResidual;
    hide LayerResidual;
    hide Balance;
    hide Dot;
    hide Shares;
    hide Unit;
    var y := Unit(|e.nodes|, i);
    NodeIsTest(Sediment, e, p, i, sediment, efficient);
    NodeIsTest(Efficient, e, p, i, efficient, sediment);
    NodeIsTest(Sediment, e, p', i, sediment, efficient);
    NodeIsTest(Efficient, e, p', i, efficient, sediment);
    CoupledBalance(e, p, y, sediment, efficient);
    CoupledBalance(e, p', y, sediment, efficient);
    BalanceIgnoresTransfer(e, p, p', y, sediment, efficient, |e.points|);
  }
}
