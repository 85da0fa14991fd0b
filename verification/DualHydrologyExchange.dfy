/** The law of one layer in terms of its parameters: flow, storage, melt, and the exchange that its leakage drives. */
module DualHydrologyExchange {
  import opened LinearAlgebra
  import opened Quadrature
  import opened DualHydrology
  import opened DualHydrologyLaws

  /**
    What the water of a layer does at a point, per unit of weight: slopes is the product of the gradients, y, head and
    otherHead the values of the test field and of the two heads.
   */
  function WaterDensity(m: Material, waterLoad: real, takesMelt: bool, exchanges: bool, dt: real, kappa: real,
                        slopes: real, y: real, head: real, otherHead: real): real {
    var flow := m.transmitivity * slopes;
    var melt := if takesMelt then waterLoad * y else 0.0;
    if dt == 0.0 then flow - melt
    else
      dt * (flow - melt) + m.storing * (y * (head - m.previousHead))
      + if exchanges then kappa * dt * (y * (head - otherHead)) else 0.0
  }

  function Slopes(q: Point, y: seq<real>, head: seq<real>): real {
    q.Dx(y) * q.Dx(head) + q.Dy(y) * q.Dy(head)
  }

  /** The melt goes to the efficient layer where that is there and active; there, too, the sediment layer exchanges. */
  function Density(l: Layer, e: Element, p: Params, kappa: real, g: nat, y: seq<real>, head: seq<real>, otherHead: seq<real>): real
    requires e.Valid() && g < |e.points|
  {
    var q, s, joined := e.points[g], e.samples[g], p.hasEfficientLayer && e.active;
    WaterDensity(if l.Sediment? then s.sediment else s.efficient, s.waterLoad, l.Efficient? || !joined, l.Efficient? || joined,
                 p.dt, kappa, Slopes(q, y, head), q.Value(y), q.Value(head), q.Value(otherHead))
  }

  function DensitySum(l: Layer, e: Element, p: Params, kappa: real, y: seq<real>, head: seq<real>, otherHead: seq<real>, m: nat): real
    requires e.Valid() && m <= |e.points|
  {
    if m == 0 then 0.0
    else DensitySum(l, e, p, kappa, y, head, otherHead, m - 1)
         + Weighted(e.points[m - 1], Density(l, e, p, kappa, m - 1, y, head, otherHead))
  }

  function Weighted(q: Point, density: real): real {
    q.weight * q.jdet * density
  }

  /** The leakage drives the exchange under transfer method 1, and nothing does under method 0. */
  ghost predicate Leaks(p: Params, kappa: real) {
    (p.transferFlag == 1 ==> kappa == p.leakage) && (p.transferFlag == 0 ==> kappa == 0.0)
  }

  lemma RealLaw(q: Point, s: Sample, m: Material, p: Params, kappa: real, loaded: bool, exchanges: bool,
                slopes: real, y: real, h: real, o: real)
    requires p.Supported() && Leaks(p, kappa)
    ensures Times(DiffusionFactor(q, m, p.dt), slopes)
            + (if p.dt == 0.0 then 0.0 else Times(StorageFactor(q, m), Times(y, h - m.previousHead)))
            - (if loaded then Times(LoadFactor(q, s, p.dt), y) else 0.0)
            + (if p.dt == 0.0 || !exchanges then 0.0 else Times(TransferFactor(q, p), Times(y, h - o)))
         == Weighted(q, WaterDensity(m, s.waterLoad, loaded, exchanges, p.dt, kappa, slopes, y, h, o))
  {
    hide DiffusionFactor;
    hide StorageFactor;
    hide LoadFactor;
    hide TransferFactor;
    hide Times;
    hide Weighted;
    var flow, melt := m.transmitivity * slopes, if loaded then s.waterLoad * y else 0.0;
    var stored, traded := m.storing * (y * (h - m.previousHead)), kappa * p.dt * (y * (h - o));
    FlowLaw(q, m, p.dt, slopes, y, h, flow, stored);
    MeltLaw(q, s, p.dt, y, s.waterLoad * y);
    ExchangeLaw(q, p, kappa, y, h, o, traded);
    NothingWeighted(q, p.dt);
    Gathered(q, p.dt, flow, melt, stored, if exchanges then traded else 0.0,
             WaterDensity(m, s.waterLoad, loaded, exchanges, p.dt, kappa, slopes, y, h, o));
  }

  lemma FlowLaw(q: Point, m: Material, dt: real, slopes: real, y: real, h: real, flow: real, stored: real)
    requires flow == m.transmitivity * slopes && stored == m.storing * (y * (h - m.previousHead))
    ensures dt == 0.0 ==> Times(DiffusionFactor(q, m, dt), slopes) == Weighted(q, flow)
    ensures dt != 0.0 ==> Times(DiffusionFactor(q, m, dt), slopes) == Times(dt, Weighted(q, flow))
    ensures Times(StorageFactor(q, m), Times(y, h - m.previousHead)) == Weighted(q, stored)
  {
  }

  lemma MeltLaw(q: Point, s: Sample, dt: real, y: real, melt: real)
    requires melt == s.waterLoad * y
    ensures dt == 0.0 ==> Times(LoadFactor(q, s, dt), y) == Weighted(q, melt)
    ensures dt != 0.0 ==> Times(LoadFactor(q, s, dt), y) == Times(dt, Weighted(q, melt))
  {
  }

  lemma ExchangeLaw(q: Point, p: Params, kappa: real, y: real, h: real, o: real, traded: real)
    requires p.Supported() && Leaks(p, kappa) && traded == kappa * p.dt * (y * (h - o))
    ensures Times(TransferFactor(q, p), Times(y, h - o)) == Weighted(q, traded)
  {
    assert p.Transfer() == kappa;
  }

  lemma Gathered(q: Point, dt: real, flow: real, melt: real, stored: real, traded: real, density: real)
    requires density == if dt == 0.0 then flow - melt else dt * (flow - melt) + stored + traded
    ensures dt == 0.0 ==> Weighted(q, flow) - Weighted(q, melt) == Weighted(q, density)
    ensures dt != 0.0 ==>
      Times(dt, Weighted(q, flow)) - Times(dt, Weighted(q, melt)) + Weighted(q, stored) + Weighted(q, traded) == Weighted(q, density)
  {
    var w := q.weight * q.jdet;
    if dt != 0.0 {
      Distribute(dt, flow, -melt);
      assert w * (dt * flow) == dt * (w * flow) && w * (dt * -melt) == -(dt * (w * melt));
      assert w * density == w * (dt * flow) + w * (dt * -melt) + w * stored + w * traded;
    }
  }

  lemma NothingWeighted(q: Point, dt: real)
    ensures Weighted(q, 0.0) == 0.0 && Times(dt, 0.0) == 0.0
  {
  }

  lemma PointLaw(l: Layer, e: Element, p: Params, kappa: real, g: nat, y: seq<real>, head: seq<real>, otherHead: seq<real>)
    requires e.Valid() && p.Supported() && Leaks(p, kappa) && g < |e.points|
    ensures var q, s := e.points[g], e.samples[g];
      PointForm(q, s.Of(l), p, e.Exchanges(l, p), y, head)
      - PointWork(q, s, l, p, e.Loaded(l, p), Sent(l, e, p, q, otherHead), y)
      == Weighted(q, Density(l, e, p, kappa, g, y, head, otherHead))
  {
    hide Dot;
    hide PointForm;
    hide PointWork;
    hide Sent;
    hide WaterDensity;
    hide Weighted;
    hide DiffusionFactor;
    hide StorageFactor;
    hide LoadFactor;
    hide TransferFactor;
    hide Leaks;
    hide Slopes;
    hide Diffusing;
    hide Times;
    PointLayer(l, e, p, g, y, head, otherHead);
    var q, s := e.points[g], e.samples[g];
    RealLaw(q, s, s.Of(l), p, kappa, e.Loaded(l, p), e.Exchanges(l, p), Slopes(q, y, head), q.Value(y), q.Value(head), q.Value(otherHead));
    SlopesDiffuse(q, s.Of(l), p.dt, y, head);
  }

  lemma SlopesDiffuse(q: Point, m: Material, dt: real, y: seq<real>, head: seq<real>)
    ensures Diffusing(q, m, dt, y, head) == Times(DiffusionFactor(q, m, dt), Slopes(q, y, head))
  {
  }

  lemma {:induction false} LawSum(l: Layer, e: Element, p: Params, kappa: real, y: seq<real>, head: seq<real>,
                                  otherHead: seq<real>, m: nat)
    requires e.Valid() && p.Supported() && Leaks(p, kappa) && m <= |e.points|
    ensures ElementForm(l, e, p, y, head, m) - ElementWork(l, e, p, otherHead, y, m)
         == DensitySum(l, e, p, kappa, y, head, otherHead, m)
  {
    hide PointForm;
    hide PointWork;
    hide Sent;
    hide Density;
    hide Weighted;
    hide Leaks;
    if m > 0 {
      LawSum(l, e, p, kappa, y, head, otherHead, m - 1);
      PointLaw(l, e, p, kappa, m - 1, y, head, otherHead);
    }
  }

  /**
    The residual of one layer: flow, storage, minus melt where the layer takes it, plus what leaks to the other layer in
    proportion to the difference of the heads, minus the overflow handed over.
   */
  lemma LayerLaw(l: Layer, e: Element, p: Params, kappa: real, y: seq<real>, head: seq<real>, otherHead: seq<real>)
    requires e.Valid() && p.Supported() && Leaks(p, kappa)
    ensures LayerResidual(l, e, p, y, head, otherHead)
         == DensitySum(l, e, p, kappa, y, head, otherHead, |e.points|)
            - if l.Efficient? then Dot(Shares(e), y, |e.nodes|) else 0.0
  {
    hide Form;
    hide Dot;
    hide Stiffness;
    hide Load;
    hide ElementForm;
    hide ElementWork;
    hide DensitySum;
    StiffnessForm(l, e, p, y, head, |e.points|);
    LoadWork(l, e, p, otherHead, y);
    LawSum(l, e, p, kappa, y, head, otherHead, |e.points|);
  }

  /** Raising the other layer's head by c, where the layers exchange, draws kappa * dt * c from it. */
  lemma {:induction false} ExchangeGrows(l: Layer, e: Element, p: Params, kappa: real, y: seq<real>, head: seq<real>,
                                         otherHead: seq<real>, c: real, rate: real, m: nat)
    requires e.Valid() && p.dt != 0.0 && m <= |e.points| && |otherHead| == |e.nodes| && rate == kappa * p.dt * c
    requires l.Efficient? || (p.hasEfficientLayer && e.active)
    ensures DensitySum(l, e, p, kappa, y, head, Plus(otherHead, Constant(|e.nodes|, c)), m)
         == DensitySum(l, e, p, kappa, y, head, otherHead, m) - Times(rate, Tested(e, y, m))
  {
    hide Dot;
    hide Plus;
    hide Constant;
    hide Density;
    hide Weighted;
    hide Times;
    TimesZero(rate);
    if m > 0 {
      ExchangeGrows(l, e, p, kappa, y, head, otherHead, c, rate, m - 1);
      var q := e.points[m - 1];
      DensityRaised(l, e, p, kappa, y, head, otherHead, c, rate, m - 1);
      TimesSum(rate, Tested(e, y, m - 1), Weighted(q, q.Value(y)));
    }
  }

  lemma DensityRaised(l: Layer, e: Element, p: Params, kappa: real, y: seq<real>, head: seq<real>, otherHead: seq<real>, c: real,
                      rate: real, g: nat)
    requires e.Valid() && p.dt != 0.0 && g < |e.points| && |otherHead| == |e.nodes| && rate == kappa * p.dt * c
    requires l.Efficient? || (p.hasEfficientLayer && e.active)
    ensures var q := e.points[g];
      Weighted(q, Density(l, e, p, kappa, g, y, head, Plus(otherHead, Constant(|e.nodes|, c))))
      == Weighted(q, Density(l, e, p, kappa, g, y, head, otherHead)) - Times(rate, Weighted(q, q.Value(y)))
  {
    hide Dot;
    hide Plus;
    hide Constant;
    var q := e.points[g];
    RaisedValue(q, otherHead, c, |e.nodes|);
    var rest := Density(l, e, p, kappa, g, y, head, otherHead)
                - kappa * p.dt * (q.Value(y) * (q.Value(head) - q.Value(otherHead)));
    RaisedAlgebra(q.weight * q.jdet, kappa * p.dt, q.Value(y), q.Value(head), q.Value(otherHead), c, rest, rate);
  }

  /** The integral of a test field over the first m points. */
  function Tested(e: Element, y: seq<real>, m: nat): real
    requires e.Valid() && m <= |e.points|
  {
    if m == 0 then 0.0 else Tested(e, y, m - 1) + Weighted(e.points[m - 1], e.points[m - 1].Value(y))
  }


  lemma RaisedValue(q: Point, h: seq<real>, c: real, n: nat)
    requires q.PartitionOfUnity(n) && |h| == n
    ensures q.Value(Plus(h, Constant(n, c))) == q.Value(h) + c
  {
    hide Dot;
    DotPlus(q.basis, h, Constant(n, c), n);
    ConstantField(q, n, c);
  }

  lemma RaisedAlgebra(w: real, k: real, y: real, h: real, o: real, c: real, rest: real, rate: real)
    requires rate == k * c
    ensures w * (rest + k * (y * (h - (o + c)))) == w * (rest + k * (y * (h - o))) - Times(rate, w * y)
  {
    assert k * (y * (h - (o + c))) == k * (y * (h - o)) - rate * y;
  }

  /** Raising the other layer's head everywhere by c moves kappa * dt * c of water per unit area between the layers. */
  lemma RaisedHeadGives(l: Layer, e: Element, p: Params, kappa: real, y: seq<real>, head: seq<real>, otherHead: seq<real>, c: real)
    requires e.Valid() && p.Supported() && Leaks(p, kappa) && p.dt != 0.0 && |otherHead| == |e.nodes|
    requires l.Efficient? || (p.hasEfficientLayer && e.active)
    ensures LayerResidual(l, e, p, y, head, Plus(otherHead, Constant(|e.nodes|, c)))
         == LayerResidual(l, e, p, y, head, otherHead) - kappa * p.dt * c * Tested(e, y, |e.points|)
  {
    hide LayerResidual;
    hide DensitySum;
    hide Tested;
    hide Dot;
    hide Shares;
    hide Leaks;
    var raised := Plus(otherHead, Constant(|e.nodes|, c));
    LayerLaw(l, e, p, kappa, y, head, otherHead);
    LayerLaw(l, e, p, kappa, y, head, raised);
    ExchangeGrows(l, e, p, kappa, y, head, otherHead, c, kappa * p.dt * c, |e.points|);
  }
}
