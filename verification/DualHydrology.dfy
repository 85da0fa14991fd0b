/**
  Double-continuum hydrology: the sediment layer and the efficient drainage layer (EPL) that opens above it.

  Both layers hold a hydraulic head on the same basal elements. Where the efficient layer is active it takes the melt
  load, and the layers exchange water in proportion to the difference of their heads.
 */
module DualHydrology {
  import opened LinearAlgebra
  import opened Quadrature
  import A = Assembly

  datatype Layer = Sediment | Efficient

  datatype Params = Params(dt: real, hasEfficientLayer: bool, transferFlag: int, leakage: real) {
    /** Transfer methods above 1 do not exist. */
    predicate Supported() {
      transferFlag == 0 || transferFlag == 1
    }

    function Transfer(): real {
      if transferFlag == 1 then leakage else 0.0
    }
  }

  /** A layer's material at a quadrature point, and its head at the previous time step. */
  datatype Material = Material(transmitivity: real, storing: real, previousHead: real)

  datatype Sample = Sample(sediment: Material, efficient: Material, waterLoad: real) {
    function Of(l: Layer): Material {
      if l.Sediment? then sediment else efficient
    }
  }

  /** residual is the sediment water above its limit, at each node; connectivity counts the elements around the node. */
  datatype Element = Element(nodes: seq<nat>, points: seq<Point>, samples: seq<Sample>, active: bool,
                             residual: seq<real>, connectivity: seq<nat>) {
    ghost predicate Valid() {
      && |points| == |samples|
      && |residual| == |connectivity| == |nodes|
      && (forall g :: 0 <= g < |points| ==> points[g].PartitionOfUnity(|nodes|))
      && (forall i :: 0 <= i < |connectivity| ==> connectivity[i] > 0)
    }

    predicate Coupled(p: Params) {
      p.hasEfficientLayer && active
    }

    /** The layer's share of the element has a transfer term. */
    predicate Exchanges(l: Layer, p: Params) {
      l.Efficient? || Coupled(p)
    }

    /** The layer takes the element's melt load. */
    predicate Loaded(l: Layer, p: Params) {
      l.Efficient? || !Coupled(p)
    }
  }

  // ---------------------------------------------------------------- the stiffness

  function Gradient(q: Point): Matrix {
    [q.dx, q.dy]
  }

  function Isotropic(c: real): Matrix {
    [[c, 0.0], [0.0, c]]
  }

  function DiffusionFactor(q: Point, m: Material, dt: real): real {
    if dt != 0.0 then m.transmitivity * q.weight * q.jdet * dt else m.transmitivity * q.weight * q.jdet
  }

  function StorageFactor(q: Point, m: Material): real {
    m.storing * q.weight * q.jdet
  }

  function TransferFactor(q: Point, p: Params): real {
    p.dt * p.Transfer() * q.weight * q.jdet
  }

  /** v plus one point's diffusion and, in transient runs, storage and transfer. */
  function WithPoint(v: Matrix, q: Point, m: Material, p: Params, exchanges: bool): Matrix {
    var diffused := TripleSum(v, Gradient(q), Isotropic(DiffusionFactor(q, m, p.dt)), Gradient(q), 2, 2);
    if p.dt == 0.0 then diffused
    else
      var stored := OuterSum(diffused, StorageFactor(q, m), q.basis, q.basis);
      if exchanges then OuterSum(stored, TransferFactor(q, p), q.basis, q.basis) else stored
  }

  function Stiffness(l: Layer, e: Element, p: Params, m: nat): Matrix
    requires e.Valid() && m <= |e.points|
  {
    if m == 0 then ZeroMatrix(|e.nodes|)
    else WithPoint(Stiffness(l, e, p, m - 1), e.points[m - 1], e.samples[m - 1].Of(l), p, e.Exchanges(l, p))
  }

  // ---------------------------------------------------------------- the load

  function LoadFactor(q: Point, s: Sample, dt: real): real {
    if dt != 0.0 then q.jdet * q.weight * s.waterLoad * dt else q.jdet * q.weight * s.waterLoad
  }

  /** The stored water of the previous step, and what the other layer's head sends. */
  function MemoryFactor(q: Point, m: Material, dt: real, transfer: real): real {
    q.jdet * q.weight * (m.previousHead * m.storing + dt * transfer)
  }

  /** v plus one point's load and, in transient runs, memory. */
  function WithPointLoad(v: seq<real>, q: Point, s: Sample, l: Layer, p: Params, loaded: bool, transfer: real): (r: seq<real>)
    ensures |r| == |v|
  {
    var w := if loaded then Axpy(v, LoadFactor(q, s, p.dt), q.basis) else v;
    if p.dt == 0.0 then w else Axpy(w, MemoryFactor(q, s.Of(l), p.dt, transfer), q.basis)
  }

  /** What the other layer sends at a point, given its nodal heads. */
  function Sent(l: Layer, e: Element, p: Params, q: Point, otherHead: seq<real>): real {
    if e.Exchanges(l, p) then Times(q.Value(otherHead), p.Transfer()) else 0.0
  }

  function PointLoads(l: Layer, e: Element, p: Params, otherHead: seq<real>, m: nat): (r: seq<real>)
    requires e.Valid() && m <= |e.points|
    ensures |r| == |e.nodes|
  {
    if m == 0 then Constant(|e.nodes|, 0.0)
    else
      var q := e.points[m - 1];
      WithPointLoad(PointLoads(l, e, p, otherHead, m - 1), q, e.samples[m - 1], l, p, e.Loaded(l, p), Sent(l, e, p, q, otherHead))
  }

  /** The element's part of the residual at its nodes. */
  function Shares(e: Element): (r: seq<real>)
    requires e.Valid()
    ensures |r| == |e.nodes|
  {
    seq(|e.nodes|, i requires 0 <= i < |e.nodes| => e.residual[i] / (e.connectivity[i] as real))
  }

  function Load(l: Layer, e: Element, p: Params, otherHead: seq<real>): (r: seq<real>)
    requires e.Valid()
    ensures |r| == |e.nodes|
  {
    var r := PointLoads(l, e, p, otherHead, |e.points|);
    if l.Efficient? then Plus(r, Shares(e)) else r
  }

  // ---------------------------------------------------------------- the loops

  method AddDiffusion(ke: array2<real>, d: array2<real>, q: Point, c: real)
    requires ke != d && ke.Length0 == ke.Length1 && q.Sized(ke.Length0)
    requires d.Length0 == d.Length1 == 2 && d[0, 1] == d[1, 0] == 0.0
    modifies ke, d
    ensures Values(ke) == TripleSum(old(Values(ke)), Gradient(q), Isotropic(c), Gradient(q), 2, 2)
    ensures d[0, 1] == d[1, 0] == 0.0
  {
    hide TripleSum;
    d[0, 0] := c;
    d[1, 1] := c;
    assert Values(d)[0] == [c, 0.0] && Values(d)[1] == [0.0, c];
    assert Values(d) == Isotropic(c);
    TripleMultiply(ke, Gradient(q), d, Gradient(q));
  }

  method AddPoint(ke: array2<real>, d: array2<real>, q: Point, m: Material, p: Params, exchanges: bool) returns (ok: bool)
    requires ke != d && ke.Length0 == ke.Length1 && q.Sized(ke.Length0)
    requires d.Length0 == d.Length1 == 2 && d[0, 1] == d[1, 0] == 0.0
    modifies ke, d
    ensures ok == (p.dt == 0.0 || !exchanges || p.Supported())
    ensures ok ==> Values(ke) == WithPoint(old(Values(ke)), q, m, p, exchanges)
    ensures d[0, 1] == d[1, 0] == 0.0
  {
    hide TripleSum;
    hide OuterSum;
    var c := m.transmitivity * q.weight * q.jdet;
    if p.dt != 0.0 {
      c := c * p.dt;
    }
    assert c == DiffusionFactor(q, m, p.dt);
    AddDiffusion(ke, d, q, c);
    if p.dt != 0.0 {
      var s := m.storing * q.weight * q.jdet;
      assert s == StorageFactor(q, m);
      AddOuter(ke, s, q.basis, q.basis);
      if exchanges {
        if !p.Supported() {
          return false;
        }
        var t := p.dt * p.Transfer() * q.weight * q.jdet;
        assert t == TransferFactor(q, p);
        AddOuter(ke, t, q.basis, q.basis);
      }
    }
    ok := true;
  }

  /** A layer's element matrix; fails on an unknown transfer method. */
  method CreateKMatrix(l: Layer, e: Element, p: Params) returns (ok: bool, ke: array2<real>)
    requires e.Valid()
    ensures fresh(ke) && ke.Length0 == ke.Length1 == |e.nodes|
    ensures ok == (p.dt == 0.0 || !e.Exchanges(l, p) || p.Supported() || |e.points| == 0)
    ensures ok ==> Values(ke) == Stiffness(l, e, p, |e.points|)
  {
    hide WithPoint;
    ke := NewMatrix(|e.nodes|);
    var d := NewMatrix(2);
    assert d[0, 1] == Values(d)[0][1] && d[1, 0] == Values(d)[1][0];
    for g := 0 to |e.points|
      invariant g > 0 ==> p.dt == 0.0 || !e.Exchanges(l, p) || p.Supported()
      invariant d[0, 1] == d[1, 0] == 0.0
      invariant Values(ke) == Stiffness(l, e, p, g)
    {
      ok := AddPoint(ke, d, e.points[g], e.samples[g].Of(l), p, e.Exchanges(l, p));
      if !ok {
        return;
      }
    }
    ok := true;
  }

  method AddPointLoad(pe: array<real>, q: Point, s: Sample, l: Layer, p: Params, loaded: bool, transfer: real)
    requires q.Sized(pe.Length)
    modifies pe
    ensures pe[..] == WithPointLoad(old(pe[..]), q, s, l, p, loaded, transfer)
  {
    hide Axpy;
    if loaded {
      var c := q.jdet * q.weight * s.waterLoad;
      if p.dt != 0.0 {
        c := c * p.dt;
      }
      assert c == LoadFactor(q, s, p.dt);
      AddToVector(pe, c, q.basis);
    }
    if p.dt != 0.0 {
      var m := s.Of(l);
      var c := q.jdet * q.weight * (m.previousHead * m.storing + p.dt * transfer);
      assert c == MemoryFactor(q, m, p.dt, transfer);
      AddToVector(pe, c, q.basis);
    }
  }

  method AddShares(pe: array<real>, e: Element)
    requires e.Valid() && pe.Length == |e.nodes|
    modifies pe
    ensures pe[..] == Plus(old(pe[..]), Shares(e))
  {
    ghost var sum := Plus(pe[..], Shares(e));
    for i := 0 to |e.nodes|
      invariant forall k :: 0 <= k < pe.Length ==> pe[k] == if k < i then sum[k] else old(pe[k])
    {
      pe[i] := pe[i] + e.residual[i] / (e.connectivity[i] as real);
    }
    assert forall k :: 0 <= k < pe.Length ==> pe[..][k] == sum[k];
  }

  /** The interpolated nodal head. */
  method HeadAt(q: Point, head: seq<real>) returns (h: real)
    ensures h == q.Value(head)
  {
    h := 0.0;
    for i := 0 to |q.basis|
      invariant h == Dot(q.basis, head, i)
    {
      h := h + q.basis[i] * At(head, i);
    }
  }

  /** A layer's element load; fails on an unknown transfer method. */
  method CreatePVector(l: Layer, e: Element, p: Params, otherHead: seq<real>) returns (ok: bool, pe: array<real>)
    requires e.Valid()
    ensures fresh(pe) && pe.Length == |e.nodes|
    ensures ok == (p.dt == 0.0 || !e.Exchanges(l, p) || p.Supported() || |e.points| == 0)
    ensures ok ==> pe[..] == Load(l, e, p, otherHead)
  {
    hide WithPointLoad;
    pe := NewVector(|e.nodes|);
    for g := 0 to |e.points|
      invariant g > 0 ==> p.dt == 0.0 || !e.Exchanges(l, p) || p.Supported()
      invariant pe[..] == PointLoads(l, e, p, otherHead, g)
    {
      var q := e.points[g];
      if p.dt != 0.0 && e.Exchanges(l, p) && !p.Supported() {
        return false, pe;
      }
      var transfer := 0.0;
      if e.Exchanges(l, p) {
        var head := HeadAt(q, otherHead);
        transfer := head * p.Transfer();
      }
      assert transfer == Sent(l, e, p, q, otherHead);
      AddPointLoad(pe, q, e.samples[g], l, p, e.Loaded(l, p), transfer);
    }
    if l.Efficient? {
      AddShares(pe, e);
    }
    ok := true;
  }
}
