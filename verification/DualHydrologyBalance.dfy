/** The two hydrology layers assembled over the mesh, and the water balance of a converged pair of heads. */
module DualHydrologyBalance {
  import opened LinearAlgebra
  import opened Quadrature
  import opened DualHydrology
  import opened DualHydrologyLaws
  import A = Assembly

  ghost predicate ValidMesh(es: seq<Element>, n: nat) {
    forall i :: 0 <= i < |es| ==> es[i].Valid() && DofsWithin(es[i].nodes, n)
  }

  /** What an element adds to a layer: nothing, to the efficient layer, where that is inactive. */
  function Contribution(l: Layer, e: Element, p: Params, otherHead: seq<real>): A.Contribution
    requires e.Valid()
  {
    if l.Efficient? && !e.active then A.Contribution([], [], [])
    else A.Contribution(e.nodes, Stiffness(l, e, p, |e.points|), Load(l, e, p, Gather(otherHead, e.nodes)))
  }

  function System(l: Layer, es: seq<Element>, p: Params, n: nat, otherHead: seq<real>): (cs: seq<A.Contribution>)
    requires ValidMesh(es, n)
    ensures |cs| == |es| && A.Fits(cs, n)
    ensures forall i :: 0 <= i < |es| ==> cs[i] == Contribution(l, es[i], p, otherHead)
  {
    seq(|es|, i requires 0 <= i < |es| => Contribution(l, es[i], p, otherHead))
  }

  lemma NothingAdded(v: Matrix, f: seq<real>)
    ensures Added(v, [], [], 0) == v
    ensures VectorAdded(f, [], [], 0) == f
  {
  }

  method GatherHead(head: seq<real>, nodes: seq<nat>) returns (h: seq<real>)
    ensures h == Gather(head, nodes)
  {
    h := [];
    for i := 0 to |nodes|
      invariant |h| == i
      invariant forall k :: 0 <= k < i ==> h[k] == At(head, nodes[k])
    {
      h := h + [At(head, nodes[i])];
    }
  }

  /** A layer's system; fails only on an unknown transfer method. */
  method Assemble(l: Layer, es: seq<Element>, p: Params, n: nat, otherHead: seq<real>)
    returns (ok: bool, k: array2<real>, f: array<real>)
    requires ValidMesh(es, n)
    ensures p.Supported() ==> ok
    ensures ok ==> Values(k) == A.Stiffness(System(l, es, p, n, otherHead), n, |es|)
    ensures ok ==> f[..] == A.Load(System(l, es, p, n, otherHead), n, |es|)
  {
    hide Stiffness;
    hide Load;
    hide Added;
    hide VectorAdded;
    hide Gather;
    k := NewMatrix(n);
    f := NewVector(n);
    ghost var cs := System(l, es, p, n, otherHead);
    for i := 0 to |es|
      invariant k.Length0 == k.Length1 == f.Length == n
      invariant Values(k) == A.Stiffness(cs, n, i) && f[..] == A.Load(cs, n, i)
    {
      if l.Efficient? && !es[i].active {
        NothingAdded(Values(k), f[..]);
      } else {
        var known, ke := CreateKMatrix(l, es[i], p);
        if !known {
          return false, k, f;
        }
        var head := GatherHead(otherHead, es[i].nodes);
        var pe;
        known, pe := CreatePVector(l, es[i], p, head);
        if !known {
          return false, k, f;
        }
        AddToGlobal(k, ke, es[i].nodes);
        AddVectorToGlobal(f, pe, es[i].nodes);
      }
    }
    ok := true;
  }

  // ---------------------------------------------------------------- the balance

  /** The change of stored water in both layers. */
  function ElementStorage(e: Element, p: Params, sediment: seq<real>, efficient: seq<real>, m: nat): real
    requires e.Valid() && m <= |e.points|
  {
    if m == 0 then 0.0
    else
      var q, s, one := e.points[m - 1], e.samples[m - 1], Constant(|e.nodes|, 1.0);
      ElementStorage(e, p, sediment, efficient, m - 1)
      + Storing(q, s.sediment, p.dt, one, sediment)
      + if e.Coupled(p) then Storing(q, s.efficient, p.dt, one, efficient) else 0.0
  }

  function ElementMelt(e: Element, p: Params, m: nat): real
    requires e.Valid() && m <= |e.points|
  {
    if m == 0 then 0.0 else ElementMelt(e, p, m - 1) + LoadFactor(e.points[m - 1], e.samples[m - 1], p.dt)
  }

  /** The sediment residual that the element hands to the efficient layer. */
  function ElementOverflow(e: Element, p: Params): real
    requires e.Valid()
  {
    if e.Coupled(p) then Dot(Shares(e), Constant(|e.nodes|, 1.0), |e.nodes|) else 0.0
  }

  function Storage(es: seq<Element>, p: Params, n: nat, sediment: seq<real>, efficient: seq<real>, m: nat): real
    requires ValidMesh(es, n) && m <= |es|
  {
    if m == 0 then 0.0
    else
      var e := es[m - 1];
      Storage(es, p, n, sediment, efficient, m - 1)
      + ElementStorage(e, p, Gather(sediment, e.nodes), Gather(efficient, e.nodes), |e.points|)
  }

  function Melt(es: seq<Element>, p: Params, n: nat, m: nat): real
    requires ValidMesh(es, n) && m <= |es|
  {
    if m == 0 then 0.0 else Melt(es, p, n, m - 1) + ElementMelt(es[m - 1], p, |es[m - 1].points|)
  }

  function Overflow(es: seq<Element>, p: Params, n: nat, m: nat): real
    requires ValidMesh(es, n) && m <= |es|
  {
    if m == 0 then 0.0 else Overflow(es, p, n, m - 1) + ElementOverflow(es[m - 1], p)
  }

  lemma PointTestedByOne(e: Element, p: Params, g: nat, sediment: seq<real>, efficient: seq<real>)
    requires e.Valid() && g < |e.points|
    ensures var q, s, one := e.points[g], e.samples[g], Constant(|e.nodes|, 1.0);
      PointBalance(e, p, g, one, sediment, efficient)
      == Storing(q, s.sediment, p.dt, one, sediment)
         + (if e.Coupled(p) then Storing(q, s.efficient, p.dt, one, efficient) else 0.0)
         - LoadFactor(q, s, p.dt)
  {
    hide Dot;
    hide Constant;
    hide Storing;
    hide LoadFactor;
    hide DiffusionFactor;
    ConstantField(e.points[g], |e.nodes|, 1.0);
  }

  lemma {:induction false} ElementTestedByOne(e: Element, p: Params, sediment: seq<real>, efficient: seq<real>, m: nat)
    requires e.Valid() && m <= |e.points|
    ensures Balance(e, p, Constant(|e.nodes|, 1.0), sediment, efficient, m)
         == ElementStorage(e, p, sediment, efficient, m) - ElementMelt(e, p, m)
  {
    hide PointBalance;
    hide Storing;
    hide LoadFactor;
    hide Constant;
    if m > 0 {
      ElementTestedByOne(e, p, sediment, efficient, m - 1);
      PointTestedByOne(e, p, m - 1, sediment, efficient);
    }
  }

  /** One layer's form minus work over the mesh, element by element. */
  function Residuals(l: Layer, es: seq<Element>, p: Params, n: nat, y: seq<real>, head: seq<real>, otherHead: seq<real>, m: nat): real
    requires ValidMesh(es, n) && m <= |es|
  {
    if m == 0 then 0.0
    else
      var e := es[m - 1];
      Residuals(l, es, p, n, y, head, otherHead, m - 1)
      + if l.Efficient? && !e.active then 0.0
        else LayerResidual(l, e, p, Gather(y, e.nodes), Gather(head, e.nodes), Gather(otherHead, e.nodes))
  }

  lemma {:induction false} SystemResiduals(l: Layer, es: seq<Element>, p: Params, n: nat, y: seq<real>, head: seq<real>,
                                           otherHead: seq<real>, m: nat)
    requires ValidMesh(es, n) && m <= |es|
    ensures A.FormSum(System(l, es, p, n, otherHead), y, head, m) - A.WorkSum(System(l, es, p, n, otherHead), y, m)
         == Residuals(l, es, p, n, y, head, otherHead, m)
  {
    hide Stiffness;
    hide Load;
    hide Gather;
    hide Form;
    hide Dot;
    if m > 0 {
      SystemResiduals(l, es, p, n, y, head, otherHead, m - 1);
      var c := Contribution(l, es[m - 1], p, otherHead);
      if l.Efficient? && !es[m - 1].active {
        EmptyForm(Gather(y, []), Gather(head, []));
      }
    }
  }

  lemma EmptyForm(y: seq<real>, x: seq<real>)
    ensures Form([], y, x, 0, 0) == 0.0 && Dot([], y, 0) == 0.0
  {
  }

  lemma {:induction false} MeshTestedByOne(es: seq<Element>, p: Params, n: nat, sediment: seq<real>, efficient: seq<real>, m: nat)
    requires ValidMesh(es, n) && m <= |es|
    ensures var one := Constant(n, 1.0);
      Residuals(Sediment, es, p, n, one, sediment, efficient, m)
      + (if p.hasEfficientLayer then Residuals(Efficient, es, p, n, one, efficient, sediment, m) else 0.0)
      == Storage(es, p, n, sediment, efficient, m) - Melt(es, p, n, m) - Overflow(es, p, n, m)
  {
    hide LayerResidual;
    hide Balance;
    hide ElementStorage;
    hide ElementMelt;
    hide Gather;
    hide Dot;
    hide Shares;
    hide Constant;
    if m > 0 {
      var e := es[m - 1];
      var y, s, f := Constant(|e.nodes|, 1.0), Gather(sediment, e.nodes), Gather(efficient, e.nodes);
      MeshTestedByOne(es, p, n, sediment, efficient, m - 1);
      GatherConstant(n, 1.0, e.nodes);
      CoupledBalance(e, p, y, s, f);
      ElementTestedByOne(e, p, s, f, |e.points|);
    }
  }

  /**
    The coupled heads conserve water: when each layer's head solves its system for the other's head, the change of
    the stored water is the melt plus the sediment overflow, whatever is active and whatever is exchanged.
   */
  lemma WaterBalance(es: seq<Element>, p: Params, n: nat, sediment: seq<real>, efficient: seq<real>)
    requires ValidMesh(es, n)
    requires A.Solution(System(Sediment, es, p, n, efficient), n, sediment)
    requires p.hasEfficientLayer ==> A.Solution(System(Efficient, es, p, n, sediment), n, efficient)
    ensures Storage(es, p, n, sediment, efficient, |es|) == Melt(es, p, n, |es|) + Overflow(es, p, n, |es|)
  {
    hide *;
    var one := Constant(n, 1.0);
    A.SolutionTested(System(Sediment, es, p, n, efficient), n, sediment, one);
    SystemResiduals(Sediment, es, p, n, one, sediment, efficient, |es|);
    if p.hasEfficientLayer {
      A.SolutionTested(System(Efficient, es, p, n, sediment), n, efficient, one);
      SystemResiduals(Efficient, es, p, n, one, efficient, sediment, |es|);
    }
    MeshTestedByOne(es, p, n, sediment, efficient, |es|);
  }

  // ---------------------------------------------------------------- the overflow of a node

  /** The elements around a node; in the end, all of them or the active ones. */
  function Around(es: seq<Element>, p: Params, v: nat, onlyActive: bool, m: nat): nat
    requires m <= |es|
  {
    if m == 0 then 0
    else Around(es, p, v, onlyActive, m - 1) + if v in es[m - 1].nodes && (!onlyActive || es[m - 1].Coupled(p)) then 1 else 0
  }

  /** Elements read one residual and one connectivity per node, and the connectivity counts the elements around it. */
  ghost predicate Consistent(es: seq<Element>, p: Params, n: nat, residual: seq<real>) {
    && ValidMesh(es, n) && |residual| == n
    && (forall i, j :: 0 <= i < |es| && 0 <= j < |es[i].nodes| ==> NodeAgrees(es, p, residual, es[i], j))
    && (forall i, j, k :: 0 <= i < |es| && 0 <= j < k < |es[i].nodes| ==> es[i].nodes[j] != es[i].nodes[k])
  }

  ghost predicate NodeAgrees(es: seq<Element>, p: Params, residual: seq<real>, e: Element, j: nat)
    requires e.Valid() && j < |e.nodes|
  {
    e.nodes[j] < |residual| && e.residual[j] == residual[e.nodes[j]] && e.connectivity[j] == Around(es, p, e.nodes[j], false, |es|)
  }

  /** What the active elements hand to the efficient layer at node v. */
  function Handed(es: seq<Element>, p: Params, n: nat, v: nat, m: nat): real
    requires ValidMesh(es, n) && m <= |es|
  {
    if m == 0 then 0.0
    else
      var e := es[m - 1];
      Handed(es, p, n, v, m - 1) + if e.Coupled(p) then Dot(Shares(e), Gather(Unit(n, v), e.nodes), |e.nodes|) else 0.0
  }

  lemma ShareAt(e: Element, n: nat, v: nat)
    requires e.Valid() && v < n && DofsWithin(e.nodes, n)
    requires forall j, k :: 0 <= j < k < |e.nodes| ==> e.nodes[j] != e.nodes[k]
    ensures v !in e.nodes ==> Dot(Shares(e), Gather(Unit(n, v), e.nodes), |e.nodes|) == 0.0
    ensures forall j :: 0 <= j < |e.nodes| && e.nodes[j] == v ==>
      Dot(Shares(e), Gather(Unit(n, v), e.nodes), |e.nodes|) == Shares(e)[j]
  {
    hide Dot;
    hide Shares;
    var u, z := Gather(Unit(n, v), e.nodes), Shares(e);
    if v !in e.nodes {
      DotZero(u, z, |e.nodes|);
      DotSymmetric(u, z, |e.nodes|);
    }
    forall j | 0 <= j < |e.nodes| && e.nodes[j] == v ensures Dot(z, u, |e.nodes|) == z[j] {
      assert u == Unit(|e.nodes|, j);
      DotUnit(z, |e.nodes|, j, |e.nodes|);
    }
  }

  lemma {:induction false} HandedShare(es: seq<Element>, p: Params, n: nat, residual: seq<real>, v: nat, m: nat)
    requires Consistent(es, p, n, residual) && v < n && m <= |es|
    requires Around(es, p, v, false, |es|) > 0
    ensures Handed(es, p, n, v, m)
         == Times(Around(es, p, v, true, m) as real, residual[v] / (Around(es, p, v, false, |es|) as real))
  {
    hide Dot;
    hide Gather;
    hide Unit;
    var share := residual[v] / (Around(es, p, v, false, |es|) as real);
    if m > 0 {
      var e := es[m - 1];
      HandedShare(es, p, n, residual, v, m - 1);
      ShareAt(e, n, v);
      if v in e.nodes {
        var j :| 0 <= j < |e.nodes| && e.nodes[j] == v;
        assert NodeAgrees(es, p, residual, e, j);
        assert Shares(e)[j] == share;
      }
      TimesNext(Around(es, p, v, true, m - 1), share);
    }
  }

  /** A node's overflow reaches the efficient layer whole exactly when every element around it is active (or it is zero). */
  lemma OverflowWholeIff(es: seq<Element>, p: Params, n: nat, residual: seq<real>, v: nat)
    requires Consistent(es, p, n, residual) && v < n && Around(es, p, v, false, |es|) > 0
    ensures Handed(es, p, n, v, |es|) == residual[v]
         <==> residual[v] == 0.0 || Around(es, p, v, true, |es|) == Around(es, p, v, false, |es|)
  {
    HandedShare(es, p, n, residual, v, |es|);
    WholeShare(Around(es, p, v, true, |es|), Around(es, p, v, false, |es|), residual[v]);
  }

  lemma WholeShare(k: nat, c: nat, r: real)
    requires c > 0
    ensures Times(k as real, r / (c as real)) == r <==> r == 0.0 || k == c
  {
  }

}
