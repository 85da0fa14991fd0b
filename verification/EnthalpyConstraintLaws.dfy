/** What the basal constraint update does to a node, whatever the order of the elements. */
module EnthalpyConstraintLaws {
  import opened EnthalpyChart
  import opened EnthalpyConstraints

  /** The i-th base sample of e is at v. */
  ghost predicate BasedAt(e: Element, i: int, v: int) {
    0 <= i < |e.basal| && e.basal[i] < |e.nodes| && e.nodes[e.basal[i]] == v
  }

  /** The first pass writes the i-th flag of e to v. */
  ghost predicate WritesTo(e: Element, i: int, v: int) {
    0 <= i < |e.samples| <= |e.nodes| && e.nodes[i] == v
  }

  /** Some element at the base has v. */
  ghost predicate OnBase(es: seq<Element>, v: nat) {
    exists e, i :: e in es && e.onBase && BasedAt(e, i, v)
  }

  /** Some grounded icy element at the base has v. */
  ghost predicate Charted(es: seq<Element>, v: nat) {
    exists e, i :: e in es && e.icy && e.onBase && !e.floating && BasedAt(e, i, v)
  }

  /** Elements read the same values at a node. */
  ghost predicate Agree(es: seq<Element>, n: nat, nodal: seq<Sample>) {
    && ValidMesh(es, n) && |nodal| == n
    && forall e, i, v :: e in es && BasedAt(e, i, v) && 0 <= v < n ==> e.samples[i] == nodal[v]
  }

  /** Base nodes come first, in order, as in linear elements. */
  ghost predicate Linear(es: seq<Element>) {
    forall e, i :: e in es && 0 <= i < |e.basal| ==> e.basal[i] == i
  }

  // ---------------------------------------------------------------- the flags

  lemma {:induction false} WrittenIs(p: Params, e: Element, v: nat, prior: real, k: nat, flag: real)
    requires k <= |e.samples| <= |e.nodes|
    requires forall i: nat :: i < k && WritesTo(e, i, v) ==> Flag(p, e.samples[i]) == flag
    ensures Written(p, e, v, prior, k) == if exists i: nat :: i < k && WritesTo(e, i, v) then flag else prior
  {
    hide Flag;
    if k > 0 {
      WrittenIs(p, e, v, prior, k - 1, flag);
      assert WritesTo(e, k - 1, v) <==> e.nodes[k - 1] == v;
    }
  }

  lemma {:induction false} FlagAfterIs(p: Params, es: seq<Element>, n: nat, v: nat, i: nat, flag: real)
    requires ValidMesh(es, n) && i <= |es|
    requires forall e, k :: e in es[..i] && e.Charted() && WritesTo(e, k, v) ==> Flag(p, e.samples[k]) == flag
    ensures FlagAfter(p, es, n, v, i) == if exists e, k :: e in es[..i] && e.Charted() && WritesTo(e, k, v) then flag else 0.0
  {
    hide Flag;
    hide Written;
    if i > 0 {
      var e := es[i - 1];
      assert es[..i] == es[..i - 1] + [e];
      FlagAfterIs(p, es, n, v, i - 1, flag);
      if e.Charted() {
        WrittenIs(p, e, v, FlagAfter(p, es, n, v, i - 1), |e.samples|, flag);
        if exists k: nat :: k < |e.samples| && WritesTo(e, k, v) {
          var k: nat :| k < |e.samples| && WritesTo(e, k, v);
          assert e in es[..i];
        } else {
          assert forall k :: !WritesTo(e, k, v);
        }
      }
    }
  }

  // ---------------------------------------------------------------- the constraints

  lemma {:induction false} VisitedIs(p: Params, e: Element, n: nat, v: nat, active: bool, flag: real, prior: Constraint, k: nat,
                                     s: Sample)
    requires e.Valid(n) && k <= |e.basal|
    requires forall i: nat :: i < k && BasedAt(e, i, v) ==> e.samples[i] == s
    ensures Visited(p, e, n, v, active, flag, prior, k)
         == if active && exists i: nat :: i < k && BasedAt(e, i, v) then Decided(p, flag, s) else prior
  {
    hide Decided;
    if k > 0 {
      VisitedIs(p, e, n, v, active, flag, prior, k - 1, s);
      assert BasedAt(e, k - 1, v) <==> e.BaseNode(k - 1) == v;
    }
  }

  lemma {:induction false} ConstraintAfterIs(p: Params, es: seq<Element>, n: nat, v: nat, active: bool, flag: real, prior: Constraint,
                                             i: nat, s: Sample)
    requires ValidMesh(es, n) && i <= |es|
    requires forall e, k :: e in es[..i] && BasedAt(e, k, v) ==> e.samples[k] == s
    ensures ConstraintAfter(p, es, n, v, active, flag, prior, i)
         == if active && exists e, k :: e in es[..i] && e.onBase && BasedAt(e, k, v) then Decided(p, flag, s) else prior
  {
    hide Decided;
    hide Visited;
    if i > 0 {
      var e := es[i - 1];
      assert es[..i] == es[..i - 1] + [e];
      ConstraintAfterIs(p, es, n, v, active, flag, prior, i - 1, s);
      if e.onBase {
        VisitedIs(p, e, n, v, active, flag, ConstraintAfter(p, es, n, v, active, flag, prior, i - 1), |e.basal|, s);
        if exists k: nat :: k < |e.basal| && BasedAt(e, k, v) {
          var k: nat :| k < |e.basal| && BasedAt(e, k, v);
          assert e in es[..i];
        } else {
          assert forall k :: !BasedAt(e, k, v);
        }
      }
    }
  }

  // ---------------------------------------------------------------- the update

  /** The constraint of a node after the update. */
  function Outcome(p: Params, es: seq<Element>, n: nat, v: nat, active: bool, prior: Constraint): Constraint
    requires ValidMesh(es, n)
  {
    ConstraintAfter(p, es, n, v, active, FlagAfter(p, es, n, v, |es|), prior, |es|)
  }

  /** What the chart asks of a node: the melting point where a grounded icy element pins it. */
  ghost function Design(p: Params, es: seq<Element>, n: nat, nodal: seq<Sample>, v: nat): Constraint
    requires Agree(es, n, nodal) && v < n
  {
    if Charted(es, v) && Pins(p, GetThermalBasalCondition(p, nodal[v])) then Pinned(p.PureIceEnthalpy(nodal[v].pressure)) else Free
  }

  /** The outcome by the flag alone: active base nodes are pinned or released, all others are left as they were. */
  lemma OutcomeByFlag(p: Params, es: seq<Element>, n: nat, nodal: seq<Sample>, v: nat, active: bool, prior: Constraint)
    requires Agree(es, n, nodal) && v < n
    ensures Outcome(p, es, n, v, active, prior)
         == if active && OnBase(es, v) then Decided(p, FlagAfter(p, es, n, v, |es|), nodal[v]) else prior
  {
    hide Decided;
    hide FlagAfter;
    hide ConstraintAfter;
    assert es[..|es|] == es;
    ConstraintAfterIs(p, es, n, v, active, FlagAfter(p, es, n, v, |es|), prior, |es|, nodal[v]);
  }

  lemma InMesh(es: seq<Element>, n: nat, e: Element)
    requires ValidMesh(es, n) && e in es
    ensures e.Valid(n)
  {
  }

  ghost predicate SameElements(es: seq<Element>, es': seq<Element>) {
    forall e :: e in es <==> e in es'
  }

  /** Every flag that charted elements write to v comes from a sample based at v. */
  ghost predicate Faithful(es: seq<Element>, v: nat) {
    forall e, k :: e in es && e.Charted() && WritesTo(e, k, v) ==> BasedAt(e, k, v)
  }

  /** Some charted element writes a flag to v. */
  ghost predicate WrittenTo(es: seq<Element>, v: nat) {
    exists e, k :: e in es && e.Charted() && WritesTo(e, k, v)
  }

  /** A charted element that writes faithfully to v is based at v. */
  lemma WrittenIsCharted(es: seq<Element>, v: nat)
    requires Faithful(es, v) && WrittenTo(es, v)
    ensures Charted(es, v)
  {
  }

  /**
    Where the flags written to a base node come from samples based there, the node ends as the chart asks exactly when
    the chart does not pin it or some flag is written to it.
   */
  lemma MeetsDesignIff(p: Params, es: seq<Element>, n: nat, nodal: seq<Sample>, v: nat, prior: Constraint)
    requires Agree(es, n, nodal) && v < n && OnBase(es, v) && Faithful(es, v)
    ensures Outcome(p, es, n, v, true, prior) == Design(p, es, n, nodal, v)
         <==> !(Charted(es, v) && Pins(p, GetThermalBasalCondition(p, nodal[v]))) || WrittenTo(es, v)
  {
    hide FlagAfter;
    hide ConstraintAfter;
    hide GetThermalBasalCondition;
    hide Pins;
    hide Charted;
    var flag := Flag(p, nodal[v]);
    forall e, k | e in es && e.Charted() && WritesTo(e, k, v) ensures e.samples[k] == nodal[v] {
      InMesh(es, n, e);
    }
    assert es[..|es|] == es;
    FlagAfterIs(p, es, n, v, |es|, flag);
    OutcomeByFlag(p, es, n, nodal, v, true, prior);
    if WrittenTo(es, v) {
      WrittenIsCharted(es, v);
    }
  }

  lemma LinearIsFaithful(es: seq<Element>, n: nat, v: nat)
    requires ValidMesh(es, n) && Linear(es)
    ensures Faithful(es, v) && (Charted(es, v) ==> WrittenTo(es, v))
  {
    forall e, k | e in es && WritesTo(e, k, v) ensures BasedAt(e, k, v) {
      InMesh(es, n, e);
    }
    if Charted(es, v) {
      var e, k :| e in es && e.icy && e.onBase && !e.floating && BasedAt(e, k, v);
      InMesh(es, n, e);
      assert WritesTo(e, k, v);
    }
  }

  /**
    With linear elements, an active base node ends pinned at its melting point exactly when some grounded icy base
    element puts it in a pinning state, and free otherwise.
   */
  lemma LinearMeetsDesign(p: Params, es: seq<Element>, n: nat, nodal: seq<Sample>, v: nat, prior: Constraint)
    requires Agree(es, n, nodal) && Linear(es) && v < n && OnBase(es, v)
    ensures Outcome(p, es, n, v, true, prior) == Design(p, es, n, nodal, v)
  {
    hide *;
    AgreeIsValid(es, n, nodal);
    LinearIsFaithful(es, n, v);
    MeetsDesignIff(p, es, n, nodal, v, prior);
  }

  lemma AgreeIsValid(es: seq<Element>, n: nat, nodal: seq<Sample>)
    requires Agree(es, n, nodal)
    ensures ValidMesh(es, n) && |nodal| == n
  {
  }

  /** The order of the elements, and repetitions, do not matter at a node that is not on the base or is written faithfully. */
  lemma OrderFree(p: Params, es: seq<Element>, es': seq<Element>, n: nat, nodal: seq<Sample>, v: nat, active: bool, prior: Constraint)
    requires Agree(es, n, nodal) && ValidMesh(es', n) && SameElements(es, es') && v < n
    requires !OnBase(es, v) || Faithful(es, v)
    ensures Outcome(p, es, n, v, active, prior) == Outcome(p, es', n, v, active, prior)
  {
    hide Outcome;
    hide GetThermalBasalCondition;
    hide Pins;
    hide Decided;
    hide FlagAfter;
    hide ValidMesh;
    assert Agree(es', n, nodal);
    OutcomeByFlag(p, es, n, nodal, v, active, prior);
    OutcomeByFlag(p, es', n, nodal, v, active, prior);
    assert OnBase(es, v) <==> OnBase(es', v);
    if active && OnBase(es, v) {
      assert Faithful(es', v);
      SameFlag(p, es, es', n, nodal, v);
    }
  }

  lemma SameFlag(p: Params, es: seq<Element>, es': seq<Element>, n: nat, nodal: seq<Sample>, v: nat)
    requires Agree(es, n, nodal) && Agree(es', n, nodal) && SameElements(es, es') && v < n
    requires Faithful(es, v) && Faithful(es', v)
    ensures FlagAfter(p, es, n, v, |es|) == FlagAfter(p, es', n, v, |es'|)
  {
    hide FlagAfter;
    hide GetThermalBasalCondition;
    hide Pins;
    var flag := Flag(p, nodal[v]);
    forall e, k | e in es && e.Charted() && WritesTo(e, k, v) ensures e.samples[k] == nodal[v] {
      InMesh(es, n, e);
    }
    assert es[..|es|] == es && es'[..|es'|] == es';
    FlagAfterIs(p, es, n, v, |es|, flag);
    FlagAfterIs(p, es', n, v, |es'|, flag);
    assert WrittenTo(es, v) <==> WrittenTo(es', v);
  }

  // ---------------------------------------------------------------- quadratic elements

  /**
    A base node to which no flag is written, as on the edges of quadratic elements, is always released: the design is
    met there exactly when the chart does not pin it.
   */
  lemma UnwrittenIsReleased(p: Params, es: seq<Element>, n: nat, nodal: seq<Sample>, v: nat, prior: Constraint)
    requires Agree(es, n, nodal) && v < n && OnBase(es, v) && !WrittenTo(es, v)
    ensures Outcome(p, es, n, v, true, prior) == Free
    ensures Outcome(p, es, n, v, true, prior) == Design(p, es, n, nodal, v)
         <==> !(Charted(es, v) && Pins(p, GetThermalBasalCondition(p, nodal[v])))
  {
    hide FlagAfter;
    hide GetThermalBasalCondition;
    hide Pins;
    hide ConstraintAfter;
    assert es[..|es|] == es;
    assert Faithful(es, v);
    FlagAfterIs(p, es, n, v, |es|, 0.0);
    OutcomeByFlag(p, es, n, nodal, v, true, prior);
  }

  /** A prism that is quadratic in its base: three vertices below, three above, then base edges among the other nodes. */
  ghost predicate QuadraticPrism(e: Element) {
    && |e.basal| == 6 && |e.nodes| >= 6
    && e.basal[0] == 0 && e.basal[1] == 1 && e.basal[2] == 2
    && e.basal[3] >= 6 && e.basal[4] >= 6 && e.basal[5] >= 6
  }

  /** The k-th vertex of some charted prism; 0 to 2 are below, 3 to 5 above. */
  ghost predicate VertexOf(es: seq<Element>, v: nat, k: int) {
    exists e :: e in es && e.Charted() && 0 <= k < |e.nodes| && e.nodes[k] == v
  }

  lemma PrismsAreFaithful(es: seq<Element>, n: nat, v: nat)
    requires ValidMesh(es, n) && (forall e :: e in es ==> QuadraticPrism(e))
    requires !VertexOf(es, v, 3) && !VertexOf(es, v, 4) && !VertexOf(es, v, 5)
    ensures Faithful(es, v)
    ensures WrittenTo(es, v) <==> VertexOf(es, v, 0) || VertexOf(es, v, 1) || VertexOf(es, v, 2)
  {
    forall e, k | e in es && e.Charted() && WritesTo(e, k, v) ensures k < 3 && BasedAt(e, k, v) && VertexOf(es, v, k) {
      InMesh(es, n, e);
      assert QuadraticPrism(e);
      assert VertexOf(es, v, k);
    }
    forall e, k | e in es && e.Charted() && 0 <= k < 3 && e.nodes[k] == v ensures WrittenTo(es, v) {
      InMesh(es, n, e);
      assert WritesTo(e, k, v);
    }
  }

  /**
    With prisms of quadratic base, a base node ends as the chart asks exactly when the chart does not pin it or it is
    a vertex of a grounded icy base element, and not just on edges of them.
   */
  lemma QuadraticMeetsDesignIff(p: Params, es: seq<Element>, n: nat, nodal: seq<Sample>, v: nat, prior: Constraint)
    requires Agree(es, n, nodal) && v < n && OnBase(es, v) && (forall e :: e in es ==> QuadraticPrism(e))
    requires !VertexOf(es, v, 3) && !VertexOf(es, v, 4) && !VertexOf(es, v, 5)
    ensures Outcome(p, es, n, v, true, prior) == Design(p, es, n, nodal, v)
         <==> !(Charted(es, v) && Pins(p, GetThermalBasalCondition(p, nodal[v])))
              || VertexOf(es, v, 0) || VertexOf(es, v, 1) || VertexOf(es, v, 2)
  {
    hide *;
    AgreeIsValid(es, n, nodal);
    PrismsAreFaithful(es, n, v);
    MeetsDesignIff(p, es, n, nodal, v, prior);
  }

  /** A quadratic prism whose base is cold and wet everywhere. */
  const WET := Sample(-1.0, -1.0, 0.0, 0.0, 1.0, 0.0)
  const UNITS := Params(1.0, 1.0, 1.0, 1.0, 1.0, 1.0, 0.0, 0.0, 0.0)

  function Quadratic(): Element {
    Element(true, true, false, seq(18, i => i), [0, 1, 2, 9, 10, 11], [WET, WET, WET, WET, WET, WET])
  }

  lemma QuadraticFacts(e: Element)
    requires e == Quadratic()
    ensures e.Valid(18) && e.Charted() && e.onBase && BasedAt(e, 3, 9) && !BasedAt(e, 4, 9)
    ensures forall i :: !WritesTo(e, i, 9)
    ensures |e.samples| == |e.basal| == 6 && forall i :: 0 <= i < 6 ==> e.samples[i] == WET
  {
  }

  /** The chart pins its edge node 9, and the update releases it. */
  lemma EdgeNodeReleased()
    ensures var es, nodal := [Quadratic()], seq(18, _ => WET);
      && Agree(es, 18, nodal)
      && Design(UNITS, es, 18, nodal, 9) == Pinned(0.0)
      && Outcome(UNITS, es, 18, 9, true, Pinned(0.0)) == Free
  {
    hide Outcome;
    hide Quadratic;
    var e := Quadratic();
    var es, nodal := [e], seq(18, _ => WET);
    QuadraticFacts(e);
    assert forall f :: f in es ==> f == e;
    assert e in es;
    assert Agree(es, 18, nodal);
    assert OnBase(es, 9) && Charted(es, 9);
    assert !WrittenTo(es, 9);
    UnwrittenIsReleased(UNITS, es, 18, nodal, 9, Pinned(0.0));
  }
}
