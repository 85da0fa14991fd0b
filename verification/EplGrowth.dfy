/**
  When nodes of the efficient layer open and close, told by heads, residuals and thicknesses: a closed node opens on a
  sediment residual, or downstream of a node that is full; an open node closes where the layer is thin and nothing pushes.
 */
module EplGrowth {
  import opened EplMask
  import opened EplDomain
  import opened EplRuns

  // ---------------------------------------------------------------- the conditions

  /** Node k has reached its maximum head. */
  predicate Full(inputs: Inputs, k: nat) {
    k < |inputs.eplHead| && k < |inputs.hMax| && inputs.eplHead[k] >= inputs.hMax[k]
  }

  /** No node has less sediment head than node j. */
  predicate Downstream(inputs: Inputs, j: nat) {
    j < |inputs.sedHead| && forall m :: 0 <= m < |inputs.sedHead| ==> inputs.sedHead[j] <= inputs.sedHead[m]
  }

  /** Another node than j is full, and j is downstream of it. */
  predicate Overflows(inputs: Inputs, j: nat) {
    Downstream(inputs, j) && exists k: nat :: k != j && k < |inputs.eplHead| && Full(inputs, k)
  }

  /** The element opens its node j if that was closed: on a residual, or by an overflow next to an open node. */
  predicate Reached(nodes: seq<nat>, mask: seq<real>, inputs: Inputs, j: nat) {
    j < |inputs.residual| && (inputs.residual[j] > 0.0 || (TouchesOpen(nodes, mask) && Overflows(inputs, j)))
  }

  /** Some element reaches v. */
  ghost predicate ReachedNode(mesh: seq<seq<nat>>, mask: seq<real>, inputs: seq<Inputs>, v: nat)
    requires |inputs| == |mesh|
  {
    exists i: nat, j: nat :: Place(mesh, i, j, v) && Reached(mesh[i], mask, inputs[i], j)
  }

  /** v is the j-th node of element i. */
  predicate Place(mesh: seq<seq<nat>>, i: nat, j: nat, v: nat) {
    i < |mesh| && j < |mesh[i]| && mesh[i][j] == v
  }

  lemma LowestIff(s: seq<real>, j: nat)
    requires j < |s|
    ensures s[j] == MinOf(s, |s|) <==> forall m :: 0 <= m < |s| ==> s[j] <= s[m]
  {
  }

  lemma PushedIff(e: Element, inputs: Inputs, j: nat)
    requires |e.sedHead| == |e.eplHead| == |e.hMax| == |e.nodes| && j < |e.nodes|
    requires inputs.sedHead == e.sedHead && inputs.eplHead == e.eplHead && inputs.hMax == e.hMax
    ensures PushedBy(e, j, 0, |e.nodes|) <==> e.active && Overflows(inputs, j)
  {
    LowestIff(e.sedHead, j);
    if e.active && Overflows(inputs, j) {
      var k: nat :| k != j && k < |inputs.eplHead| && Full(inputs, k);
      assert Pushes(e, k, j);
    }
    if PushedBy(e, j, 0, |e.nodes|) {
      var k :| 0 <= k < |e.nodes| && Pushes(e, k, j);
      assert Full(inputs, k);
    }
  }

  lemma IndexIsPlace(mesh: seq<seq<nat>>, n: nat, i: nat, j: nat, v: nat)
    requires ValidMesh(mesh, n) && Place(mesh, i, j, v)
    ensures v in mesh[i] && IndexOf(mesh[i], v) == j
  {
    assert ValidCell(mesh[i], n);
  }

  // ---------------------------------------------------------------- closed nodes

  lemma FlagIff(mesh: seq<seq<nat>>, p: Params, st: State, inputs: seq<Inputs>, v: nat, i: nat)
    requires ValidSetting(mesh, st) && ValidInputs(mesh, inputs) && v < |st.mask| && i < |mesh| && st.mask[v] == 0.0
    requires st.active == Elementize(mesh, st.mask)
    ensures FlagsNode(View(mesh, st.active, inputs)[i], p, st.mask, v)
       <==> exists j: nat :: Place(mesh, i, j, v) && Reached(mesh[i], st.mask, inputs[i], j)
  {
    hide HasOpenNode;
    hide TouchesOpen;
    hide Overflows;
    hide PushedBy;
    var e := View(mesh, st.active, inputs)[i];
    OpenNodeIff(mesh[i], st.mask);
    assert e.active == HasOpenNode(mesh[i], st.mask);
    forall j: nat | Place(mesh, i, j, v) ensures IndexOf(e.nodes, v) == j && v in e.nodes {
      IndexIsPlace(mesh, |st.mask|, i, j, v);
    }
    if v in e.nodes {
      var j := IndexOf(e.nodes, v);
      assert Place(mesh, i, j, v);
      PushedIff(e, inputs[i], j);
    }
  }

  /** A closed node is flagged just when some element reaches it. */
  lemma FlaggedIff(mesh: seq<seq<nat>>, p: Params, st: State, inputs: seq<Inputs>, v: nat)
    requires ValidSetting(mesh, st) && ValidInputs(mesh, inputs) && v < |st.mask| && st.mask[v] == 0.0
    requires st.active == Elementize(mesh, st.mask)
    ensures Flagged(mesh, p, st, inputs, v) <==> ReachedNode(mesh, st.mask, inputs, v)
  {
    hide FlagsNode;
    hide Reached;
    hide Place;
    hide ValidSetting;
    SettingSizes(mesh, st);
    forall i: nat | i < |mesh|
      ensures FlagsNode(View(mesh, st.active, inputs)[i], p, st.mask, v)
         <==> exists j: nat :: Place(mesh, i, j, v) && Reached(mesh[i], st.mask, inputs[i], j)
    {
      FlagIff(mesh, p, st, inputs, v, i);
    }
    forall i: nat, j: nat | Place(mesh, i, j, v) ensures i < |mesh| {
      PlaceIn(mesh, i, j, v);
    }
  }

  lemma PlaceIn(mesh: seq<seq<nat>>, i: nat, j: nat, v: nat)
    requires Place(mesh, i, j, v)
    ensures i < |mesh|
  {
  }

  lemma SettingSizes(mesh: seq<seq<nat>>, st: State)
    requires ValidSetting(mesh, st)
    ensures ValidMesh(mesh, |st.mask|) && ValidState(mesh, |st.mask|, st) && Binary(st.mask)
  {
  }

  lemma {:induction false} ClosedPass(es: seq<Element>, p: Params, prior: seq<real>, v: nat, m: nat)
    requires ValidElements(es, |prior|) && m <= |es| && v < |prior| && prior[v] == 0.0
    ensures PassMask(es, p, prior, v, m) == if PassFlag(es, p, prior, v, m) then 1.0 else 0.0
  {
    hide Proposes;
    hide FlagsNode;
    if m > 0 {
      ClosedPass(es, p, prior, v, m - 1);
      ClosedProposal(es[m - 1], p, prior, v);
    }
  }

  lemma ClosedProposal(e: Element, p: Params, prior: seq<real>, v: nat)
    requires e.Valid(|prior|) && v < |prior| && prior[v] == 0.0
    ensures Proposes(e, p, prior, v) == if FlagsNode(e, p, prior, v) then Some(1.0) else None
  {
  }

  /**
    A closed node opens exactly when some element reaches it and its count of flags does not pass the lock; the count
    grows exactly when it is reached. Nothing else about the other elements, or their order, matters.
   */
  lemma OpensIff(mesh: seq<seq<nat>>, p: Params, st: State, inputs: seq<Inputs>, v: nat)
    requires ValidSetting(mesh, st) && ValidInputs(mesh, inputs) && v < |st.mask| && st.mask[v] == 0.0
    requires st.active == Elementize(mesh, st.mask)
    ensures var next := Step(mesh, p, st, inputs);
      && next.counter[v] == st.counter[v] + (if ReachedNode(mesh, st.mask, inputs, v) then 1 else 0)
      && (next.mask[v] == 1.0
          <==> ReachedNode(mesh, st.mask, inputs, v) && (p.flipLock == 0 || st.counter[v] + 1 <= p.flipLock))
      && (next.mask[v] == 1.0 || next.mask[v] == 0.0)
  {
    hide PassMask;
    hide PassFlag;
    hide HasOpenNode;
    hide ReachedNode;
    hide Binary;
    var es := View(mesh, st.active, inputs);
    FlaggedIff(mesh, p, st, inputs, v);
    ClosedPass(es, p, st.mask, v, |es|);
  }

  // ---------------------------------------------------------------- open nodes

  /** Every element around v sees the layer thinner than the collapse thickness there, and none overflows onto it. */
  ghost predicate Collapsing(mesh: seq<seq<nat>>, p: Params, inputs: seq<Inputs>, v: nat)
    requires ValidInputs(mesh, inputs)
  {
    forall i: nat, j: nat :: Place(mesh, i, j, v) ==>
      inputs[i].thickness[j] < p.collapseThickness && !Overflows(inputs[i], j)
  }

  /** Every element around v sees it thick enough. */
  ghost predicate Lasting(mesh: seq<seq<nat>>, p: Params, inputs: seq<Inputs>, v: nat)
    requires ValidInputs(mesh, inputs)
  {
    forall i: nat, j: nat :: Place(mesh, i, j, v) ==> inputs[i].thickness[j] >= p.collapseThickness
  }

  lemma OpenNode(mesh: seq<seq<nat>>, p: Params, st: State, inputs: seq<Inputs>, v: nat, i: nat)
    requires ValidSetting(mesh, st) && ValidInputs(mesh, inputs) && v < |st.mask| && i < |mesh| && st.mask[v] == 1.0
    ensures var e := View(mesh, st.active, inputs)[i];
      && (v !in mesh[i] ==> Proposes(e, p, st.mask, v) == None && !FlagsNode(e, p, st.mask, v))
      && (v in mesh[i] && Collapsing(mesh, p, inputs, v) ==>
            Proposes(e, p, st.mask, v) == Some(0.0) && FlagsNode(e, p, st.mask, v))
      && (v in mesh[i] && Lasting(mesh, p, inputs, v) ==>
            Proposes(e, p, st.mask, v) == Some(1.0) && !FlagsNode(e, p, st.mask, v))
  {
    hide Overflows;
    hide HasOpenNode;
    var e := View(mesh, st.active, inputs)[i];
    if v in mesh[i] {
      var j := IndexOf(e.nodes, v);
      assert Place(mesh, i, j, v);
      PushedIff(e, inputs[i], j);
      if PushedBy(e, j, j + 1, |e.nodes|) {
        var k :| j + 1 <= k < |e.nodes| && Pushes(e, k, j);
        assert PushedBy(e, j, 0, |e.nodes|);
      }
    }
  }

  lemma {:induction false} OpenPass(mesh: seq<seq<nat>>, p: Params, st: State, inputs: seq<Inputs>, v: nat, m: nat)
    requires ValidSetting(mesh, st) && ValidInputs(mesh, inputs) && v < |st.mask| && st.mask[v] == 1.0 && m <= |mesh|
    ensures var es := View(mesh, st.active, inputs);
      && (Collapsing(mesh, p, inputs, v) ==>
            PassMask(es, p, st.mask, v, m) == 0.0 && (PassFlag(es, p, st.mask, v, m) <==> Around(mesh, v, m)))
      && (Lasting(mesh, p, inputs, v) ==>
            PassMask(es, p, st.mask, v, m) == (if Around(mesh, v, m) then 1.0 else 0.0) && !PassFlag(es, p, st.mask, v, m))
  {
    hide Proposes;
    hide FlagsNode;
    hide Collapsing;
    hide Lasting;
    hide HasOpenNode;
    hide ValidSetting;
    SettingSizes(mesh, st);
    if m > 0 {
      OpenPass(mesh, p, st, inputs, v, m - 1);
      OpenNode(mesh, p, st, inputs, v, m - 1);
    }
  }

  /** One of the first m elements has v. */
  ghost predicate Around(mesh: seq<seq<nat>>, v: nat, m: nat)
    requires m <= |mesh|
  {
    exists i: nat :: i < m && v in mesh[i]
  }

  /** An open node that is thin on all sides and not overflowed onto is flagged, and closes unless locked; one that is thick stays. */
  lemma OpenNodeFate(mesh: seq<seq<nat>>, p: Params, st: State, inputs: seq<Inputs>, v: nat)
    requires ValidSetting(mesh, st) && ValidInputs(mesh, inputs) && v < |st.mask| && st.mask[v] == 1.0
    ensures var next := Step(mesh, p, st, inputs);
      && (Collapsing(mesh, p, inputs, v) ==>
            && next.counter[v] == st.counter[v] + 1
            && (next.mask[v] == 0.0 <==> p.flipLock == 0 || st.counter[v] + 1 <= p.flipLock))
      && (Lasting(mesh, p, inputs, v) ==> next.counter[v] == st.counter[v] && next.mask[v] == 1.0)
  {
    hide PassMask;
    hide PassFlag;
    hide HasOpenNode;
    hide Collapsing;
    hide Lasting;
    hide Binary;
    assert Covered(mesh, v);
    assert Around(mesh, v, |mesh|);
    OpenPass(mesh, p, st, inputs, v, |mesh|);
  }

  // ---------------------------------------------------------------- two passes

  /** The second pass sees the thicknesses that the first one left. */
  ghost predicate HandsOver(mesh: seq<seq<nat>>, p: Params, st: State, inputs: seq<Inputs>, inputs': seq<Inputs>)
    requires ValidSetting(mesh, st) && ValidInputs(mesh, inputs) && ValidInputs(mesh, inputs')
  {
    forall i :: 0 <= i < |mesh| ==> ThicknessKept(View(mesh, st.active, inputs)[i], p, st.mask, inputs'[i].thickness)
  }

  lemma StepSetting(mesh: seq<seq<nat>>, p: Params, st: State, inputs: seq<Inputs>)
    requires ValidSetting(mesh, st) && ValidInputs(mesh, inputs)
    ensures ValidSetting(mesh, Step(mesh, p, st, inputs)) && |Step(mesh, p, st, inputs).mask| == |st.mask|
  {
    PassBinary(View(mesh, st.active, inputs), p, st);
  }

  lemma ThicknessAt(mesh: seq<seq<nat>>, p: Params, st: State, inputs: seq<Inputs>, inputs': seq<Inputs>, v: nat, i: nat, j: nat)
    requires ValidSetting(mesh, st) && ValidInputs(mesh, inputs) && ValidInputs(mesh, inputs')
    requires HandsOver(mesh, p, st, inputs, inputs') && Place(mesh, i, j, v) && v < |st.mask|
    ensures inputs'[i].thickness[j] == if st.mask[v] == 0.0 then p.initThickness else inputs[i].thickness[j]
  {
    assert ThicknessKept(View(mesh, st.active, inputs)[i], p, st.mask, inputs'[i].thickness);
  }

  /**
    A node that has just opened starts from the initial thickness: it stays open when that is no less than the collapse
    thickness; when it is less and nothing overflows onto the node, the next pass flags it and closes it unless locked.
   */
  lemma OpenedNodeFate(mesh: seq<seq<nat>>, p: Params, st: State, inputs: seq<Inputs>, inputs': seq<Inputs>, v: nat)
    requires ValidSetting(mesh, st) && ValidInputs(mesh, inputs) && ValidInputs(mesh, inputs')
    requires HandsOver(mesh, p, st, inputs, inputs') && v < |st.mask|
    requires st.mask[v] == 0.0 && Step(mesh, p, st, inputs).mask[v] == 1.0
    ensures ValidSetting(mesh, Step(mesh, p, st, inputs))
    ensures var first := Step(mesh, p, st, inputs);
      var next := Step(mesh, p, first, inputs');
      if p.initThickness >= p.collapseThickness then next.mask[v] == 1.0 && next.counter[v] == first.counter[v]
      else (forall i: nat, j: nat :: Place(mesh, i, j, v) ==> !Overflows(inputs'[i], j)) ==>
        && next.counter[v] == first.counter[v] + 1
        && (next.mask[v] == 0.0 <==> p.flipLock == 0 || first.counter[v] + 1 <= p.flipLock)
  {
    hide Step;
    hide Overflows;
    hide HandsOver;
    hide Binary;
    hide Covers;
    StepSetting(mesh, p, st, inputs);
    forall i: nat, j: nat | Place(mesh, i, j, v) ensures i < |mesh| && inputs'[i].thickness[j] == p.initThickness {
      ThicknessAt(mesh, p, st, inputs, inputs', v, i, j);
    }
    OpenNodeFate(mesh, p, Step(mesh, p, st, inputs), inputs', v);
  }

  /** A node that stays open keeps its thickness: where it lasted once, it lasts again. */
  lemma LastingPersists(mesh: seq<seq<nat>>, p: Params, st: State, inputs: seq<Inputs>, inputs': seq<Inputs>, v: nat)
    requires ValidSetting(mesh, st) && ValidInputs(mesh, inputs) && ValidInputs(mesh, inputs')
    requires HandsOver(mesh, p, st, inputs, inputs') && v < |st.mask| && st.mask[v] == 1.0
    ensures Lasting(mesh, p, inputs, v) <==> Lasting(mesh, p, inputs', v)
    ensures ValidSetting(mesh, Step(mesh, p, st, inputs))
    ensures Lasting(mesh, p, inputs, v) ==> Step(mesh, p, Step(mesh, p, st, inputs), inputs').mask[v] == 1.0
  {
    hide Step;
    hide HandsOver;
    hide Binary;
    hide Covers;
    StepSetting(mesh, p, st, inputs);
    forall i: nat, j: nat | Place(mesh, i, j, v) ensures i < |mesh| && inputs'[i].thickness[j] == inputs[i].thickness[j] {
      ThicknessAt(mesh, p, st, inputs, inputs', v, i, j);
    }
    if Lasting(mesh, p, inputs, v) {
      OpenNodeFate(mesh, p, st, inputs, v);
      OpenNodeFate(mesh, p, Step(mesh, p, st, inputs), inputs', v);
    }
  }
}
