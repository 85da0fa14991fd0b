/** What the order of the elements in a pass can and cannot change. */
module EplOrder {
  import opened EplMask
  import opened EplDomain
  import opened EplRuns

  // ---------------------------------------------------------------- agreeing proposals

  /** All elements that propose something for v propose the same. */
  ghost predicate Agree(es: seq<Element>, p: Params, prior: seq<real>, v: nat)
    requires ValidElements(es, |prior|)
  {
    forall i, k :: 0 <= i < |es| && 0 <= k < |es| && Proposes(es[i], p, prior, v).Some? && Proposes(es[k], p, prior, v).Some? ==>
      Proposes(es[i], p, prior, v) == Proposes(es[k], p, prior, v)
  }

  /** Element k is moved behind all others. */
  function MovedLast(es: seq<Element>, k: nat): seq<Element>
    requires k < |es|
  {
    es[..k] + es[k + 1..] + [es[k]]
  }

  lemma {:induction false} PassMaskIsProposed(es: seq<Element>, p: Params, prior: seq<real>, v: nat, m: nat)
    requires ValidElements(es, |prior|) && m <= |es|
    ensures (forall i :: 0 <= i < m ==> Proposes(es[i], p, prior, v).None?) ==> PassMask(es, p, prior, v, m) == 0.0
    ensures (exists i :: 0 <= i < m && Proposes(es[i], p, prior, v).Some?) ==>
      exists i :: 0 <= i < m && Proposes(es[i], p, prior, v) == Some(PassMask(es, p, prior, v, m))
  {
    if m > 0 {
      PassMaskIsProposed(es, p, prior, v, m - 1);
      var last := Proposes(es[m - 1], p, prior, v);
      if last.None? && exists i :: 0 <= i < m && Proposes(es[i], p, prior, v).Some? {
        var i :| 0 <= i < m && Proposes(es[i], p, prior, v).Some?;
        assert i < m - 1;
        var i' :| 0 <= i' < m - 1 && Proposes(es[i'], p, prior, v) == Some(PassMask(es, p, prior, v, m - 1));
        assert 0 <= i' < m;
      }
    }
  }

  ghost predicate SameElements(es: seq<Element>, es': seq<Element>) {
    (forall i :: 0 <= i < |es| ==> es[i] in es') && (forall i :: 0 <= i < |es'| ==> es'[i] in es)
  }

  /** If the proposals for v agree, any order of the elements leaves the same mask at v ... */
  lemma OrderIrrelevant(es: seq<Element>, es': seq<Element>, p: Params, prior: seq<real>, v: nat)
    requires ValidElements(es, |prior|) && ValidElements(es', |prior|) && SameElements(es, es')
    requires Agree(es, p, prior, v)
    ensures PassMask(es', p, prior, v, |es'|) == PassMask(es, p, prior, v, |es|)
  {
    hide Proposes;
    hide PassMask;
    PassMaskIsProposed(es, p, prior, v, |es|);
    PassMaskIsProposed(es', p, prior, v, |es'|);
    if i :| 0 <= i < |es| && Proposes(es[i], p, prior, v).Some? {
      assert es[i] in es';
      var k :| 0 <= k < |es'| && Proposes(es'[k], p, prior, v) == Some(PassMask(es', p, prior, v, |es'|));
      assert es'[k] in es;
    } else {
      forall k | 0 <= k < |es'| ensures Proposes(es'[k], p, prior, v).None? {
        assert es'[k] in es;
      }
    }
  }

  /** ... and otherwise it is the element processed last that decides. */
  lemma LastElementDecides(es: seq<Element>, p: Params, prior: seq<real>, v: nat, k: nat)
    requires ValidElements(es, |prior|) && k < |es| && Proposes(es[k], p, prior, v).Some?
    ensures ValidElements(MovedLast(es, k), |prior|) && SameElements(es, MovedLast(es, k))
    ensures Proposes(es[k], p, prior, v) == Some(PassMask(MovedLast(es, k), p, prior, v, |es|))
  {
  }

  // ---------------------------------------------------------------- the condition on heads and thicknesses

  /** The element would close the open node v: it is thin there, and no later node of the element pushes v. */
  ghost predicate Closes(e: Element, p: Params, v: nat)
    requires |e.sedHead| == |e.eplHead| == |e.hMax| == |e.thickness| == |e.nodes|
  {
    v in e.nodes && var j := IndexOf(e.nodes, v);
      e.thickness[j] < p.collapseThickness && !PushedBy(e, j, j + 1, |e.nodes|)
  }

  /** v was closed, or the elements around v all close it or all keep it open. */
  ghost predicate OrderFree(es: seq<Element>, p: Params, prior: seq<real>, v: nat)
    requires ValidElements(es, |prior|) && v < |prior|
  {
    prior[v] == 0.0 ||
    forall i, k :: 0 <= i < |es| && 0 <= k < |es| && v in es[i].nodes && v in es[k].nodes ==>
      Closes(es[i], p, v) == Closes(es[k], p, v)
  }

  lemma OpenProposal(e: Element, p: Params, prior: seq<real>, v: nat)
    requires e.Valid(|prior|) && v < |prior| && v in e.nodes && (prior[v] == 0.0 || prior[v] == 1.0)
    ensures prior[v] == 1.0 ==> Proposes(e, p, prior, v) == Some(if Closes(e, p, v) then 0.0 else 1.0)
    ensures prior[v] == 0.0 ==> Proposes(e, p, prior, v) != Some(0.0)
    ensures Proposes(e, p, prior, v) == None || Proposes(e, p, prior, v) == Some(0.0) || Proposes(e, p, prior, v) == Some(1.0)
  {
  }

  lemma AgreeIff(es: seq<Element>, p: Params, prior: seq<real>, v: nat)
    requires ValidElements(es, |prior|) && v < |prior| && Binary(prior)
    ensures Agree(es, p, prior, v) <==> OrderFree(es, p, prior, v)
  {
    hide Closes;
    forall i | 0 <= i < |es|
      ensures v !in es[i].nodes ==> Proposes(es[i], p, prior, v) == None
      ensures v in es[i].nodes && prior[v] == 1.0 ==> Proposes(es[i], p, prior, v) == Some(if Closes(es[i], p, v) then 0.0 else 1.0)
      ensures prior[v] == 0.0 && Proposes(es[i], p, prior, v).Some? ==> Proposes(es[i], p, prior, v) == Some(1.0)
    {
      if v in es[i].nodes {
        OpenProposal(es[i], p, prior, v);
      }
    }
    hide Proposes;
    if !OrderFree(es, p, prior, v) {
      var i, k :| 0 <= i < |es| && 0 <= k < |es| && v in es[i].nodes && v in es[k].nodes
        && Closes(es[i], p, v) != Closes(es[k], p, v);
      assert Proposes(es[i], p, prior, v) != Proposes(es[k], p, prior, v);
    }
  }

  ghost predicate SameMask(es: seq<Element>, es': seq<Element>, p: Params, prior: seq<real>, v: nat) {
    ValidElements(es, |prior|) && ValidElements(es', |prior|)
    && PassMask(es', p, prior, v, |es'|) == PassMask(es, p, prior, v, |es|)
  }

  lemma PermutedElements(es: seq<Element>, es': seq<Element>, n: nat)
    requires ValidElements(es, n) && multiset(es) == multiset(es')
    ensures SameElements(es, es') && ValidElements(es', n)
  {
    forall i | 0 <= i < |es| ensures es[i] in es' {
      assert es[i] in multiset(es');
    }
    forall i | 0 <= i < |es'| ensures es'[i] in es {
      assert es'[i] in multiset(es);
    }
  }

  lemma MovedIsPermuted(es: seq<Element>, k: nat)
    requires k < |es|
    ensures multiset(MovedLast(es, k)) == multiset(es)
  {
    assert es == es[..k] + [es[k]] + es[k + 1..];
  }

  ghost predicate SameUnderAllOrders(es: seq<Element>, p: Params, prior: seq<real>, v: nat) {
    forall es' :: multiset(es') == multiset(es) ==> SameMask(es, es', p, prior, v)
  }

  /** Elements that disagree leave different masks when one or the other comes last. */
  lemma Disagreement(es: seq<Element>, p: Params, prior: seq<real>, v: nat, i: nat, k: nat)
    requires ValidElements(es, |prior|) && i < |es| && k < |es|
    requires Proposes(es[i], p, prior, v).Some? && Proposes(es[k], p, prior, v).Some?
    requires Proposes(es[i], p, prior, v) != Proposes(es[k], p, prior, v)
    ensures !SameUnderAllOrders(es, p, prior, v)
  {
    hide Proposes;
    hide PassMask;
    hide MovedLast;
    hide SameElements;
    LastElementDecides(es, p, prior, v, i);
    LastElementDecides(es, p, prior, v, k);
    MovedIsPermuted(es, i);
    MovedIsPermuted(es, k);
    assert |MovedLast(es, i)| == |multiset(es)| == |MovedLast(es, k)| == |es|;
    assert !SameMask(es, MovedLast(es, i), p, prior, v) || !SameMask(es, MovedLast(es, k), p, prior, v);
  }

  /**
    The mask at v does not depend on the order of the elements just when v was closed, or the elements around v agree
    on closing it.
   */
  lemma OrderIndependence(es: seq<Element>, p: Params, prior: seq<real>, v: nat)
    requires ValidElements(es, |prior|) && v < |prior| && Binary(prior)
    ensures OrderFree(es, p, prior, v) <==> SameUnderAllOrders(es, p, prior, v)
  {
    hide Proposes;
    hide PassMask;
    hide OrderFree;
    hide SameElements;
    AgreeIff(es, p, prior, v);
    if Agree(es, p, prior, v) {
      hide Agree;
      forall es' | multiset(es') == multiset(es) ensures SameMask(es, es', p, prior, v) {
        PermutedElements(es, es', |prior|);
        OrderIrrelevant(es, es', p, prior, v);
      }
    } else {
      var i, k :| 0 <= i < |es| && 0 <= k < |es| && Proposes(es[i], p, prior, v).Some? && Proposes(es[k], p, prior, v).Some?
        && Proposes(es[i], p, prior, v) != Proposes(es[k], p, prior, v);
      hide SameUnderAllOrders;
      Disagreement(es, p, prior, v, i, k);
    }
  }

  /** Two triangles that share node 0, with the same values there. */
  ghost predicate ShareNodeZero(a: Element, b: Element) {
    && a.Valid(5) && b.Valid(5) && a.nodes == [0, 1, 2] && b.nodes == [0, 3, 4]
    && a.sedHead[0] == b.sedHead[0] && a.eplHead[0] == b.eplHead[0] && a.hMax[0] == b.hMax[0]
    && a.residual[0] == b.residual[0] && a.thickness[0] == b.thickness[0]
  }

  /** The layer is thin at node 0; the second triangle's node 3 is full, and pushes node 0. */
  lemma ThinAndPushed() returns (a: Element, b: Element)
    ensures ShareNodeZero(a, b)
    ensures Closes(a, Params(1.0, 1.0, 0), 0) && !Closes(b, Params(1.0, 1.0, 0), 0)
  {
    a := Element([0, 1, 2], true, [0.0, 1.0, 1.0], [0.0, 0.0, 0.0], [1.0, 1.0, 1.0], [0.0, 0.0, 0.0], [0.5, 2.0, 2.0]);
    b := Element([0, 3, 4], true, [0.0, 1.0, 1.0], [0.0, 1.0, 0.0], [1.0, 1.0, 1.0], [0.0, 0.0, 0.0], [0.5, 2.0, 2.0]);
    assert IndexOf(a.nodes, 0) == 0 && IndexOf(b.nodes, 0) == 0;
    assert Pushes(b, 1, 0);
  }

  /** With all nodes open, the mask at node 0 is decided by which of two such triangles comes last. */
  lemma OrderCanMatter() returns (a: Element, b: Element, p: Params, prior: seq<real>)
    ensures Binary(prior) && |prior| == 5 && ShareNodeZero(a, b)
    ensures ValidElements([a, b], |prior|) && ValidElements([b, a], |prior|)
    ensures PassMask([a, b], p, prior, 0, 2) != PassMask([b, a], p, prior, 0, 2)
  {
    hide Closes;
    hide PassMask;
    hide Proposes;
    hide Element.Valid;
    p := Params(1.0, 1.0, 0);
    prior := [1.0, 1.0, 1.0, 1.0, 1.0];
    a, b := ThinAndPushed();
    OpenProposal(a, p, prior, 0);
    OpenProposal(b, p, prior, 0);
    LastDecides([a, b], p, prior, 0);
    LastDecides([b, a], p, prior, 0);
  }

  lemma LastDecides(es: seq<Element>, p: Params, prior: seq<real>, v: nat)
    requires ValidElements(es, |prior|) && |es| > 0 && Proposes(es[|es| - 1], p, prior, v).Some?
    ensures Proposes(es[|es| - 1], p, prior, v) == Some(PassMask(es, p, prior, v, |es|))
  {
  }

  // ---------------------------------------------------------------- whole passes and runs

  /** Places for n elements: each is taken from somewhere, and all are taken. */
  ghost predicate IsOrder(order: seq<nat>, n: nat) {
    && |order| == n
    && (forall i :: 0 <= i < n ==> order[i] < n)
    && (forall k :: 0 <= k < n ==> k in order)
  }

  function Reordered<T>(s: seq<T>, order: seq<nat>): (r: seq<T>)
    requires forall i :: 0 <= i < |order| ==> order[i] < |s|
    ensures |r| == |order| && forall i :: 0 <= i < |r| ==> r[i] == s[order[i]]
  {
    seq(|order|, i requires 0 <= i < |order| => s[order[i]])
  }

  function ReorderedState(st: State, order: seq<nat>): State
    requires forall i :: 0 <= i < |order| ==> order[i] < |st.active|
  {
    st.(active := Reordered(st.active, order))
  }

  /** No node's mask depends on the order in this pass. */
  ghost predicate PassOrderFree(mesh: seq<seq<nat>>, p: Params, st: State, inputs: seq<Inputs>)
    requires ValidMesh(mesh, |st.mask|) && ValidState(mesh, |st.mask|, st) && ValidInputs(mesh, inputs)
  {
    forall v: nat :: v < |st.mask| ==> OrderFree(View(mesh, st.active, inputs), p, st.mask, v)
  }

  lemma ReorderedValid(mesh: seq<seq<nat>>, st: State, inputs: seq<Inputs>, order: seq<nat>)
    requires ValidSetting(mesh, st) && ValidInputs(mesh, inputs) && IsOrder(order, |mesh|)
    ensures ValidSetting(Reordered(mesh, order), ReorderedState(st, order))
    ensures ValidInputs(Reordered(mesh, order), Reordered(inputs, order))
  {
    var mesh' := Reordered(mesh, order);
    forall v: nat | v < |st.mask| ensures Covered(mesh', v) {
      assert Covered(mesh, v);
      var k :| 0 <= k < |mesh| && v in mesh[k];
      assert k in order;
      var i :| 0 <= i < |order| && order[i] == k;
      assert v in mesh'[i];
    }
  }

  lemma ReorderedView(mesh: seq<seq<nat>>, st: State, inputs: seq<Inputs>, order: seq<nat>)
    requires |mesh| == |st.active| == |inputs| && IsOrder(order, |mesh|)
    ensures SameElements(View(mesh, st.active, inputs),
                         View(Reordered(mesh, order), Reordered(st.active, order), Reordered(inputs, order)))
  {
    var es := View(mesh, st.active, inputs);
    var es' := View(Reordered(mesh, order), Reordered(st.active, order), Reordered(inputs, order));
    assert forall i :: 0 <= i < |es'| ==> es'[i] == es[order[i]];
    forall k | 0 <= k < |es| ensures es[k] in es' {
      assert k in order;
      var i :| 0 <= i < |order| && order[i] == k;
      assert es'[i] == es[k];
    }
  }

  lemma SameFlag(es: seq<Element>, es': seq<Element>, p: Params, prior: seq<real>, v: nat)
    requires ValidElements(es, |prior|) && ValidElements(es', |prior|) && SameElements(es, es')
    ensures PassFlag(es, p, prior, v, |es|) <==> PassFlag(es', p, prior, v, |es'|)
  {
    hide FlagsNode;
    if PassFlag(es, p, prior, v, |es|) {
      var i :| 0 <= i < |es| && FlagsNode(es[i], p, prior, v);
      assert es[i] in es';
    }
    if PassFlag(es', p, prior, v, |es'|) {
      var i :| 0 <= i < |es'| && FlagsNode(es'[i], p, prior, v);
      assert es'[i] in es;
    }
  }

  /** An order-free pass over reordered elements does the same: masks, counters, and each element's activity. */
  lemma StepOrderFree(mesh: seq<seq<nat>>, p: Params, st: State, inputs: seq<Inputs>, order: seq<nat>)
    requires ValidSetting(mesh, st) && ValidInputs(mesh, inputs) && IsOrder(order, |mesh|)
    requires PassOrderFree(mesh, p, st, inputs)
    ensures ValidSetting(Reordered(mesh, order), ReorderedState(st, order))
    ensures ValidInputs(Reordered(mesh, order), Reordered(inputs, order))
    ensures Step(Reordered(mesh, order), p, ReorderedState(st, order), Reordered(inputs, order))
         == ReorderedState(Step(mesh, p, st, inputs), order)
  {
    hide PassMask;
    hide PassFlag;
    hide OrderFree;
    hide HasOpenNode;
    ReorderedValid(mesh, st, inputs, order);
    ReorderedView(mesh, st, inputs, order);
    var mesh', st', inputs' := Reordered(mesh, order), ReorderedState(st, order), Reordered(inputs, order);
    var es, es' := View(mesh, st.active, inputs), View(mesh', st'.active, inputs');
    var next, next' := Step(mesh, p, st, inputs), Step(mesh', p, st', inputs');
    forall v: nat | v < |st.mask| ensures next'.mask[v] == next.mask[v] && next'.counter[v] == next.counter[v] {
      SameFlag(es, es', p, st.mask, v);
      assert OrderFree(es, p, st.mask, v);
      AgreeIff(es, p, st.mask, v);
      OrderIrrelevant(es, es', p, st.mask, v);
    }
    assert next'.mask == next.mask && next'.counter == next.counter;
    assert next'.active == Reordered(next.active, order);
  }

  ghost predicate EachPassOrderFree(mesh: seq<seq<nat>>, p: Params, states: seq<State>, inputs: seq<seq<Inputs>>) {
    |states| == |inputs| + 1 && forall k :: 0 <= k < |inputs| ==> PassIsOrderFree(mesh, p, states[k], inputs[k])
  }

  ghost predicate PassIsOrderFree(mesh: seq<seq<nat>>, p: Params, st: State, inputs: seq<Inputs>) {
    ValidSetting(mesh, st) && ValidInputs(mesh, inputs) ==> PassOrderFree(mesh, p, st, inputs)
  }

  /** A run of order-free passes is the same run under every order of the elements. */
  lemma {:induction false} RunOrderFree(mesh: seq<seq<nat>>, p: Params, states: seq<State>, inputs: seq<seq<Inputs>>,
                                        order: seq<nat>, states': seq<State>, inputs': seq<seq<Inputs>>, n: nat)
    requires IsRun(mesh, p, states, inputs) && IsOrder(order, |mesh|) && EachPassOrderFree(mesh, p, states, inputs)
    requires |inputs'| == |inputs| && n < |states|
    requires forall k :: 0 <= k < |inputs| ==> |inputs[k]| == |mesh| && inputs'[k] == Reordered(inputs[k], order)
    requires IsRun(Reordered(mesh, order), p, states', inputs')
    requires |states[0].active| == |mesh| && states'[0] == ReorderedState(states[0], order)
    ensures |states[n].active| == |mesh| && states'[n] == ReorderedState(states[n], order)
  {
    hide Step;
    hide PassOrderFree;
    hide ValidSetting;
    if n > 0 {
      RunOrderFree(mesh, p, states, inputs, order, states', inputs', n - 1);
      RunKeepsSetting(mesh, p, states, inputs, n - 1);
      RunKeepsSetting(Reordered(mesh, order), p, states', inputs', n - 1);
      assert PassIsOrderFree(mesh, p, states[n - 1], inputs[n - 1]);
      StepOrderFree(mesh, p, states[n - 1], inputs[n - 1], order);
    }
  }

  /** Passes without collapse are order-free. */
  lemma OrderFreeWithoutCollapse(mesh: seq<seq<nat>>, p: Params, st: State, inputs: seq<Inputs>)
    requires ValidSetting(mesh, st) && ValidInputs(mesh, inputs) && NoCollapse(mesh, p, st, inputs)
    ensures PassOrderFree(mesh, p, st, inputs)
  {
  }
}
