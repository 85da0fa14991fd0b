/** The pass over the whole mesh, and the state it leaves. */
module EplDomain {
  import opened EplMask

  /** The nodal inputs of one element in one pass. */
  datatype Inputs = Inputs(sedHead: seq<real>, eplHead: seq<real>, hMax: seq<real>, residual: seq<real>, thickness: seq<real>)

  /** What a pass reads and rewrites: node masks, zig-zag counters, active elements. */
  datatype State = State(mask: seq<real>, counter: seq<int>, active: seq<bool>)

  /** Elements as their node numbers, for n nodes. */
  ghost predicate ValidMesh(mesh: seq<seq<nat>>, n: nat) {
    forall i :: 0 <= i < |mesh| ==> ValidCell(mesh[i], n)
  }

  predicate ValidCell(nodes: seq<nat>, n: nat) {
    && |nodes| > 0
    && (forall j :: 0 <= j < |nodes| ==> nodes[j] < n)
    && (forall j, k :: 0 <= j < k < |nodes| ==> nodes[j] != nodes[k])
  }

  /** Every node belongs to some element. */
  ghost predicate Covers(mesh: seq<seq<nat>>, n: nat) {
    forall v: nat :: v < n ==> Covered(mesh, v)
  }

  predicate Covered(mesh: seq<seq<nat>>, v: nat) {
    exists i :: 0 <= i < |mesh| && v in mesh[i]
  }

  ghost predicate ValidInputs(mesh: seq<seq<nat>>, inputs: seq<Inputs>) {
    |inputs| == |mesh| && forall i :: 0 <= i < |mesh| ==>
      |inputs[i].sedHead| == |inputs[i].eplHead| == |inputs[i].hMax| == |inputs[i].residual|
      == |inputs[i].thickness| == |mesh[i]|
  }

  ghost predicate ValidState(mesh: seq<seq<nat>>, n: nat, st: State) {
    |st.mask| == |st.counter| == n && |st.active| == |mesh|
  }

  ghost predicate ValidElements(es: seq<Element>, n: nat) {
    forall i :: 0 <= i < |es| ==> es[i].Valid(n)
  }

  function View(mesh: seq<seq<nat>>, active: seq<bool>, inputs: seq<Inputs>): (es: seq<Element>)
    requires |mesh| == |active| == |inputs|
    ensures |es| == |mesh|
    ensures forall i :: 0 <= i < |es| ==> es[i] == Element(mesh[i], active[i], inputs[i].sedHead, inputs[i].eplHead,
                                                       inputs[i].hMax, inputs[i].residual, inputs[i].thickness)
  {
    seq(|mesh|, i requires 0 <= i < |mesh| =>
      Element(mesh[i], active[i], inputs[i].sedHead, inputs[i].eplHead, inputs[i].hMax, inputs[i].residual, inputs[i].thickness))
  }

  // ---------------------------------------------------------------- what all elements propose

  ghost function IndexOf(nodes: seq<nat>, v: nat): (j: nat)
    requires v in nodes
    ensures j < |nodes| && nodes[j] == v
  {
    var j :| 0 <= j < |nodes| && nodes[j] == v;
    j
  }

  /** What element e leaves in the mask at node v, if anything. */
  ghost function Proposes(e: Element, p: Params, prior: seq<real>, v: nat): Option<real>
    requires e.Valid(|prior|)
  {
    if v in e.nodes then Proposal(e, p, prior, IndexOf(e.nodes, v), |e.nodes|) else None
  }

  ghost predicate FlagsNode(e: Element, p: Params, prior: seq<real>, v: nat)
    requires e.Valid(|prior|)
  {
    v in e.nodes && Flags(e, p, prior, IndexOf(e.nodes, v), |e.nodes|)
  }

  /** The mask the first m elements leave at node v: the last proposal stands, and 0 is the default. */
  ghost function PassMask(es: seq<Element>, p: Params, prior: seq<real>, v: nat, m: nat): real
    requires ValidElements(es, |prior|) && m <= |es|
  {
    if m == 0 then 0.0 else Written(Proposes(es[m - 1], p, prior, v), PassMask(es, p, prior, v, m - 1))
  }

  ghost predicate PassFlag(es: seq<Element>, p: Params, prior: seq<real>, v: nat, m: nat)
    requires ValidElements(es, |prior|) && m <= |es|
  {
    exists i :: 0 <= i < m && FlagsNode(es[i], p, prior, v)
  }

  ghost function NewCounter(es: seq<Element>, p: Params, st: State, v: nat): int
    requires ValidElements(es, |st.mask|) && v < |st.mask| == |st.counter|
  {
    st.counter[v] + if PassFlag(es, p, st.mask, v, |es|) then 1 else 0
  }

  /** The zig-zag lock is on at a node whose counter has passed the limit. */
  predicate Locked(p: Params, counter: int) {
    counter > p.flipLock && p.flipLock != 0
  }

  ghost function NewMask(es: seq<Element>, p: Params, st: State, v: nat): real
    requires ValidElements(es, |st.mask|) && v < |st.mask| == |st.counter|
  {
    if Locked(p, NewCounter(es, p, st, v)) then st.mask[v] else PassMask(es, p, st.mask, v, |es|)
  }

  /** An element is active if the largest mask value of its nodes is positive. */
  predicate HasOpenNode(nodes: seq<nat>, mask: seq<real>) {
    exists j :: 0 <= j < |nodes| && nodes[j] < |mask| && mask[nodes[j]] > 0.0
  }

  function Elementize(mesh: seq<seq<nat>>, mask: seq<real>): (a: seq<bool>)
    ensures |a| == |mesh|
  {
    seq(|mesh|, i requires 0 <= i < |mesh| => HasOpenNode(mesh[i], mask))
  }

  /** One pass. */
  ghost function Step(mesh: seq<seq<nat>>, p: Params, st: State, inputs: seq<Inputs>): (st': State)
    requires ValidMesh(mesh, |st.mask|) && ValidState(mesh, |st.mask|, st) && ValidInputs(mesh, inputs)
    ensures ValidState(mesh, |st.mask|, st')
  {
    var es := View(mesh, st.active, inputs);
    var n := |st.mask|;
    var mask := seq(n, v requires 0 <= v < n => NewMask(es, p, st, v));
    State(mask, seq(n, v requires 0 <= v < n => NewCounter(es, p, st, v)), Elementize(mesh, mask))
  }

  /** A node is active if it belongs to an element with an open node, or to an active element. */
  predicate NodeActive(mesh: seq<seq<nat>>, mask: seq<real>, active: seq<bool>, v: nat, m: nat)
    requires |active| == |mesh| && m <= |mesh|
  {
    exists i :: 0 <= i < m && Activates(mesh[i], mask, active[i], v)
  }

  predicate Activates(nodes: seq<nat>, mask: seq<real>, active: bool, v: nat) {
    v in nodes && (HasOpenNode(nodes, mask) || active)
  }

  ghost predicate Binary(mask: seq<real>) {
    forall v :: 0 <= v < |mask| ==> mask[v] == 0.0 || mask[v] == 1.0
  }

  // ---------------------------------------------------------------- the pass

  /** Marks the nodes of an element whose mask values sum to something positive, or that is active. */
  method GetActive(nodes: seq<nat>, mask: seq<real>, active: bool, activeVec: array<bool>)
    requires ValidCell(nodes, |mask|) && Binary(mask) && activeVec.Length == |mask|
    modifies activeVec
    ensures forall v :: 0 <= v < |mask| ==>
      activeVec[v] == (old(activeVec[v]) || Activates(nodes, mask, active, v))
  {
    var flag := 0.0;
    for i := 0 to |nodes|
      invariant flag >= 0.0
      invariant flag > 0.0 <==> HasOpenNode(nodes[..i], mask)
    {
      flag := flag + mask[nodes[i]];
      assert nodes[..i + 1] == nodes[..i] + [nodes[i]];
      assert nodes[..i + 1][i] == nodes[i];
      assert HasOpenNode(nodes[..i + 1], mask) == (HasOpenNode(nodes[..i], mask) || mask[nodes[i]] > 0.0) by {
        if HasOpenNode(nodes[..i], mask) {
          var j :| 0 <= j < i && nodes[..i][j] < |mask| && mask[nodes[..i][j]] > 0.0;
          assert nodes[..i + 1][j] == nodes[..i][j];
        }
      }
    }
    assert nodes[..|nodes|] == nodes;
    if flag > 0.0 || active {
      for i := 0 to |nodes|
        invariant forall v :: 0 <= v < |mask| ==> activeVec[v] == (old(activeVec[v]) || v in nodes[..i])
      {
        activeVec[nodes[i]] := true;
        assert nodes[..i + 1] == nodes[..i] + [nodes[i]];
      }
    }
  }

  ghost predicate Proposed(es: seq<Element>, p: Params, prior: seq<real>, mask: seq<real>, recurrence: seq<real>, m: nat)
    requires ValidElements(es, |prior|) && m <= |es| && |mask| == |recurrence| == |prior|
  {
    forall v :: 0 <= v < |prior| ==>
      && mask[v] == PassMask(es, p, prior, v, m)
      && recurrence[v] == if PassFlag(es, p, prior, v, m) then 1.0 else 0.0
  }

  /** One more element's proposals. */
  lemma NextElement(es: seq<Element>, p: Params, prior: seq<real>, m: nat,
                    mask: seq<real>, recurrence: seq<real>, mask': seq<real>, recurrence': seq<real>)
    requires ValidElements(es, |prior|) && m < |es|
    requires |mask| == |recurrence| == |mask'| == |recurrence'| == |prior|
    requires Proposed(es, p, prior, mask, recurrence, m)
    requires MaskSoFar(es[m], p, prior, mask, mask', |es[m].nodes|)
    requires FlagsSoFar(es[m], p, prior, recurrence, recurrence', |es[m].nodes|)
    ensures Proposed(es, p, prior, mask', recurrence', m + 1)
  {
  }

  /** A pass keeps masks 0 or 1. */
  lemma PassBinary(es: seq<Element>, p: Params, st: State)
    requires ValidElements(es, |st.mask|) && |st.counter| == |st.mask| && Binary(st.mask)
    ensures forall v :: 0 <= v < |st.mask| ==> NewMask(es, p, st, v) == 0.0 || NewMask(es, p, st, v) == 1.0
  {
    forall v | 0 <= v < |st.mask| ensures NewMask(es, p, st, v) == 0.0 || NewMask(es, p, st, v) == 1.0 {
      PassMaskBinary(es, p, st.mask, v, |es|);
    }
  }

  lemma {:induction false} PassMaskBinary(es: seq<Element>, p: Params, prior: seq<real>, v: nat, m: nat)
    requires ValidElements(es, |prior|) && m <= |es|
    ensures PassMask(es, p, prior, v, m) == 0.0 || PassMask(es, p, prior, v, m) == 1.0
  {
    if m > 0 {
      PassMaskBinary(es, p, prior, v, m - 1);
    }
  }

  class Domain {
    const mesh: seq<seq<nat>>
    const p: Params
    var state: State
    var nodeActive: seq<bool>
    var thickness: seq<seq<real>>

    ghost predicate Valid()
      reads this
    {
      && ValidMesh(mesh, |state.mask|)
      && ValidState(mesh, |state.mask|, state)
      && Binary(state.mask)
    }

    constructor (mesh: seq<seq<nat>>, p: Params, mask: seq<real>)
      requires ValidMesh(mesh, |mask|) && Binary(mask)
      ensures Valid() && this.mesh == mesh && this.p == p
      ensures state == State(mask, seq(|mask|, _ => 0), Elementize(mesh, mask))
    {
      this.mesh, this.p := mesh, p;
      state := State(mask, seq(|mask|, _ => 0), Elementize(mesh, mask));
      nodeActive := [];
      thickness := [];
    }

    /** All elements' proposals, into zeroed vectors. */
    method Propose(es: seq<Element>, mask: array<real>, recurrence: array<real>) returns (thick: seq<seq<real>>)
      requires mask != recurrence && mask.Length == recurrence.Length == |state.mask|
      requires ValidElements(es, |state.mask|)
      requires forall v :: 0 <= v < mask.Length ==> mask[v] == 0.0 && recurrence[v] == 0.0
      modifies mask, recurrence
      ensures Proposed(es, p, state.mask, mask[..], recurrence[..], |es|)
      ensures |thick| == |es| && forall i :: 0 <= i < |es| ==> ThicknessKept(es[i], p, state.mask, thick[i])
    {
      thick := [];
      for i := 0 to |es|
        invariant Proposed(es, p, state.mask, mask[..], recurrence[..], i)
        invariant |thick| == i && forall k :: 0 <= k < i ==> ThicknessKept(es[k], p, state.mask, thick[k])
      {
        ghost var m, r := mask[..], recurrence[..];
        var t := GetMask(es[i], p, state.mask, mask, recurrence);
        NextElement(es, p, state.mask, i, m, r, mask[..], recurrence[..]);
        thick := thick + [t];
      }
    }

    /** Counts the flags and keeps the previous mask where the zig-zag lock is on. */
    method ApplyLock(es: seq<Element>, mask: array<real>, recurrence: array<real>) returns (counter: seq<int>)
      requires mask != recurrence && mask.Length == recurrence.Length == |state.mask| == |state.counter|
      requires ValidElements(es, |state.mask|)
      requires Proposed(es, p, state.mask, mask[..], recurrence[..], |es|)
      modifies mask
      ensures |counter| == mask.Length
      ensures forall v :: 0 <= v < mask.Length ==>
        counter[v] == NewCounter(es, p, state, v) && mask[v] == NewMask(es, p, state, v)
    {
      counter := state.counter;
      for v := 0 to mask.Length
        invariant |counter| == mask.Length
        invariant forall w :: 0 <= w < mask.Length ==>
          && counter[w] == (if w < v then NewCounter(es, p, state, w) else state.counter[w])
          && mask[w] == (if w < v then NewMask(es, p, state, w) else PassMask(es, p, state.mask, w, |es|))
      {
        assert recurrence[..][v] == recurrence[v];
        if recurrence[v] == 1.0 {
          counter := counter[v := counter[v] + 1];
        }
        if counter[v] > p.flipLock && p.flipLock != 0 {
          mask[v] := state.mask[v];
        }
      }
    }

    /** One pass: the mask is extended, collapsed or locked, then elements and nodes are activated. */
    method UpdateDomain(inputs: seq<Inputs>)
      requires Valid() && ValidInputs(mesh, inputs)
      modifies this
      ensures Valid()
      ensures state == Step(mesh, p, old(state), inputs)
      ensures |nodeActive| == |state.mask|
      ensures forall v :: 0 <= v < |state.mask| ==> nodeActive[v] == NodeActive(mesh, state.mask, state.active, v, |mesh|)
      ensures |thickness| == |mesh|
      ensures forall i :: 0 <= i < |mesh| ==>
        ThicknessKept(View(mesh, old(state).active, inputs)[i], p, old(state).mask, thickness[i])
    {
      var n := |state.mask|;
      var es := View(mesh, state.active, inputs);
      var mask, recurrence := new real[n](_ => 0.0), new real[n](_ => 0.0);
      thickness := Propose(es, mask, recurrence);
      var counter := ApplyLock(es, mask, recurrence);
      var serial := mask[..];
      PassBinary(es, p, state);
      var active := ElementizeMask(serial);
      nodeActive := ActivateNodes(serial, active);
      state := State(serial, counter, active);
    }

    method ActivateNodes(mask: seq<real>, active: seq<bool>) returns (nodes: seq<bool>)
      requires ValidMesh(mesh, |mask|) && Binary(mask) && |active| == |mesh|
      ensures |nodes| == |mask|
      ensures forall v :: 0 <= v < |mask| ==> nodes[v] == NodeActive(mesh, mask, active, v, |mesh|)
    {
      var activeVec := new bool[|mask|](_ => false);
      for i := 0 to |mesh|
        invariant forall v :: 0 <= v < |mask| ==> activeVec[v] == NodeActive(mesh, mask, active, v, i)
      {
        ghost var before := activeVec[..];
        GetActive(mesh[i], mask, active[i], activeVec);
        forall v | 0 <= v < |mask| ensures activeVec[v] == NodeActive(mesh, mask, active, v, i + 1) {
          assert activeVec[v] == (before[v] || Activates(mesh[i], mask, active[i], v));
          if NodeActive(mesh, mask, active, v, i) {
            var k :| 0 <= k < i && Activates(mesh[k], mask, active[k], v);
            assert 0 <= k < i + 1;
          }
        }
      }
      nodes := activeVec[..];
    }

    /** An element is active exactly if some node of it is open. */
    method ElementizeMask(mask: seq<real>) returns (a: seq<bool>)
      ensures a == Elementize(mesh, mask)
    {
      a := [];
      for i := 0 to |mesh|
        invariant |a| == i && forall k :: 0 <= k < i ==> a[k] == HasOpenNode(mesh[k], mask)
      {
        a := a + [HasOpenNode(mesh[i], mask)];
      }
    }
  }
}
