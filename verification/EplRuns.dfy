/**
  Runs of passes. Heads, residuals and thicknesses may change arbitrarily from one pass to the next.
 */
module EplRuns {
  import opened EplMask
  import opened EplDomain

  ghost predicate ValidSetting(mesh: seq<seq<nat>>, st: State) {
    && ValidMesh(mesh, |st.mask|)
    && ValidState(mesh, |st.mask|, st)
    && Binary(st.mask)
    && Covers(mesh, |st.mask|)
  }

  /** The recurrence flag of node v is raised in the pass. */
  ghost predicate Flagged(mesh: seq<seq<nat>>, p: Params, st: State, inputs: seq<Inputs>, v: nat)
    requires ValidMesh(mesh, |st.mask|) && ValidState(mesh, |st.mask|, st) && ValidInputs(mesh, inputs)
  {
    PassFlag(View(mesh, st.active, inputs), p, st.mask, v, |mesh|)
  }

  // ---------------------------------------------------------------- a pass without flags changes nothing

  lemma UnflaggedProposal(e: Element, p: Params, prior: seq<real>, v: nat)
    requires e.Valid(|prior|) && v < |prior| && !FlagsNode(e, p, prior, v)
    ensures prior[v] == 0.0 ==> Proposes(e, p, prior, v) == None
    ensures prior[v] == 1.0 && v in e.nodes ==> Proposes(e, p, prior, v) == Some(1.0)
  {
  }

  lemma {:induction false} UnflaggedPass(es: seq<Element>, p: Params, prior: seq<real>, v: nat, m: nat)
    requires ValidElements(es, |prior|) && m <= |es| && v < |prior| && !PassFlag(es, p, prior, v, m)
    ensures prior[v] == 0.0 ==> PassMask(es, p, prior, v, m) == 0.0
    ensures prior[v] == 1.0 && (exists i :: 0 <= i < m && v in es[i].nodes) ==> PassMask(es, p, prior, v, m) == 1.0
  {
    if m > 0 {
      assert !FlagsNode(es[m - 1], p, prior, v);
      UnflaggedProposal(es[m - 1], p, prior, v);
      UnflaggedPass(es, p, prior, v, m - 1);
    }
  }

  /** A node whose mask changes had its flag raised, and is not locked. */
  lemma ChangeIsFlagged(mesh: seq<seq<nat>>, p: Params, st: State, inputs: seq<Inputs>, v: nat)
    requires ValidSetting(mesh, st) && ValidInputs(mesh, inputs) && v < |st.mask|
    requires Step(mesh, p, st, inputs).mask[v] != st.mask[v]
    ensures Flagged(mesh, p, st, inputs, v)
    ensures !Locked(p, Step(mesh, p, st, inputs).counter[v])
  {
    var es := View(mesh, st.active, inputs);
    assert Covered(mesh, v);
    var i :| 0 <= i < |mesh| && v in mesh[i];
    assert v in es[i].nodes;
    if !Flagged(mesh, p, st, inputs, v) {
      UnflaggedPass(es, p, st.mask, v, |es|);
    }
  }

  /** A pass that raises no flag is a fixpoint. */
  lemma QuietPass(mesh: seq<seq<nat>>, p: Params, st: State, inputs: seq<Inputs>)
    requires ValidSetting(mesh, st) && ValidInputs(mesh, inputs) && st.active == Elementize(mesh, st.mask)
    requires forall v :: 0 <= v < |st.mask| ==> !Flagged(mesh, p, st, inputs, v)
    ensures Step(mesh, p, st, inputs) == st
  {
    var next := Step(mesh, p, st, inputs);
    forall v | 0 <= v < |st.mask| ensures next.mask[v] == st.mask[v] && next.counter[v] == st.counter[v] {
      assert !Flagged(mesh, p, st, inputs, v);
      if next.mask[v] != st.mask[v] {
        ChangeIsFlagged(mesh, p, st, inputs, v);
      }
    }
    assert next.mask == st.mask && next.counter == st.counter;
  }

  // ---------------------------------------------------------------- activation

  /** The nodes of an element include an open one. */
  predicate TouchesOpen(nodes: seq<nat>, mask: seq<real>) {
    exists k :: 0 <= k < |nodes| && nodes[k] < |mask| && mask[nodes[k]] == 1.0
  }

  lemma OpenNodeIff(nodes: seq<nat>, mask: seq<real>)
    requires Binary(mask)
    ensures HasOpenNode(nodes, mask) <==> TouchesOpen(nodes, mask)
  {
  }

  /** After a pass, the active nodes are those that share an element with an open node; open nodes are active. */
  lemma ActivationIsClosure(mesh: seq<seq<nat>>, st: State, v: nat)
    requires ValidSetting(mesh, st) && v < |st.mask| && st.active == Elementize(mesh, st.mask)
    ensures NodeActive(mesh, st.mask, st.active, v, |mesh|)
        <==> exists i :: 0 <= i < |mesh| && v in mesh[i] && TouchesOpen(mesh[i], st.mask)
    ensures st.mask[v] > 0.0 ==> NodeActive(mesh, st.mask, st.active, v, |mesh|)
  {
    forall i | 0 <= i < |mesh| ensures HasOpenNode(mesh[i], st.mask) <==> TouchesOpen(mesh[i], st.mask) {
      OpenNodeIff(mesh[i], st.mask);
    }
    hide TouchesOpen;
    if exists i :: 0 <= i < |mesh| && v in mesh[i] && HasOpenNode(mesh[i], st.mask) {
      var i :| 0 <= i < |mesh| && v in mesh[i] && HasOpenNode(mesh[i], st.mask);
      assert Activates(mesh[i], st.mask, st.active[i], v);
    }
    if NodeActive(mesh, st.mask, st.active, v, |mesh|) {
      var i :| 0 <= i < |mesh| && Activates(mesh[i], st.mask, st.active[i], v);
      assert v in mesh[i] && HasOpenNode(mesh[i], st.mask);
    }
    if st.mask[v] > 0.0 {
      assert Covered(mesh, v);
      var i :| 0 <= i < |mesh| && v in mesh[i];
      var j :| 0 <= j < |mesh[i]| && mesh[i][j] == v;
      assert HasOpenNode(mesh[i], st.mask);
      assert Activates(mesh[i], st.mask, st.active[i], v);
    }
  }

  /** An element with an open node, or with a residual at v, reaches v. */
  predicate Reaches(nodes: seq<nat>, mask: seq<real>, residual: seq<real>, v: nat) {
    v in nodes && (TouchesOpen(nodes, mask) || exists j :: 0 <= j < |nodes| && j < |residual| && nodes[j] == v && residual[j] > 0.0)
  }

  /** The open domain only grows from itself or from a sediment residual. */
  lemma GrowthIsLocal(mesh: seq<seq<nat>>, p: Params, st: State, inputs: seq<Inputs>, v: nat)
    requires ValidSetting(mesh, st) && ValidInputs(mesh, inputs) && v < |st.mask|
    requires st.active == Elementize(mesh, st.mask)
    requires st.mask[v] == 0.0 && Step(mesh, p, st, inputs).mask[v] > 0.0
    ensures exists i :: 0 <= i < |mesh| && Reaches(mesh[i], st.mask, inputs[i].residual, v)
  {
    ChangeIsFlagged(mesh, p, st, inputs, v);
    var es := View(mesh, st.active, inputs);
    var i :| 0 <= i < |mesh| && FlagsNode(es[i], p, st.mask, v);
    var j := IndexOf(es[i].nodes, v);
    assert mesh[i][j] == v;
    if inputs[i].residual[j] <= 0.0 {
      assert PushedBy(es[i], j, 0, |es[i].nodes|);
      var k :| 0 <= k < |es[i].nodes| && Pushes(es[i], k, j);
      assert es[i].active == HasOpenNode(mesh[i], st.mask);
      OpenNodeIff(mesh[i], st.mask);
    }
    assert Reaches(mesh[i], st.mask, inputs[i].residual, v);
  }

  // ---------------------------------------------------------------- runs

  ghost predicate IsRun(mesh: seq<seq<nat>>, p: Params, states: seq<State>, inputs: seq<seq<Inputs>>) {
    && |states| == |inputs| + 1
    && ValidSetting(mesh, states[0])
    && (forall k :: 0 <= k < |inputs| ==> ValidInputs(mesh, inputs[k]))
    && (forall k :: 0 <= k < |inputs| ==> RunsTo(mesh, p, states[k], inputs[k], states[k + 1]))
  }

  ghost predicate RunsTo(mesh: seq<seq<nat>>, p: Params, st: State, inputs: seq<Inputs>, st': State) {
    ValidSetting(mesh, st) && ValidInputs(mesh, inputs) ==> st' == Step(mesh, p, st, inputs)
  }

  lemma StepKeepsSetting(mesh: seq<seq<nat>>, p: Params, st: State, inputs: seq<Inputs>)
    requires ValidSetting(mesh, st) && ValidInputs(mesh, inputs)
    ensures ValidSetting(mesh, Step(mesh, p, st, inputs))
    ensures |Step(mesh, p, st, inputs).mask| == |st.mask|
  {
    PassBinary(View(mesh, st.active, inputs), p, st);
  }

  lemma {:induction false} RunKeepsSetting(mesh: seq<seq<nat>>, p: Params, states: seq<State>, inputs: seq<seq<Inputs>>, k: nat)
    requires IsRun(mesh, p, states, inputs) && k < |states|
    ensures ValidSetting(mesh, states[k]) && |states[k].mask| == |states[0].mask|
    ensures k < |inputs| ==> states[k + 1] == Step(mesh, p, states[k], inputs[k])
  {
    if k > 0 {
      RunKeepsSetting(mesh, p, states, inputs, k - 1);
      StepKeepsSetting(mesh, p, states[k - 1], inputs[k - 1]);
    }
    if k < |inputs| {
      assert RunsTo(mesh, p, states[k], inputs[k], states[k + 1]);
    }
  }

  // ---------------------------------------------------------------- the zig-zag lock

  ghost predicate Changed(states: seq<State>, v: nat, k: nat)
    requires k + 1 < |states|
  {
    v < |states[k].mask| && v < |states[k + 1].mask| && states[k + 1].mask[v] != states[k].mask[v]
  }

  /** How often node v's mask changed in the first n passes. */
  ghost function Changes(states: seq<State>, v: nat, n: nat): nat
    requires n < |states|
  {
    if n == 0 then 0 else Changes(states, v, n - 1) + if Changed(states, v, n - 1) then 1 else 0
  }

  /** A node changes at most as often as its counter has counted, and never past the lock. */
  lemma {:induction false} ChangesBelowCounter(mesh: seq<seq<nat>>, p: Params, states: seq<State>, inputs: seq<seq<Inputs>>,
                                               v: nat, n: nat)
    requires IsRun(mesh, p, states, inputs) && n < |states| && v < |states[0].mask|
    requires p.flipLock > 0 && states[0].counter[v] == 0
    ensures v < |states[n].counter| && Changes(states, v, n) <= states[n].counter[v]
    ensures Changes(states, v, n) <= p.flipLock
  {
    RunKeepsSetting(mesh, p, states, inputs, n);
    if n > 0 {
      ChangesBelowCounter(mesh, p, states, inputs, v, n - 1);
      RunKeepsSetting(mesh, p, states, inputs, n - 1);
      if Changed(states, v, n - 1) {
        ChangeIsFlagged(mesh, p, states[n - 1], inputs[n - 1], v);
      }
    }
  }

  /** Once the lock is on it stays on, and the node's mask is frozen. */
  lemma {:induction false} LockedForever(mesh: seq<seq<nat>>, p: Params, states: seq<State>, inputs: seq<seq<Inputs>>,
                                         v: nat, k: nat, n: nat)
    requires IsRun(mesh, p, states, inputs) && k <= n < |states| && v < |states[0].mask|
    requires v < |states[k].mask| == |states[k].counter| && Locked(p, states[k].counter[v])
    ensures v < |states[n].mask| == |states[n].counter| && Locked(p, states[n].counter[v])
    ensures states[n].mask[v] == states[k].mask[v]
    decreases n - k
  {
    RunKeepsSetting(mesh, p, states, inputs, n);
    if k < n {
      LockedForever(mesh, p, states, inputs, v, k, n - 1);
      RunKeepsSetting(mesh, p, states, inputs, n - 1);
    }
  }

  ghost predicate PassChanged(states: seq<State>, k: nat)
    requires k + 1 < |states|
  {
    exists v: nat :: Changed(states, v, k)
  }

  ghost function ChangingPasses(states: seq<State>, n: nat): nat
    requires n < |states|
  {
    if n == 0 then 0 else ChangingPasses(states, n - 1) + if PassChanged(states, n - 1) then 1 else 0
  }

  /** Changes in the first n passes at the nodes below m. */
  ghost function AllChanges(states: seq<State>, m: nat, n: nat): nat
    requires n < |states|
  {
    if m == 0 then 0 else AllChanges(states, m - 1, n) + Changes(states, m - 1, n)
  }

  lemma {:induction false} AllChangesStep(states: seq<State>, m: nat, n: nat, v: nat)
    requires 0 < n < |states|
    ensures AllChanges(states, m, n) >= AllChanges(states, m, n - 1) + if v < m && Changed(states, v, n - 1) then 1 else 0
  {
    if m > 0 {
      AllChangesStep(states, m - 1, n, v);
    }
  }

  lemma {:induction false} PassesBelowChanges(mesh: seq<seq<nat>>, p: Params, states: seq<State>, inputs: seq<seq<Inputs>>, n: nat)
    requires IsRun(mesh, p, states, inputs) && n < |states|
    ensures ChangingPasses(states, n) <= AllChanges(states, |states[0].mask|, n)
  {
    if n > 0 {
      PassesBelowChanges(mesh, p, states, inputs, n - 1);
      AllChangesStep(states, |states[0].mask|, n, 0);
      RunKeepsSetting(mesh, p, states, inputs, n - 1);
      if PassChanged(states, n - 1) {
        var v: nat :| Changed(states, v, n - 1);
        AllChangesStep(states, |states[0].mask|, n, v);
      }
    }
  }

  lemma {:induction false} AllChangesBound(mesh: seq<seq<nat>>, p: Params, states: seq<State>, inputs: seq<seq<Inputs>>,
                                           m: nat, n: nat)
    requires IsRun(mesh, p, states, inputs) && n < |states| && m <= |states[0].mask|
    requires p.flipLock > 0 && forall v :: 0 <= v < |states[0].counter| ==> states[0].counter[v] == 0
    ensures AllChanges(states, m, n) <= m * p.flipLock
  {
    if m > 0 {
      AllChangesBound(mesh, p, states, inputs, m - 1, n);
      ChangesBelowCounter(mesh, p, states, inputs, m - 1, n);
      assert m * p.flipLock == (m - 1) * p.flipLock + p.flipLock;
    }
  }

  /**
    With a lock, at most (nodes * lock) passes of a run change the mask, whatever heads, residuals and
    thicknesses do: opening and closing cannot alternate for ever.
   */
  lemma LockTerminates(mesh: seq<seq<nat>>, p: Params, states: seq<State>, inputs: seq<seq<Inputs>>, n: nat)
    requires IsRun(mesh, p, states, inputs) && n < |states|
    requires p.flipLock > 0 && forall v :: 0 <= v < |states[0].counter| ==> states[0].counter[v] == 0
    ensures ChangingPasses(states, n) <= |states[0].mask| * p.flipLock
  {
    PassesBelowChanges(mesh, p, states, inputs, n);
    AllChangesBound(mesh, p, states, inputs, |states[0].mask|, n);
  }

  // ---------------------------------------------------------------- runs without collapse

  /** No open node is below the collapse thickness, as any of its elements sees it. */
  ghost predicate NoCollapse(mesh: seq<seq<nat>>, p: Params, st: State, inputs: seq<Inputs>)
    requires ValidMesh(mesh, |st.mask|) && ValidState(mesh, |st.mask|, st) && ValidInputs(mesh, inputs)
  {
    forall i, j :: 0 <= i < |mesh| && 0 <= j < |mesh[i]| && st.mask[mesh[i][j]] > 0.0 ==>
      inputs[i].thickness[j] >= p.collapseThickness
  }

  lemma ProposalWithoutCollapse(e: Element, p: Params, prior: seq<real>, v: nat)
    requires e.Valid(|prior|) && v < |prior| && v in e.nodes && (prior[v] == 0.0 || prior[v] == 1.0)
    requires forall j :: 0 <= j < |e.nodes| && prior[e.nodes[j]] > 0.0 ==> e.thickness[j] >= p.collapseThickness
    ensures Proposes(e, p, prior, v) == None || Proposes(e, p, prior, v) == Some(1.0)
    ensures prior[v] == 1.0 ==> Proposes(e, p, prior, v) == Some(1.0) && !FlagsNode(e, p, prior, v)
    ensures prior[v] == 0.0 ==> (Proposes(e, p, prior, v) == Some(1.0) <==> FlagsNode(e, p, prior, v))
  {
  }

  lemma {:induction false} PassWithoutCollapse(es: seq<Element>, p: Params, prior: seq<real>, v: nat, m: nat)
    requires ValidElements(es, |prior|) && m <= |es| && v < |prior| && (prior[v] == 0.0 || prior[v] == 1.0)
    requires forall i, j :: 0 <= i < m && 0 <= j < |es[i].nodes| && prior[es[i].nodes[j]] > 0.0 ==>
      es[i].thickness[j] >= p.collapseThickness
    ensures prior[v] == 0.0 ==> (PassMask(es, p, prior, v, m) == 1.0 <==> PassFlag(es, p, prior, v, m))
    ensures prior[v] == 1.0 ==> !PassFlag(es, p, prior, v, m)
    ensures prior[v] == 1.0 && (exists i :: 0 <= i < m && v in es[i].nodes) ==> PassMask(es, p, prior, v, m) == 1.0
  {
    if m > 0 {
      PassWithoutCollapse(es, p, prior, v, m - 1);
      if v in es[m - 1].nodes {
        ProposalWithoutCollapse(es[m - 1], p, prior, v);
      }
    }
  }

  /** Without collapse the open set only grows, and exactly the flagged nodes open (unless the lock is on). */
  lemma GrowsWithoutCollapse(mesh: seq<seq<nat>>, p: Params, st: State, inputs: seq<Inputs>, v: nat)
    requires ValidSetting(mesh, st) && ValidInputs(mesh, inputs) && v < |st.mask| && NoCollapse(mesh, p, st, inputs)
    ensures st.mask[v] == 1.0 ==> Step(mesh, p, st, inputs).mask[v] == 1.0 && !Flagged(mesh, p, st, inputs, v)
    ensures st.mask[v] == 0.0 && !Locked(p, Step(mesh, p, st, inputs).counter[v]) ==>
      (Step(mesh, p, st, inputs).mask[v] == 1.0 <==> Flagged(mesh, p, st, inputs, v))
  {
    hide PassMask;
    hide PassFlag;
    hide HasOpenNode;
    var es := View(mesh, st.active, inputs);
    PassWithoutCollapse(es, p, st.mask, v, |es|);
    assert Covered(mesh, v);
    var i :| 0 <= i < |mesh| && v in mesh[i];
    assert v in es[i].nodes;
  }

  ghost predicate RunWithoutCollapse(mesh: seq<seq<nat>>, p: Params, states: seq<State>, inputs: seq<seq<Inputs>>) {
    && IsRun(mesh, p, states, inputs)
    && forall k :: 0 <= k < |inputs| ==> PassKeepsThickness(mesh, p, states[k], inputs[k])
  }

  ghost predicate PassKeepsThickness(mesh: seq<seq<nat>>, p: Params, st: State, inputs: seq<Inputs>) {
    ValidSetting(mesh, st) && ValidInputs(mesh, inputs) ==> NoCollapse(mesh, p, st, inputs)
  }

  function OpenNodes(mask: seq<real>): set<nat> {
    set v: nat | v < |mask| && mask[v] == 1.0
  }

  /** Without collapse a node is flagged at most once, so the lock never acts. */
  lemma {:induction false} FlaggedOnce(mesh: seq<seq<nat>>, p: Params, states: seq<State>, inputs: seq<seq<Inputs>>, v: nat, n: nat)
    requires RunWithoutCollapse(mesh, p, states, inputs) && n < |states| && v < |states[0].mask|
    requires p.flipLock >= 0 && states[0].counter[v] == 0
    ensures v < |states[n].mask| == |states[n].counter|
    ensures states[n].counter[v] == 0 || (states[n].counter[v] == 1 && states[n].mask[v] == 1.0)
  {
    RunKeepsSetting(mesh, p, states, inputs, n);
    if n > 0 {
      FlaggedOnce(mesh, p, states, inputs, v, n - 1);
      RunKeepsSetting(mesh, p, states, inputs, n - 1);
      assert PassKeepsThickness(mesh, p, states[n - 1], inputs[n - 1]);
      GrowsWithoutCollapse(mesh, p, states[n - 1], inputs[n - 1], v);
    }
  }

  ghost predicate PassFlagged(mesh: seq<seq<nat>>, p: Params, st: State, inputs: seq<Inputs>) {
    ValidSetting(mesh, st) && ValidInputs(mesh, inputs) && exists v: nat :: v < |st.mask| && Flagged(mesh, p, st, inputs, v)
  }

  ghost function FlaggedPasses(mesh: seq<seq<nat>>, p: Params, states: seq<State>, inputs: seq<seq<Inputs>>, n: nat): nat
    requires n <= |inputs| < |states|
  {
    if n == 0 then 0
    else FlaggedPasses(mesh, p, states, inputs, n - 1) + if PassFlagged(mesh, p, states[n - 1], inputs[n - 1]) then 1 else 0
  }

  /** Each flagged pass opens at least one more node. */
  lemma {:induction false} FlaggedPassesOpen(mesh: seq<seq<nat>>, p: Params, states: seq<State>, inputs: seq<seq<Inputs>>, n: nat)
    requires RunWithoutCollapse(mesh, p, states, inputs) && n < |states|
    requires p.flipLock >= 0 && forall v :: 0 <= v < |states[0].counter| ==> states[0].counter[v] == 0
    ensures FlaggedPasses(mesh, p, states, inputs, n) + |OpenNodes(states[0].mask)| <= |OpenNodes(states[n].mask)|
    ensures OpenNodes(states[0].mask) <= OpenNodes(states[n].mask)
  {
    if n > 0 {
      FlaggedPassesOpen(mesh, p, states, inputs, n - 1);
      OpenSetGrows(mesh, p, states, inputs, n - 1);
    }
  }

  lemma OpenSetGrows(mesh: seq<seq<nat>>, p: Params, states: seq<State>, inputs: seq<seq<Inputs>>, n: nat)
    requires RunWithoutCollapse(mesh, p, states, inputs) && n < |inputs|
    requires p.flipLock >= 0 && forall v :: 0 <= v < |states[0].counter| ==> states[0].counter[v] == 0
    ensures OpenNodes(states[n].mask) <= OpenNodes(states[n + 1].mask)
    ensures PassFlagged(mesh, p, states[n], inputs[n]) ==> |OpenNodes(states[n].mask)| < |OpenNodes(states[n + 1].mask)|
    ensures |OpenNodes(states[n].mask)| <= |OpenNodes(states[n + 1].mask)|
  {
    RunKeepsSetting(mesh, p, states, inputs, n);
    RunKeepsSetting(mesh, p, states, inputs, n + 1);
    assert PassKeepsThickness(mesh, p, states[n], inputs[n]);
    var before, after := OpenNodes(states[n].mask), OpenNodes(states[n + 1].mask);
    forall v | v in before ensures v in after {
      GrowsWithoutCollapse(mesh, p, states[n], inputs[n], v);
    }
    SubsetSize(before, after);
    if PassFlagged(mesh, p, states[n], inputs[n]) {
      var v: nat :| v < |states[n].mask| && Flagged(mesh, p, states[n], inputs[n], v);
      GrowsWithoutCollapse(mesh, p, states[n], inputs[n], v);
      FlaggedOnce(mesh, p, states, inputs, v, n + 1);
      assert states[n].mask[v] == 0.0 && states[n + 1].mask[v] == 1.0;
      assert v in after && v !in before;
      SubsetSize(before, after - {v});
    }
  }

  lemma {:induction false} SubsetSize<T>(a: set<T>, b: set<T>)
    requires a <= b
    ensures |a| <= |b|
    decreases |a|
  {
    if a != {} {
      var x :| x in a;
      SubsetSize(a - {x}, b - {x});
    }
  }

  lemma {:induction false} OpenAtMost(mask: seq<real>)
    ensures |OpenNodes(mask)| <= |mask|
  {
    if |mask| > 0 {
      var n := |mask| - 1;
      OpenAtMost(mask[..n]);
      assert OpenNodes(mask) <= OpenNodes(mask[..n]) + {n};
      SubsetSize(OpenNodes(mask), OpenNodes(mask[..n]) + {n});
    }
  }

  /** Without collapse, at most one pass per closed node can raise a flag, whatever heads and residuals do. */
  lemma ConvergesWithoutCollapse(mesh: seq<seq<nat>>, p: Params, states: seq<State>, inputs: seq<seq<Inputs>>, n: nat)
    requires RunWithoutCollapse(mesh, p, states, inputs) && n < |states|
    requires p.flipLock >= 0 && forall v :: 0 <= v < |states[0].counter| ==> states[0].counter[v] == 0
    ensures FlaggedPasses(mesh, p, states, inputs, n) <= |states[0].mask| - |OpenNodes(states[0].mask)|
  {
    FlaggedPassesOpen(mesh, p, states, inputs, n);
    RunKeepsSetting(mesh, p, states, inputs, n);
    OpenAtMost(states[n].mask);
  }
}
