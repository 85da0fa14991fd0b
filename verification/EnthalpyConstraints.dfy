/**
  The basal enthalpy constraints: a first pass over the elements flags nodes by the decision chart, a second pins the
  flagged nodes at the pressure-melting enthalpy and releases the others.

  The first pass writes the flag of the i-th base sample to the element's i-th node; the second reads the flag of the
  node that the i-th base index names.
 */
module EnthalpyConstraints {
  import opened EnthalpyChart

  /** nodes are global; basal holds the local indices of the base nodes, sample by sample. */
  datatype Element = Element(icy: bool, onBase: bool, floating: bool, nodes: seq<nat>, basal: seq<nat>, samples: seq<Sample>) {
    ghost predicate Valid(n: nat) {
      && |basal| == |samples| <= |nodes|
      && (forall i :: 0 <= i < |nodes| ==> nodes[i] < n)
      && (forall i :: 0 <= i < |basal| ==> basal[i] < |nodes|)
    }

    /** The chart applies. */
    predicate Charted() {
      icy && onBase && !floating
    }

    function BaseNode(i: nat): nat
      requires i < |basal| && basal[i] < |nodes|
    {
      nodes[basal[i]]
    }
  }

  ghost predicate ValidMesh(es: seq<Element>, n: nat) {
    forall i :: 0 <= i < |es| ==> es[i].Valid(n)
  }

  datatype Constraint = Free | Pinned(enthalpy: real)

  function Flag(p: Params, s: Sample): real {
    if Pins(p, GetThermalBasalCondition(p, s)) then 1.0 else 0.0
  }

  // ---------------------------------------------------------------- node by node

  /** The flag of node v after the first k samples of an element are written. */
  function Written(p: Params, e: Element, v: nat, prior: real, k: nat): real
    requires k <= |e.samples| <= |e.nodes|
  {
    if k == 0 then prior
    else if e.nodes[k - 1] == v then Flag(p, e.samples[k - 1])
    else Written(p, e, v, prior, k - 1)
  }

  /** The flag of node v after the first i elements. */
  function FlagAfter(p: Params, es: seq<Element>, n: nat, v: nat, i: nat): real
    requires ValidMesh(es, n) && i <= |es|
  {
    if i == 0 then 0.0
    else if es[i - 1].Charted() then Written(p, es[i - 1], v, FlagAfter(p, es, n, v, i - 1), |es[i - 1].samples|)
    else FlagAfter(p, es, n, v, i - 1)
  }

  /** The constraint that a base sample leaves at its node. */
  function Decided(p: Params, flag: real, s: Sample): Constraint {
    if flag == 1.0 then Pinned(p.PureIceEnthalpy(s.pressure)) else Free
  }

  /** The constraint of node v after the first k base nodes of an element are visited. */
  function Visited(p: Params, e: Element, n: nat, v: nat, active: bool, flag: real, prior: Constraint, k: nat): Constraint
    requires e.Valid(n) && k <= |e.basal|
  {
    if k == 0 then prior
    else if e.BaseNode(k - 1) == v && active then Decided(p, flag, e.samples[k - 1])
    else Visited(p, e, n, v, active, flag, prior, k - 1)
  }

  function ConstraintAfter(p: Params, es: seq<Element>, n: nat, v: nat, active: bool, flag: real, prior: Constraint, i: nat)
    : Constraint
    requires ValidMesh(es, n) && i <= |es|
  {
    if i == 0 then prior
    else
      var before := ConstraintAfter(p, es, n, v, active, flag, prior, i - 1);
      if es[i - 1].onBase then Visited(p, es[i - 1], n, v, active, flag, before, |es[i - 1].basal|) else before
  }

  // ---------------------------------------------------------------- the passes

  method GetBasalConstraints(p: Params, vec: array<real>, e: Element)
    requires e.Valid(vec.Length)
    modifies vec
    ensures forall v: nat :: v < vec.Length ==>
      vec[v] == if e.Charted() then Written(p, e, v, old(vec[v]), |e.samples|) else old(vec[v])
  {
    hide GetThermalBasalCondition;
    if !e.icy || !e.onBase || e.floating {
      return;
    }
    for i := 0 to |e.samples|
      invariant forall v: nat :: v < vec.Length ==> vec[v] == Written(p, e, v, old(vec[v]), i)
    {
      var state := GetThermalBasalCondition(p, e.samples[i]);
      if p.dt == 0.0 {
        match state {
          case 0 => vec[e.nodes[i]] := 0.0;
          case 1 => vec[e.nodes[i]] := 1.0;
          case 2 => vec[e.nodes[i]] := 1.0;
          case 3 => vec[e.nodes[i]] := 1.0;
          case _ => vec[e.nodes[i]] := 1.0;
        }
      } else {
        match state {
          case 0 => vec[e.nodes[i]] := 0.0;
          case 1 => vec[e.nodes[i]] := 1.0;
          case 2 => vec[e.nodes[i]] := 0.0;
          case 3 => vec[e.nodes[i]] := 1.0;
          case _ => vec[e.nodes[i]] := 0.0;
        }
      }
    }
  }

  method ApplyBasalConstraints(p: Params, constraints: array<Constraint>, active: seq<bool>, spc: seq<real>, e: Element)
    requires e.Valid(constraints.Length) && |active| == |spc| == constraints.Length
    modifies constraints
    ensures forall v: nat :: v < constraints.Length ==>
      constraints[v] == if e.onBase then Visited(p, e, constraints.Length, v, active[v], spc[v], old(constraints[v]), |e.basal|)
                        else old(constraints[v])
  {
    if !e.onBase {
      return;
    }
    for i := 0 to |e.basal|
      invariant forall v: nat :: v < constraints.Length ==>
        constraints[v] == Visited(p, e, constraints.Length, v, active[v], spc[v], old(constraints[v]), i)
    {
      var node := e.BaseNode(i);
      if active[node] {
        if spc[node] == 1.0 {
          constraints[node] := Pinned(p.PureIceEnthalpy(e.samples[i].pressure));
        } else {
          constraints[node] := Free;
        }
      }
    }
  }

  /** Both passes; nothing happens unless the basal constraints are dynamic. */
  method UpdateBasalConstraints(p: Params, dynamicConstraints: bool, es: seq<Element>, constraints: array<Constraint>,
                                active: seq<bool>)
    requires ValidMesh(es, constraints.Length) && |active| == constraints.Length
    modifies constraints
    ensures forall v: nat :: v < constraints.Length ==>
      constraints[v] == if dynamicConstraints then
                          ConstraintAfter(p, es, constraints.Length, v, active[v], FlagAfter(p, es, constraints.Length, v, |es|),
                                          old(constraints[v]), |es|)
                        else old(constraints[v])
  {
    if !dynamicConstraints {
      return;
    }
    var n := constraints.Length;
    var vec := new real[n](_ => 0.0);
    for i := 0 to |es|
      invariant forall v: nat :: v < n ==> vec[v] == FlagAfter(p, es, n, v, i)
      invariant forall v: nat :: v < n ==> constraints[v] == old(constraints[v])
    {
      GetBasalConstraints(p, vec, es[i]);
    }
    var spc := vec[..];
    for i := 0 to |es|
      invariant forall v: nat :: v < n ==>
        constraints[v] == ConstraintAfter(p, es, n, v, active[v], spc[v], old(constraints[v]), i)
    {
      ApplyBasalConstraints(p, constraints, active, spc, es[i]);
    }
  }
}
