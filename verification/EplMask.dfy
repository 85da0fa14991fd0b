/**
  Activation of the efficient drainage layer (EPL) over a mesh, one pass of HydrologyEPLupdateDomainx:
  every element proposes mask values for its nodes and raises recurrence flags, a zig-zag lock can
  overrule the proposals, and elements and nodes are activated from the mask.
 */
module EplMask {

  datatype Option<T> = None | Some(value: T)

  /** One element as a pass sees it: nodes by index, and the nodal inputs in the same order. */
  datatype Element = Element(nodes: seq<nat>, active: bool, sedHead: seq<real>, eplHead: seq<real>, hMax: seq<real>,
                             residual: seq<real>, thickness: seq<real>)
  {
    predicate Valid(n: nat) {
      && |nodes| > 0
      && |sedHead| == |eplHead| == |hMax| == |residual| == |thickness| == |nodes|
      && (forall i :: 0 <= i < |nodes| ==> nodes[i] < n)
      && (forall i, j :: 0 <= i < j < |nodes| ==> nodes[i] != nodes[j])
    }
  }

  datatype Params = Params(initThickness: real, collapseThickness: real, flipLock: int)

  // ---------------------------------------------------------------- what one element proposes

  /** The smallest of the first n > 0 values. */
  function MinOf(s: seq<real>, n: nat): (m: real)
    requires 0 < n <= |s|
    ensures forall i :: 0 <= i < n ==> m <= s[i]
    ensures exists i :: 0 <= i < n && m == s[i]
  {
    if n == 1 then s[0]
    else
      var m := MinOf(s, n - 1);
      if s[n - 1] <= m then s[n - 1] else m
  }

  /** Node i of an active element has reached the maximum head, and j is another node, lowest in sediment head. */
  predicate Pushes(e: Element, i: nat, j: nat)
    requires |e.sedHead| == |e.eplHead| == |e.hMax| == |e.nodes| && i < |e.nodes| && j < |e.nodes|
  {
    e.active && e.eplHead[i] >= e.hMax[i] && e.sedHead[j] == MinOf(e.sedHead, |e.sedHead|) && i != j
  }

  predicate PushedBy(e: Element, j: nat, lo: nat, hi: nat)
    requires |e.sedHead| == |e.eplHead| == |e.hMax| == |e.nodes| && j < |e.nodes| && hi <= |e.nodes|
  {
    exists i :: lo <= i < hi && Pushes(e, i, j)
  }

  /** The last mask value written for node j by the first i rounds of the element's loop, if any. */
  function Proposal(e: Element, p: Params, prior: seq<real>, j: nat, i: nat): Option<real>
    requires e.Valid(|prior|) && j < |e.nodes| && i <= |e.nodes|
  {
    var was := prior[e.nodes[j]];
    if PushedBy(e, j, j + 1, i) then Some(1.0)
    else if j < i && was > 0.0 then Some(if e.thickness[j] < p.collapseThickness then 0.0 else 1.0)
    else if j < i && was == 0.0 && e.residual[j] > 0.0 then Some(1.0)
    else if PushedBy(e, j, 0, if i < j then i else j) then Some(1.0)
    else None
  }

  /** The element raises node j's recurrence flag within the first i rounds of its loop. */
  predicate Flags(e: Element, p: Params, prior: seq<real>, j: nat, i: nat)
    requires e.Valid(|prior|) && j < |e.nodes| && i <= |e.nodes|
  {
    var was := prior[e.nodes[j]];
    || (j < i && was > 0.0 && e.thickness[j] < p.collapseThickness)
    || (j < i && was == 0.0 && e.residual[j] > 0.0)
    || (was == 0.0 && PushedBy(e, j, 0, i))
  }

  function Written(o: Option<real>, before: real): real {
    match o
    case None => before
    case Some(v) => v
  }

  ghost predicate MaskSoFar(e: Element, p: Params, prior: seq<real>, before: seq<real>, now: seq<real>, i: nat)
    requires e.Valid(|prior|) && i <= |e.nodes|
  {
    && |before| == |now| == |prior|
    && (forall j :: 0 <= j < |e.nodes| ==>
          now[e.nodes[j]] == Written(Proposal(e, p, prior, j, i), before[e.nodes[j]]))
    && (forall v :: 0 <= v < |prior| && v !in e.nodes ==> now[v] == before[v])
  }

  ghost predicate FlagsSoFar(e: Element, p: Params, prior: seq<real>, before: seq<real>, now: seq<real>, i: nat)
    requires e.Valid(|prior|) && i <= |e.nodes|
  {
    && |before| == |now| == |prior|
    && (forall j :: 0 <= j < |e.nodes| ==>
          now[e.nodes[j]] == if Flags(e, p, prior, j, i) then 1.0 else before[e.nodes[j]])
    && (forall v :: 0 <= v < |prior| && v !in e.nodes ==> now[v] == before[v])
  }

  /** The smallest sediment head of an element. */
  method SedHeadMin(s: seq<real>) returns (m: real)
    requires |s| > 0
    ensures m == MinOf(s, |s|)
  {
    m := s[0];
    for i := 1 to |s|
      invariant m == MinOf(s, i)
    {
      if s[i] <= m {
        m := s[i];
      }
    }
  }

  /** Node i keeps its state, collapses, or opens on a residual. */
  method OwnStep(e: Element, p: Params, prior: seq<real>, i: nat, mask: array<real>, recurrence: array<real>)
    requires e.Valid(|prior|) && i < |e.nodes|
    requires mask != recurrence && mask.Length == recurrence.Length == |prior|
    modifies mask, recurrence
    ensures mask[e.nodes[i]] ==
      if prior[e.nodes[i]] > 0.0 then (if e.thickness[i] < p.collapseThickness then 0.0 else 1.0)
      else if prior[e.nodes[i]] == 0.0 && e.residual[i] > 0.0 then 1.0
      else old(mask[e.nodes[i]])
    ensures recurrence[e.nodes[i]] ==
      if (prior[e.nodes[i]] > 0.0 && e.thickness[i] < p.collapseThickness) || (prior[e.nodes[i]] == 0.0 && e.residual[i] > 0.0)
      then 1.0 else old(recurrence[e.nodes[i]])
    ensures forall v :: 0 <= v < |prior| && v != e.nodes[i] ==>
      mask[v] == old(mask[v]) && recurrence[v] == old(recurrence[v])
  {
    var v := e.nodes[i];
    if prior[v] > 0.0 {
      mask[v] := 1.0;
      if e.thickness[i] < p.collapseThickness {
        mask[v] := 0.0;
        recurrence[v] := 1.0;
      }
    }
    if prior[v] == 0.0 {
      if e.residual[i] > 0.0 {
        mask[v] := 1.0;
        if prior[v] == 0.0 {
          recurrence[v] := 1.0;
        }
      }
    }
  }

  /** A node at its maximum head opens the element's lowest nodes in sediment head. */
  method PushStep(e: Element, prior: seq<real>, i: nat, sedHeadMin: real, mask: array<real>, recurrence: array<real>)
    requires e.Valid(|prior|) && i < |e.nodes| && sedHeadMin == MinOf(e.sedHead, |e.sedHead|)
    requires mask != recurrence && mask.Length == recurrence.Length == |prior|
    modifies mask, recurrence
    ensures forall j :: 0 <= j < |e.nodes| ==>
      && mask[e.nodes[j]] == (if Pushes(e, i, j) then 1.0 else old(mask[e.nodes[j]]))
      && recurrence[e.nodes[j]] == (if Pushes(e, i, j) && prior[e.nodes[j]] == 0.0 then 1.0 else old(recurrence[e.nodes[j]]))
    ensures forall v :: 0 <= v < |prior| && v !in e.nodes ==> mask[v] == old(mask[v]) && recurrence[v] == old(recurrence[v])
  {
    if e.eplHead[i] >= e.hMax[i] && e.active {
      for j := 0 to |e.nodes|
        invariant forall k :: 0 <= k < |e.nodes| ==>
          && mask[e.nodes[k]] == (if k < j && Pushes(e, i, k) then 1.0 else old(mask[e.nodes[k]]))
          && recurrence[e.nodes[k]] ==
             (if k < j && Pushes(e, i, k) && prior[e.nodes[k]] == 0.0 then 1.0 else old(recurrence[e.nodes[k]]))
        invariant forall v :: 0 <= v < |prior| && v !in e.nodes ==>
          mask[v] == old(mask[v]) && recurrence[v] == old(recurrence[v])
      {
        if e.sedHead[j] == sedHeadMin && i != j {
          mask[e.nodes[j]] := 1.0;
          if prior[e.nodes[j]] == 0.0 {
            recurrence[e.nodes[j]] := 1.0;
          }
        }
      }
    }
  }

  lemma NoRound(e: Element, p: Params, prior: seq<real>, mask: seq<real>, recurrence: seq<real>)
    requires e.Valid(|prior|) && |mask| == |recurrence| == |prior|
    ensures MaskSoFar(e, p, prior, mask, mask, 0) && FlagsSoFar(e, p, prior, recurrence, recurrence, 0)
  {
  }

  /** One round of the loop, seen from node j. */
  lemma Round(e: Element, p: Params, prior: seq<real>, j: nat, i: nat, before: real, m: real, own: real, now: real)
    requires e.Valid(|prior|) && j < |e.nodes| && i < |e.nodes|
    requires m == Written(Proposal(e, p, prior, j, i), before)
    requires own == if i != j then m
                    else if prior[e.nodes[j]] > 0.0 then (if e.thickness[j] < p.collapseThickness then 0.0 else 1.0)
                    else if prior[e.nodes[j]] == 0.0 && e.residual[j] > 0.0 then 1.0
                    else m
    requires now == if Pushes(e, i, j) then 1.0 else own
    ensures now == Written(Proposal(e, p, prior, j, i + 1), before)
  {
  }

  lemma FlagRound(e: Element, p: Params, prior: seq<real>, j: nat, i: nat, before: real, r: real, own: real, now: real)
    requires e.Valid(|prior|) && j < |e.nodes| && i < |e.nodes|
    requires r == if Flags(e, p, prior, j, i) then 1.0 else before
    requires own == if i == j && ((prior[e.nodes[j]] > 0.0 && e.thickness[j] < p.collapseThickness)
                                  || (prior[e.nodes[j]] == 0.0 && e.residual[j] > 0.0)) then 1.0 else r
    requires now == if Pushes(e, i, j) && prior[e.nodes[j]] == 0.0 then 1.0 else own
    ensures now == if Flags(e, p, prior, j, i + 1) then 1.0 else before
  {
  }

  /** Closed nodes start again from the initial thickness, the others keep theirs. */
  ghost predicate ThicknessKept(e: Element, p: Params, prior: seq<real>, thickness: seq<real>)
    requires e.Valid(|prior|)
  {
    |thickness| == |e.nodes| && forall j :: 0 <= j < |e.nodes| ==>
      thickness[j] == (if prior[e.nodes[j]] == 0.0 then p.initThickness else e.thickness[j])
  }

  /** The element's proposals for the mask and its flags; closed nodes get the initial thickness back. */
  method GetMask(e: Element, p: Params, prior: seq<real>, mask: array<real>, recurrence: array<real>)
    returns (thickness: seq<real>)
    requires e.Valid(|prior|) && mask != recurrence && mask.Length == recurrence.Length == |prior|
    modifies mask, recurrence
    ensures MaskSoFar(e, p, prior, old(mask[..]), mask[..], |e.nodes|)
    ensures FlagsSoFar(e, p, prior, old(recurrence[..]), recurrence[..], |e.nodes|)
    ensures ThicknessKept(e, p, prior, thickness)
  {
    hide Proposal;
    hide Flags;
    hide Pushes;
    ghost var m0, r0 := mask[..], recurrence[..];
    NoRound(e, p, prior, m0, r0);
    var sedHeadMin := SedHeadMin(e.sedHead);
    thickness := e.thickness;
    for i := 0 to |e.nodes|
      invariant MaskSoFar(e, p, prior, m0, mask[..], i)
      invariant FlagsSoFar(e, p, prior, r0, recurrence[..], i)
      invariant |thickness| == |e.nodes|
      invariant forall j :: 0 <= j < |e.nodes| ==>
        thickness[j] == if j < i && prior[e.nodes[j]] == 0.0 then p.initThickness else e.thickness[j]
    {
      ghost var m, r := mask[..], recurrence[..];
      OwnStep(e, p, prior, i, mask, recurrence);
      if prior[e.nodes[i]] == 0.0 {
        thickness := thickness[i := p.initThickness];
      }
      ghost var mOwn, rOwn := mask[..], recurrence[..];
      PushStep(e, prior, i, sedHeadMin, mask, recurrence);
      forall j | 0 <= j < |e.nodes|
        ensures mask[e.nodes[j]] == Written(Proposal(e, p, prior, j, i + 1), m0[e.nodes[j]])
        ensures recurrence[e.nodes[j]] == if Flags(e, p, prior, j, i + 1) then 1.0 else r0[e.nodes[j]]
      {
        var v := e.nodes[j];
        assert v != e.nodes[i] <==> i != j;
        Round(e, p, prior, j, i, m0[v], m[v], mOwn[v], mask[v]);
        FlagRound(e, p, prior, j, i, r0[v], r[v], rOwn[v], recurrence[v]);
      }
    }
  }
}
