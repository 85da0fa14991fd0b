/**
  The shallow-ice element matrix and load of one prism. Degree of freedom 2*j + d is velocity
  component d at local vertex j; the vertical segments join vertices s and s + 3.
 */
module SiaElement {
  import opened LinearAlgebra

  /** One quadrature point of a vertical segment; shear is -2 (rho g)^n |slope|^(n-1) ((s - z)/B)^n. */
  datatype LinePoint = LinePoint(shear: real, slope: seq<real>, thickness: real, jdet: real, weight: real) {
    predicate Valid() {
      |slope| == 2
    }
  }

  datatype Params = Params(rhoIce: real, gravity: real)

  /** A prism: where it sits, how many prisms meet each of its vertices, and its segments' quadrature points. */
  datatype Prism = Prism(onBase: bool, onSurface: bool, connectivity: seq<nat>, lines: seq<seq<LinePoint>>) {
    ghost predicate Valid() {
      && |connectivity| == 6 && (forall j :: 0 <= j < 6 ==> connectivity[j] > 0)
      && |lines| == 3
      && (forall s :: 0 <= s < 3 ==> |lines[s]| > 0)
      && (forall s, g :: 0 <= s < 3 && 0 <= g < |lines[s]| ==> lines[s][g].Valid())
    }
  }

  // ---------------------------------------------------------------- stiffness

  /** The share of one prism at vertex j; interior vertices are counted by the layers above and below. */
  function Share(e: Prism, j: nat): real
    requires |e.connectivity| == 6 && j < 6 && e.connectivity[j] > 0
  {
    if j < 3 || e.onSurface then 1.0 / e.connectivity[j] as real else 2.0 * (1.0 / e.connectivity[j] as real)
  }

  /** Entry (i, j) of the element matrix. */
  function StiffnessEntry(e: Prism, i: nat, j: nat): real
    requires |e.connectivity| == 6 && i < 12 && e.connectivity[i / 2] > 0
  {
    if i < 6 then (if e.onBase && j == i then Share(e, i / 2) else 0.0)
    else if j == i then Share(e, i / 2)
    else if j == i - 6 then -Share(e, i / 2)
    else 0.0
  }

  function Stiffness(e: Prism): (k: Matrix)
    requires e.Valid()
    ensures Shape(k, 12, 12)
  {
    seq(12, i requires 0 <= i < 12 => seq(12, j requires 0 <= j => StiffnessEntry(e, i, j)))
  }

  method CreateKMatrix3D(e: Prism) returns (ke: array2<real>)
    requires e.Valid()
    ensures fresh(ke) && ke.Length0 == 12 && ke.Length1 == 12
    ensures Values(ke) == Stiffness(e)
  {
    ke := new real[12, 12]((_, _) => 0.0);
    for s := 0 to 3
      invariant forall i, j :: 0 <= i < 12 && 0 <= j < 12 ==>
        ke[i, j] == if (if i < 6 then i / 2 else i / 2 - 3) < s then StiffnessEntry(e, i, j) else 0.0
    {
      var nodeDown, nodeUp := s, s + 3;
      var one0, one1 := 1.0 / e.connectivity[nodeDown] as real, 1.0 / e.connectivity[nodeUp] as real;
      var i0, i1, j0, j1 := 2 * nodeDown, 2 * nodeDown + 1, 2 * nodeUp, 2 * nodeUp + 1;
      if e.onBase && e.onSurface {
        ke[i0, i0] := one0;
        ke[i1, i1] := one0;
        ke[j0, i0] := -one1;
        ke[j0, j0] := one1;
        ke[j1, i1] := -one1;
        ke[j1, j1] := one1;
      } else if e.onBase {
        ke[i0, i0] := one0;
        ke[i1, i1] := one0;
        ke[j0, i0] := -2.0 * one1;
        ke[j0, j0] := 2.0 * one1;
        ke[j1, i1] := -2.0 * one1;
        ke[j1, j1] := 2.0 * one1;
      } else if e.onSurface {
        ke[j0, i0] := -one1;
        ke[j0, j0] := one1;
        ke[j1, i1] := -one1;
        ke[j1, j1] := one1;
      } else {
        ke[j0, i0] := -2.0 * one1;
        ke[j0, j0] := 2.0 * one1;
        ke[j1, i1] := -2.0 * one1;
        ke[j1, j1] := 2.0 * one1;
      }
    }
    forall i | 0 <= i < 12 ensures Values(ke)[i] == Stiffness(e)[i] {
      assert forall j :: 0 <= j < 12 ==> Values(ke)[i][j] == Stiffness(e)[i][j];
    }
  }

  // ---------------------------------------------------------------- load

  function PointShear(q: LinePoint, d: nat): real
    requires q.Valid() && d < 2
  {
    q.shear * q.slope[d] * q.jdet * q.weight
  }

  /** The integral of the shear over the first n points of a segment. */
  function LineShear(line: seq<LinePoint>, d: nat, n: nat): real
    requires n <= |line| && d < 2 && forall g :: 0 <= g < |line| ==> line[g].Valid()
  {
    if n == 0 then 0.0 else LineShear(line, d, n - 1) + PointShear(line[n - 1], d)
  }

  const SLIDING := 1.58 * 0.0000000001

  /** Payne's sliding law, with the slope and thickness of the last quadrature point. */
  function BasalVelocity(line: seq<LinePoint>, p: Params, d: nat): real
    requires |line| > 0 && d < 2 && forall g :: 0 <= g < |line| ==> line[g].Valid()
  {
    var q := line[|line| - 1];
    assert q.Valid();
    -SLIDING * p.rhoIce * p.gravity * q.thickness * q.slope[d]
  }

  /** Entry i of the element load. */
  function LoadEntry(e: Prism, p: Params, i: nat): real
    requires e.Valid() && i < 12
  {
    if i < 6 then (if e.onBase then Times(BasalVelocity(e.lines[i / 2], p, i % 2), Share(e, i / 2)) else 0.0)
    else Times(LineShear(e.lines[i / 2 - 3], i % 2, |e.lines[i / 2 - 3]|), Share(e, i / 2))
  }

  function Load(e: Prism, p: Params): (s: seq<real>)
    requires e.Valid()
    ensures |s| == 12
  {
    seq(12, i requires 0 <= i < 12 => LoadEntry(e, p, i))
  }

  lemma ShareTerm(e: Prism, j: nat, s: real, u: real)
    requires e.Valid() && j < 6
    ensures Times(0.0, Share(e, j)) == 0.0
    ensures Times(s + u, Share(e, j))
         == Times(s, Share(e, j)) + (if j < 3 || e.onSurface then u / e.connectivity[j] as real
                                     else u * 2.0 / e.connectivity[j] as real)
  {
  }

  /** One segment's shear, in two components, at the upper vertex. */
  method AddShear(pe: array<real>, e: Prism, s: nat)
    requires e.Valid() && s < 3 && pe.Length == 12
    requires pe[2 * (s + 3)] == 0.0 && pe[2 * (s + 3) + 1] == 0.0
    modifies pe
    ensures pe[2 * (s + 3)] == Times(LineShear(e.lines[s], 0, |e.lines[s]|), Share(e, s + 3))
    ensures pe[2 * (s + 3) + 1] == Times(LineShear(e.lines[s], 1, |e.lines[s]|), Share(e, s + 3))
    ensures forall i :: 0 <= i < 12 && i / 2 != s + 3 ==> pe[i] == old(pe[i])
  {
    hide Times;
    hide Share;
    var line, nodeUp := e.lines[s], s + 3;
    var connectivity := e.connectivity[nodeUp] as real;
    ShareTerm(e, nodeUp, 0.0, 0.0);
    for g := 0 to |line|
      invariant pe[2 * nodeUp] == Times(LineShear(line, 0, g), Share(e, nodeUp))
      invariant pe[2 * nodeUp + 1] == Times(LineShear(line, 1, g), Share(e, nodeUp))
      invariant forall i :: 0 <= i < 12 && i / 2 != nodeUp ==> pe[i] == old(pe[i])
    {
      var q := line[g];
      assert q.Valid();
      var u, v := q.shear * q.slope[0] * q.jdet * q.weight, q.shear * q.slope[1] * q.jdet * q.weight;
      assert u == PointShear(q, 0) && v == PointShear(q, 1);
      hide PointShear;
      ShareTerm(e, nodeUp, LineShear(line, 0, g), u);
      ShareTerm(e, nodeUp, LineShear(line, 1, g), v);
      if e.onSurface {
        pe[2 * nodeUp] := pe[2 * nodeUp] + u / connectivity;
        pe[2 * nodeUp + 1] := pe[2 * nodeUp + 1] + v / connectivity;
      } else {
        pe[2 * nodeUp] := pe[2 * nodeUp] + u * 2.0 / connectivity;
        pe[2 * nodeUp + 1] := pe[2 * nodeUp + 1] + v * 2.0 / connectivity;
      }
    }
  }

  /** One segment's basal velocity, in two components, at the lower vertex of a basal prism. */
  method AddBasal(pe: array<real>, e: Prism, p: Params, s: nat)
    requires e.Valid() && s < 3 && pe.Length == 12
    requires pe[2 * s] == 0.0 && pe[2 * s + 1] == 0.0
    modifies pe
    ensures pe[2 * s] == if e.onBase then Times(BasalVelocity(e.lines[s], p, 0), Share(e, s)) else 0.0
    ensures pe[2 * s + 1] == if e.onBase then Times(BasalVelocity(e.lines[s], p, 1), Share(e, s)) else 0.0
    ensures forall i :: 0 <= i < 12 && i / 2 != s ==> pe[i] == old(pe[i])
  {
    if e.onBase {
      var line := e.lines[s];
      var q := line[|line| - 1];
      assert q.Valid();
      var ub := -SLIDING * p.rhoIce * p.gravity * q.thickness * q.slope[0];
      var vb := -SLIDING * p.rhoIce * p.gravity * q.thickness * q.slope[1];
      assert ub == BasalVelocity(line, p, 0) && vb == BasalVelocity(line, p, 1);
      hide Times;
      hide Share;
      hide BasalVelocity;
      var connectivity := e.connectivity[s] as real;
      ShareTerm(e, s, 0.0, ub);
      ShareTerm(e, s, 0.0, vb);
      pe[2 * s] := pe[2 * s] + ub / connectivity;
      pe[2 * s + 1] := pe[2 * s + 1] + vb / connectivity;
    }
  }

  method CreatePVector3D(e: Prism, p: Params) returns (pe: array<real>)
    requires e.Valid()
    ensures fresh(pe) && pe.Length == 12
    ensures pe[..] == Load(e, p)
  {
    hide Times;
    hide Share;
    hide BasalVelocity;
    hide LineShear;
    pe := new real[12](_ => 0.0);
    for s := 0 to 3
      invariant forall i :: 0 <= i < 12 ==> pe[i] == if (if i < 6 then i / 2 else i / 2 - 3) < s then LoadEntry(e, p, i) else 0.0
    {
      AddShear(pe, e, s);
      AddBasal(pe, e, p, s);
    }
    assert forall i :: 0 <= i < 12 ==> pe[..][i] == Load(e, p)[i];
  }
}
