/**
  The shallow-ice system of an extruded mesh, assembled over its icy prisms, and its solution: on every
  column the velocity is the mean sliding velocity plus the running sum of the mean shear of the
  segments below, whatever the number of layers and whichever prisms hold ice.
 */
module SiaSystem {
  import opened LinearAlgebra
  import opened SiaMesh
  import opened SiaElement

  /** lines[t][l] holds the three segments of the prism over triangle t in layer l. */
  datatype System = System(mesh: Mesh, connectivity: seq<nat>, lines: seq<seq<seq<seq<LinePoint>>>>, p: Params) {
    ghost predicate Valid() {
      && mesh.Valid()
      && |connectivity| == mesh.numNodes
      && (forall l, c :: 0 <= l < |mesh.ids| && 0 <= c < |mesh.ids[0]| ==>
            connectivity[mesh.ids[l][c]] == Connectivity(mesh, l, c))
      && |lines| == |mesh.tris|
      && (forall t :: 0 <= t < |lines| ==> |lines[t]| == mesh.Layers())
      && (forall t, l :: 0 <= t < |lines| && 0 <= l < |lines[t]| ==> ValidLines(lines[t][l]))
    }

    function Size(): nat {
      2 * mesh.numNodes
    }
  }

  ghost predicate ValidLines(lines: seq<seq<LinePoint>>) {
    && |lines| == 3
    && (forall s :: 0 <= s < 3 ==> |lines[s]| > 0)
    && (forall s, g :: 0 <= s < 3 && 0 <= g < |lines[s]| ==> lines[s][g].Valid())
  }

  /** A column's place in a triangle. */
  function Slot(tri: seq<nat>, c: nat): (s: nat)
    requires |tri| == 3 && c in tri
    ensures s < 3 && tri[s] == c
  {
    if tri[0] == c then 0 else if tri[1] == c then 1 else 2
  }

  lemma {:induction false} DegreePositive(mesh: Mesh, t: nat, c: nat, m: nat)
    requires t < m <= |mesh.tris| && c in mesh.tris[t]
    ensures Degree(mesh, c, m) > 0
  {
    if t < m - 1 {
      DegreePositive(mesh, t, c, m - 1);
    }
  }

  function PrismAt(sys: System, t: nat, l: nat): (e: Prism)
    requires sys.Valid() && t < |sys.mesh.tris| && l < sys.mesh.Layers()
  {
    var v := Vertices(sys.mesh, t, l);
    Prism(l == 0, l == sys.mesh.Layers() - 1,
          seq(6, j requires 0 <= j < 6 => if v[j] < |sys.connectivity| then sys.connectivity[v[j]] else 0),
          sys.lines[t][l])
  }

  lemma PrismConnectivity(sys: System, t: nat, l: nat, s: nat)
    requires sys.Valid() && t < |sys.mesh.tris| && l < sys.mesh.Layers() && s < 3
    ensures PrismAt(sys, t, l).connectivity[s] == Connectivity(sys.mesh, l, sys.mesh.tris[t][s]) > 0
    ensures PrismAt(sys, t, l).connectivity[s + 3] == Connectivity(sys.mesh, l + 1, sys.mesh.tris[t][s]) > 0
  {
    var tri := sys.mesh.tris[t];
    assert ValidTriangle(tri, |sys.mesh.ids[0]|);
    DegreePositive(sys.mesh, t, tri[s], |sys.mesh.tris|);
  }

  lemma PrismValid(sys: System, t: nat, l: nat)
    requires sys.Valid() && t < |sys.mesh.tris| && l < sys.mesh.Layers()
    ensures PrismAt(sys, t, l).Valid()
  {
    PrismConnectivity(sys, t, l, 0);
    PrismConnectivity(sys, t, l, 1);
    PrismConnectivity(sys, t, l, 2);
    assert ValidLines(sys.lines[t][l]);
  }

  function Dofs(sys: System, t: nat, l: nat): (d: seq<nat>)
    requires sys.Valid() && t < |sys.mesh.tris| && l < sys.mesh.Layers()
    ensures |d| == 12
  {
    var v := Vertices(sys.mesh, t, l);
    seq(12, i requires 0 <= i < 12 => 2 * v[i / 2] + i % 2)
  }

  /** Velocity component d on level k of column c. */
  function Dof(sys: System, k: nat, c: nat, d: nat): nat
    requires sys.Valid() && k < |sys.mesh.ids| && c < |sys.mesh.ids[0]| && d < 2
  {
    2 * sys.mesh.ids[k][c] + d
  }

  lemma DofsInRange(sys: System, t: nat, l: nat)
    requires sys.Valid() && t < |sys.mesh.tris| && l < sys.mesh.Layers()
    ensures DofsWithin(Dofs(sys, t, l), sys.Size())
  {
  }

  // ---------------------------------------------------------------- assembly

  /** The matrix after layers before l, and the first t prisms of layer l. */
  function AssembledK(sys: System, l: nat, t: nat): Matrix
    requires sys.Valid() && l <= sys.mesh.Layers() && t <= |sys.mesh.tris| && (l == sys.mesh.Layers() ==> t == 0)
    decreases l, t
  {
    if t > 0 then
      var before := AssembledK(sys, l, t - 1);
      if sys.mesh.icy[t - 1] then
        PrismValid(sys, t - 1, l);
        Added(before, Stiffness(PrismAt(sys, t - 1, l)), Dofs(sys, t - 1, l), 12)
      else before
    else if l > 0 then AssembledK(sys, l - 1, |sys.mesh.tris|)
    else ZeroMatrix(sys.Size())
  }

  function AssembledP(sys: System, l: nat, t: nat): (p: seq<real>)
    requires sys.Valid() && l <= sys.mesh.Layers() && t <= |sys.mesh.tris| && (l == sys.mesh.Layers() ==> t == 0)
    ensures |p| == sys.Size()
    decreases l, t
  {
    if t > 0 then
      var before := AssembledP(sys, l, t - 1);
      if sys.mesh.icy[t - 1] then
        PrismValid(sys, t - 1, l);
        VectorAdded(before, Load(PrismAt(sys, t - 1, l), sys.p), Dofs(sys, t - 1, l), 12)
      else before
    else if l > 0 then AssembledP(sys, l - 1, |sys.mesh.tris|)
    else Constant(sys.Size(), 0.0)
  }

  /** One prism: its matrix and load are added if it holds ice. */
  method AddPrism(sys: System, k: array2<real>, p: array<real>, t: nat, l: nat)
    requires sys.Valid() && t < |sys.mesh.tris| && l < sys.mesh.Layers()
    requires k.Length0 == k.Length1 == p.Length == sys.Size()
    requires Values(k) == AssembledK(sys, l, t) && p[..] == AssembledP(sys, l, t)
    modifies k, p
    ensures Values(k) == AssembledK(sys, l, t + 1) && p[..] == AssembledP(sys, l, t + 1)
  {
    hide Stiffness;
    hide Load;
    hide Added;
    hide VectorAdded;
    hide Dofs;
    hide PrismAt;
    if sys.mesh.icy[t] {
      PrismValid(sys, t, l);
      DofsInRange(sys, t, l);
      var ke := CreateKMatrix3D(PrismAt(sys, t, l));
      AddToGlobal(k, ke, Dofs(sys, t, l));
      var pe := CreatePVector3D(PrismAt(sys, t, l), sys.p);
      AddVectorToGlobal(p, pe, Dofs(sys, t, l));
    }
  }

  /** Assembles matrix and load, skipping prisms without ice. */
  method Assemble(sys: System) returns (k: array2<real>, p: array<real>)
    requires sys.Valid()
    ensures Values(k) == AssembledK(sys, sys.mesh.Layers(), 0)
    ensures p[..] == AssembledP(sys, sys.mesh.Layers(), 0)
  {
    k := NewMatrix(sys.Size());
    p := NewVector(sys.Size());
    for l := 0 to sys.mesh.Layers()
      invariant k.Length0 == k.Length1 == p.Length == sys.Size()
      invariant Values(k) == AssembledK(sys, l, 0) && p[..] == AssembledP(sys, l, 0)
    {
      for t := 0 to |sys.mesh.tris|
        invariant k.Length0 == k.Length1 == p.Length == sys.Size()
        invariant Values(k) == AssembledK(sys, l, t) && p[..] == AssembledP(sys, l, t)
      {
        AddPrism(sys, k, p, t, l);
      }
    }
  }

  // ---------------------------------------------------------------- one prism's part in one equation

  /** A vector that is zero but at two places. */
  lemma {:induction false} DotSparse(a: seq<real>, x: seq<real>, p: nat, q: nat, n: nat)
    requires p < q
    requires forall k :: 0 <= k < n && k != p && k != q ==> At(a, k) == 0.0
    ensures Dot(a, x, n) == (if p < n then At(a, p) * At(x, p) else 0.0) + (if q < n then At(a, q) * At(x, q) else 0.0)
  {
    if n > 0 {
      DotSparse(a, x, p, q, n - 1);
    }
  }

  /** The element's view of one global equation is one local equation ... */
  lemma GatherUnit(sys: System, t: nat, l: nat, k: nat, c: nat, d: nat, s: nat)
    requires sys.Valid() && t < |sys.mesh.tris| && l < sys.mesh.Layers() && k < |sys.mesh.ids| && c < |sys.mesh.ids[0]| && d < 2
    requires s < 3 && sys.mesh.tris[t][s] == c && (k == l || k == l + 1)
    ensures Gather(Unit(sys.Size(), Dof(sys, k, c, d)), Dofs(sys, t, l)) == Unit(12, if k == l then 2 * s + d else 2 * s + 6 + d)
  {
    var dofs, r := Dofs(sys, t, l), Dof(sys, k, c, d);
    var j := if k == l then 2 * s + d else 2 * s + 6 + d;
    assert ValidTriangle(sys.mesh.tris[t], |sys.mesh.ids[0]|);
    DofsInRange(sys, t, l);
    forall i | 0 <= i < 12 ensures dofs[i] == r <==> i == j {
      VertexOf(sys.mesh, t, l, k, c, i / 2);
    }
  }

  /** ... or none. */
  lemma GatherNothing(sys: System, t: nat, l: nat, k: nat, c: nat, d: nat)
    requires sys.Valid() && t < |sys.mesh.tris| && l < sys.mesh.Layers() && k < |sys.mesh.ids| && c < |sys.mesh.ids[0]| && d < 2
    requires c !in sys.mesh.tris[t] || (k != l && k != l + 1)
    ensures forall i :: 0 <= i < 12 ==> At(Gather(Unit(sys.Size(), Dof(sys, k, c, d)), Dofs(sys, t, l)), i) == 0.0
  {
  }

  /** The layer whose prisms hold the equation of level k: the one below, or the lowest for the base. */
  function LayerOf(k: nat): nat {
    if k == 0 then 0 else k - 1
  }

  /** Level k's velocity less the one below; at the base, the velocity. */
  function Jump(sys: System, x: seq<real>, k: nat, c: nat, d: nat): real
    requires sys.Valid() && k < |sys.mesh.ids| && c < |sys.mesh.ids[0]| && d < 2
  {
    At(x, Dof(sys, k, c, d)) - if k == 0 then 0.0 else At(x, Dof(sys, k - 1, c, d))
  }

  /** The segment of triangle t that drives level k of column c: the one below it, or the lowest. */
  function DrivingLine(sys: System, t: nat, k: nat, c: nat): (line: seq<LinePoint>)
    requires sys.Valid() && t < |sys.mesh.tris| && |sys.mesh.tris[t]| == 3 && c in sys.mesh.tris[t] && k < |sys.mesh.ids|
    ensures |line| > 0 && forall g :: 0 <= g < |line| ==> line[g].Valid()
  {
    assert ValidLines(sys.lines[t][LayerOf(k)]);
    sys.lines[t][LayerOf(k)][Slot(sys.mesh.tris[t], c)]
  }

  /** What drives level k of column c in triangle t: sliding at the base, the shear of the segment below elsewhere. */
  function Drive(sys: System, t: nat, k: nat, c: nat, d: nat): real
    requires sys.Valid() && t < |sys.mesh.tris| && c in sys.mesh.tris[t] && |sys.mesh.tris[t]| == 3
    requires k < |sys.mesh.ids| && d < 2
  {
    var line := DrivingLine(sys, t, k, c);
    if k == 0 then BasalVelocity(line, sys.p, d) else LineShear(line, d, |line|)
  }

  /** One over the number of triangles that meet column c. */
  function Weight(sys: System, c: nat): real
    requires Degree(sys.mesh, c, |sys.mesh.tris|) > 0
  {
    1.0 / Degree(sys.mesh, c, |sys.mesh.tris|) as real
  }

  /** The connectivity weights of base, interior and surface vertices all come to the same. */
  lemma ShareIsWeight(sys: System, t: nat, k: nat, c: nat)
    requires sys.Valid() && t < |sys.mesh.tris| && k < |sys.mesh.ids| && c in sys.mesh.tris[t]
    ensures Degree(sys.mesh, c, |sys.mesh.tris|) > 0
    ensures PrismAt(sys, t, LayerOf(k)).Valid() && |sys.mesh.tris[t]| == 3
    ensures Share(PrismAt(sys, t, LayerOf(k)), Slot(sys.mesh.tris[t], c) + if k == 0 then 0 else 3) == Weight(sys, c)
  {
    assert ValidTriangle(sys.mesh.tris[t], |sys.mesh.ids[0]|);
    var l, s, n := LayerOf(k), Slot(sys.mesh.tris[t], c), Degree(sys.mesh, c, |sys.mesh.tris|);
    PrismValid(sys, t, l);
    PrismConnectivity(sys, t, l, s);
    DegreePositive(sys.mesh, t, c, |sys.mesh.tris|);
    var e := PrismAt(sys, t, l);
    assert e.onSurface == (l == sys.mesh.Layers() - 1);
    hide PrismAt;
    hide Degree;
    if k == 0 {
      ShareOf(e, s, n);
    } else {
      ShareOf(e, s + 3, n);
    }
  }

  lemma ShareOf(e: Prism, j: nat, n: nat)
    requires e.Valid() && j < 6 && n > 0
    requires e.connectivity[j] == if j < 3 || e.onSurface then n else 2 * n
    ensures Share(e, j) == 1.0 / n as real
  {
  }

  /** Testing the element with a vector that is zero on it gives nothing. */
  lemma NothingTested(ke: Matrix, pe: seq<real>, y: seq<real>, x: seq<real>)
    requires forall i :: 0 <= i < 12 ==> At(y, i) == 0.0
    ensures Form(ke, y, x, 12, 12) == 0.0 && Dot(pe, y, 12) == 0.0
  {
    DotZero(y, Product(ke, x, 12, 12), 12);
    DotSymmetric(y, Product(ke, x, 12, 12), 12);
    DotZero(y, pe, 12);
    DotSymmetric(y, pe, 12);
  }

  /** Equation i of the element: at the base, a multiple of the velocity; above, of the jump along the segment. */
  lemma ElementRow(e: Prism, i: nat, x: seq<real>)
    requires e.Valid() && i < 12
    ensures Form(Stiffness(e), Unit(12, i), x, 12, 12)
         == if i < 6 then (if e.onBase then Share(e, i / 2) * At(x, i) else 0.0)
            else Share(e, i / 2) * (At(x, i) - At(x, i - 6))
  {
    hide Form;
    hide Dot;
    hide Share;
    hide Stiffness;
    var row := StiffnessRow(e, i);
    FormUnit(Stiffness(e), i, x, 12);
    if i < 6 {
      DotSparse(row, x, i, 12, 12);
    } else {
      DotSparse(row, x, i - 6, i, 12);
    }
  }

  lemma StiffnessRow(e: Prism, i: nat) returns (row: seq<real>)
    requires e.Valid() && i < 12
    ensures row == RowAt(Stiffness(e), i) && |row| == 12
    ensures forall j :: 0 <= j < 12 ==> At(row, j) == StiffnessEntry(e, i, j)
  {
    hide StiffnessEntry;
    row := Stiffness(e)[i];
  }

  lemma LoadRow(e: Prism, p: Params, i: nat)
    requires e.Valid() && i < 12
    ensures Dot(Load(e, p), Unit(12, i), 12) == LoadEntry(e, p, i)
  {
    DotUnit(Load(e, p), 12, i, 12);
  }

  lemma GatheredAt(sys: System, t: nat, l: nat, x: seq<real>, c: nat, d: nat, s: nat)
    requires sys.Valid() && t < |sys.mesh.tris| && l < sys.mesh.Layers() && c < |sys.mesh.ids[0]| && d < 2 && s < 3
    requires sys.mesh.tris[t][s] == c
    ensures At(Gather(x, Dofs(sys, t, l)), 2 * s + d) == At(x, Dof(sys, l, c, d))
    ensures At(Gather(x, Dofs(sys, t, l)), 2 * s + 6 + d) == At(x, Dof(sys, l + 1, c, d))
  {
    assert ValidTriangle(sys.mesh.tris[t], |sys.mesh.ids[0]|);
    VertexOf(sys.mesh, t, l, l, c, s);
    VertexOf(sys.mesh, t, l, l + 1, c, s + 3);
  }

  /** One prism's part in the equation of level k of column c. */
  lemma PrismRowInactive(sys: System, t: nat, l: nat, k: nat, c: nat, d: nat, x: seq<real>)
    requires sys.Valid() && t < |sys.mesh.tris| && l < sys.mesh.Layers() && k < |sys.mesh.ids| && c < |sys.mesh.ids[0]| && d < 2
    requires c !in sys.mesh.tris[t] || l != LayerOf(k)
    ensures PrismAt(sys, t, l).Valid()
    ensures var y := Gather(Unit(sys.Size(), Dof(sys, k, c, d)), Dofs(sys, t, l));
      && Form(Stiffness(PrismAt(sys, t, l)), y, Gather(x, Dofs(sys, t, l)), 12, 12) == 0.0
      && Dot(Load(PrismAt(sys, t, l), sys.p), y, 12) == 0.0
  {
    PrismValid(sys, t, l);
    var e, gx := PrismAt(sys, t, l), Gather(x, Dofs(sys, t, l));
    if c in sys.mesh.tris[t] && k == l {
      assert ValidTriangle(sys.mesh.tris[t], |sys.mesh.ids[0]|);
      var s := Slot(sys.mesh.tris[t], c);
      GatherUnit(sys, t, l, k, c, d, s);
      assert !e.onBase;
      ElementRow(e, 2 * s + d, gx);
      LoadRow(e, sys.p, 2 * s + d);
    } else {
      GatherNothing(sys, t, l, k, c, d);
      NothingTested(Stiffness(e), Load(e, sys.p), Gather(Unit(sys.Size(), Dof(sys, k, c, d)), Dofs(sys, t, l)), gx);
    }
  }

  lemma PrismRowActive(sys: System, t: nat, k: nat, c: nat, d: nat, x: seq<real>)
    requires sys.Valid() && t < |sys.mesh.tris| && k < |sys.mesh.ids| && c < |sys.mesh.ids[0]| && d < 2
    requires c in sys.mesh.tris[t]
    ensures PrismAt(sys, t, LayerOf(k)).Valid() && Degree(sys.mesh, c, |sys.mesh.tris|) > 0
    ensures var l := LayerOf(k);
      Form(Stiffness(PrismAt(sys, t, l)), Gather(Unit(sys.Size(), Dof(sys, k, c, d)), Dofs(sys, t, l)),
           Gather(x, Dofs(sys, t, l)), 12, 12)
      == Times(Weight(sys, c), Jump(sys, x, k, c, d))
  {
    hide System.Valid;
    hide Mesh.Valid;
    hide Share;
    hide Weight;
    hide Dofs;
    hide PrismAt;
    hide Form;
    hide Gather;
    hide Stiffness;
    hide Dof;
    hide Slot;
    hide Degree;
    ShareIsWeight(sys, t, k, c);
    var l := LayerOf(k);
    Sizes(sys);
    PrismPlace(sys, t, l);
    var s, e, gx := Slot(sys.mesh.tris[t], c), PrismAt(sys, t, l), Gather(x, Dofs(sys, t, l));
    var i := if k == 0 then 2 * s + d else 2 * s + 6 + d;
    GatherUnit(sys, t, l, k, c, d, s);
    GatheredAt(sys, t, l, x, c, d, s);
    ElementRow(e, i, gx);
    assert i / 2 == s + if k == 0 then 0 else 3;
    assert k > 0 ==> l + 1 == k && i - 6 == 2 * s + d;
  }

  lemma PrismPlace(sys: System, t: nat, l: nat)
    requires sys.Valid() && t < |sys.mesh.tris| && l < sys.mesh.Layers()
    ensures |sys.mesh.ids| >= 2 && |sys.mesh.tris[t]| == 3
    ensures PrismAt(sys, t, l).onBase == (l == 0)
  {
  }

  lemma PrismLoadActive(sys: System, t: nat, k: nat, c: nat, d: nat)
    requires sys.Valid() && t < |sys.mesh.tris| && k < |sys.mesh.ids| && c < |sys.mesh.ids[0]| && d < 2
    requires c in sys.mesh.tris[t]
    ensures PrismAt(sys, t, LayerOf(k)).Valid() && Degree(sys.mesh, c, |sys.mesh.tris|) > 0 && |sys.mesh.tris[t]| == 3
    ensures var l := LayerOf(k);
      Dot(Load(PrismAt(sys, t, l), sys.p), Gather(Unit(sys.Size(), Dof(sys, k, c, d)), Dofs(sys, t, l)), 12)
      == Times(Weight(sys, c), Drive(sys, t, k, c, d))
  {
    ShareIsWeight(sys, t, k, c);
    var l := LayerOf(k);
    var s, e := Slot(sys.mesh.tris[t], c), PrismAt(sys, t, l);
    var i := if k == 0 then 2 * s + d else 2 * s + 6 + d;
    GatherUnit(sys, t, l, k, c, d, s);
    hide Share;
    hide Weight;
    hide Dofs;
    hide Dot;
    hide Gather;
    hide Load;
    hide BasalVelocity;
    hide LineShear;
    LoadRow(e, sys.p, i);
    assert i / 2 == s + (if k == 0 then 0 else 3) && i % 2 == d;
    TimesCommutes(Drive(sys, t, k, c, d), Weight(sys, c));
  }

  lemma TimesCommutes(a: real, b: real)
    ensures Times(a, b) == Times(b, a)
  {
  }

  // ---------------------------------------------------------------- the assembled equations

  lemma Sizes(sys: System)
    requires sys.Valid()
    ensures |sys.mesh.ids| >= 2 && |sys.mesh.icy| == |sys.mesh.tris|
    ensures forall t :: 0 <= t < |sys.mesh.tris| ==> |sys.mesh.tris[t]| == 3
  {
  }

  /** How many icy triangles around c, among the prisms assembled so far, hold level k's equation. */
  function Seen(sys: System, k: nat, c: nat, l: nat, t: nat): nat
    requires sys.Valid() && t <= |sys.mesh.tris|
  {
    if l < LayerOf(k) then 0
    else if l == LayerOf(k) then IcyDegree(sys.mesh, c, t)
    else IcyDegree(sys.mesh, c, |sys.mesh.tris|)
  }

  /** The drive of level k of column c, summed over the first m triangles that are icy and meet c. */
  function DriveSum(sys: System, k: nat, c: nat, d: nat, m: nat): real
    requires sys.Valid() && m <= |sys.mesh.tris| && k < |sys.mesh.ids| && d < 2
  {
    if m == 0 then 0.0
    else
      assert ValidTriangle(sys.mesh.tris[m - 1], |sys.mesh.ids[0]|);
      DriveSum(sys, k, c, d, m - 1)
      + if sys.mesh.icy[m - 1] && c in sys.mesh.tris[m - 1] then Drive(sys, m - 1, k, c, d) else 0.0
  }

  function SeenDrive(sys: System, k: nat, c: nat, d: nat, l: nat, t: nat): real
    requires sys.Valid() && t <= |sys.mesh.tris| && k < |sys.mesh.ids| && d < 2
  {
    if l < LayerOf(k) then 0.0
    else if l == LayerOf(k) then DriveSum(sys, k, c, d, t)
    else DriveSum(sys, k, c, d, |sys.mesh.tris|)
  }

  lemma {:induction false} AssembledRow(sys: System, l: nat, t: nat, k: nat, c: nat, d: nat, x: seq<real>)
    requires sys.Valid() && l <= sys.mesh.Layers() && t <= |sys.mesh.tris| && (l == sys.mesh.Layers() ==> t == 0)
    requires k < |sys.mesh.ids| && c < |sys.mesh.ids[0]| && d < 2 && Degree(sys.mesh, c, |sys.mesh.tris|) > 0
    ensures Shape(AssembledK(sys, l, t), sys.Size(), sys.Size())
    ensures Form(AssembledK(sys, l, t), Unit(sys.Size(), Dof(sys, k, c, d)), x, sys.Size(), sys.Size())
         == Times(Seen(sys, k, c, l, t) as real, Times(Weight(sys, c), Jump(sys, x, k, c, d)))
    decreases l, t
  {
    hide Form;
    hide System.Valid;
    hide Times;
    hide Added;
    hide Gather;
    hide Stiffness;
    hide PrismAt;
    hide Dofs;
    hide Weight;
    hide Unit;
    hide Mesh.Valid;
    Sizes(sys);
    var n, y := sys.Size(), Unit(sys.Size(), Dof(sys, k, c, d));
    if t > 0 {
      AssembledRow(sys, l, t - 1, k, c, d, x);
      if sys.mesh.icy[t - 1] {
        PrismValid(sys, t - 1, l);
        DofsInRange(sys, t - 1, l);
        FormAdded(AssembledK(sys, l, t - 1), Stiffness(PrismAt(sys, t - 1, l)), Dofs(sys, t - 1, l), 12, y, x, n);
        if c in sys.mesh.tris[t - 1] && l == LayerOf(k) {
          PrismRowActive(sys, t - 1, k, c, d, x);
          TimesNext(Seen(sys, k, c, l, t - 1), Times(Weight(sys, c), Jump(sys, x, k, c, d)));
        } else {
          PrismRowInactive(sys, t - 1, l, k, c, d, x);
        }
      }
    } else if l > 0 {
      AssembledRow(sys, l - 1, |sys.mesh.tris|, k, c, d, x);
    } else {
      ZeroForm(n, y, x);
      TimesNext(0, Times(Weight(sys, c), Jump(sys, x, k, c, d)));
    }
  }

  lemma {:induction false} AssembledLoad(sys: System, l: nat, t: nat, k: nat, c: nat, d: nat)
    requires sys.Valid() && l <= sys.mesh.Layers() && t <= |sys.mesh.tris| && (l == sys.mesh.Layers() ==> t == 0)
    requires k < |sys.mesh.ids| && c < |sys.mesh.ids[0]| && d < 2 && Degree(sys.mesh, c, |sys.mesh.tris|) > 0
    ensures Dot(AssembledP(sys, l, t), Unit(sys.Size(), Dof(sys, k, c, d)), sys.Size())
         == Times(Weight(sys, c), SeenDrive(sys, k, c, d, l, t))
    decreases l, t
  {
    hide Dot;
    hide System.Valid;
    hide Times;
    hide VectorAdded;
    hide Gather;
    hide Load;
    hide PrismAt;
    hide Dofs;
    hide Weight;
    hide Unit;
    hide Drive;
    hide Mesh.Valid;
    Sizes(sys);
    var n, y := sys.Size(), Unit(sys.Size(), Dof(sys, k, c, d));
    if t > 0 {
      AssembledLoad(sys, l, t - 1, k, c, d);
      if sys.mesh.icy[t - 1] {
        PrismValid(sys, t - 1, l);
        DofsInRange(sys, t - 1, l);
        DotVectorAdded(AssembledP(sys, l, t - 1), Load(PrismAt(sys, t - 1, l), sys.p), Dofs(sys, t - 1, l), 12, y);
        if c in sys.mesh.tris[t - 1] && l == LayerOf(k) {
          PrismLoadActive(sys, t - 1, k, c, d);
          TimesSum(Weight(sys, c), DriveSum(sys, k, c, d, t - 1), Drive(sys, t - 1, k, c, d));
        } else {
          PrismRowInactive(sys, t - 1, l, k, c, d, y);
        }
      }
    } else if l > 0 {
      AssembledLoad(sys, l - 1, |sys.mesh.tris|, k, c, d);
    } else {
      ZeroForm(n, y, y);
      TimesZero(Weight(sys, c));
    }
  }

  // ---------------------------------------------------------------- the solution

  /** The mean drive of level k over the icy triangles around c. */
  function MeanDrive(sys: System, k: nat, c: nat, d: nat): real
    requires sys.Valid() && k < |sys.mesh.ids| && d < 2 && IcyDegree(sys.mesh, c, |sys.mesh.tris|) > 0
  {
    DriveSum(sys, k, c, d, |sys.mesh.tris|) / IcyDegree(sys.mesh, c, |sys.mesh.tris|) as real
  }

  /** Mean sliding plus the mean shears of the segments up to level k. */
  function RunningSum(sys: System, k: nat, c: nat, d: nat): real
    requires sys.Valid() && k < |sys.mesh.ids| && d < 2 && IcyDegree(sys.mesh, c, |sys.mesh.tris|) > 0
  {
    if k == 0 then MeanDrive(sys, 0, c, d) else RunningSum(sys, k - 1, c, d) + MeanDrive(sys, k, c, d)
  }

  /** The assembled equation of level k of column c holds. */
  ghost predicate EquationHolds(sys: System, x: seq<real>, k: nat, c: nat, d: nat)
    requires sys.Valid() && k < |sys.mesh.ids| && c < |sys.mesh.ids[0]| && d < 2
  {
    var r := Dof(sys, k, c, d);
    Dot(RowAt(AssembledK(sys, sys.mesh.Layers(), 0), r), x, sys.Size()) == At(AssembledP(sys, sys.mesh.Layers(), 0), r)
  }

  lemma {:induction false} IcyAtMostDegree(mesh: Mesh, c: nat, m: nat)
    requires m <= |mesh.tris| && |mesh.icy| == |mesh.tris|
    ensures IcyDegree(mesh, c, m) <= Degree(mesh, c, m)
  {
    if m > 0 {
      IcyAtMostDegree(mesh, c, m - 1);
    }
  }

  /** Each assembled equation says that the velocity jumps by the mean drive. */
  lemma EquationMeaning(sys: System, x: seq<real>, k: nat, c: nat, d: nat)
    requires sys.Valid() && k < |sys.mesh.ids| && c < |sys.mesh.ids[0]| && d < 2
    requires IcyDegree(sys.mesh, c, |sys.mesh.tris|) > 0
    ensures EquationHolds(sys, x, k, c, d) <==> Jump(sys, x, k, c, d) == MeanDrive(sys, k, c, d)
  {
    var layers, r, n := sys.mesh.Layers(), Dof(sys, k, c, d), sys.Size();
    IcyAtMostDegree(sys.mesh, c, |sys.mesh.tris|);
    hide AssembledK;
    hide AssembledP;
    hide Degree;
    hide DriveSum;
    assert r < n;
    AssembledRow(sys, layers, 0, k, c, d, x);
    AssembledLoad(sys, layers, 0, k, c, d);
    FormUnit(AssembledK(sys, layers, 0), r, x, n);
    DotUnit(AssembledP(sys, layers, 0), n, r, n);
    hide Form;
    hide Dot;
    hide Times;
    hide Jump;
    EquationAlgebra(IcyDegree(sys.mesh, c, |sys.mesh.tris|) as real, Weight(sys, c), Jump(sys, x, k, c, d),
                    DriveSum(sys, k, c, d, |sys.mesh.tris|));
  }

  lemma EquationAlgebra(n: real, w: real, jump: real, drive: real)
    requires n > 0.0 && w > 0.0
    ensures Times(n, Times(w, jump)) == Times(w, drive) <==> jump == drive / n
  {
  }

  /** The equations up to level k have exactly one solution: the running sum of the means. */
  lemma {:induction false} ColumnSolution(sys: System, x: seq<real>, k: nat, c: nat, d: nat)
    requires sys.Valid() && k < |sys.mesh.ids| && c < |sys.mesh.ids[0]| && d < 2
    requires IcyDegree(sys.mesh, c, |sys.mesh.tris|) > 0
    ensures (forall j: nat :: j <= k ==> EquationHolds(sys, x, j, c, d))
       <==> (forall j: nat :: j <= k ==> At(x, Dof(sys, j, c, d)) == RunningSum(sys, j, c, d))
  {
    hide EquationHolds;
    hide MeanDrive;
    hide IcyDegree;
    hide Dof;
    hide System.Valid;
    EquationMeaning(sys, x, k, c, d);
    if k > 0 {
      ColumnSolution(sys, x, k - 1, c, d);
    }
  }
}
