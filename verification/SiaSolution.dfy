/** The whole shallow-ice system, ice-free columns and unused nodes included: what its solutions are, and one of them. */
module SiaSolution {
  import opened LinearAlgebra
  import opened SiaMesh
  import opened SiaElement
  import opened SiaSystem

  /** Equation r belongs to level k of column c, component d, and some triangle around c holds ice. */
  ghost predicate IcyEquation(sys: System, r: nat, k: nat, c: nat, d: nat)
    requires sys.Valid()
  {
    && k < |sys.mesh.ids| && c < |sys.mesh.ids[0]| && d < 2
    && Dof(sys, k, c, d) == r && IcyDegree(sys.mesh, c, |sys.mesh.tris|) > 0
  }

  ghost predicate Icy(sys: System, r: nat)
    requires sys.Valid()
  {
    exists k, c, d :: IcyEquation(sys, r, k, c, d)
  }

  lemma {:induction false} IcyDegreePositive(mesh: Mesh, t: nat, c: nat, m: nat)
    requires t < m <= |mesh.tris| == |mesh.icy| && c in mesh.tris[t] && mesh.icy[t]
    ensures IcyDegree(mesh, c, m) > 0
  {
    if t < m - 1 {
      IcyDegreePositive(mesh, t, c, m - 1);
    }
  }

  /** Icy prisms only see equations of icy columns. */
  lemma PrismSeesIcy(sys: System, t: nat, l: nat, i: nat)
    requires sys.Valid() && t < |sys.mesh.tris| && l < sys.mesh.Layers() && sys.mesh.icy[t] && i < 12
    ensures Icy(sys, Dofs(sys, t, l)[i])
  {
    var tri, j := sys.mesh.tris[t], i / 2;
    assert ValidTriangle(tri, |sys.mesh.ids[0]|);
    var c, k := tri[if j < 3 then j else j - 3], if j < 3 then l else l + 1;
    VertexOf(sys.mesh, t, l, k, c, j);
    IcyDegreePositive(sys.mesh, t, c, |sys.mesh.tris|);
    assert IcyEquation(sys, Dofs(sys, t, l)[i], k, c, i % 2);
  }

  lemma PrismMissesUntouched(sys: System, t: nat, l: nat, r: nat, x: seq<real>)
    requires sys.Valid() && t < |sys.mesh.tris| && l < sys.mesh.Layers() && sys.mesh.icy[t]
    requires r < sys.Size() && !Icy(sys, r)
    ensures PrismAt(sys, t, l).Valid()
    ensures var y := Gather(Unit(sys.Size(), r), Dofs(sys, t, l));
      && Form(Stiffness(PrismAt(sys, t, l)), y, Gather(x, Dofs(sys, t, l)), 12, 12) == 0.0
      && Dot(Load(PrismAt(sys, t, l), sys.p), y, 12) == 0.0
  {
    hide Form;
    hide Dot;
    hide Stiffness;
    hide Load;
    hide PrismAt;
    hide Icy;
    hide System.Valid;
    hide Dofs;
    PrismValid(sys, t, l);
    var dofs := Dofs(sys, t, l);
    forall i | 0 <= i < 12 ensures At(Gather(Unit(sys.Size(), r), dofs), i) == 0.0 {
      PrismSeesIcy(sys, t, l, i);
    }
    NothingTested(Stiffness(PrismAt(sys, t, l)), Load(PrismAt(sys, t, l), sys.p), Gather(Unit(sys.Size(), r), dofs), Gather(x, dofs));
  }

  /** Equations of ice-free columns and of nodes outside the columns are 0 = 0. */
  lemma {:induction false} UntouchedRow(sys: System, l: nat, t: nat, r: nat, x: seq<real>)
    requires sys.Valid() && l <= sys.mesh.Layers() && t <= |sys.mesh.tris| && (l == sys.mesh.Layers() ==> t == 0)
    requires r < sys.Size() && !Icy(sys, r)
    ensures Shape(AssembledK(sys, l, t), sys.Size(), sys.Size())
    ensures Form(AssembledK(sys, l, t), Unit(sys.Size(), r), x, sys.Size(), sys.Size()) == 0.0
    ensures Dot(AssembledP(sys, l, t), Unit(sys.Size(), r), sys.Size()) == 0.0
    decreases l, t
  {
    hide Form;
    hide Dot;
    hide System.Valid;
    hide Mesh.Valid;
    hide Added;
    hide VectorAdded;
    hide Gather;
    hide Stiffness;
    hide Load;
    hide PrismAt;
    hide Dofs;
    hide Unit;
    hide Icy;
    Sizes(sys);
    var n, y := sys.Size(), Unit(sys.Size(), r);
    if t > 0 {
      UntouchedRow(sys, l, t - 1, r, x);
      if sys.mesh.icy[t - 1] {
        PrismMissesUntouched(sys, t - 1, l, r, x);
        DofsInRange(sys, t - 1, l);
        FormAdded(AssembledK(sys, l, t - 1), Stiffness(PrismAt(sys, t - 1, l)), Dofs(sys, t - 1, l), 12, y, x, n);
        DotVectorAdded(AssembledP(sys, l, t - 1), Load(PrismAt(sys, t - 1, l), sys.p), Dofs(sys, t - 1, l), 12, y);
      }
    } else if l > 0 {
      UntouchedRow(sys, l - 1, |sys.mesh.tris|, r, x);
    } else {
      ZeroForm(n, y, x);
    }
  }

  ghost predicate SolvesSystem(sys: System, x: seq<real>)
    requires sys.Valid()
  {
    Solves(AssembledK(sys, sys.mesh.Layers(), 0), AssembledP(sys, sys.mesh.Layers(), 0), x, sys.Size())
  }

  /** x holds the running sum of the mean drives at one velocity. */
  ghost predicate IsRunningSum(sys: System, x: seq<real>, k: nat, c: nat, d: nat)
    requires sys.Valid() && k < |sys.mesh.ids| && c < |sys.mesh.ids[0]| && d < 2
    requires IcyDegree(sys.mesh, c, |sys.mesh.tris|) > 0
  {
    At(x, Dof(sys, k, c, d)) == RunningSum(sys, k, c, d)
  }

  ghost predicate RunningSums(sys: System, x: seq<real>)
    requires sys.Valid()
  {
    forall r, k, c, d :: IcyEquation(sys, r, k, c, d) ==> IsRunningSum(sys, x, k, c, d)
  }

  lemma SizesAt(sys: System)
    requires sys.Valid()
    ensures |sys.mesh.ids| >= 2 && sys.mesh.Valid()
  {
  }

  lemma UntouchedEquation(sys: System, r: nat, x: seq<real>)
    requires sys.Valid() && r < sys.Size() && !Icy(sys, r)
    ensures Dot(RowAt(AssembledK(sys, sys.mesh.Layers(), 0), r), x, sys.Size()) == At(AssembledP(sys, sys.mesh.Layers(), 0), r)
  {
    hide *;
    SizesAt(sys);
    var k, p, n := AssembledK(sys, sys.mesh.Layers(), 0), AssembledP(sys, sys.mesh.Layers(), 0), sys.Size();
    UntouchedRow(sys, sys.mesh.Layers(), 0, r, x);
    FormUnit(k, r, x, n);
    DotUnit(p, n, r, n);
  }

  lemma DofBelow(sys: System, k: nat, c: nat, d: nat)
    requires sys.Valid() && k < |sys.mesh.ids| && c < |sys.mesh.ids[0]| && d < 2
    ensures Dof(sys, k, c, d) < sys.Size()
  {
  }

  /** The assembled system holds just when every icy column carries the running sums; nothing else is determined. */
  lemma SystemSolvedIff(sys: System, x: seq<real>)
    requires sys.Valid()
    ensures SolvesSystem(sys, x) <==> RunningSums(sys, x)
  {
    hide AssembledK;
    hide AssembledP;
    hide RunningSum;
    hide IcyDegree;
    hide Dof;
    hide System.Valid;
    hide Dot;
    SizesAt(sys);
    if SolvesSystem(sys, x) {
      forall r, k, c, d | IcyEquation(sys, r, k, c, d) ensures IsRunningSum(sys, x, k, c, d) {
        forall j: nat | j <= k ensures EquationHolds(sys, x, j, c, d) {
          DofBelow(sys, j, c, d);
        }
        ColumnSolution(sys, x, k, c, d);
      }
    }
    if RunningSums(sys, x) {
      forall r: nat | r < sys.Size()
        ensures Dot(RowAt(AssembledK(sys, sys.mesh.Layers(), 0), r), x, sys.Size()) == At(AssembledP(sys, sys.mesh.Layers(), 0), r)
      {
        if Icy(sys, r) {
          var k, c, d :| IcyEquation(sys, r, k, c, d);
          forall j: nat | j <= k ensures At(x, Dof(sys, j, c, d)) == RunningSum(sys, j, c, d) {
            assert IcyEquation(sys, Dof(sys, j, c, d), j, c, d);
            assert IsRunningSum(sys, x, j, c, d);
          }
          ColumnSolution(sys, x, k, c, d);
          assert EquationHolds(sys, x, k, c, d);
        } else {
          UntouchedEquation(sys, r, x);
        }
      }
    }
  }

  /** The running sums at icy columns, and no velocity elsewhere. */
  ghost function Velocity(sys: System, r: nat): real
    requires sys.Valid()
  {
    if Icy(sys, r) then
      var k, c, d :| IcyEquation(sys, r, k, c, d);
      RunningSum(sys, k, c, d)
    else 0.0
  }

  ghost function Velocities(sys: System): (x: seq<real>)
    requires sys.Valid()
    ensures |x| == sys.Size()
  {
    seq(sys.Size(), r requires 0 <= r < sys.Size() => Velocity(sys, r))
  }

  lemma OneEquation(sys: System, r: nat, k: nat, c: nat, d: nat, k': nat, c': nat, d': nat)
    requires sys.Valid() && IcyEquation(sys, r, k, c, d) && IcyEquation(sys, r, k', c', d')
    ensures k == k' && c == c' && d == d'
  {
  }

  /** That vector solves the whole system, for every mesh, subset of icy triangles and number of layers. */
  lemma SystemSolution(sys: System)
    requires sys.Valid()
    ensures SolvesSystem(sys, Velocities(sys))
  {
    hide SolvesSystem;
    hide RunningSum;
    hide System.Valid;
    var x := Velocities(sys);
    forall r, k, c, d | IcyEquation(sys, r, k, c, d) ensures IsRunningSum(sys, x, k, c, d) {
      DofBelow(sys, k, c, d);
      assert Icy(sys, r);
      var k', c', d' :| IcyEquation(sys, r, k', c', d') && Velocity(sys, r) == RunningSum(sys, k', c', d');
      OneEquation(sys, r, k, c, d, k', c', d');
    }
    SystemSolvedIff(sys, x);
  }
}
