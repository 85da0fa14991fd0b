/**
  Assembly of element systems over a mesh, and the two ways of reading the result: a solution satisfies the sum of
  the element forms for every test field, and a field that satisfies it for every test field is a solution.
 */
module Assembly {
  import opened LinearAlgebra

  /** What one element adds: its matrix and load, on its nodes. */
  datatype Contribution = Contribution(nodes: seq<nat>, k: Matrix, p: seq<real>)

  ghost predicate Fits(cs: seq<Contribution>, n: nat) {
    forall i :: 0 <= i < |cs| ==> DofsWithin(cs[i].nodes, n)
  }

  function Stiffness(cs: seq<Contribution>, n: nat, m: nat): Matrix
    requires Fits(cs, n) && m <= |cs|
  {
    if m == 0 then ZeroMatrix(n)
    else Added(Stiffness(cs, n, m - 1), cs[m - 1].k, cs[m - 1].nodes, |cs[m - 1].nodes|)
  }

  function Load(cs: seq<Contribution>, n: nat, m: nat): (s: seq<real>)
    requires Fits(cs, n) && m <= |cs|
    ensures |s| == n
  {
    if m == 0 then Constant(n, 0.0)
    else VectorAdded(Load(cs, n, m - 1), cs[m - 1].p, cs[m - 1].nodes, |cs[m - 1].nodes|)
  }

  /** An element's form and work on the part of the global fields it sees. */
  function LocalForm(c: Contribution, y: seq<real>, x: seq<real>): real {
    Form(c.k, Gather(y, c.nodes), Gather(x, c.nodes), |c.nodes|, |c.nodes|)
  }

  function LocalWork(c: Contribution, y: seq<real>): real {
    Dot(c.p, Gather(y, c.nodes), |c.nodes|)
  }

  function FormSum(cs: seq<Contribution>, y: seq<real>, x: seq<real>, m: nat): real
    requires m <= |cs|
  {
    if m == 0 then 0.0 else FormSum(cs, y, x, m - 1) + LocalForm(cs[m - 1], y, x)
  }

  function WorkSum(cs: seq<Contribution>, y: seq<real>, m: nat): real
    requires m <= |cs|
  {
    if m == 0 then 0.0 else WorkSum(cs, y, m - 1) + LocalWork(cs[m - 1], y)
  }

  lemma {:induction false} StiffnessForm(cs: seq<Contribution>, n: nat, y: seq<real>, x: seq<real>, m: nat)
    requires Fits(cs, n) && m <= |cs|
    ensures Shape(Stiffness(cs, n, m), n, n)
    ensures Form(Stiffness(cs, n, m), y, x, n, n) == FormSum(cs, y, x, m)
  {
    hide Form;
    hide Gather;
    hide Added;
    if m == 0 {
      ZeroForm(n, y, x);
    } else {
      StiffnessForm(cs, n, y, x, m - 1);
      FormAdded(Stiffness(cs, n, m - 1), cs[m - 1].k, cs[m - 1].nodes, |cs[m - 1].nodes|, y, x, n);
    }
  }

  lemma {:induction false} LoadWork(cs: seq<Contribution>, n: nat, y: seq<real>, m: nat)
    requires Fits(cs, n) && m <= |cs|
    ensures Dot(Load(cs, n, m), y, n) == WorkSum(cs, y, m)
  {
    hide Dot;
    hide Gather;
    hide VectorAdded;
    if m == 0 {
      ZeroForm(n, y, y);
    } else {
      LoadWork(cs, n, y, m - 1);
      DotVectorAdded(Load(cs, n, m - 1), cs[m - 1].p, cs[m - 1].nodes, |cs[m - 1].nodes|, y);
    }
  }

  ghost predicate Solution(cs: seq<Contribution>, n: nat, x: seq<real>)
    requires Fits(cs, n)
  {
    Solves(Stiffness(cs, n, |cs|), Load(cs, n, |cs|), x, n)
  }

  /** The weak form of the assembled system, for one test field. */
  lemma SolutionTested(cs: seq<Contribution>, n: nat, x: seq<real>, y: seq<real>)
    requires Fits(cs, n) && Solution(cs, n, x)
    ensures FormSum(cs, y, x, |cs|) == WorkSum(cs, y, |cs|)
  {
    hide Form;
    hide Dot;
    hide Stiffness;
    hide Load;
    hide Solves;
    SolvesTested(Stiffness(cs, n, |cs|), Load(cs, n, |cs|), x, y, n);
    StiffnessForm(cs, n, y, x, |cs|);
    LoadWork(cs, n, y, |cs|);
  }

  /** The weak form for the unit test fields is the assembled system. */
  lemma TestedSolution(cs: seq<Contribution>, n: nat, x: seq<real>)
    requires Fits(cs, n)
    requires forall r: nat :: r < n ==> FormSum(cs, Unit(n, r), x, |cs|) == WorkSum(cs, Unit(n, r), |cs|)
    ensures Solution(cs, n, x)
  {
    var k, f := Stiffness(cs, n, |cs|), Load(cs, n, |cs|);
    forall r: nat | r < n ensures Dot(RowAt(k, r), x, n) == At(f, r) {
      TestedRow(cs, n, x, r);
    }
  }

  lemma TestedRow(cs: seq<Contribution>, n: nat, x: seq<real>, r: nat)
    requires Fits(cs, n) && r < n
    requires FormSum(cs, Unit(n, r), x, |cs|) == WorkSum(cs, Unit(n, r), |cs|)
    ensures Dot(RowAt(Stiffness(cs, n, |cs|), r), x, n) == At(Load(cs, n, |cs|), r)
  {
    hide *;
    FormUnit(Stiffness(cs, n, |cs|), r, x, n);
    DotUnit(Load(cs, n, |cs|), n, r, n);
    StiffnessForm(cs, n, Unit(n, r), x, |cs|);
    LoadWork(cs, n, Unit(n, r), |cs|);
  }
}
