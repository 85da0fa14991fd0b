/**
  What the shallow-ice velocities do: ice slides and shears straight down a uniform surface slope, and the jump along a
  segment is its shear times its length. Stated about any solution of the assembled system.
 */
module SiaFlow {
  import opened LinearAlgebra
  import opened RealFacts
  import opened SiaMesh
  import opened SiaElement
  import opened SiaSystem
  import opened SiaSolution

  // ---------------------------------------------------------------- drives along a uniform slope

  /** Every point of a segment has the slope (s0, s1). */
  ghost predicate SlopedLine(line: seq<LinePoint>, s0: real, s1: real) {
    forall g :: 0 <= g < |line| ==> line[g].slope == [s0, s1]
  }

  /** Weights and Jacobians are not negative, and the shear opposes the slope. */
  ghost predicate PassiveLine(line: seq<LinePoint>) {
    forall g :: 0 <= g < |line| ==>
      line[g].shear <= 0.0 && line[g].jdet >= 0.0 && line[g].weight >= 0.0 && line[g].thickness >= 0.0
  }

  ghost predicate EvenLine(line: seq<LinePoint>, shear: real, thickness: real) {
    forall g :: 0 <= g < |line| ==> line[g].shear == shear && line[g].thickness == thickness
  }

  /** The length of a segment by its quadrature rule. */
  function Length(line: seq<LinePoint>, n: nat): real
    requires n <= |line|
  {
    if n == 0 then 0.0 else Length(line, n - 1) + line[n - 1].jdet * line[n - 1].weight
  }

  function ShearStrength(line: seq<LinePoint>, n: nat): real
    requires n <= |line|
  {
    if n == 0 then 0.0
    else ShearStrength(line, n - 1) + Times(line[n - 1].shear, line[n - 1].jdet * line[n - 1].weight)
  }

  function SlideStrength(line: seq<LinePoint>, p: Params): real
    requires |line| > 0
  {
    -(1.58 * 0.0000000001) * (p.rhoIce * p.gravity * line[|line| - 1].thickness)
  }

  function Component(s0: real, s1: real, d: nat): real {
    if d == 0 then s0 else s1
  }

  lemma {:induction false} ShearAlong(line: seq<LinePoint>, s0: real, s1: real, d: nat, n: nat)
    requires n <= |line| && d < 2 && (forall g :: 0 <= g < |line| ==> line[g].Valid()) && SlopedLine(line, s0, s1)
    ensures LineShear(line, d, n) == Times(ShearStrength(line, n), Component(s0, s1, d))
  {
    if n > 0 {
      ShearAlong(line, s0, s1, d, n - 1);
      var q := line[n - 1];
      assert q.slope[d] == Component(s0, s1, d);
      PointAlgebra(q.shear, q.slope[d], q.jdet, q.weight, ShearStrength(line, n - 1));
    }
  }

  lemma PointAlgebra(h: real, s: real, j: real, w: real, before: real)
    ensures Times(before, s) + h * s * j * w == Times(before + Times(h, j * w), s)
  {
  }

  lemma SlideAlong(line: seq<LinePoint>, p: Params, s0: real, s1: real, d: nat)
    requires |line| > 0 && d < 2 && (forall g :: 0 <= g < |line| ==> line[g].Valid()) && SlopedLine(line, s0, s1)
    ensures BasalVelocity(line, p, d) == Times(SlideStrength(line, p), Component(s0, s1, d))
  {
    var q := line[|line| - 1];
    assert q.slope[d] == Component(s0, s1, d);
    SlideAlgebra(p.rhoIce, p.gravity, q.thickness, q.slope[d]);
  }

  lemma SlideAlgebra(r: real, g: real, h: real, s: real)
    ensures -SLIDING * r * g * h * s == Times(-(1.58 * 0.0000000001) * (r * g * h), s)
  {
  }

  lemma {:induction false} ShearNonpositive(line: seq<LinePoint>, n: nat)
    requires n <= |line| && PassiveLine(line)
    ensures ShearStrength(line, n) <= 0.0
  {
    if n > 0 {
      ShearNonpositive(line, n - 1);
      var q := line[n - 1];
      ProductNonnegative(q.jdet, q.weight);
      ProductNonnegative(-q.shear, q.jdet * q.weight);
    }
  }

  lemma SlideNonpositive(line: seq<LinePoint>, p: Params)
    requires |line| > 0 && PassiveLine(line) && p.rhoIce >= 0.0 && p.gravity >= 0.0
    ensures SlideStrength(line, p) <= 0.0
  {
    var q := line[|line| - 1];
    ProductNonnegative(p.rhoIce, p.gravity);
    ProductNonnegative(p.rhoIce * p.gravity, q.thickness);
  }

  lemma {:induction false} EvenStrength(line: seq<LinePoint>, shear: real, thickness: real, n: nat)
    requires n <= |line| && EvenLine(line, shear, thickness)
    ensures ShearStrength(line, n) == Times(shear, Length(line, n))
  {
    if n > 0 {
      EvenStrength(line, shear, thickness, n - 1);
      TimesSum(shear, Length(line, n - 1), line[n - 1].jdet * line[n - 1].weight);
    }
  }

  // ---------------------------------------------------------------- the mean drives

  function Strength(sys: System, t: nat, k: nat, c: nat): real
    requires sys.Valid() && t < |sys.mesh.tris| && |sys.mesh.tris[t]| == 3 && c in sys.mesh.tris[t] && k < |sys.mesh.ids|
  {
    var line := DrivingLine(sys, t, k, c);
    if k == 0 then SlideStrength(line, sys.p) else ShearStrength(line, |line|)
  }

  /** The drives of all icy segments of column c up to level k are known to be along (s0, s1). */
  ghost predicate SlopedAt(sys: System, k: nat, c: nat, s0: real, s1: real)
    requires sys.Valid() && k < |sys.mesh.ids|
  {
    forall t: nat :: t < |sys.mesh.tris| && |sys.mesh.tris[t]| == 3 && sys.mesh.icy[t] && c in sys.mesh.tris[t] ==>
      SlopedLine(DrivingLine(sys, t, k, c), s0, s1)
  }

  ghost predicate SlopedBelow(sys: System, k: nat, c: nat, s0: real, s1: real)
    requires sys.Valid() && k < |sys.mesh.ids|
  {
    forall j: nat :: j <= k ==> SlopedAt(sys, j, c, s0, s1)
  }

  ghost predicate PassiveAt(sys: System, k: nat, c: nat)
    requires sys.Valid() && k < |sys.mesh.ids|
  {
    forall t: nat :: t < |sys.mesh.tris| && |sys.mesh.tris[t]| == 3 && sys.mesh.icy[t] && c in sys.mesh.tris[t] ==>
      PassiveLine(DrivingLine(sys, t, k, c))
  }

  ghost predicate PassiveBelow(sys: System, k: nat, c: nat)
    requires sys.Valid() && k < |sys.mesh.ids|
  {
    sys.p.rhoIce >= 0.0 && sys.p.gravity >= 0.0 && forall j: nat :: j <= k ==> PassiveAt(sys, j, c)
  }

  lemma DriveAlong(sys: System, t: nat, k: nat, c: nat, d: nat, s0: real, s1: real)
    requires sys.Valid() && t < |sys.mesh.tris| && |sys.mesh.tris[t]| == 3 && c in sys.mesh.tris[t] && k < |sys.mesh.ids| && d < 2
    requires SlopedLine(DrivingLine(sys, t, k, c), s0, s1)
    ensures Drive(sys, t, k, c, d) == Times(Strength(sys, t, k, c), Component(s0, s1, d))
  {
    hide LineShear;
    hide BasalVelocity;
    hide SlideStrength;
    hide ShearStrength;
    hide Times;
    hide Component;
    hide SlopedLine;
    var line := DrivingLine(sys, t, k, c);
    if k == 0 {
      SlideAlong(line, sys.p, s0, s1, d);
    } else {
      ShearAlong(line, s0, s1, d, |line|);
    }
  }

  function StrengthSum(sys: System, k: nat, c: nat, m: nat): real
    requires sys.Valid() && k < |sys.mesh.ids| && m <= |sys.mesh.tris|
  {
    if m == 0 then 0.0
    else
      assert ValidTriangle(sys.mesh.tris[m - 1], |sys.mesh.ids[0]|);
      StrengthSum(sys, k, c, m - 1)
      + if sys.mesh.icy[m - 1] && c in sys.mesh.tris[m - 1] then Strength(sys, m - 1, k, c) else 0.0
  }

  lemma {:induction false} DriveSumAlong(sys: System, k: nat, c: nat, d: nat, s0: real, s1: real, m: nat)
    requires sys.Valid() && k < |sys.mesh.ids| && d < 2 && m <= |sys.mesh.tris| && SlopedAt(sys, k, c, s0, s1)
    ensures DriveSum(sys, k, c, d, m) == Times(StrengthSum(sys, k, c, m), Component(s0, s1, d))
  {
    hide Drive;
    hide Strength;
    hide SlopedLine;
    hide DrivingLine;
    if m > 0 {
      assert ValidTriangle(sys.mesh.tris[m - 1], |sys.mesh.ids[0]|);
      DriveSumAlong(sys, k, c, d, s0, s1, m - 1);
      if sys.mesh.icy[m - 1] && c in sys.mesh.tris[m - 1] {
        DriveAlong(sys, m - 1, k, c, d, s0, s1);
        SumTimes(StrengthSum(sys, k, c, m - 1), Strength(sys, m - 1, k, c), Component(s0, s1, d));
      }
    }
  }

  lemma SumTimes(a: real, b: real, s: real)
    ensures Times(a + b, s) == Times(a, s) + Times(b, s)
    ensures Times(a + 0.0, s) == Times(a, s)
  {
  }

  lemma {:induction false} StrengthSumNonpositive(sys: System, k: nat, c: nat, m: nat)
    requires sys.Valid() && k < |sys.mesh.ids| && m <= |sys.mesh.tris|
    requires PassiveAt(sys, k, c) && sys.p.rhoIce >= 0.0 && sys.p.gravity >= 0.0
    ensures StrengthSum(sys, k, c, m) <= 0.0
  {
    hide SlideStrength;
    hide ShearStrength;
    hide PassiveLine;
    hide DrivingLine;
    if m > 0 {
      assert ValidTriangle(sys.mesh.tris[m - 1], |sys.mesh.ids[0]|);
      StrengthSumNonpositive(sys, k, c, m - 1);
      if sys.mesh.icy[m - 1] && c in sys.mesh.tris[m - 1] {
        var line := DrivingLine(sys, m - 1, k, c);
        SlideNonpositive(line, sys.p);
        ShearNonpositive(line, |line|);
      }
    }
  }

  function MeanStrength(sys: System, k: nat, c: nat): real
    requires sys.Valid() && k < |sys.mesh.ids| && IcyDegree(sys.mesh, c, |sys.mesh.tris|) > 0
  {
    StrengthSum(sys, k, c, |sys.mesh.tris|) / IcyDegree(sys.mesh, c, |sys.mesh.tris|) as real
  }

  function RunningStrength(sys: System, k: nat, c: nat): real
    requires sys.Valid() && k < |sys.mesh.ids| && IcyDegree(sys.mesh, c, |sys.mesh.tris|) > 0
  {
    if k == 0 then MeanStrength(sys, 0, c) else RunningStrength(sys, k - 1, c) + MeanStrength(sys, k, c)
  }

  lemma MeanAlong(sys: System, k: nat, c: nat, d: nat, s0: real, s1: real)
    requires sys.Valid() && k < |sys.mesh.ids| && d < 2 && IcyDegree(sys.mesh, c, |sys.mesh.tris|) > 0
    requires SlopedAt(sys, k, c, s0, s1)
    ensures MeanDrive(sys, k, c, d) == Times(MeanStrength(sys, k, c), Component(s0, s1, d))
  {
    hide DriveSum;
    hide StrengthSum;
    hide IcyDegree;
    hide SlopedAt;
    hide System.Valid;
    DriveSumAlong(sys, k, c, d, s0, s1, |sys.mesh.tris|);
    Sizes(sys);
    QuotientTimes(StrengthSum(sys, k, c, |sys.mesh.tris|), Component(s0, s1, d), IcyDegree(sys.mesh, c, |sys.mesh.tris|) as real);
  }

  lemma QuotientTimes(a: real, s: real, n: real)
    requires n > 0.0
    ensures Times(a, s) / n == Times(a / n, s)
    ensures a <= 0.0 ==> a / n <= 0.0
  {
  }

  lemma MeanNonpositive(sys: System, k: nat, c: nat)
    requires sys.Valid() && k < |sys.mesh.ids| && IcyDegree(sys.mesh, c, |sys.mesh.tris|) > 0
    requires PassiveAt(sys, k, c) && sys.p.rhoIce >= 0.0 && sys.p.gravity >= 0.0
    ensures MeanStrength(sys, k, c) <= 0.0
  {
    hide StrengthSum;
    hide IcyDegree;
    hide PassiveAt;
    hide System.Valid;
    StrengthSumNonpositive(sys, k, c, |sys.mesh.tris|);
    Sizes(sys);
    QuotientTimes(StrengthSum(sys, k, c, |sys.mesh.tris|), 0.0, IcyDegree(sys.mesh, c, |sys.mesh.tris|) as real);
  }

  lemma {:induction false} RunningAlong(sys: System, k: nat, c: nat, d: nat, s0: real, s1: real)
    requires sys.Valid() && k < |sys.mesh.ids| && d < 2 && IcyDegree(sys.mesh, c, |sys.mesh.tris|) > 0
    requires SlopedBelow(sys, k, c, s0, s1)
    ensures RunningSum(sys, k, c, d) == Times(RunningStrength(sys, k, c), Component(s0, s1, d))
  {
    hide MeanDrive;
    hide MeanStrength;
    hide SlopedAt;
    hide IcyDegree;
    hide System.Valid;
    hide Times;
    MeanAlong(sys, k, c, d, s0, s1);
    if k > 0 {
      RunningAlong(sys, k - 1, c, d, s0, s1);
      SumTimes(RunningStrength(sys, k - 1, c), MeanStrength(sys, k, c), Component(s0, s1, d));
    }
  }

  lemma {:induction false} RunningNonpositive(sys: System, k: nat, c: nat)
    requires sys.Valid() && k < |sys.mesh.ids| && IcyDegree(sys.mesh, c, |sys.mesh.tris|) > 0
    requires PassiveBelow(sys, k, c)
    ensures RunningStrength(sys, k, c) <= 0.0
  {
    hide MeanStrength;
    hide PassiveAt;
    hide IcyDegree;
    hide System.Valid;
    MeanNonpositive(sys, k, c);
    if k > 0 {
      RunningNonpositive(sys, k - 1, c);
    }
  }

  // ---------------------------------------------------------------- the velocities of any solution

  /** The velocity of level k of column c. */
  function VelocityAt(sys: System, x: seq<real>, k: nat, c: nat, d: nat): real
    requires sys.Valid() && k < |sys.mesh.ids| && c < |sys.mesh.ids[0]| && d < 2
  {
    At(x, Dof(sys, k, c, d))
  }

  lemma SolvedVelocity(sys: System, x: seq<real>, k: nat, c: nat, d: nat)
    requires sys.Valid() && SolvesSystem(sys, x) && k < |sys.mesh.ids| && c < |sys.mesh.ids[0]| && d < 2
    requires IcyDegree(sys.mesh, c, |sys.mesh.tris|) > 0
    ensures VelocityAt(sys, x, k, c, d) == RunningSum(sys, k, c, d)
  {
    hide SolvesSystem;
    hide RunningSum;
    hide IcyDegree;
    hide System.Valid;
    hide Dof;
    SystemSolvedIff(sys, x);
    assert IcyEquation(sys, Dof(sys, k, c, d), k, c, d);
    assert IsRunningSum(sys, x, k, c, d);
  }

  /** Over a uniform surface slope ice moves along the slope, and down it. */
  lemma FlowsDownSlope(sys: System, x: seq<real>, k: nat, c: nat, s0: real, s1: real)
    requires sys.Valid() && SolvesSystem(sys, x) && k < |sys.mesh.ids| && c < |sys.mesh.ids[0]|
    requires IcyDegree(sys.mesh, c, |sys.mesh.tris|) > 0 && SlopedBelow(sys, k, c, s0, s1)
    ensures VelocityAt(sys, x, k, c, 0) * s1 == VelocityAt(sys, x, k, c, 1) * s0
    ensures PassiveBelow(sys, k, c) ==> VelocityAt(sys, x, k, c, 0) * s0 + VelocityAt(sys, x, k, c, 1) * s1 <= 0.0
  {
    hide SolvesSystem;
    hide RunningSum;
    hide RunningStrength;
    hide IcyDegree;
    hide System.Valid;
    hide SlopedBelow;
    hide PassiveBelow;
    hide VelocityAt;
    SolvedVelocity(sys, x, k, c, 0);
    SolvedVelocity(sys, x, k, c, 1);
    RunningAlong(sys, k, c, 0, s0, s1);
    RunningAlong(sys, k, c, 1, s0, s1);
    if PassiveBelow(sys, k, c) {
      RunningNonpositive(sys, k, c);
    }
    AlongAlgebra(RunningStrength(sys, k, c), s0, s1);
  }

  lemma AlongAlgebra(r: real, s0: real, s1: real)
    ensures Times(r, s0) * s1 == Times(r, s1) * s0
    ensures r <= 0.0 ==> Times(r, s0) * s0 + Times(r, s1) * s1 <= 0.0
  {
    SquareNonnegative(s0);
    SquareNonnegative(s1);
    if r <= 0.0 {
      ProductNonnegative(-r, s0 * s0);
      ProductNonnegative(-r, s1 * s1);
    }
  }

  /** All icy segments that drive level k of column c have one shear, thickness, slope and length. */
  ghost predicate EvenAt(sys: System, k: nat, c: nat, shear: real, thickness: real, length: real)
    requires sys.Valid() && k < |sys.mesh.ids|
  {
    forall t: nat :: t < |sys.mesh.tris| && |sys.mesh.tris[t]| == 3 && sys.mesh.icy[t] && c in sys.mesh.tris[t] ==>
      var line := DrivingLine(sys, t, k, c); EvenLine(line, shear, thickness) && Length(line, |line|) == length
  }

  function EvenStrengthAt(p: Params, k: nat, shear: real, thickness: real, length: real): real {
    if k == 0 then -(1.58 * 0.0000000001) * (p.rhoIce * p.gravity * thickness) else Times(shear, length)
  }

  lemma {:induction false} EvenSum(sys: System, k: nat, c: nat, shear: real, thickness: real, length: real, m: nat)
    requires sys.Valid() && k < |sys.mesh.ids| && m <= |sys.mesh.tris| && EvenAt(sys, k, c, shear, thickness, length)
    ensures StrengthSum(sys, k, c, m)
         == Times(IcyDegree(sys.mesh, c, m) as real, EvenStrengthAt(sys.p, k, shear, thickness, length))
  {
    hide ShearStrength;
    hide Length;
    hide Times;
    hide DrivingLine;
    var e := EvenStrengthAt(sys.p, k, shear, thickness, length);
    TimesNext(0, e);
    if m > 0 {
      assert ValidTriangle(sys.mesh.tris[m - 1], |sys.mesh.ids[0]|);
      EvenSum(sys, k, c, shear, thickness, length, m - 1);
      if sys.mesh.icy[m - 1] && c in sys.mesh.tris[m - 1] {
        var line := DrivingLine(sys, m - 1, k, c);
        EvenStrength(line, shear, thickness, |line|);
        TimesNext(IcyDegree(sys.mesh, c, m - 1), e);
      }
    }
  }

  lemma MeanOfSame(n: nat, e: real)
    requires n > 0
    ensures Times(n as real, e) / n as real == e
  {
  }

  /**
    Even segments: the velocity jumps by shear times slope times length along a segment, and the base slides at
    1.58e-10 rho g H against the slope.
   */
  lemma EvenJump(sys: System, x: seq<real>, k: nat, c: nat, d: nat, s0: real, s1: real, shear: real, thickness: real, length: real)
    requires sys.Valid() && SolvesSystem(sys, x) && k < |sys.mesh.ids| && c < |sys.mesh.ids[0]| && d < 2
    requires IcyDegree(sys.mesh, c, |sys.mesh.tris|) > 0
    requires SlopedAt(sys, k, c, s0, s1) && EvenAt(sys, k, c, shear, thickness, length)
    ensures var slope := if d == 0 then s0 else s1;
      VelocityAt(sys, x, k, c, d)
      == if k == 0 then -(1.58 * 0.0000000001) * (sys.p.rhoIce * sys.p.gravity * thickness) * slope
         else VelocityAt(sys, x, k - 1, c, d) + shear * length * slope
  {
    hide SolvesSystem;
    hide IcyDegree;
    hide System.Valid;
    hide SlopedAt;
    hide EvenAt;
    hide MeanDrive;
    hide StrengthSum;
    hide VelocityAt;
    hide EvenStrengthAt;
    hide Times;
    SolvedVelocity(sys, x, k, c, d);
    if k > 0 {
      SolvedVelocity(sys, x, k - 1, c, d);
    }
    MeanAlong(sys, k, c, d, s0, s1);
    EvenSum(sys, k, c, shear, thickness, length, |sys.mesh.tris|);
    Sizes(sys);
    MeanOfSame(IcyDegree(sys.mesh, c, |sys.mesh.tris|), EvenStrengthAt(sys.p, k, shear, thickness, length));
    EvenAlgebra(sys.p, k, d, shear, thickness, length, s0, s1);
  }

  lemma EvenAlgebra(p: Params, k: nat, d: nat, shear: real, thickness: real, length: real, s0: real, s1: real)
    ensures var slope := if d == 0 then s0 else s1;
      Times(EvenStrengthAt(p, k, shear, thickness, length), Component(s0, s1, d))
      == if k == 0 then -(1.58 * 0.0000000001) * (p.rhoIce * p.gravity * thickness) * slope else shear * length * slope
  {
  }
}
