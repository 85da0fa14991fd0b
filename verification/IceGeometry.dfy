/**
  The geometry update that follows the thickness solution: thickness is kept above a minimum, grounded ice keeps its
  base, floating ice is put into hydrostatic balance, absolutely or by increments.
 */
module IceGeometry {
  import opened LinearAlgebra

  datatype Adjustment = Absolute | Incremental | Unsupported

  datatype Params = Params(minThickness: real, rhoIce: real, rhoWater: real) {
    ghost predicate Valid() {
      rhoWater > 0.0
    }

    function Ratio(): real
      requires Valid()
    {
      rhoIce / rhoWater
    }
  }

  datatype Node = Node(thickness: real, base: real, surface: real)

  /** What a step gives a node: ice is grounded where phi > 0. */
  datatype Step = Step(solved: real, phi: real, seaLevel: real, adjustment: Adjustment) {
    predicate Grounded() {
      phi > 0.0
    }

    predicate Supported() {
      phi > 0.0 || adjustment != Unsupported
    }

    predicate ByIncrement() {
      phi <= 0.0 && adjustment == Incremental
    }
  }

  function Clamped(p: Params, h: real): real {
    if h < p.minThickness then p.minThickness else h
  }

  function NewBase(p: Params, n: Node, s: Step): real
    requires p.Valid() && s.Supported()
  {
    var h := Clamped(p, s.solved);
    if s.Grounded() then n.base
    else if s.adjustment == Absolute then Times(h, -p.Ratio()) + s.seaLevel
    else n.base - Times(p.Ratio(), h - n.thickness) + s.seaLevel
  }

  function NewSurface(p: Params, n: Node, s: Step): real
    requires p.Valid() && s.Supported()
  {
    var h := Clamped(p, s.solved);
    if s.Grounded() then n.base + h
    else if s.adjustment == Absolute then Times(h, 1.0 - p.Ratio()) + s.seaLevel
    else n.surface + Times(1.0 - p.Ratio(), h - n.thickness) + s.seaLevel
  }

  function Next(p: Params, n: Node, s: Step): Node
    requires p.Valid() && s.Supported()
  {
    Node(Clamped(p, s.solved), NewBase(p, n, s), NewSurface(p, n, s))
  }

  function Nodes(thickness: seq<real>, base: seq<real>, surface: seq<real>): (ns: seq<Node>)
    requires |thickness| == |base| == |surface|
    ensures |ns| == |thickness|
    ensures forall i :: 0 <= i < |ns| ==> ns[i] == Node(thickness[i], base[i], surface[i])
  {
    seq(|thickness|, i requires 0 <= i < |thickness| => Node(thickness[i], base[i], surface[i]))
  }

  function StepAt(solution: seq<real>, dofs: seq<nat>, phi: seq<real>, seaLevel: seq<real>, adjustment: Adjustment, i: nat): Step
    requires i < |dofs| == |phi| == |seaLevel| && DofsWithin(dofs, |solution|)
  {
    Step(solution[dofs[i]], phi[i], seaLevel[i], adjustment)
  }

  /** The solved thickness kept above the minimum, and its change. */
  method NewThickness(p: Params, solution: seq<real>, dofs: seq<nat>, oldThickness: seq<real>)
    returns (thickness: seq<real>, delta: seq<real>)
    requires |dofs| == |oldThickness| && DofsWithin(dofs, |solution|)
    ensures |thickness| == |delta| == |dofs|
    ensures forall i :: 0 <= i < |dofs| ==> thickness[i] == Clamped(p, solution[dofs[i]])
    ensures forall i :: 0 <= i < |dofs| ==> delta[i] == thickness[i] - oldThickness[i]
  {
    var n := |dofs|;
    var h, d := new real[n], new real[n];
    for i := 0 to n
      invariant forall k :: 0 <= k < i ==> h[k] == Clamped(p, solution[dofs[k]])
    {
      h[i] := solution[dofs[i]];
      if h[i] < p.minThickness {
        h[i] := p.minThickness;
      }
    }
    for i := 0 to n
      invariant forall k :: 0 <= k < n ==> h[k] == Clamped(p, solution[dofs[k]])
      invariant forall k :: 0 <= k < i ==> d[k] == h[k] - oldThickness[k]
    {
      d[i] := h[i] - oldThickness[i];
    }
    thickness, delta := h[..], d[..];
  }

  /** Where a node's base and surface come to rest. */
  method Settle(p: Params, n: Node, s: Step, newThickness: real) returns (newBase: real, newSurface: real)
    requires p.Valid() && s.Supported() && newThickness == Clamped(p, s.solved)
    ensures Node(newThickness, newBase, newSurface) == Next(p, n, s)
  {
    var r := p.rhoIce / p.rhoWater;
    assert r == p.Ratio();
    if s.phi > 0.0 {
      newSurface := n.base + newThickness;
      newBase := n.base;
    } else if s.adjustment == Absolute {
      newSurface := newThickness * (1.0 - r) + s.seaLevel;
      newBase := newThickness * -r + s.seaLevel;
    } else {
      var dh := newThickness - n.thickness;
      newSurface := n.surface + (1.0 - r) * dh + s.seaLevel;
      newBase := n.base - r * dh + s.seaLevel;
    }
  }

  method NewGeometry(p: Params, solution: seq<real>, dofs: seq<nat>, phi: seq<real>, seaLevel: seq<real>, adjustment: Adjustment,
                     oldThickness: seq<real>, oldBase: seq<real>, oldSurface: seq<real>, thickness: seq<real>)
    returns (ok: bool, base: seq<real>, surface: seq<real>)
    requires p.Valid() && DofsWithin(dofs, |solution|)
    requires |dofs| == |phi| == |seaLevel| == |oldThickness| == |oldBase| == |oldSurface| == |thickness|
    requires forall i :: 0 <= i < |dofs| ==> thickness[i] == Clamped(p, solution[dofs[i]])
    ensures ok <==> forall i :: 0 <= i < |phi| ==> StepAt(solution, dofs, phi, seaLevel, adjustment, i).Supported()
    ensures ok ==> |base| == |surface| == |dofs|
    ensures ok ==> forall i :: 0 <= i < |dofs| ==>
      Nodes(thickness, base, surface)[i]
      == Next(p, Nodes(oldThickness, oldBase, oldSurface)[i], StepAt(solution, dofs, phi, seaLevel, adjustment, i))
  {
    hide Next;
    var n := |dofs|;
    ghost var nodes := Nodes(oldThickness, oldBase, oldSurface);
    base, surface := [], [];
    for i := 0 to n
      invariant |base| == |surface| == i
      invariant forall k :: 0 <= k < i ==> StepAt(solution, dofs, phi, seaLevel, adjustment, k).Supported()
      invariant forall k :: 0 <= k < i ==>
        Node(thickness[k], base[k], surface[k]) == Next(p, nodes[k], StepAt(solution, dofs, phi, seaLevel, adjustment, k))
    {
      var s := StepAt(solution, dofs, phi, seaLevel, adjustment, i);
      if s.phi <= 0.0 && adjustment == Unsupported {
        assert !StepAt(solution, dofs, phi, seaLevel, adjustment, i).Supported();
        return false, base, surface;
      }
      var b, z := Settle(p, Node(oldThickness[i], oldBase[i], oldSurface[i]), s, thickness[i]);
      base, surface := base + [b], surface + [z];
    }
    ok := true;
  }

  /** An element's geometry at its nodes, and the thickness change it publishes to the sea-level core. */
  class Geometry {
    var thickness: seq<real>
    var base: seq<real>
    var surface: seq<real>
    var deltaThickness: seq<real>

    ghost predicate Valid()
      reads this
    {
      |thickness| == |base| == |surface| == |deltaThickness|
    }

    ghost function At(i: nat): Node
      requires Valid() && i < |thickness|
      reads this
    {
      Node(thickness[i], base[i], surface[i])
    }

    constructor (thickness: seq<real>, base: seq<real>, surface: seq<real>)
      requires |thickness| == |base| == |surface|
      ensures Valid() && this.thickness == thickness && this.base == base && this.surface == surface
    {
      this.thickness, this.base, this.surface := thickness, base, surface;
      deltaThickness := Constant(|thickness|, 0.0);
    }

    /** Fails, and changes nothing, when a floating node's adjustment is unknown. */
    method InputUpdateFromSolution(p: Params, solution: seq<real>, dofs: seq<nat>, phi: seq<real>, seaLevel: seq<real>,
                                   adjustment: Adjustment)
      returns (ok: bool)
      requires Valid() && p.Valid()
      requires |dofs| == |phi| == |seaLevel| == |thickness| && DofsWithin(dofs, |solution|)
      modifies this
      ensures Valid() && |thickness| == old(|thickness|)
      ensures ok <==> forall i :: 0 <= i < |phi| ==> StepAt(solution, dofs, phi, seaLevel, adjustment, i).Supported()
      ensures ok ==> forall i :: 0 <= i < |phi| ==>
        At(i) == Next(p, old(At(i)), StepAt(solution, dofs, phi, seaLevel, adjustment, i))
      ensures ok ==> forall i :: 0 <= i < |phi| ==> deltaThickness[i] == thickness[i] - old(thickness[i])
      ensures !ok ==> unchanged(this)
    {
      hide Next;
      ghost var nodes := Nodes(thickness, base, surface);
      assert forall i :: 0 <= i < |phi| ==> nodes[i] == old(At(i));
      var newThickness, delta := NewThickness(p, solution, dofs, thickness);
      var newBase, newSurface;
      ok, newBase, newSurface := NewGeometry(p, solution, dofs, phi, seaLevel, adjustment, thickness, base, surface, newThickness);
      if ok {
        thickness, deltaThickness, surface, base := newThickness, delta, newSurface, newBase;
        assert forall i :: 0 <= i < |phi| ==> At(i) == Nodes(newThickness, newBase, newSurface)[i];
      }
    }
  }

  // ---------------------------------------------------------------- runs of one node

  ghost predicate Runnable(run: seq<Step>) {
    forall i :: 0 <= i < |run| ==> run[i].Supported()
  }

  function After(p: Params, n: Node, run: seq<Step>): Node
    requires p.Valid() && Runnable(run)
  {
    if run == [] then n else Next(p, After(p, n, run[..|run| - 1]), run[|run| - 1])
  }

  /** The sum of the thickness changes that a run publishes. */
  function Published(p: Params, n: Node, run: seq<Step>): real
    requires p.Valid() && Runnable(run)
  {
    if run == [] then 0.0
    else
      var before := run[..|run| - 1];
      Published(p, n, before) + (After(p, n, run).thickness - After(p, n, before).thickness)
  }

  ghost predicate AllByIncrement(run: seq<Step>) {
    forall i :: 0 <= i < |run| ==> run[i].ByIncrement()
  }

  /** Surface minus base minus thickness. */
  function Gap(n: Node): real {
    n.surface - n.base - n.thickness
  }

  lemma StepGap(p: Params, n: Node, s: Step)
    requires p.Valid() && s.Supported()
    ensures Gap(Next(p, n, s)) == if s.ByIncrement() then Gap(n) else 0.0
    ensures Next(p, n, s).thickness >= p.minThickness
    ensures s.solved >= p.minThickness ==> Next(p, n, s).thickness == s.solved
  {
  }

  /**
    After any run of steps, surface - base = thickness: exactly when it held at the start or some step was not
    incremental. Thickness is at least the minimum, and the published changes telescope.
   */
  lemma {:induction false} RunKeepsGeometry(p: Params, n: Node, run: seq<Step>)
    requires p.Valid() && Runnable(run)
    ensures Gap(After(p, n, run)) == 0.0 <==> Gap(n) == 0.0 || !AllByIncrement(run)
    ensures run != [] ==> After(p, n, run).thickness >= p.minThickness
    ensures Published(p, n, run) == After(p, n, run).thickness - n.thickness
  {
    if run != [] {
      var before, s := run[..|run| - 1], run[|run| - 1];
      RunKeepsGeometry(p, n, before);
      StepGap(p, After(p, n, before), s);
      if AllByIncrement(before) && s.ByIncrement() {
        assert forall i :: 0 <= i < |run| ==> run[i] == if i < |before| then before[i] else s;
      } else if !s.ByIncrement() {
        assert !run[|run| - 1].ByIncrement();
      } else {
        var i :| 0 <= i < |before| && !before[i].ByIncrement();
        assert !run[i].ByIncrement();
      }
    }
  }

  /** Of the solved thickness and the minimum, the larger. */
  lemma ThicknessIsLarger(p: Params, n: Node, s: Step)
    requires p.Valid() && s.Supported()
    ensures var h := Next(p, n, s).thickness;
      h >= s.solved && h >= p.minThickness && (h == s.solved || h == p.minThickness)
  {
  }

  /** However long grounded ice is updated, its base stays where it was and its surface follows the last thickness. */
  lemma {:induction false} GroundedRests(p: Params, n: Node, run: seq<Step>)
    requires p.Valid() && run != [] && forall i :: 0 <= i < |run| ==> run[i].phi > 0.0
    ensures Runnable(run)
    ensures var a, solved := After(p, n, run), run[|run| - 1].solved;
      && a.base == n.base
      && a.surface == n.base + a.thickness
      && a.thickness >= solved && a.thickness >= p.minThickness
      && (a.thickness == solved || a.thickness == p.minThickness)
  {
    hide Next;
    var before, s := run[..|run| - 1], run[|run| - 1];
    if before == [] {
      assert After(p, n, before) == n;
    } else {
      GroundedRests(p, n, before);
    }
    GroundedStep(p, After(p, n, before), s);
    ThicknessIsLarger(p, After(p, n, before), s);
  }

  lemma GroundedStep(p: Params, n: Node, s: Step)
    requires p.Valid() && s.phi > 0.0
    ensures Next(p, n, s).base == n.base && Next(p, n, s).surface == n.base + Next(p, n, s).thickness
  {
  }

  // ---------------------------------------------------------------- hydrostatic balance

  /** The ice displaces its weight of water about a sea level. */
  ghost predicate Floats(p: Params, n: Node, seaLevel: real) {
    p.rhoWater * (seaLevel - n.base) == p.rhoIce * n.thickness
  }

  /** The sea level about which a node floats. */
  function FloatLevel(p: Params, n: Node): real
    requires p.Valid()
  {
    n.base + p.Ratio() * n.thickness
  }

  lemma FloatsIff(p: Params, n: Node, seaLevel: real)
    requires p.Valid()
    ensures Floats(p, n, seaLevel) <==> seaLevel == FloatLevel(p, n)
  {
  }

  lemma StepFloatLevel(p: Params, n: Node, s: Step)
    requires p.Valid() && s.Supported() && !s.Grounded()
    ensures FloatLevel(p, Next(p, n, s)) == if s.adjustment == Absolute then s.seaLevel else FloatLevel(p, n) + s.seaLevel
  {
  }

  /** An absolute step leaves floating ice in balance about the current sea level. */
  lemma AbsoluteFloats(p: Params, n: Node, s: Step)
    requires p.Valid() && s.phi <= 0.0 && s.adjustment == Absolute
    ensures Floats(p, Next(p, n, s), s.seaLevel)
  {
  }

  function SeaLevels(run: seq<Step>): real {
    if run == [] then 0.0 else SeaLevels(run[..|run| - 1]) + run[|run| - 1].seaLevel
  }

  /** Incremental steps add every step's sea level to the level about which the node floats. */
  lemma {:induction false} IncrementsAddSeaLevels(p: Params, n: Node, run: seq<Step>)
    requires p.Valid() && Runnable(run) && AllByIncrement(run)
    ensures FloatLevel(p, After(p, n, run)) == FloatLevel(p, n) + SeaLevels(run)
  {
    if run != [] {
      var before, s := run[..|run| - 1], run[|run| - 1];
      IncrementsAddSeaLevels(p, n, before);
      StepFloatLevel(p, After(p, n, before), s);
    }
  }

  /**
    An incremental run ends in balance about the current sea level exactly when the initial float level and all the
    earlier sea levels cancel.
   */
  lemma IncrementsFloatIff(p: Params, n: Node, run: seq<Step>)
    requires p.Valid() && Runnable(run) && AllByIncrement(run) && run != []
    ensures Floats(p, After(p, n, run), run[|run| - 1].seaLevel)
         <==> FloatLevel(p, n) + SeaLevels(run[..|run| - 1]) == 0.0
  {
    IncrementsAddSeaLevels(p, n, run);
    FloatsIff(p, After(p, n, run), run[|run| - 1].seaLevel);
  }

  /** One increment keeps the balance only when the previous float level was zero. */
  lemma IncrementFloatsIff(p: Params, n: Node, s: Step, previous: real)
    requires p.Valid() && s.ByIncrement() && Floats(p, n, previous)
    ensures Floats(p, Next(p, n, s), s.seaLevel) <==> previous == 0.0
  {
  }

  /** A shelf balanced about the sea level 1 is out of balance after one increment at the same sea level. */
  lemma IncrementsCanSink()
    ensures var p, n, s := Params(1.0, 1.0, 2.0), Node(2.0, 0.0, 2.0), Step(2.0, -1.0, 1.0, Incremental);
      Floats(p, n, 1.0) && !Floats(p, Next(p, n, s), 1.0)
  {
  }
}
