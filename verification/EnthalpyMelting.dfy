/**
  Basal melting of grounded ice: the melt rate from the heat that reaches the base, and the update that lets no more
  water freeze on than there is and spends the rest of the energy on cooling the ice.
 */
module EnthalpyMelting {
  import opened EnthalpyChart

  datatype Vec3 = Vec3(x: real, y: real, z: real)

  /** A vertical segment at the base, and what the inputs give at its lower node. */
  datatype Segment = Segment(down: nat, up: nat, enthalpyGradient: Vec3, pressureGradient: Vec3, mixConductivity: real,
                             friction: real, velocity: Vec3, geothermalFlux: real)

  datatype Element = Element(pressures: seq<real>, segments: seq<Segment>, normal: Vec3, diffusivity: real) {
    /** Segments have different lower nodes. */
    ghost predicate Valid(n: nat) {
      && |pressures| == n
      && (forall i :: 0 <= i < |segments| ==> segments[i].down < n && segments[i].up < n)
      && (forall i, j :: 0 <= i < j < |segments| ==> segments[i].down != segments[j].down)
    }
  }

  /** A base node: its enthalpy, its water column and the melt rate it reports, in ice equivalent. */
  datatype Node = Node(enthalpy: real, water: real, rate: real)

  // ---------------------------------------------------------------- the melt rate

  function Along(v: Vec3, scale: real, n: Vec3): real {
    scale * v.x * n.x + scale * v.y * n.y + scale * v.z * n.z
  }

  /** Conduction into the ice, or through the temperate layer along the pressure gradient, plus friction and geothermal heat. */
  function Heating(p: Params, e: Element, s: Segment, state: int): real {
    (if state == 4 then Along(s.pressureGradient, s.mixConductivity * p.beta, e.normal)
     else Along(s.enthalpyGradient, -e.diffusivity, e.normal))
    + s.friction * (s.velocity.x * s.velocity.x + s.velocity.y * s.velocity.y + s.velocity.z * s.velocity.z)
    + s.geothermalFlux
  }

  /** Metres of water per second. */
  function MeltRate(p: Params, e: Element, s: Segment, state: int): real
    requires p.Valid()
  {
    PerLatentHeat(p);
    if state == 0 then 0.0 else Heating(p, e, s, state) / (p.latentHeat * p.rhoIce)
  }

  lemma PerLatentHeat(p: Params)
    requires p.Valid()
    ensures p.latentHeat * p.rhoIce > 0.0
  {
  }

  function SampleAt(e: Element, s: Segment, enthalpies: seq<real>, water: seq<real>, rates: seq<real>): Sample
    requires |e.pressures| == |enthalpies| == |water| == |rates| && s.down < |water| && s.up < |water|
  {
    Sample(enthalpies[s.down], enthalpies[s.up], e.pressures[s.down], e.pressures[s.up], water[s.down], rates[s.down])
  }

  // ---------------------------------------------------------------- the update of one node

  /** More would freeze on than there is. */
  predicate Overfreezes(p: Params, n: Node, m: real) {
    n.water + m * p.dt < 0.0
  }

  /** The part of the melt rate that the water column can pay for. */
  function Lambda(p: Params, n: Node, m: real): real
    requires p.dt * m != 0.0
  {
    -n.water / (p.dt * m)
  }

  /** The cooling by the rest. */
  function Cooling(p: Params, m: real, lambda: real): real
    requires p.Valid()
  {
    (1.0 - lambda) * p.dt / p.secondsPerYear * m * p.latentHeat * p.rhoIce
  }

  /** The update in a transient run. In steady state only the rate is kept. */
  function Updated(p: Params, n: Node, m: real): Node
    requires p.Valid() && n.water >= 0.0
  {
    if p.dt == 0.0 then n.(rate := m * (p.rhoWater / p.rhoIce))
    else if Overfreezes(p, n, m) then
      OverfreezeMeans(p, n, m);
      var lambda := Lambda(p, n, m);
      Node(n.enthalpy + Cooling(p, m, lambda), 0.0, lambda * m * (p.rhoWater / p.rhoIce))
    else Node(n.enthalpy, n.water + p.dt * m, m * (p.rhoWater / p.rhoIce))
  }

  lemma OverfreezeMeans(p: Params, n: Node, m: real)
    requires p.Valid() && n.water >= 0.0 && p.dt != 0.0 && Overfreezes(p, n, m)
    ensures m < 0.0 && p.dt * m < 0.0
    ensures 0.0 <= Lambda(p, n, m) < 1.0
    ensures Lambda(p, n, m) * (p.dt * m) == -n.water
  {
  }

  // ---------------------------------------------------------------- water and energy

  /** The reported ice melts into the water that the column gains, and the ice is never warmed. */
  lemma WaterBalance(p: Params, n: Node, m: real)
    requires p.Valid() && p.dt != 0.0 && n.water >= 0.0
    ensures Updated(p, n, m).water >= 0.0
    ensures p.rhoIce * (p.dt * Updated(p, n, m).rate) == p.rhoWater * (Updated(p, n, m).water - n.water)
    ensures Updated(p, n, m).water > 0.0 ==> Updated(p, n, m).enthalpy == n.enthalpy
  {
  }

  /** The heat of the melt rate goes into water and into cooling the ice. */
  lemma EnergyBalance(p: Params, n: Node, m: real)
    requires p.Valid() && p.dt != 0.0 && n.water >= 0.0
    ensures var latent, u := p.latentHeat * p.rhoIce, Updated(p, n, m);
      latent * (p.dt * m) == latent * (u.water - n.water) + p.secondsPerYear * (u.enthalpy - n.enthalpy)
    ensures Updated(p, n, m).enthalpy <= n.enthalpy
  {
  }

  // ---------------------------------------------------------------- runs

  /** One transient step at a node: its time step, melt rate, and the enthalpy that was solved for. */
  datatype Step = Step(dt: real, melt: real, enthalpy: real)

  ghost predicate Transient(run: seq<Step>) {
    forall i :: 0 <= i < |run| ==> run[i].dt > 0.0
  }

  function StepNode(p: Params, water: real, s: Step): Node
    requires p.Valid() && s.dt > 0.0 && water >= 0.0
  {
    Updated(p.(dt := s.dt), Node(s.enthalpy, water, 0.0), s.melt)
  }

  /** The water column after a run. */
  function WaterAfter(p: Params, water: real, run: seq<Step>): (w: real)
    requires p.Valid() && water >= 0.0 && Transient(run)
    ensures w >= 0.0
  {
    if run == [] then water
    else
      var before, s := WaterAfter(p, water, run[..|run| - 1]), run[|run| - 1];
      WaterBalance(p.(dt := s.dt), Node(s.enthalpy, before, 0.0), s.melt);
      StepNode(p, before, s).water
  }

  /** The ice that a run reports as melted, the heat of its melt rates, and what its corrections add to the enthalpies. */
  function IceMelted(p: Params, water: real, run: seq<Step>): real
    requires p.Valid() && water >= 0.0 && Transient(run)
  {
    if run == [] then 0.0
    else
      var before, s := run[..|run| - 1], run[|run| - 1];
      IceMelted(p, water, before) + s.dt * StepNode(p, WaterAfter(p, water, before), s).rate
  }

  function MeltTime(run: seq<Step>): real {
    if run == [] then 0.0 else MeltTime(run[..|run| - 1]) + run[|run| - 1].dt * run[|run| - 1].melt
  }

  function Corrections(p: Params, water: real, run: seq<Step>): real
    requires p.Valid() && water >= 0.0 && Transient(run)
  {
    if run == [] then 0.0
    else
      var before, s := run[..|run| - 1], run[|run| - 1];
      Corrections(p, water, before) + (StepNode(p, WaterAfter(p, water, before), s).enthalpy - s.enthalpy)
  }

  /** Over any run, the reported melt telescopes to the change of the water column. */
  lemma {:induction false} RunMelts(p: Params, water: real, run: seq<Step>)
    requires p.Valid() && water >= 0.0 && Transient(run)
    ensures p.rhoIce * IceMelted(p, water, run) == p.rhoWater * (WaterAfter(p, water, run) - water)
  {
    hide Updated;
    if run != [] {
      var before, s := run[..|run| - 1], run[|run| - 1];
      RunMelts(p, water, before);
      var w0 := WaterAfter(p, water, before);
      var u := StepNode(p, w0, s);
      WaterBalance(p.(dt := s.dt), Node(s.enthalpy, w0, 0.0), s.melt);
      Telescope(p.rhoIce, IceMelted(p, water, before), s.dt * u.rate, p.rhoWater, w0 - water, u.water - w0);
    }
  }

  lemma Telescope(a: real, x: real, dx: real, b: real, y: real, dy: real)
    requires a * x == b * y && a * dx == b * dy
    ensures a * (x + dx) == b * (y + dy)
  {
  }

  /** Over any run, the heat of the melt rates is found in the water or in the cooling of the ice, which is never warmed. */
  lemma {:induction false} RunHeats(p: Params, water: real, run: seq<Step>)
    requires p.Valid() && water >= 0.0 && Transient(run)
    ensures var latent := p.latentHeat * p.rhoIce;
      latent * MeltTime(run) == latent * (WaterAfter(p, water, run) - water) + p.secondsPerYear * Corrections(p, water, run)
    ensures Corrections(p, water, run) <= 0.0
  {
    hide Updated;
    if run != [] {
      var before, s := run[..|run| - 1], run[|run| - 1];
      RunHeats(p, water, before);
      var w0 := WaterAfter(p, water, before);
      var u := StepNode(p, w0, s);
      EnergyBalance(p.(dt := s.dt), Node(s.enthalpy, w0, 0.0), s.melt);
      TelescopeHeat(p.latentHeat * p.rhoIce, p.secondsPerYear, MeltTime(before), s.dt * s.melt, w0 - water, u.water - w0,
                    Corrections(p, water, before), u.enthalpy - s.enthalpy);
    }
  }

  lemma TelescopeHeat(a: real, b: real, x: real, dx: real, y: real, dy: real, z: real, dz: real)
    requires a * x == a * y + b * z && a * dx == a * dy + b * dz
    ensures a * (x + dx) == a * (y + dy) + b * (z + dz)
  {
  }

  // ---------------------------------------------------------------- the element

  /** The inputs of a grounded icy base element that the computation reads and replaces. */
  class Base {
    var enthalpies: seq<real>
    var water: seq<real>
    var rates: seq<real>

    ghost predicate Valid()
      reads this
    {
      |enthalpies| == |water| == |rates| && forall i :: 0 <= i < |water| ==> water[i] >= 0.0
    }

    ghost function At(i: nat): Node
      requires Valid() && i < |water|
      reads this
    {
      Node(enthalpies[i], water[i], rates[i])
    }

    constructor (enthalpies: seq<real>, water: seq<real>, rates: seq<real>)
      requires |enthalpies| == |water| == |rates| && forall i :: 0 <= i < |water| ==> water[i] >= 0.0
      ensures Valid() && this.enthalpies == enthalpies && this.water == water && this.rates == rates
    {
      this.enthalpies, this.water, this.rates := enthalpies, water, rates;
    }

    /** The melt rate of a segment. */
    ghost function Melt(p: Params, e: Element, i: nat): real
      requires Valid() && p.Valid() && e.Valid(|water|) && i < |e.segments|
      reads this
    {
      var s := e.segments[i];
      MeltRate(p, e, s, GetThermalBasalCondition(p, SampleAt(e, s, enthalpies, water, rates)))
    }

    method ComputeBasalMeltingrate(p: Params, e: Element)
      requires Valid() && p.Valid() && e.Valid(|water|)
      modifies this
      ensures Valid() && |water| == old(|water|)
      ensures forall i :: 0 <= i < |e.segments| ==>
        At(e.segments[i].down) == Updated(p, old(At(e.segments[i].down)), old(Melt(p, e, i)))
      ensures forall v: nat :: v < |water| && (forall i :: 0 <= i < |e.segments| ==> e.segments[i].down != v) ==> At(v) == old(At(v))
    {
      var melt := MeltRates(p, e, enthalpies, water, rates);
      assert forall i :: 0 <= i < |e.segments| ==> melt[i] == Melt(p, e, i);
      var newEnthalpies, newWater, newRates := UpdateNodes(p, e, melt, enthalpies, water, rates);
      enthalpies, water, rates := newEnthalpies, newWater, newRates;
    }
  }

  method MeltRates(p: Params, e: Element, enthalpies: seq<real>, water: seq<real>, rates: seq<real>) returns (melt: seq<real>)
    requires p.Valid() && |enthalpies| == |water| == |rates| && e.Valid(|water|)
    ensures |melt| == |e.segments|
    ensures forall i :: 0 <= i < |melt| ==>
      melt[i] == MeltRate(p, e, e.segments[i], GetThermalBasalCondition(p, SampleAt(e, e.segments[i], enthalpies, water, rates)))
  {
    hide Heating;
    hide GetThermalBasalCondition;
    melt := [];
    for i := 0 to |e.segments|
      invariant |melt| == i
      invariant forall k :: 0 <= k < i ==>
        melt[k] == MeltRate(p, e, e.segments[k], GetThermalBasalCondition(p, SampleAt(e, e.segments[k], enthalpies, water, rates)))
    {
      var s := e.segments[i];
      var state := GetThermalBasalCondition(p, SampleAt(e, s, enthalpies, water, rates));
      var m := 0.0;
      if state != 0 {
        var heating := HeatAt(p, e, s, state);
        PerLatentHeat(p);
        m := heating / (p.latentHeat * p.rhoIce);
      }
      melt := melt + [m];
    }
  }

  method HeatAt(p: Params, e: Element, s: Segment, state: int) returns (heating: real)
    ensures heating == Heating(p, e, s, state)
  {
    var c, g := -e.diffusivity, s.enthalpyGradient;
    var flux := Vec3(c * g.x, c * g.y, c * g.z);
    if state == 4 {
      c, g := s.mixConductivity * p.beta, s.pressureGradient;
      flux := Vec3(c * g.x, c * g.y, c * g.z);
    }
    var heatFlux := flux.x * e.normal.x + flux.y * e.normal.y + flux.z * e.normal.z;
    var v := s.velocity;
    var basalFriction := s.friction * (v.x * v.x + v.y * v.y + v.z * v.z);
    heating := heatFlux + basalFriction + s.geothermalFlux;
  }

  /** The update of one node. */
  method UpdateNode(p: Params, n: Node, m: real) returns (r: Node)
    requires p.Valid() && n.water >= 0.0
    ensures r == Updated(p, n, m) && r.water >= 0.0
  {
    hide Lambda;
    hide Cooling;
    if p.dt != 0.0 {
      WaterBalance(p, n, m);
      if n.water + m * p.dt < 0.0 {
        OverfreezeMeans(p, n, m);
        var lambda := -n.water / (p.dt * m);
        LambdaIs(p, n, m, lambda);
        var cooling := (1.0 - lambda) * p.dt / p.secondsPerYear * m * p.latentHeat * p.rhoIce;
        CoolingIs(p, m, lambda, cooling);
        r := Node(n.enthalpy + cooling, 0.0, lambda * m * (p.rhoWater / p.rhoIce));
      } else {
        r := Node(n.enthalpy, n.water + p.dt * m, m * (p.rhoWater / p.rhoIce));
      }
    } else {
      r := Node(n.enthalpy, n.water, m * (p.rhoWater / p.rhoIce));
    }
  }

  lemma LambdaIs(p: Params, n: Node, m: real, lambda: real)
    requires p.dt * m != 0.0 && lambda == -n.water / (p.dt * m)
    ensures lambda == Lambda(p, n, m)
  {
  }

  lemma CoolingIs(p: Params, m: real, lambda: real, c: real)
    requires p.Valid() && c == (1.0 - lambda) * p.dt / p.secondsPerYear * m * p.latentHeat * p.rhoIce
    ensures c == Cooling(p, m, lambda)
  {
  }

  method UpdateNodes(p: Params, e: Element, melt: seq<real>, enthalpies: seq<real>, water: seq<real>, rates: seq<real>)
    returns (h: seq<real>, w: seq<real>, r: seq<real>)
    requires p.Valid() && |enthalpies| == |water| == |rates| && e.Valid(|water|) && |melt| == |e.segments|
    requires forall i :: 0 <= i < |water| ==> water[i] >= 0.0
    ensures |h| == |w| == |r| == |water|
    ensures forall v :: 0 <= v < |w| ==> w[v] >= 0.0
    ensures forall i :: 0 <= i < |e.segments| ==>
      var v := e.segments[i].down; Node(h[v], w[v], r[v]) == Updated(p, Node(enthalpies[v], water[v], rates[v]), melt[i])
    ensures forall v :: 0 <= v < |water| && (forall i :: 0 <= i < |e.segments| ==> e.segments[i].down != v) ==>
      h[v] == enthalpies[v] && w[v] == water[v] && r[v] == rates[v]
  {
    hide Updated;
    h, w, r := enthalpies, water, rates;
    for i := 0 to |e.segments|
      invariant |h| == |w| == |r| == |water|
      invariant forall v :: 0 <= v < |w| ==> w[v] >= 0.0
      invariant forall k :: 0 <= k < i ==>
        var v := e.segments[k].down; Node(h[v], w[v], r[v]) == Updated(p, Node(enthalpies[v], water[v], rates[v]), melt[k])
      invariant forall v :: 0 <= v < |water| && (forall k :: 0 <= k < i ==> e.segments[k].down != v) ==>
        h[v] == enthalpies[v] && w[v] == water[v] && r[v] == rates[v]
    {
      var v := e.segments[i].down;
      var u := UpdateNode(p, Node(h[v], w[v], r[v]), melt[i]);
      h, w, r := h[v := u.enthalpy], w[v := u.water], r[v := u.rate];
    }
  }
}
