/** The heat that reaches a base node and what the update makes of it, from the inputs of the segment. */
module EnthalpyBudget {
  import opened RealFacts
  import opened EnthalpyChart
  import opened EnthalpyMelting

  /** Colder than ice at its melting point, which falls with pressure. */
  ghost predicate Frozen(p: Params, enthalpy: real, pressure: real) {
    enthalpy < p.heatCapacity * (p.meltingPoint - p.beta * pressure - p.referenceTemperature)
  }

  /** Ice without water is cold exactly where its temperature is below the melting point at its pressure. */
  lemma ColdIff(p: Params, s: Sample, temperature: real)
    requires p.heatCapacity > 0.0 && s.enthalpy == p.heatCapacity * (temperature - p.referenceTemperature)
    ensures s.Cold(p) <==> temperature + p.beta * s.pressure < p.meltingPoint
  {
    var melting := p.meltingPoint - p.beta * s.pressure;
    if temperature >= melting {
      ProductMonotone(melting - p.referenceTemperature, temperature - p.referenceTemperature, p.heatCapacity);
    } else if !s.Cold(p) {
      CancelFactor(melting - p.referenceTemperature, temperature - p.referenceTemperature, p.heatCapacity);
    }
  }

  function Scalar(a: Vec3, b: Vec3): real {
    a.x * b.x + a.y * b.y + a.z * b.z
  }

  /** Friction and geothermal heat. */
  function Sources(s: Segment): real {
    s.friction * Scalar(s.velocity, s.velocity) + s.geothermalFlux
  }

  /** Conduction into the ice along the enthalpy gradient, or through a temperate layer along the pressure gradient. */
  function Conducted(p: Params, e: Element, s: Segment, temperateLayer: bool): real {
    if temperateLayer then s.mixConductivity * p.beta * Scalar(s.pressureGradient, e.normal)
    else -(e.diffusivity * Scalar(s.enthalpyGradient, e.normal))
  }

  lemma HeatingIs(p: Params, e: Element, s: Segment, state: int)
    ensures Heating(p, e, s, state) == Conducted(p, e, s, state == 4) + Sources(s)
  {
    if state == 4 {
      Factored(s.pressureGradient, s.mixConductivity * p.beta, e.normal);
    } else {
      Factored(s.enthalpyGradient, -e.diffusivity, e.normal);
    }
  }

  lemma Factored(v: Vec3, scale: real, n: Vec3)
    ensures Along(v, scale, n) == scale * Scalar(v, n)
  {
    var a, b, c := v.x * n.x, v.y * n.y, v.z * n.z;
    assert scale * v.x * n.x == scale * a && scale * v.y * n.y == scale * b && scale * v.z * n.z == scale * c;
    assert scale * (a + b + c) == scale * a + scale * b + scale * c;
  }

  lemma MeltTakesHeat(p: Params, e: Element, s: Segment, state: int)
    requires p.Valid() && state != 0
    ensures p.latentHeat * p.rhoIce * MeltRate(p, e, s, state) == Heating(p, e, s, state)
  {
    hide Heating;
    PerLatentHeat(p);
    Quotient(Heating(p, e, s, state), p.latentHeat * p.rhoIce, MeltRate(p, e, s, state));
  }

  /** The lower node of the segment once its melt rate is applied. */
  ghost function Next(p: Params, e: Element, s: Segment, enthalpies: seq<real>, water: seq<real>, rates: seq<real>): Node
    requires p.Valid() && OnSegment(e, s, enthalpies, water, rates)
  {
    var melt := MeltRate(p, e, s, GetThermalBasalCondition(p, SampleAt(e, s, enthalpies, water, rates)));
    Updated(p, Node(enthalpies[s.down], water[s.down], rates[s.down]), melt)
  }

  ghost predicate OnSegment(e: Element, s: Segment, enthalpies: seq<real>, water: seq<real>, rates: seq<real>) {
    |e.pressures| == |enthalpies| == |water| == |rates| && s.down < |water| && s.up < |water| && water[s.down] >= 0.0
  }

  /** The base is cold and dry. */
  ghost predicate ColdAndDry(p: Params, e: Element, s: Segment, enthalpies: seq<real>, water: seq<real>)
    requires |e.pressures| == |enthalpies| == |water| && s.down < |water|
  {
    Frozen(p, enthalpies[s.down], e.pressures[s.down]) && water[s.down] <= 0.0
  }

  /** The heat that reaches the lower node: there is a temperate layer where neither end of the segment is frozen. */
  ghost function HeatOf(p: Params, e: Element, s: Segment, enthalpies: seq<real>): real
    requires |e.pressures| == |enthalpies| && s.down < |enthalpies| && s.up < |enthalpies|
  {
    var temperateLayer := !Frozen(p, enthalpies[s.down], e.pressures[s.down]) && !Frozen(p, enthalpies[s.up], e.pressures[s.up]);
    Conducted(p, e, s, temperateLayer) + Sources(s)
  }

  /** The melt takes up the heat, unless the base is cold and dry. */
  lemma MeltOf(p: Params, e: Element, s: Segment, enthalpies: seq<real>, water: seq<real>, rates: seq<real>)
    requires p.Valid() && OnSegment(e, s, enthalpies, water, rates)
    ensures var melt := MeltRate(p, e, s, GetThermalBasalCondition(p, SampleAt(e, s, enthalpies, water, rates)));
      if ColdAndDry(p, e, s, enthalpies, water) then melt == 0.0
      else p.latentHeat * p.rhoIce * melt == HeatOf(p, e, s, enthalpies)
  {
    hide Heating;
    hide GetThermalBasalCondition;
    hide Conducted;
    hide Sources;
    hide Frozen;
    var q := SampleAt(e, s, enthalpies, water, rates);
    var state := GetThermalBasalCondition(p, q);
    ChartIs(p, q);
    if state != 0 {
      hide MeltRate;
      MeltTakesHeat(p, e, s, state);
      HeatingIs(p, e, s, state);
    }
  }

  /**
    What a base node gains as water and loses as warmth in a transient step is the heat it receives: conduction,
    friction and geothermal heat. A cold and dry base receives none and is left alone.
   */
  lemma HeatBudget(p: Params, e: Element, s: Segment, enthalpies: seq<real>, water: seq<real>, rates: seq<real>)
    requires p.Valid() && p.dt != 0.0 && OnSegment(e, s, enthalpies, water, rates)
    ensures var u := Next(p, e, s, enthalpies, water, rates);
      if ColdAndDry(p, e, s, enthalpies, water) then u == Node(enthalpies[s.down], water[s.down], 0.0)
      else p.latentHeat * p.rhoIce * (u.water - water[s.down]) + p.secondsPerYear * (u.enthalpy - enthalpies[s.down])
           == p.dt * HeatOf(p, e, s, enthalpies)
  {
    hide MeltRate;
    hide HeatOf;
    hide Updated;
    hide ColdAndDry;
    MeltOf(p, e, s, enthalpies, water, rates);
    var melt := MeltRate(p, e, s, GetThermalBasalCondition(p, SampleAt(e, s, enthalpies, water, rates)));
    var n := Node(enthalpies[s.down], water[s.down], rates[s.down]);
    if melt == 0.0 {
      NothingMelts(p, n);
    }
    EnergyBalance(p, n, melt);
    if !ColdAndDry(p, e, s, enthalpies, water) {
      Reordered(p.latentHeat * p.rhoIce, p.dt, melt, HeatOf(p, e, s, enthalpies));
    }
  }

  lemma Reordered(latent: real, dt: real, m: real, heat: real)
    requires latent * m == heat
    ensures latent * (dt * m) == dt * heat
  {
  }

  lemma NothingMelts(p: Params, n: Node)
    requires p.Valid() && n.water >= 0.0
    ensures Updated(p, n, 0.0) == n.(rate := 0.0)
  {
  }

  lemma ChartIs(p: Params, q: Sample)
    ensures var state := GetThermalBasalCondition(p, q);
      && (state == 0 <==> Frozen(p, q.enthalpy, q.pressure) && q.water <= 0.0)
      && (state == 4 <==> !Frozen(p, q.enthalpy, q.pressure) && !Frozen(p, q.enthalpyUp, q.pressureUp))
  {
  }

  /** In steady state the reported rate takes up the heat, and water and enthalpy are left as they are. */
  lemma SteadyRate(p: Params, e: Element, s: Segment, enthalpies: seq<real>, water: seq<real>, rates: seq<real>)
    requires p.Valid() && p.dt == 0.0 && OnSegment(e, s, enthalpies, water, rates)
    ensures var u := Next(p, e, s, enthalpies, water, rates);
      && u.water == water[s.down] && u.enthalpy == enthalpies[s.down]
      && if ColdAndDry(p, e, s, enthalpies, water) then u.rate == 0.0
         else p.latentHeat * p.rhoIce * (p.rhoIce * u.rate) == p.rhoWater * HeatOf(p, e, s, enthalpies)
  {
    hide MeltRate;
    hide HeatOf;
    hide ColdAndDry;
    MeltOf(p, e, s, enthalpies, water, rates);
    if !ColdAndDry(p, e, s, enthalpies, water) {
      var melt := MeltRate(p, e, s, GetThermalBasalCondition(p, SampleAt(e, s, enthalpies, water, rates)));
      IceEquivalent(p, melt, HeatOf(p, e, s, enthalpies));
    }
  }

  lemma IceEquivalent(p: Params, m: real, heat: real)
    requires p.Valid() && p.latentHeat * p.rhoIce * m == heat
    ensures p.latentHeat * p.rhoIce * (p.rhoIce * (m * (p.rhoWater / p.rhoIce))) == p.rhoWater * heat
  {
    var r := p.rhoWater / p.rhoIce;
    Quotient(p.rhoWater, p.rhoIce, r);
    assert p.rhoIce * (m * r) == m * (p.rhoIce * r) == m * p.rhoWater;
    assert p.latentHeat * p.rhoIce * (m * p.rhoWater) == p.rhoWater * (p.latentHeat * p.rhoIce * m);
  }
}
