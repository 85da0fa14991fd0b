/** The enthalpy of ice at its melting point and the decision chart for the base of grounded ice (Aschwanden et al., 2012). */
module EnthalpyChart {

  datatype Params = Params(dt: real, secondsPerYear: real, latentHeat: real, rhoIce: real, rhoWater: real,
                           heatCapacity: real, referenceTemperature: real, meltingPoint: real, beta: real) {
    ghost predicate Valid() {
      dt >= 0.0 && secondsPerYear > 0.0 && latentHeat > 0.0 && rhoIce > 0.0 && rhoWater > 0.0
    }

    function TMeltingPoint(pressure: real): real {
      meltingPoint - beta * pressure
    }

    function PureIceEnthalpy(pressure: real): real {
      heatCapacity * (TMeltingPoint(pressure) - referenceTemperature)
    }
  }

  /** The nodal values that the chart looks at: at the base, and one node up. */
  datatype Sample = Sample(enthalpy: real, enthalpyUp: real, pressure: real, pressureUp: real, water: real, meltRate: real) {
    predicate Cold(p: Params) {
      enthalpy < p.PureIceEnthalpy(pressure)
    }

    predicate ColdAbove(p: Params) {
      enthalpyUp < p.PureIceEnthalpy(pressureUp)
    }
  }

  /**
    0: cold and dry. 1: cold and wet. 2: temperate and refreezing, in steady state only. 3: temperate, without a
    temperate layer above. 4: with one.
   */
  function GetThermalBasalCondition(p: Params, s: Sample): (state: int)
    ensures 0 <= state <= 4
    ensures s.Cold(p) <==> state <= 1
    ensures p.dt != 0.0 ==> state != 2
    ensures state == 2 ==> s.meltRate < 0.0
    ensures state == 1 ==> s.water > 0.0
  {
    if s.enthalpy < p.PureIceEnthalpy(s.pressure) then
      if s.water <= 0.0 then 0 else 1
    else if s.enthalpyUp < p.PureIceEnthalpy(s.pressureUp) then
      if p.dt == 0.0 && s.meltRate < 0.0 then 2 else 3
    else 4
  }

  /** The base is held at the melting point. */
  predicate Pins(p: Params, state: int) {
    if p.dt == 0.0 then 1 <= state <= 4 else state == 1 || state == 3
  }

  /** In steady state, every base that is temperate or wet is pinned; in transients, those without a temperate layer. */
  lemma PinsMeans(p: Params, s: Sample)
    ensures Pins(p, GetThermalBasalCondition(p, s))
         <==> (s.Cold(p) && s.water > 0.0) || (!s.Cold(p) && (p.dt == 0.0 || s.ColdAbove(p)))
  {
  }
}
