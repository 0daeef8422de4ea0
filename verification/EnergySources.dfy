/** Solar generation and building consumption: both linear in the interval. */
module EnergySources {
  import opened Foundation
  import opened SimulationErrors

  datatype SolarArray = SolarArray(installedCapacityKw: real, performanceRatio: real) {
    predicate Valid() {
      installedCapacityKw > 0.0 && 0.0 < performanceRatio <= 1.0
    }

    function OutputPower(irradianceFactor: real): real {
      installedCapacityKw * irradianceFactor * performanceRatio
    }

    function GeneratedEnergy(irradianceFactor: real, intervalHours: real): Result<real, SimulationError> {
      if intervalHours <= 0.0 then Failure(InvalidInterval)
      else if !(0.0 <= irradianceFactor <= 1.0) then Failure(InvalidIrradiance)
      else Success(Energy(OutputPower(irradianceFactor), intervalHours))
    }
  }

  /** An array is created from a positive capacity and a ratio within (0, 1]. */
  function CreateSolarArray(installedCapacityKw: real, performanceRatio: real)
    : (r: Result<SolarArray, SimulationError>)
    ensures r.Success? <==> installedCapacityKw > 0.0 && performanceRatio > 0.0 && performanceRatio <= 1.0
    ensures r.Success? <==> SolarArray(installedCapacityKw, performanceRatio).Valid()
    ensures r.Success? ==> r.value == SolarArray(installedCapacityKw, performanceRatio)
    ensures r.Failure? ==> r.error == InvalidSolarArray
  {
    if installedCapacityKw <= 0.0 then Failure(InvalidSolarArray)
    else if !(0.0 < performanceRatio <= 1.0) then Failure(InvalidSolarArray)
    else Success(SolarArray(installedCapacityKw, performanceRatio))
  }

  datatype BuildingLoad = BuildingLoad(baseLoadKw: real, peakLoadKw: real) {
    predicate Valid() {
      baseLoadKw >= 0.0 && peakLoadKw > 0.0 && peakLoadKw >= baseLoadKw
    }

    function PowerDemand(activityFactor: real): real {
      baseLoadKw + (peakLoadKw - baseLoadKw) * activityFactor
    }

    function ConsumedEnergy(activityFactor: real, intervalHours: real): Result<real, SimulationError> {
      if intervalHours <= 0.0 then Failure(InvalidInterval)
      else if !(0.0 <= activityFactor <= 1.0) then Failure(InvalidActivity)
      else Success(Energy(PowerDemand(activityFactor), intervalHours))
    }
  }

  /** A load is created from a base that is not negative and a positive peak above it. */
  function CreateBuilding(baseLoadKw: real, peakLoadKw: real): (r: Result<BuildingLoad, SimulationError>)
    ensures r.Success? <==> 0.0 <= baseLoadKw <= peakLoadKw && peakLoadKw != 0.0
    ensures r.Success? <==> BuildingLoad(baseLoadKw, peakLoadKw).Valid()
    ensures r.Success? ==> r.value == BuildingLoad(baseLoadKw, peakLoadKw)
    ensures r.Failure? ==> r.error == InvalidBuilding
  {
    if baseLoadKw < 0.0 then Failure(InvalidBuilding)
    else if peakLoadKw <= 0.0 then Failure(InvalidBuilding)
    else if peakLoadKw < baseLoadKw then Failure(InvalidBuilding)
    else Success(BuildingLoad(baseLoadKw, peakLoadKw))
  }

  lemma GenerationIsNotNegative(solar: SolarArray, irradianceFactor: real, intervalHours: real)
    requires solar.Valid() && irradianceFactor >= 0.0 && intervalHours > 0.0
    ensures Energy(solar.OutputPower(irradianceFactor), intervalHours) >= 0.0
  {
    ProductNonNegative(solar.installedCapacityKw, irradianceFactor);
    ProductNonNegative(solar.installedCapacityKw * irradianceFactor, solar.performanceRatio);
    EnergyNotNegative(solar.OutputPower(irradianceFactor), intervalHours);
  }

  lemma ConsumptionIsNotNegative(building: BuildingLoad, activityFactor: real, intervalHours: real)
    requires building.Valid() && activityFactor >= 0.0 && intervalHours > 0.0
    ensures Energy(building.PowerDemand(activityFactor), intervalHours) >= 0.0
  {
    ProductNonNegative(building.peakLoadKw - building.baseLoadKw, activityFactor);
    EnergyNotNegative(building.PowerDemand(activityFactor), intervalHours);
  }

  /** A fraction of a whole. */
  function Share(fraction: real, whole: real): real {
    fraction * whole
  }

  lemma SharesAreBelow(fraction: real, whole: real)
    requires 0.0 <= fraction <= 1.0 && whole >= 0.0
    ensures 0.0 <= Share(fraction, whole) <= whole
  {
    ProductNonNegative(fraction, whole);
    ProductNonNegative(1.0 - fraction, whole);
    assert (1.0 - fraction) * whole == whole - fraction * whole;
  }

  /** Equal powers give equal energies. */
  lemma EnergyOf(power: real, product: real, hours: real)
    requires power == product
    ensures Energy(power, hours) == product * hours
  {
  }

  lemma RegroupedProduct(a: real, b: real, c: real, hours: real)
    ensures (a * b * c) * hours == Share(b, a * c * hours)
    ensures (a * 1.0 * c) * hours == a * c * hours
    ensures a * b * hours == Share(b, a * hours)
  {
  }

  /** Generation is proportional to the irradiance, and full irradiance yields the
      installed capacity times the performance ratio. */
  lemma GenerationIsProportional(solar: SolarArray, irradianceFactor: real, intervalHours: real)
    requires 0.0 <= irradianceFactor <= 1.0 && intervalHours > 0.0
    ensures
      var full, e := solar.GeneratedEnergy(1.0, intervalHours), solar.GeneratedEnergy(irradianceFactor, intervalHours);
      && full.Success? && e.Success?
      && full.value == solar.installedCapacityKw * solar.performanceRatio * intervalHours
      && e.value == Share(irradianceFactor, full.value)
  {
    var c, p := solar.installedCapacityKw, solar.performanceRatio;
    EnergyOf(solar.OutputPower(irradianceFactor), c * irradianceFactor * p, intervalHours);
    EnergyOf(solar.OutputPower(1.0), c * 1.0 * p, intervalHours);
    RegroupedProduct(c, irradianceFactor, p, intervalHours);
  }

  /** Nothing generates more than at full irradiance, or than the installed capacity. */
  lemma GenerationIsBounded(solar: SolarArray, irradianceFactor: real, intervalHours: real)
    requires solar.Valid() && 0.0 <= irradianceFactor <= 1.0 && intervalHours > 0.0
    ensures
      var full, e := solar.GeneratedEnergy(1.0, intervalHours), solar.GeneratedEnergy(irradianceFactor, intervalHours);
      && full.Success? && e.Success?
      && 0.0 <= e.value <= full.value <= solar.installedCapacityKw * intervalHours
  {
    var rated := solar.installedCapacityKw * intervalHours;
    GenerationIsProportional(solar, irradianceFactor, intervalHours);
    ProductNonNegative(solar.installedCapacityKw, intervalHours);
    RegroupedProduct(solar.installedCapacityKw, solar.performanceRatio, 1.0, intervalHours);
    SharesAreBelow(solar.performanceRatio, rated);
    SharesAreBelow(irradianceFactor, solar.GeneratedEnergy(1.0, intervalHours).value);
  }

  lemma MixedProduct(base: real, peak: real, activity: real, hours: real)
    ensures (base + (peak - base) * activity) * hours
         == base * hours + Share(activity, peak * hours - base * hours)
    ensures (base + (peak - base) * 0.0) * hours == base * hours
    ensures (base + (peak - base) * 1.0) * hours == peak * hours
  {
    assert (peak - base) * activity * hours == activity * (peak * hours - base * hours);
  }

  /** Consumption is the base load at rest and the peak load at full activity, and
      between them it lies as far from the one to the other as the activity says. */
  lemma ConsumptionIsAffine(building: BuildingLoad, activityFactor: real, intervalHours: real)
    requires 0.0 <= activityFactor <= 1.0 && intervalHours > 0.0
    ensures
      var rest, full := building.ConsumedEnergy(0.0, intervalHours), building.ConsumedEnergy(1.0, intervalHours);
      var e := building.ConsumedEnergy(activityFactor, intervalHours);
      && rest.Success? && full.Success? && e.Success?
      && rest.value == building.baseLoadKw * intervalHours
      && full.value == building.peakLoadKw * intervalHours
      && e.value == rest.value + Share(activityFactor, full.value - rest.value)
  {
    var base, peak := building.baseLoadKw, building.peakLoadKw;
    EnergyOf(building.PowerDemand(0.0), base + (peak - base) * 0.0, intervalHours);
    EnergyOf(building.PowerDemand(1.0), base + (peak - base) * 1.0, intervalHours);
    EnergyOf(building.PowerDemand(activityFactor), base + (peak - base) * activityFactor, intervalHours);
    MixedProduct(base, peak, activityFactor, intervalHours);
  }

  /** It never leaves the range between them. */
  lemma ConsumptionIsBounded(building: BuildingLoad, activityFactor: real, intervalHours: real)
    requires building.Valid() && 0.0 <= activityFactor <= 1.0 && intervalHours > 0.0
    ensures
      var rest, full := building.ConsumedEnergy(0.0, intervalHours), building.ConsumedEnergy(1.0, intervalHours);
      var e := building.ConsumedEnergy(activityFactor, intervalHours);
      rest.Success? && full.Success? && e.Success? && 0.0 <= rest.value <= e.value <= full.value
  {
    EnergyNotNegative(building.baseLoadKw, intervalHours);
    EnergyMonotone(building.baseLoadKw, building.peakLoadKw, intervalHours);
    ConsumptionIsAffine(building, activityFactor, intervalHours);
    var rest := building.ConsumedEnergy(0.0, intervalHours).value;
    var full := building.ConsumedEnergy(1.0, intervalHours).value;
    assert rest == Energy(building.baseLoadKw, intervalHours) && full == Energy(building.peakLoadKw, intervalHours);
    SharesAreBelow(activityFactor, full - rest);
  }

  /** Anything else is refused, with the reason. */
  lemma OtherConditionsAreRefused(solar: SolarArray, building: BuildingLoad, factor: real, intervalHours: real)
    requires intervalHours <= 0.0 || factor < 0.0 || factor > 1.0
    ensures solar.GeneratedEnergy(factor, intervalHours)
         == Failure(if intervalHours <= 0.0 then InvalidInterval else InvalidIrradiance)
    ensures building.ConsumedEnergy(factor, intervalHours)
         == Failure(if intervalHours <= 0.0 then InvalidInterval else InvalidActivity)
  {
  }
}
