/** Reproducible scenarios: system configuration and chronological conditions. */
module Scenarios {
  import opened Foundation
  import opened SimulationErrors
  import opened EnergySources
  import opened Batteries
  import opened Grids
  import opened Plants

  datatype SimulationStep = SimulationStep(irradianceFactor: real, activityFactor: real, intervalHours: real)

  predicate ValidStep(step: SimulationStep) {
    && step.intervalHours > 0.0
    && 0.0 <= step.irradianceFactor <= 1.0
    && 0.0 <= step.activityFactor <= 1.0
  }

  predicate ValidSteps(steps: seq<SimulationStep>) {
    forall k :: 0 <= k < |steps| ==> ValidStep(steps[k])
  }

  function IntervalOf(solar: SolarArray, building: BuildingLoad, step: SimulationStep): Interval {
    Interval(step.intervalHours,
             Energy(solar.OutputPower(step.irradianceFactor), step.intervalHours),
             Energy(building.PowerDemand(step.activityFactor), step.intervalHours))
  }

  function IntervalsOf(solar: SolarArray, building: BuildingLoad, steps: seq<SimulationStep>): (xs: seq<Interval>)
    ensures |xs| == |steps|
  {
    if steps == [] then [] else IntervalsOf(solar, building, Init(steps)) + [IntervalOf(solar, building, Last(steps))]
  }

  datatype BatteryConfiguration = BatteryConfiguration(capacityKwh: real, initialStateOfChargeKwh: real)

  datatype SimulationScenario = SimulationScenario(
    battery: BatteryConfiguration,
    solar: SolarArray,
    building: BuildingLoad,
    grid: GridConnection,
    steps: seq<SimulationStep>)
  {
    function Plant(): Plant {
      Plants.Plant(battery.capacityKwh, grid)
    }

    function InitialSoc(): real {
      battery.initialStateOfChargeKwh
    }

    /** Every component can be created. */
    predicate ValidConfiguration() {
      && ValidBattery(battery.capacityKwh, battery.initialStateOfChargeKwh)
      && solar.Valid() && building.Valid() && grid.Valid()
    }

    predicate Valid() {
      ValidConfiguration() && steps != [] && ValidSteps(steps)
    }

    function Intervals(): seq<Interval> {
      IntervalsOf(solar, building, steps)
    }
  }

  /** Generation and consumption of one step, or the rejection of its conditions. */
  function Observe(solar: SolarArray, building: BuildingLoad, step: SimulationStep): Result<Interval, SimulationError> {
    var generated :- solar.GeneratedEnergy(step.irradianceFactor, step.intervalHours);
    var consumed :- building.ConsumedEnergy(step.activityFactor, step.intervalHours);
    Success(Interval(step.intervalHours, generated, consumed))
  }

  function ElapsedHours(steps: seq<SimulationStep>): real {
    if steps == [] then 0.0 else ElapsedHours(Init(steps)) + Last(steps).intervalHours
  }

  /** Exactly the valid steps are observed, and they yield valid intervals. */
  lemma ObserveSucceedsExactlyOnValidSteps(solar: SolarArray, building: BuildingLoad, step: SimulationStep)
    requires solar.Valid() && building.Valid()
    ensures Observe(solar, building, step).Success? <==> ValidStep(step)
    ensures ValidStep(step) ==>
              && Observe(solar, building, step).value == IntervalOf(solar, building, step)
              && ValidInterval(IntervalOf(solar, building, step))
  {
    if ValidStep(step) {
      GenerationIsNotNegative(solar, step.irradianceFactor, step.intervalHours);
      ConsumptionIsNotNegative(building, step.activityFactor, step.intervalHours);
    }
  }

  lemma {:induction false} ValidStepsGiveValidIntervals(
    solar: SolarArray, building: BuildingLoad, steps: seq<SimulationStep>)
    requires solar.Valid() && building.Valid() && ValidSteps(steps)
    ensures ValidIntervals(IntervalsOf(solar, building, steps))
    ensures steps != [] ==> ElapsedHours(steps) > 0.0
    ensures ElapsedHours(steps) >= 0.0
  {
    if steps == [] {
    } else {
      ValidStepsGiveValidIntervals(solar, building, Init(steps));
      ObserveSucceedsExactlyOnValidSteps(solar, building, Last(steps));
    }
  }

  lemma {:induction false} IntervalsOfPrefix(
    solar: SolarArray, building: BuildingLoad, steps: seq<SimulationStep>, n: nat)
    requires n <= |steps|
    ensures IntervalsOf(solar, building, steps)[..n] == IntervalsOf(solar, building, steps[..n])
  {
    if n == |steps| {
      assert steps[..n] == steps;
    } else {
      assert Init(steps)[..n] == steps[..n];
      IntervalsOfPrefix(solar, building, Init(steps), n);
    }
  }
}
