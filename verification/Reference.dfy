/** The Python battery-first reference strategy: dispatch, management and timeline. */
module Reference {
  import opened Foundation
  import opened SimulationErrors
  import opened EnergySources
  import opened EnergyBalance
  import opened Batteries
  import opened Grids
  import opened Measurements
  import opened Plants
  import opened Scenarios
  import D = Doubles

  datatype DispatchAction = Charge | Discharge | Idle

  datatype BatteryDispatch = BatteryDispatch(
    action: DispatchAction,
    requestedEnergyKwh: real,
    transferredEnergyKwh: real,
    remainingEnergyKwh: real,
    initialStateOfChargeKwh: real,
    finalStateOfChargeKwh: real)

  datatype Management = Management(
    balance: Balance,
    dispatch: BatteryDispatch,
    gridTransfer: Option<GridTransfer>)
  {
    function UnresolvedEnergy(): real {
      match gridTransfer
      case Some(t) => t.remainingEnergyKwh
      case None => dispatch.remainingEnergyKwh
    }

    function GridEnergy(direction: Direction): real {
      if gridTransfer.Some? && gridTransfer.value.direction == direction
      then gridTransfer.value.transferredEnergyKwh else 0.0
    }
  }

  datatype TimelineStep = TimelineStep(
    conditions: SimulationStep,
    measurement: EnergyMeasurement,
    management: Management)

  // ----- what each service computes from the values it is given -----

  function DispatchOutcome(capacity: real, soc: real, balance: Balance): Result<BatteryDispatch, SimulationError> {
    match balance.status
    case Surplus =>
      var requested := balance.SurplusEnergy();
      (match AcceptedEnergy(capacity, soc, requested)
       case Success(e) => Success(BatteryDispatch(Charge, requested, e, Max(requested - e, 0.0), soc, soc + e))
       case Failure(error) => Failure(error))
    case Deficit =>
      var requested := balance.DeficitEnergy();
      (match DeliveredEnergy(soc, requested)
       case Success(e) => Success(BatteryDispatch(Discharge, requested, e, Max(requested - e, 0.0), soc, soc - e))
       case Failure(error) => Failure(error))
    case Balanced =>
      Success(BatteryDispatch(Idle, 0.0, 0.0, 0.0, soc, soc))
  }

  function Offered(t: Result<GridTransfer, SimulationError>): Result<Option<GridTransfer>, SimulationError> {
    match t
    case Success(transfer) => Success(Some(transfer))
    case Failure(error) => Failure(error)
  }

  function GridTransferOutcome(grid: GridConnection, balance: Balance, remaining: real, hours: real)
    : Result<Option<GridTransfer>, SimulationError>
  {
    if remaining > 0.0 && balance.status.Surplus? then Offered(grid.Transfer(Export, remaining, hours))
    else if remaining > 0.0 && balance.status.Deficit? then Offered(grid.Transfer(Import, remaining, hours))
    else Success(None)
  }

  function ManageOutcome(capacity: real, soc: real, grid: GridConnection, x: Interval)
    : Result<Management, SimulationError>
  {
    if x.hours <= 0.0 then Failure(InvalidInterval) else
    match Calculate(x.generated, x.consumed)
    case Failure(error) => Failure(error)
    case Success(balance) =>
      match DispatchOutcome(capacity, soc, balance)
      case Failure(error) => Failure(error)
      case Success(dispatch) =>
        match GridTransferOutcome(grid, balance, dispatch.remainingEnergyKwh, x.hours)
        case Failure(error) => Failure(error)
        case Success(transfer) => Success(Management(balance, dispatch, transfer))
  }

  function CreateMeasurement(m: EnergyMeasurement): Result<EnergyMeasurement, SimulationError> {
    match PythonMeasurement(D.EXACT, Lift(m))
    case Success(_) => Success(m)
    case Failure(rule) => Failure(MeasurementRejected(rule))
  }

  /** EnergyMeasurementFactory.create: the measurement of a completed interval. */
  function MeasurementAfter(stepNumber: nat, elapsed: real, hours: real, m: Management)
    : Result<EnergyMeasurement, SimulationError>
  {
    CreateMeasurement(Measurement(
      stepNumber, elapsed, hours, m.balance.generatedEnergyKwh, m.balance.consumedEnergyKwh,
      m.balance.netEnergyKwh, m.dispatch.finalStateOfChargeKwh,
      m.GridEnergy(Import), m.GridEnergy(Export), m.UnresolvedEnergy()))
  }

  function SocLeftBy(results: seq<TimelineStep>, initialSoc: real): real {
    if results == [] then initialSoc else Last(results).management.dispatch.finalStateOfChargeKwh
  }

  function TimelineStepOutcome(
    plant: Plant, solar: SolarArray, building: BuildingLoad, steps: seq<SimulationStep>, soc: real)
    : Result<TimelineStep, SimulationError>
    requires steps != []
  {
    var x :- Observe(solar, building, Last(steps));
    var management :- ManageOutcome(plant.capacity, soc, plant.grid, x);
    var measurement :- MeasurementAfter(|steps|, ElapsedHours(steps), x.hours, management);
    Success(TimelineStep(Last(steps), measurement, management))
  }

  /** All steps in order; the first failure ends the timeline. */
  function TimelineOutcome(
    plant: Plant, solar: SolarArray, building: BuildingLoad, steps: seq<SimulationStep>, initialSoc: real)
    : (r: Result<seq<TimelineStep>, SimulationError>)
    ensures r.Success? ==> |r.value| == |steps|
  {
    if steps == [] then Success([]) else
    var before :- TimelineOutcome(plant, solar, building, Init(steps), initialSoc);
    var step :- TimelineStepOutcome(plant, solar, building, steps, SocLeftBy(before, initialSoc));
    Success(before + [step])
  }

  /** SimulationScenarioRunner.run: fresh components, then the whole timeline. */
  function ScenarioOutcome(s: SimulationScenario): Result<seq<TimelineStep>, SimulationError> {
    if !ValidBattery(s.battery.capacityKwh, s.battery.initialStateOfChargeKwh) then Failure(InvalidBattery)
    else if !s.solar.Valid() then Failure(InvalidSolarArray)
    else if !s.building.Valid() then Failure(InvalidBuilding)
    else if !s.grid.Valid() then Failure(InvalidGrid)
    else if s.steps == [] then Failure(EmptyTimeline)
    else TimelineOutcome(s.Plant(), s.solar, s.building, s.steps, s.InitialSoc())
  }

  lemma {:induction false} TimelineFailureIsFinal(
    plant: Plant, solar: SolarArray, building: BuildingLoad, steps: seq<SimulationStep>, initialSoc: real, n: nat)
    requires n <= |steps|
    requires TimelineOutcome(plant, solar, building, steps[..n], initialSoc).Failure?
    ensures TimelineOutcome(plant, solar, building, steps, initialSoc)
         == TimelineOutcome(plant, solar, building, steps[..n], initialSoc)
  {
    if n == |steps| {
      assert steps[..n] == steps;
    } else {
      assert Init(steps)[..n] == steps[..n];
      TimelineFailureIsFinal(plant, solar, building, Init(steps), initialSoc, n);
    }
  }

  // ----- the services themselves -----

  method Dispatch(battery: Battery, balance: Balance) returns (r: Result<BatteryDispatch, SimulationError>)
    requires battery.Valid()
    modifies battery`stateOfChargeKwh
    ensures battery.Valid()
    ensures r == DispatchOutcome(battery.capacityKwh, old(battery.stateOfChargeKwh), balance)
    ensures r.Success? ==> battery.stateOfChargeKwh == r.value.finalStateOfChargeKwh
  {
    var initialSoc := battery.stateOfChargeKwh;
    var action, requested, transferred := Idle, 0.0, Success(0.0);
    match balance.status {
      case Surplus =>
        action, requested := Charge, balance.SurplusEnergy();
        transferred := battery.Charge(requested);
      case Deficit =>
        action, requested := Discharge, balance.DeficitEnergy();
        transferred := battery.Discharge(requested);
      case Balanced =>
    }
    match transferred {
      case Success(e) =>
        r := Success(BatteryDispatch(
          action, requested, e, Max(requested - e, 0.0), initialSoc, battery.stateOfChargeKwh));
      case Failure(error) =>
        r := Failure(error);
    }
  }

  method Manage(battery: Battery, grid: GridConnection, x: Interval) returns (r: Result<Management, SimulationError>)
    requires battery.Valid()
    modifies battery`stateOfChargeKwh
    ensures battery.Valid()
    ensures r == ManageOutcome(battery.capacityKwh, old(battery.stateOfChargeKwh), grid, x)
    ensures r.Success? ==> battery.stateOfChargeKwh == r.value.dispatch.finalStateOfChargeKwh
  {
    if x.hours <= 0.0 {
      return Failure(InvalidInterval);
    }
    var balance :- Calculate(x.generated, x.consumed);
    var dispatched := Dispatch(battery, balance);
    match dispatched {
      case Failure(error) =>
        r := Failure(error);
      case Success(dispatch) =>
        var gridTransfer := Success(None);
        if dispatch.remainingEnergyKwh > 0.0 {
          if balance.status == Surplus {
            gridTransfer := Offered(grid.Transfer(Export, dispatch.remainingEnergyKwh, x.hours));
          } else if balance.status == Deficit {
            gridTransfer := Offered(grid.Transfer(Import, dispatch.remainingEnergyKwh, x.hours));
          }
        }
        match gridTransfer {
          case Failure(error) => r := Failure(error);
          case Success(transfer) => r := Success(Management(balance, dispatch, transfer));
        }
    }
  }

  /** One iteration of the timeline: the last of the given steps, on the battery
      as the earlier ones left it. */
  method RunTimelineStep(
    steps: seq<SimulationStep>, battery: Battery, solar: SolarArray, building: BuildingLoad, grid: GridConnection,
    elapsedHours: real)
    returns (r: Result<TimelineStep, SimulationError>)
    requires battery.Valid() && steps != [] && elapsedHours == ElapsedHours(steps)
    modifies battery`stateOfChargeKwh
    ensures battery.Valid()
    ensures r == TimelineStepOutcome(
              Plant(battery.capacityKwh, grid), solar, building, steps, old(battery.stateOfChargeKwh))
    ensures r.Success? ==> battery.stateOfChargeKwh == r.value.management.dispatch.finalStateOfChargeKwh
  {
    var step := steps[|steps| - 1];
    var generated :- solar.GeneratedEnergy(step.irradianceFactor, step.intervalHours);
    var consumed :- building.ConsumedEnergy(step.activityFactor, step.intervalHours);
    var management :- Manage(battery, grid, Interval(step.intervalHours, generated, consumed));
    var measurement :- MeasurementAfter(|steps|, elapsedHours, step.intervalHours, management);
    return Success(TimelineStep(step, measurement, management));
  }

  method RunTimeline(
    steps: seq<SimulationStep>, battery: Battery, solar: SolarArray, building: BuildingLoad, grid: GridConnection)
    returns (r: Result<seq<TimelineStep>, SimulationError>)
    requires battery.Valid()
    modifies battery`stateOfChargeKwh
    ensures battery.Valid()
    ensures steps == [] ==> r == Failure(EmptyTimeline)
    ensures steps != [] ==>
              r == TimelineOutcome(
                     Plant(battery.capacityKwh, grid), solar, building, steps, old(battery.stateOfChargeKwh))
    ensures r.Success? ==> battery.stateOfChargeKwh == SocLeftBy(r.value, old(battery.stateOfChargeKwh))
  {
    if steps == [] {
      return Failure(EmptyTimeline);
    }
    ghost var plant, soc0 := Plant(battery.capacityKwh, grid), battery.stateOfChargeKwh;
    var results: seq<TimelineStep> := [];
    var elapsedHours := 0.0;
    for k := 0 to |steps|
      invariant battery.Valid()
      invariant TimelineOutcome(plant, solar, building, steps[..k], soc0) == Success(results)
      invariant battery.stateOfChargeKwh == SocLeftBy(results, soc0)
      invariant elapsedHours == ElapsedHours(steps[..k])
    {
      assert Init(steps[..k + 1]) == steps[..k];
      elapsedHours := elapsedHours + steps[k].intervalHours;
      var step := RunTimelineStep(steps[..k + 1], battery, solar, building, grid, elapsedHours);
      match step {
        case Failure(error) =>
          TimelineFailureIsFinal(plant, solar, building, steps, soc0, k + 1);
          return Failure(error);
        case Success(result) =>
          results := results + [result];
      }
    }
    assert steps[..|steps|] == steps;
    return Success(results);
  }

  method RunScenario(s: SimulationScenario) returns (r: Result<seq<TimelineStep>, SimulationError>)
    ensures r == ScenarioOutcome(s)
  {
    var battery :- Battery.Create(s.battery.capacityKwh, s.battery.initialStateOfChargeKwh);
    var solar :- CreateSolarArray(s.solar.installedCapacityKw, s.solar.performanceRatio);
    var building :- CreateBuilding(s.building.baseLoadKw, s.building.peakLoadKw);
    var grid :- CreateGrid(s.grid.maxImportPowerKw, s.grid.maxExportPowerKw, s.grid.isAvailable);
    r := RunTimeline(s.steps, battery, solar, building, grid);
  }

  // ----- the closed form -----

  /** reference_step_to_dict: the flows of one reference step. */
  function ReferenceFlow(t: TimelineStep): Flow {
    var surplus := t.management.balance.status.Surplus?;
    var dispatch, unresolved := t.management.dispatch, t.management.UnresolvedEnergy();
    Flow(dispatch.initialStateOfChargeKwh,
         if surplus then dispatch.transferredEnergyKwh else 0.0,
         if surplus then 0.0 else dispatch.transferredEnergyKwh,
         t.measurement.batteryStateOfChargeKwh,
         t.measurement.gridImportEnergyKwh,
         t.measurement.gridExportEnergyKwh,
         if surplus then unresolved else 0.0,
         if surplus then 0.0 else unresolved)
  }

  function ReferenceFlows(results: seq<TimelineStep>): (flows: seq<Flow>)
    ensures |flows| == |results|
    ensures forall k :: 0 <= k < |flows| ==> flows[k] == ReferenceFlow(results[k])
  {
    if results == [] then [] else ReferenceFlows(Init(results)) + [ReferenceFlow(Last(results))]
  }

  /** Dispatching any calculated balance succeeds: the battery moves as much of the
      imbalance as fits, in the direction of the imbalance, and the rest remains. */
  lemma DispatchMovesWhatFits(capacity: real, soc: real, generated: real, consumed: real)
    requires ValidBattery(capacity, soc) && generated >= 0.0 && consumed >= 0.0
    ensures
      var balance := Calculate(generated, consumed).value;
      && DispatchOutcome(capacity, soc, balance).Success?
      && var d := DispatchOutcome(capacity, soc, balance).value;
      && (d.action.Charge? <==> balance.netEnergyKwh > 0.0)
      && (d.action.Discharge? <==> balance.netEnergyKwh < 0.0)
      && d.requestedEnergyKwh == Abs(balance.netEnergyKwh)
      && d.transferredEnergyKwh >= 0.0 && d.remainingEnergyKwh >= 0.0
      && d.transferredEnergyKwh + d.remainingEnergyKwh == d.requestedEnergyKwh
      && d.initialStateOfChargeKwh == soc
      && d.finalStateOfChargeKwh == Max(0.0, Min(capacity, soc + balance.netEnergyKwh))
  {
  }

  /** The grid is the last resort of every reference interval: energy is left
      over only once the battery is at its physical end, and unresolved only once
      the grid is unavailable or at its power limit. */
  lemma GridIsTheLastResort(capacity: real, soc: real, grid: GridConnection, x: Interval)
    requires ValidBattery(capacity, soc) && grid.Valid() && ValidInterval(x)
    ensures
      var r := ManageOutcome(capacity, soc, grid, x);
      && r.Success?
      && var m := r.value;
      && (m.dispatch.remainingEnergyKwh > 0.0 && m.balance.status.Surplus? ==>
            m.dispatch.finalStateOfChargeKwh == capacity)
      && (m.dispatch.remainingEnergyKwh > 0.0 && m.balance.status.Deficit? ==> m.dispatch.finalStateOfChargeKwh == 0.0)
      && (m.gridTransfer.Some? <==> m.dispatch.remainingEnergyKwh > 0.0)
      && (m.gridTransfer.Some? ==> (m.gridTransfer.value.direction == Export <==> m.balance.status.Surplus?))
      && (m.UnresolvedEnergy() > 0.0 ==>
            && m.gridTransfer.Some?
            && m.gridTransfer.value.transferredEnergyKwh == grid.Limit(m.gridTransfer.value.direction, x.hours))
      && (m.gridTransfer.Some? ==>
            && m.gridTransfer.value.requestedEnergyKwh == m.dispatch.remainingEnergyKwh
            && m.gridTransfer.value.transferredEnergyKwh + m.UnresolvedEnergy() == m.dispatch.remainingEnergyKwh)
  {
  }

  /** One managed interval moves energy exactly as the battery-first closed form. */
  lemma ManageClosedForm(plant: Plant, soc: real, x: Interval)
    requires plant.Valid() && ValidBattery(plant.capacity, soc) && ValidInterval(x)
    ensures
      var f := StrategyFlow(plant, BatteryFirst, x, soc);
      && ManageOutcome(plant.capacity, soc, plant.grid, x).Success?
      && var m := ManageOutcome(plant.capacity, soc, plant.grid, x).value;
      && m.balance.netEnergyKwh == Net(x)
      && m.dispatch.initialStateOfChargeKwh == soc
      && m.dispatch.finalStateOfChargeKwh == f.socAfter
      && m.GridEnergy(Import) == f.imported && m.GridEnergy(Export) == f.exported
      && (if m.balance.status.Surplus?
          then m.dispatch.transferredEnergyKwh == f.charged && f.discharged == 0.0
               && m.UnresolvedEnergy() == f.curtailed && f.unserved == 0.0
          else m.dispatch.transferredEnergyKwh == f.discharged && f.charged == 0.0
               && m.UnresolvedEnergy() == f.unserved && f.curtailed == 0.0)
  {
    LimitIsNotNegative(plant.grid, Import, x.hours);
    LimitIsNotNegative(plant.grid, Export, x.hours);
    GridIsTheLastResort(plant.capacity, soc, plant.grid, x);
  }

  /** What the measurement of an interval reports, given its energy flows: what could
      not be resolved is what was curtailed and what was left unserved. */
  function MeasuredAs(stepNumber: int, elapsed: real, x: Interval, f: Flow): EnergyMeasurement {
    Measurement(
      stepNumber, elapsed, x.hours, x.generated, x.consumed, Net(x), f.socAfter,
      f.imported, f.exported, f.curtailed + f.unserved)
  }

  lemma ManagementIsReported(plant: Plant, soc: real, x: Interval, stepNumber: nat, elapsed: real)
    requires plant.Valid() && ValidBattery(plant.capacity, soc) && ValidInterval(x)
    ensures
      && ManageOutcome(plant.capacity, soc, plant.grid, x).Success?
      && var m := ManageOutcome(plant.capacity, soc, plant.grid, x).value;
      && MeasurementAfter(stepNumber, elapsed, x.hours, m)
         == CreateMeasurement(MeasuredAs(stepNumber, elapsed, x, StrategyFlow(plant, BatteryFirst, x, soc)))
  {
    ManageClosedForm(plant, soc, x);
  }

  /** Every measurement the factory builds on a valid plant reports the interval and
      its flows, and is accepted by both validators. */
  lemma FactoryMeasurementIsAccepted(plant: Plant, soc: real, x: Interval, stepNumber: nat, elapsed: real)
    requires plant.Valid() && ValidBattery(plant.capacity, soc) && ValidInterval(x)
    requires stepNumber > 0 && elapsed > 0.0
    ensures
      && ManageOutcome(plant.capacity, soc, plant.grid, x).Success?
      && var m := ManageOutcome(plant.capacity, soc, plant.grid, x).value;
      && var r := MeasurementAfter(stepNumber, elapsed, x.hours, m);
      && r == Success(MeasuredAs(stepNumber, elapsed, x, StrategyFlow(plant, BatteryFirst, x, soc)))
      && PythonMeasurement(D.EXACT, Lift(r.value)).Success?
      && CppMeasurement(D.EXACT, Lift(r.value)).Success?
  {
    ManagementIsReported(plant, soc, x, stepNumber, elapsed);
    StrategiesAreFeasible(plant, BatteryFirst, x, soc);
    SettleKeepsThePlantPhysical(
      plant, x, soc, ChargeUnder(plant, BatteryFirst, x, soc), DischargeUnder(BatteryFirst, x, soc));
    ExactAcceptance(MeasuredAs(stepNumber, elapsed, x, StrategyFlow(plant, BatteryFirst, x, soc)));
  }

  /** One reference interval on a valid plant: it cannot fail, its measurement is
      numbered and timed, and its flows are the battery-first closed form. */
  lemma ReferenceStepClosedForm(
    plant: Plant, solar: SolarArray, building: BuildingLoad, steps: seq<SimulationStep>, soc: real)
    requires plant.Valid() && solar.Valid() && building.Valid() && ValidBattery(plant.capacity, soc)
    requires steps != [] && ValidSteps(steps)
    ensures
      var x := IntervalOf(solar, building, Last(steps));
      var r := TimelineStepOutcome(plant, solar, building, steps, soc);
      && r.Success?
      && ReferenceFlow(r.value) == StrategyFlow(plant, BatteryFirst, x, soc)
      && r.value.management.dispatch.finalStateOfChargeKwh == ReferenceFlow(r.value).socAfter
      && r.value.conditions == Last(steps)
      && r.value.measurement == MeasuredAs(|steps|, ElapsedHours(steps), x, ReferenceFlow(r.value))
  {
    var x := IntervalOf(solar, building, Last(steps));
    ObserveSucceedsExactlyOnValidSteps(solar, building, Last(steps));
    ValidStepsGiveValidIntervals(solar, building, steps);
    FactoryMeasurementIsAccepted(plant, soc, x, |steps|, ElapsedHours(steps));
    ManageClosedForm(plant, soc, x);
  }

  /** Every result is for its own step: numbered by its position, timed by the steps
      up to it, and measuring its interval and its flows. */
  ghost predicate MeasuresEveryStep(
    solar: SolarArray, building: BuildingLoad, results: seq<TimelineStep>, steps: seq<SimulationStep>)
  {
    && |results| == |steps|
    && forall k :: 0 <= k < |results| ==>
         && results[k].conditions == steps[k]
         && results[k].measurement
            == MeasuredAs(k + 1, ElapsedHours(steps[..k + 1]), IntervalOf(solar, building, steps[k]),
                          ReferenceFlow(results[k]))
  }

  ghost predicate MatchesClosedForm(
    plant: Plant, solar: SolarArray, building: BuildingLoad, steps: seq<SimulationStep>, initialSoc: real,
    results: seq<TimelineStep>)
  {
    && MeasuresEveryStep(solar, building, results, steps)
    && ReferenceFlows(results) == StrategyRun(plant, BatteryFirst, IntervalsOf(solar, building, steps), initialSoc)
    && SocLeftBy(results, initialSoc) == SocAfter(ReferenceFlows(results), initialSoc)
  }

  lemma {:induction false} MeasuresSnoc(
    solar: SolarArray, building: BuildingLoad, prior: seq<TimelineStep>, step: TimelineStep, steps: seq<SimulationStep>)
    requires steps != [] && MeasuresEveryStep(solar, building, prior, Init(steps))
    requires step.conditions == Last(steps)
    requires
      step.measurement
      == MeasuredAs(|steps|, ElapsedHours(steps), IntervalOf(solar, building, Last(steps)), ReferenceFlow(step))
    ensures MeasuresEveryStep(solar, building, prior + [step], steps)
  {
    var results := prior + [step];
    assert steps[..|steps|] == steps;
    forall k | 0 <= k < |results|
      ensures results[k].conditions == steps[k]
      ensures
        results[k].measurement
        == MeasuredAs(k + 1, ElapsedHours(steps[..k + 1]), IntervalOf(solar, building, steps[k]),
                      ReferenceFlow(results[k]))
    {
      if k < |prior| {
        assert results[k] == prior[k] && Init(steps)[k] == steps[k];
        assert Init(steps)[..k + 1] == steps[..k + 1];
      }
    }
  }

  lemma FlowsSnoc(
    plant: Plant, solar: SolarArray, building: BuildingLoad, steps: seq<SimulationStep>, initialSoc: real,
    prior: seq<TimelineStep>, step: TimelineStep)
    requires steps != []
    requires ReferenceFlows(prior)
          == StrategyRun(plant, BatteryFirst, IntervalsOf(solar, building, Init(steps)), initialSoc)
    requires
      ReferenceFlow(step) == StrategyFlow(plant, BatteryFirst, IntervalOf(solar, building, Last(steps)),
                                          SocAfter(ReferenceFlows(prior), initialSoc))
    ensures ReferenceFlows(prior + [step])
         == StrategyRun(plant, BatteryFirst, IntervalsOf(solar, building, steps), initialSoc)
    ensures Last(ReferenceFlows(prior + [step])) == ReferenceFlow(step)
  {
    InitOfSnoc(prior, step);
    InitOfSnoc(IntervalsOf(solar, building, Init(steps)), IntervalOf(solar, building, Last(steps)));
  }

  lemma TimelineSnoc(
    plant: Plant, solar: SolarArray, building: BuildingLoad, steps: seq<SimulationStep>, initialSoc: real,
    prior: seq<TimelineStep>)
    requires plant.Valid() && solar.Valid() && building.Valid() && ValidBattery(plant.capacity, initialSoc)
    requires steps != [] && ValidSteps(steps)
    requires MatchesClosedForm(plant, solar, building, Init(steps), initialSoc, prior)
    ensures
      var r := TimelineStepOutcome(plant, solar, building, steps, SocLeftBy(prior, initialSoc));
      r.Success? && MatchesClosedForm(plant, solar, building, steps, initialSoc, prior + [r.value])
  {
    ValidStepsGiveValidIntervals(solar, building, Init(steps));
    StrategyRunIsPhysical(plant, BatteryFirst, IntervalsOf(solar, building, Init(steps)), initialSoc);
    var soc := SocLeftBy(prior, initialSoc);
    ReferenceStepClosedForm(plant, solar, building, steps, soc);
    var step := TimelineStepOutcome(plant, solar, building, steps, soc).value;
    MeasuresSnoc(solar, building, prior, step, steps);
    FlowsSnoc(plant, solar, building, steps, initialSoc, prior, step);
  }

  /** The flows of the reference run on valid steps are the battery-first run of
      their intervals. */
  lemma {:induction false} TimelineClosedForm(
    plant: Plant, solar: SolarArray, building: BuildingLoad, steps: seq<SimulationStep>, initialSoc: real)
    requires plant.Valid() && solar.Valid() && building.Valid() && ValidBattery(plant.capacity, initialSoc)
    requires ValidSteps(steps)
    ensures
      var r := TimelineOutcome(plant, solar, building, steps, initialSoc);
      r.Success? && MatchesClosedForm(plant, solar, building, steps, initialSoc, r.value)
  {
    if steps == [] {
    } else {
      TimelineClosedForm(plant, solar, building, Init(steps), initialSoc);
      TimelineSnoc(plant, solar, building, steps, initialSoc,
                   TimelineOutcome(plant, solar, building, Init(steps), initialSoc).value);
    }
  }

  /** The k-th measurement of a run reports the k-th interval and the k-th flow. */
  lemma MeasurementsReportTheRun(
    plant: Plant, solar: SolarArray, building: BuildingLoad, steps: seq<SimulationStep>, initialSoc: real, k: nat)
    requires plant.Valid() && solar.Valid() && building.Valid() && ValidBattery(plant.capacity, initialSoc)
    requires ValidSteps(steps) && k < |steps|
    ensures TimelineOutcome(plant, solar, building, steps, initialSoc).Success?
    ensures
      var m := TimelineOutcome(plant, solar, building, steps, initialSoc).value[k].measurement;
      var x := IntervalsOf(solar, building, steps)[k];
      var f := StrategyRun(plant, BatteryFirst, IntervalsOf(solar, building, steps), initialSoc)[k];
      && m.stepNumber == k + 1 && m.elapsedTimeHours == ElapsedHours(steps[..k + 1])
      && m.intervalHours == x.hours && m.generatedEnergyKwh == x.generated && m.consumedEnergyKwh == x.consumed
      && m.netEnergyKwh == Net(x) && m.batteryStateOfChargeKwh == f.socAfter
      && m.gridImportEnergyKwh == f.imported && m.gridExportEnergyKwh == f.exported
      && m.unresolvedEnergyKwh == f.curtailed + f.unserved
  {
    TimelineClosedForm(plant, solar, building, steps, initialSoc);
    IntervalsOfPrefix(solar, building, steps, k + 1);
    assert IntervalsOf(solar, building, steps)[k] == IntervalsOf(solar, building, steps)[..k + 1][k];
    assert Last(steps[..k + 1]) == steps[k];
    var results := TimelineOutcome(plant, solar, building, steps, initialSoc).value;
    assert ReferenceFlows(results)[k] == ReferenceFlow(results[k]);
  }

  // SimulationScenarioResult: sums over the measurements.

  function ReportedImport(results: seq<TimelineStep>): real {
    if results == [] then 0.0 else ReportedImport(Init(results)) + Last(results).measurement.gridImportEnergyKwh
  }

  function ReportedExport(results: seq<TimelineStep>): real {
    if results == [] then 0.0 else ReportedExport(Init(results)) + Last(results).measurement.gridExportEnergyKwh
  }

  function ReportedUnresolved(results: seq<TimelineStep>): real {
    if results == [] then 0.0 else ReportedUnresolved(Init(results)) + Last(results).measurement.unresolvedEnergyKwh
  }

  /** The reported totals are those of the flows. */
  lemma {:induction false} ReportedTotals(
    solar: SolarArray, building: BuildingLoad, results: seq<TimelineStep>, steps: seq<SimulationStep>)
    requires MeasuresEveryStep(solar, building, results, steps)
    ensures
      var t := TotalsOf(ReferenceFlows(results));
      && ReportedImport(results) == t.imported && ReportedExport(results) == t.exported
      && ReportedUnresolved(results) == t.curtailed + t.unserved
  {
    if results == [] {
    } else {
      var n := |results| - 1;
      forall k | 0 <= k < n
        ensures Init(results)[k] == results[k] && Init(steps)[k] == steps[k]
        ensures Init(steps)[..k + 1] == steps[..k + 1]
      {
      }
      ReportedTotals(solar, building, Init(results), Init(steps));
      TotalsOfSnoc(ReferenceFlows(Init(results)), ReferenceFlow(Last(results)));
      assert Last(results) == results[n];
    }
  }

  lemma StepSucceedsOnlyOnValidStep(
    plant: Plant, solar: SolarArray, building: BuildingLoad, steps: seq<SimulationStep>, soc: real)
    requires solar.Valid() && building.Valid() && steps != []
    requires TimelineStepOutcome(plant, solar, building, steps, soc).Success?
    ensures ValidStep(Last(steps))
  {
    ObserveSucceedsExactlyOnValidSteps(solar, building, Last(steps));
  }

  lemma SuccessfulTimelineUnfolds(
    plant: Plant, solar: SolarArray, building: BuildingLoad, steps: seq<SimulationStep>, initialSoc: real)
    requires steps != [] && TimelineOutcome(plant, solar, building, steps, initialSoc).Success?
    ensures TimelineOutcome(plant, solar, building, Init(steps), initialSoc).Success?
    ensures
      var before := TimelineOutcome(plant, solar, building, Init(steps), initialSoc).value;
      TimelineStepOutcome(plant, solar, building, steps, SocLeftBy(before, initialSoc)).Success?
  {
  }

  /** The reference run aborts on every other list of steps. */
  lemma {:induction false} TimelineSucceedsOnlyOnValidSteps(
    plant: Plant, solar: SolarArray, building: BuildingLoad, steps: seq<SimulationStep>, initialSoc: real, k: nat)
    requires solar.Valid() && building.Valid() && k < |steps|
    requires TimelineOutcome(plant, solar, building, steps, initialSoc).Success?
    ensures ValidStep(steps[k])
  {
    SuccessfulTimelineUnfolds(plant, solar, building, steps, initialSoc);
    if k < |steps| - 1 {
      TimelineSucceedsOnlyOnValidSteps(plant, solar, building, Init(steps), initialSoc, k);
    } else {
      var before := TimelineOutcome(plant, solar, building, Init(steps), initialSoc).value;
      StepSucceedsOnlyOnValidStep(plant, solar, building, steps, SocLeftBy(before, initialSoc));
    }
  }

  /** The reference run succeeds on exactly the valid scenarios. */
  lemma ReferenceRunsExactlyValidScenarios(s: SimulationScenario)
    ensures ScenarioOutcome(s).Success? <==> s.Valid()
    ensures s.Valid() ==>
              && ReferenceFlows(ScenarioOutcome(s).value)
                 == StrategyRun(s.Plant(), BatteryFirst, s.Intervals(), s.InitialSoc())
              && MeasuresEveryStep(s.solar, s.building, ScenarioOutcome(s).value, s.steps)
  {
    if s.ValidConfiguration() {
      if ValidSteps(s.steps) {
        TimelineClosedForm(s.Plant(), s.solar, s.building, s.steps, s.InitialSoc());
      } else if TimelineOutcome(s.Plant(), s.solar, s.building, s.steps, s.InitialSoc()).Success? {
        forall k | 0 <= k < |s.steps| ensures ValidStep(s.steps[k]) {
          TimelineSucceedsOnlyOnValidSteps(s.Plant(), s.solar, s.building, s.steps, s.InitialSoc(), k);
        }
      }
    }
  }

  /** What the result of a scenario reports in total is what its run did. */
  lemma ScenarioTotalsAreReported(s: SimulationScenario)
    requires s.Valid()
    ensures ScenarioOutcome(s).Success?
    ensures
      var results := ScenarioOutcome(s).value;
      var t := TotalsOf(StrategyRun(s.Plant(), BatteryFirst, s.Intervals(), s.InitialSoc()));
      && ReportedImport(results) == t.imported && ReportedExport(results) == t.exported
      && ReportedUnresolved(results) == t.curtailed + t.unserved
  {
    ReferenceRunsExactlyValidScenarios(s);
    ReportedTotals(s.solar, s.building, ScenarioOutcome(s).value, s.steps);
  }
}
