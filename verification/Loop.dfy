/** Software in the loop: an external controller decides every interval and the
    simulated plant applies the answer within its physical limits. */
module Loop {
  import opened Foundation
  import opened SimulationErrors
  import opened EnergySources
  import opened EnergyBalance
  import opened Batteries
  import opened Grids
  import opened Measurements
  import opened Control
  import opened EnergyController
  import opened Plants
  import opened Scenarios
  import Reference
  import D = Doubles

  const CONSERVATION_TOLERANCE_KWH: real := 0.000001

  datatype LoopStep = LoopStep(
    stepNumber: int,
    startTimeHours: real,
    interval: Interval,
    netEnergyKwh: real,
    decision: ControlDecision,
    flow: Flow)

  /** Anything that decides for a measurement, or fails to. Step numbers within a
      run are distinct, so a function of the measurement also describes any
      provider with a state of its own, one run at a time. */
  type DecisionProvider = EnergyMeasurement -> Result<ControlDecision, SimulationError>

  /** What the controller sees: nothing has been dispatched yet. */
  function MeasurementBefore(stepNumber: int, elapsed: real, x: Interval, net: real, soc: real): EnergyMeasurement {
    Measurement(stepNumber, elapsed, x.hours, x.generated, x.consumed, net, soc, 0.0, 0.0, 0.0)
  }

  // ----- one interval -----

  datatype BatteryMove = BatteryMove(charged: real, discharged: real)

  function BatteryOutcome(
    capacity: real, soc: real, action: ControlAction, requested: real, surplus: real, deficit: real)
    : Result<BatteryMove, SimulationError>
  {
    match action
    case ChargeBattery =>
      var charged :- AcceptedEnergy(capacity, soc, Min(requested, surplus));
      Success(BatteryMove(charged, 0.0))
    case DischargeBattery =>
      var discharged :- DeliveredEnergy(soc, Min(requested, deficit));
      Success(BatteryMove(0.0, discharged))
    case Unrecognised(name) => Failure(UnknownAction(name))
    case _ => Success(BatteryMove(0.0, 0.0))
  }

  datatype GridShare = GridShare(transferred: real, remaining: real)

  function GridOutcome(grid: GridConnection, direction: Direction, energy: real, hours: real)
    : Result<GridShare, SimulationError>
  {
    if energy > 0.0 then
      var t :- grid.Transfer(direction, energy, hours);
      Success(GridShare(t.transferredEnergyKwh, t.remainingEnergyKwh))
    else Success(GridShare(0.0, 0.0))
  }

  function PlantOutcome(plant: Plant, hours: real, net: real, soc: real, d: ControlDecision)
    : Result<Flow, SimulationError>
  {
    var surplus, deficit := Max(net, 0.0), Max(-net, 0.0);
    var move :- BatteryOutcome(plant.capacity, soc, d.action, RequestedEnergy(d, hours), surplus, deficit);
    var sold :- GridOutcome(plant.grid, Export, surplus - move.charged, hours);
    var bought :- GridOutcome(plant.grid, Import, deficit - move.discharged, hours);
    Success(Flow(soc, move.charged, move.discharged, soc + move.charged - move.discharged,
                 bought.transferred, sold.transferred, sold.remaining, bought.remaining))
  }

  function Sources(x: Interval, f: Flow): real {
    x.generated + f.discharged + f.imported + f.unserved
  }

  function Sinks(x: Interval, f: Flow): real {
    x.consumed + f.charged + f.exported + f.curtailed
  }

  /** The per-step check: sources equal sinks within the tolerance. */
  predicate EnergyIsConserved(x: Interval, f: Flow) {
    Abs(Sources(x, f) - Sinks(x, f)) <= CONSERVATION_TOLERANCE_KWH
  }

  function Checked(step: LoopStep): Result<LoopStep, SimulationError> {
    if EnergyIsConserved(step.interval, step.flow) then Success(step) else Failure(EnergyNotConserved(step.stepNumber))
  }

  function IntervalOutcome(
    plant: Plant, provider: DecisionProvider, stepNumber: int, startTime: real, x: Interval, soc: real)
    : Result<LoopStep, SimulationError>
  {
    var balance :- Calculate(x.generated, x.consumed);
    var m :- Reference.CreateMeasurement(
      MeasurementBefore(stepNumber, startTime + x.hours, x, balance.netEnergyKwh, soc));
    var d :- provider(m);
    var flow :- PlantOutcome(plant, x.hours, balance.netEnergyKwh, soc, d);
    Checked(LoopStep(stepNumber, startTime, x, balance.netEnergyKwh, d, flow))
  }

  /** The last of the given steps, from the state of charge the earlier ones left. */
  function LoopStepOutcome(
    plant: Plant, solar: SolarArray, building: BuildingLoad, provider: DecisionProvider,
    steps: seq<SimulationStep>, soc: real)
    : Result<LoopStep, SimulationError>
    requires steps != []
  {
    var x :- Observe(solar, building, Last(steps));
    IntervalOutcome(plant, provider, |steps|, ElapsedHours(Init(steps)), x, soc)
  }

  // ----- whole runs -----

  function SocLeftBy(steps: seq<LoopStep>, initialSoc: real): real {
    if steps == [] then initialSoc else Last(steps).flow.socAfter
  }

  function LoopOutcome(
    plant: Plant, solar: SolarArray, building: BuildingLoad, provider: DecisionProvider,
    steps: seq<SimulationStep>, initialSoc: real)
    : Result<seq<LoopStep>, SimulationError>
  {
    if steps == [] then Success([]) else
    var before :- LoopOutcome(plant, solar, building, provider, Init(steps), initialSoc);
    var step :- LoopStepOutcome(plant, solar, building, provider, steps, SocLeftBy(before, initialSoc));
    Success(before + [step])
  }

  function RunOutcome(s: SimulationScenario, provider: DecisionProvider): Result<seq<LoopStep>, SimulationError> {
    if !ValidBattery(s.battery.capacityKwh, s.battery.initialStateOfChargeKwh) then Failure(InvalidBattery)
    else if !s.solar.Valid() then Failure(InvalidSolarArray)
    else if !s.building.Valid() then Failure(InvalidBuilding)
    else if !s.grid.Valid() then Failure(InvalidGrid)
    else LoopOutcome(s.Plant(), s.solar, s.building, provider, s.steps, s.InitialSoc())
  }

  lemma {:induction false} LoopFailureIsFinal(
    plant: Plant, solar: SolarArray, building: BuildingLoad, provider: DecisionProvider,
    steps: seq<SimulationStep>, initialSoc: real, n: nat)
    requires n <= |steps|
    requires LoopOutcome(plant, solar, building, provider, steps[..n], initialSoc).Failure?
    ensures LoopOutcome(plant, solar, building, provider, steps, initialSoc)
         == LoopOutcome(plant, solar, building, provider, steps[..n], initialSoc)
  {
    if n == |steps| {
      assert steps[..n] == steps;
    } else {
      assert Init(steps)[..n] == steps[..n];
      LoopFailureIsFinal(plant, solar, building, provider, Init(steps), initialSoc, n);
    }
  }

  // ----- the runner itself -----

  method ApplyToBattery(battery: Battery, action: ControlAction, requested: real, surplus: real, deficit: real)
    returns (r: Result<BatteryMove, SimulationError>)
    requires battery.Valid()
    modifies battery`stateOfChargeKwh
    ensures battery.Valid()
    ensures r == BatteryOutcome(battery.capacityKwh, old(battery.stateOfChargeKwh), action, requested, surplus, deficit)
    ensures r.Success? ==>
              battery.stateOfChargeKwh == old(battery.stateOfChargeKwh) + r.value.charged - r.value.discharged
  {
    match action {
      case ChargeBattery =>
        var charged :- battery.Charge(Min(requested, surplus));
        return Success(BatteryMove(charged, 0.0));
      case DischargeBattery =>
        var discharged :- battery.Discharge(Min(requested, deficit));
        return Success(BatteryMove(0.0, discharged));
      case Unrecognised(name) =>
        return Failure(UnknownAction(name));
      case _ =>
        return Success(BatteryMove(0.0, 0.0));
    }
  }

  method ApplyToPlant(battery: Battery, grid: GridConnection, hours: real, net: real, d: ControlDecision)
    returns (r: Result<Flow, SimulationError>)
    requires battery.Valid()
    modifies battery`stateOfChargeKwh
    ensures battery.Valid()
    ensures r == PlantOutcome(Plant(battery.capacityKwh, grid), hours, net, old(battery.stateOfChargeKwh), d)
    ensures r.Success? ==> battery.stateOfChargeKwh == r.value.socAfter
  {
    var socBefore := battery.stateOfChargeKwh;
    var surplus, deficit := Max(net, 0.0), Max(-net, 0.0);
    var move :- ApplyToBattery(battery, d.action, RequestedEnergy(d, hours), surplus, deficit);
    surplus, deficit := surplus - move.charged, deficit - move.discharged;
    var sold :- GridOutcome(grid, Export, surplus, hours);
    var bought :- GridOutcome(grid, Import, deficit, hours);
    return Success(Flow(socBefore, move.charged, move.discharged, battery.stateOfChargeKwh,
                        bought.transferred, sold.transferred, sold.remaining, bought.remaining));
  }

  /** One iteration of the run: the last of the given steps. */
  method RunStep(
    steps: seq<SimulationStep>, battery: Battery, solar: SolarArray, building: BuildingLoad, grid: GridConnection,
    provider: DecisionProvider, startTimeHours: real)
    returns (r: Result<LoopStep, SimulationError>)
    requires battery.Valid() && steps != [] && startTimeHours == ElapsedHours(Init(steps))
    modifies battery`stateOfChargeKwh
    ensures battery.Valid()
    ensures r == LoopStepOutcome(
              Plant(battery.capacityKwh, grid), solar, building, provider, steps, old(battery.stateOfChargeKwh))
    ensures r.Success? ==> battery.stateOfChargeKwh == r.value.flow.socAfter
  {
    var conditions := steps[|steps| - 1];
    var generated :- solar.GeneratedEnergy(conditions.irradianceFactor, conditions.intervalHours);
    var consumed :- building.ConsumedEnergy(conditions.activityFactor, conditions.intervalHours);
    var balance :- Calculate(generated, consumed);
    var x := Interval(conditions.intervalHours, generated, consumed);
    var measurement :- Reference.CreateMeasurement(
      MeasurementBefore(|steps|, startTimeHours + x.hours, x, balance.netEnergyKwh, battery.stateOfChargeKwh));
    var decision :- provider(measurement);
    var flow :- ApplyToPlant(battery, grid, x.hours, balance.netEnergyKwh, decision);
    r := Checked(LoopStep(|steps|, startTimeHours, x, balance.netEnergyKwh, decision, flow));
  }

  method RunSteps(
    conditions: seq<SimulationStep>, battery: Battery, solar: SolarArray, building: BuildingLoad, grid: GridConnection,
    provider: DecisionProvider)
    returns (r: Result<seq<LoopStep>, SimulationError>)
    requires battery.Valid()
    modifies battery`stateOfChargeKwh
    ensures r == LoopOutcome(
              Plant(battery.capacityKwh, grid), solar, building, provider, conditions, old(battery.stateOfChargeKwh))
  {
    ghost var plant, soc0 := Plant(battery.capacityKwh, grid), battery.stateOfChargeKwh;
    var steps: seq<LoopStep> := [];
    var elapsedHours := 0.0;
    for k := 0 to |conditions|
      invariant battery.Valid()
      invariant LoopOutcome(plant, solar, building, provider, conditions[..k], soc0) == Success(steps)
      invariant battery.stateOfChargeKwh == SocLeftBy(steps, soc0)
      invariant elapsedHours == ElapsedHours(conditions[..k])
    {
      assert Init(conditions[..k + 1]) == conditions[..k];
      var step := RunStep(conditions[..k + 1], battery, solar, building, grid, provider, elapsedHours);
      elapsedHours := elapsedHours + conditions[k].intervalHours;
      match step {
        case Failure(error) =>
          LoopFailureIsFinal(plant, solar, building, provider, conditions, soc0, k + 1);
          return Failure(error);
        case Success(result) =>
          steps := steps + [result];
      }
    }
    assert conditions[..|conditions|] == conditions;
    return Success(steps);
  }

  method Run(s: SimulationScenario, provider: DecisionProvider) returns (r: Result<seq<LoopStep>, SimulationError>)
    ensures r == RunOutcome(s, provider)
  {
    var battery :- Battery.Create(s.battery.capacityKwh, s.battery.initialStateOfChargeKwh);
    var solar :- CreateSolarArray(s.solar.installedCapacityKw, s.solar.performanceRatio);
    var building :- CreateBuilding(s.building.baseLoadKw, s.building.peakLoadKw);
    var grid :- CreateGrid(s.grid.maxImportPowerKw, s.grid.maxExportPowerKw, s.grid.isAvailable);
    r := RunSteps(s.steps, battery, solar, building, grid, provider);
  }

  datatype ScenarioComparison = ScenarioComparison(controller: seq<LoopStep>, reference: seq<Reference.TimelineStep>)

  /** The reference runs only once the controller's run is complete. */
  function ComparisonOutcome(s: SimulationScenario, provider: DecisionProvider)
    : Result<ScenarioComparison, SimulationError>
  {
    var controller :- RunOutcome(s, provider);
    var reference :- Reference.ScenarioOutcome(s);
    Success(ScenarioComparison(controller, reference))
  }

  /** ControllerInTheLoopRunner.compare: the same scenario under both strategies,
      each on a battery of its own. */
  method Compare(s: SimulationScenario, provider: DecisionProvider)
    returns (r: Result<ScenarioComparison, SimulationError>)
    ensures r == ComparisonOutcome(s, provider)
  {
    var controller :- Run(s, provider);
    var reference :- Reference.RunScenario(s);
    return Success(ScenarioComparison(controller, reference));
  }

  // ----- the closed form -----

  /** A provider that always answers. */
  type Policy = EnergyMeasurement -> ControlDecision

  predicate KnownAction(d: ControlDecision) {
    !d.action.Unrecognised?
  }

  function Hours(xs: seq<Interval>): real {
    if xs == [] then 0.0 else Hours(Init(xs)) + Last(xs).hours
  }

  /** What the policy is asked about the last of the given intervals. */
  function Question(xs: seq<Interval>, soc: real): EnergyMeasurement
    requires xs != []
  {
    MeasurementBefore(|xs|, Hours(xs), Last(xs), Net(Last(xs)), soc)
  }

  function LoopStepOf(plant: Plant, xs: seq<Interval>, policy: Policy, soc: real): LoopStep
    requires xs != []
  {
    var x, d := Last(xs), policy(Question(xs, soc));
    LoopStep(|xs|, Hours(Init(xs)), x, Net(x), d, ApplyDecision(plant, x, soc, d))
  }

  function LoopRun(plant: Plant, xs: seq<Interval>, policy: Policy, initialSoc: real): (steps: seq<LoopStep>)
    ensures |steps| == |xs|
  {
    if xs == [] then [] else
    var before := LoopRun(plant, Init(xs), policy, initialSoc);
    before + [LoopStepOf(plant, xs, policy, SocLeftBy(before, initialSoc))]
  }

  function FlowsOf(steps: seq<LoopStep>): (flows: seq<Flow>)
    ensures |flows| == |steps|
    ensures forall k :: 0 <= k < |flows| ==> flows[k] == steps[k].flow
  {
    seq(|steps|, k requires 0 <= k < |steps| => steps[k].flow)
  }

  function LoopFlows(plant: Plant, xs: seq<Interval>, policy: Policy, initialSoc: real): seq<Flow> {
    FlowsOf(LoopRun(plant, xs, policy, initialSoc))
  }

  lemma LoopFlowsUnfold(plant: Plant, xs: seq<Interval>, policy: Policy, initialSoc: real)
    requires xs != []
    ensures
      var before := LoopFlows(plant, Init(xs), policy, initialSoc);
      var soc := SocAfter(before, initialSoc);
      && soc == SocLeftBy(LoopRun(plant, Init(xs), policy, initialSoc), initialSoc)
      && LoopFlows(plant, xs, policy, initialSoc)
         == before + [ApplyDecision(plant, Last(xs), soc, policy(Question(xs, soc)))]
  {
  }

  lemma {:induction false} LoopRunPrefix(plant: Plant, xs: seq<Interval>, policy: Policy, initialSoc: real, n: nat)
    requires n <= |xs|
    ensures LoopRun(plant, xs[..n], policy, initialSoc) == LoopRun(plant, xs, policy, initialSoc)[..n]
  {
    if n == |xs| {
      assert xs[..n] == xs;
    } else {
      assert Init(xs)[..n] == xs[..n];
      LoopRunPrefix(plant, Init(xs), policy, initialSoc, n);
    }
  }

  lemma LoopFlowsPrefix(plant: Plant, xs: seq<Interval>, policy: Policy, initialSoc: real, n: nat)
    requires n <= |xs|
    ensures LoopFlows(plant, xs[..n], policy, initialSoc) == LoopFlows(plant, xs, policy, initialSoc)[..n]
  {
    LoopRunPrefix(plant, xs, policy, initialSoc, n);
  }

  lemma LoopRunAt(plant: Plant, xs: seq<Interval>, policy: Policy, initialSoc: real, k: nat)
    requires k < |xs|
    ensures LoopRun(plant, xs, policy, initialSoc)[k]
         == LoopStepOf(plant, xs[..k + 1], policy, SocLeftBy(LoopRun(plant, xs, policy, initialSoc)[..k], initialSoc))
  {
    assert Init(xs[..k + 1]) == xs[..k];
    LoopRunPrefix(plant, xs, policy, initialSoc, k + 1);
    LoopRunPrefix(plant, xs, policy, initialSoc, k);
  }

  /** Under any policy the plant stays physical: in particular the state of charge
      never leaves [0, capacity]. */
  lemma {:induction false} AnyPolicyKeepsThePlantPhysical(
    plant: Plant, xs: seq<Interval>, policy: Policy, initialSoc: real)
    requires plant.Valid() && ValidIntervals(xs) && ValidBattery(plant.capacity, initialSoc)
    ensures PhysicalRun(plant, xs, LoopFlows(plant, xs, policy, initialSoc), initialSoc)
    ensures ValidBattery(plant.capacity, SocAfter(LoopFlows(plant, xs, policy, initialSoc), initialSoc))
  {
    if xs == [] {
    } else {
      AnyPolicyKeepsThePlantPhysical(plant, Init(xs), policy, initialSoc);
      LoopFlowsUnfold(plant, xs, policy, initialSoc);
      var before := LoopFlows(plant, Init(xs), policy, initialSoc);
      var soc := SocAfter(before, initialSoc);
      var d := policy(Question(xs, soc));
      AnyDecisionIsFeasible(plant, Last(xs), soc, d);
      PhysicalRunSnoc(plant, xs, before, ApplyDecision(plant, Last(xs), soc, d), initialSoc);
      PhysicalRunAccounts(plant, xs, LoopFlows(plant, xs, policy, initialSoc), initialSoc);
    }
  }

  /** The plant does what the closed form says, for every known action. */
  lemma PlantClosedForm(plant: Plant, x: Interval, soc: real, d: ControlDecision)
    requires plant.Valid() && ValidInterval(x) && ValidBattery(plant.capacity, soc) && KnownAction(d)
    ensures PlantOutcome(plant, x.hours, Net(x), soc, d) == Success(ApplyDecision(plant, x, soc, d))
  {
    AnyDecisionIsFeasible(plant, x, soc, d);
    LimitIsNotNegative(plant.grid, Import, x.hours);
    LimitIsNotNegative(plant.grid, Export, x.hours);
  }

  /** The per-step conservation check never fires: sources and sinks differ by
      exactly what the balance snapped away. */
  lemma ConservationCheckNeverFires(plant: Plant, x: Interval, soc: real, d: ControlDecision)
    ensures
      var f := ApplyDecision(plant, x, soc, d);
      && Sources(x, f) - Sinks(x, f) == x.generated - x.consumed - Net(x)
      && EnergyIsConserved(x, f)
  {
  }

  /** What the check accepts, spelled out: everything that came in against everything
      that went out, to within a millionth of a kilowatt-hour. */
  lemma CheckInNumbers(step: LoopStep)
    ensures
      var x, f := step.interval, step.flow;
      var difference :=
        (x.generated + f.discharged + f.imported + f.unserved) - (x.consumed + f.charged + f.exported + f.curtailed);
      Checked(step) ==
      if -0.000001 <= difference <= 0.000001 then Success(step) else Failure(EnergyNotConserved(step.stepNumber))
  {
  }

  lemma QuestionIsAccepted(xs: seq<Interval>, soc: real)
    requires xs != [] && ValidInterval(Last(xs)) && Hours(xs) > 0.0 && soc >= 0.0
    ensures Accepted(Question(xs, soc))
    ensures Reference.CreateMeasurement(Question(xs, soc)) == Success(Question(xs, soc))
    ensures CppMeasurement(D.EXACT, Lift(Question(xs, soc))).Success?
  {
    var x := Last(xs);
    ProductNonNegative(NET_RELATIVE_TOLERANCE, Max(x.generated, x.consumed));
    ExactAcceptance(Question(xs, soc));
  }

  /** A provider seen as a policy; the default is never used where it answers. */
  function Answers(provider: DecisionProvider): Policy {
    (m: EnergyMeasurement) =>
      match provider(m)
      case Success(d) => d
      case Failure(_) => IdleCommand(m)
  }

  /** Every question the run asks is answered with an action the plant knows. */
  predicate AnswersUsably(plant: Plant, xs: seq<Interval>, provider: DecisionProvider, initialSoc: real) {
    xs == [] ||
    (&& AnswersUsably(plant, Init(xs), provider, initialSoc)
     && var soc := SocAfter(LoopFlows(plant, Init(xs), Answers(provider), initialSoc), initialSoc);
        var answer := provider(Question(xs, soc));
        answer.Success? && KnownAction(answer.value))
  }

  lemma {:induction false} HoursAgree(solar: SolarArray, building: BuildingLoad, steps: seq<SimulationStep>)
    ensures Hours(IntervalsOf(solar, building, steps)) == ElapsedHours(steps)
  {
    if steps == [] {
    } else {
      HoursAgree(solar, building, Init(steps));
      InitOfSnoc(IntervalsOf(solar, building, Init(steps)), IntervalOf(solar, building, Last(steps)));
    }
  }

  lemma UnknownActionStopsThePlant(plant: Plant, hours: real, net: real, soc: real, d: ControlDecision)
    requires !KnownAction(d)
    ensures PlantOutcome(plant, hours, net, soc, d) == Failure(UnknownAction(d.action.name))
  {
  }

  /** Why an answer ends the run, if it does. */
  function AnswerObjection(answer: Result<ControlDecision, SimulationError>): Option<SimulationError> {
    match answer
    case Failure(error) => Some(error)
    case Success(d) => if KnownAction(d) then None else Some(UnknownAction(d.action.name))
  }

  /** A value, unless there is an objection to it. */
  function Unless<T>(objection: Option<SimulationError>, value: T): Result<T, SimulationError> {
    match objection
    case None => Success(value)
    case Some(error) => Failure(error)
  }

  /** One interval, once its measurement is accepted: ask, apply, check. */
  lemma IntervalUnfolds(plant: Plant, provider: DecisionProvider, xs: seq<Interval>, soc: real)
    requires xs != [] && ValidInterval(Last(xs)) && Hours(xs) > 0.0 && soc >= 0.0
    ensures
      var x := Last(xs);
      var answer := provider(Question(xs, soc));
      IntervalOutcome(plant, provider, |xs|, Hours(Init(xs)), x, soc) ==
      if answer.Failure? then Failure(answer.error) else
      match PlantOutcome(plant, x.hours, Net(x), soc, answer.value)
      case Failure(error) => Failure(error)
      case Success(flow) => Checked(LoopStep(|xs|, Hours(Init(xs)), x, Net(x), answer.value, flow))
  {
    QuestionIsAccepted(xs, soc);
    var x := Last(xs);
    assert Calculate(x.generated, x.consumed).value.netEnergyKwh == Net(x);
    assert MeasurementBefore(|xs|, Hours(Init(xs)) + x.hours, x, Net(x), soc) == Question(xs, soc);
  }

  /** One interval on a valid plant fails only if the answer is unusable. */
  lemma IntervalClosedForm(plant: Plant, provider: DecisionProvider, xs: seq<Interval>, soc: real)
    requires plant.Valid() && ValidBattery(plant.capacity, soc)
    requires xs != [] && ValidInterval(Last(xs)) && Hours(xs) > 0.0
    ensures IntervalOutcome(plant, provider, |xs|, Hours(Init(xs)), Last(xs), soc)
         == Unless(AnswerObjection(provider(Question(xs, soc))), LoopStepOf(plant, xs, Answers(provider), soc))
  {
    var x, answer := Last(xs), provider(Question(xs, soc));
    IntervalUnfolds(plant, provider, xs, soc);
    if answer.Success? {
      if KnownAction(answer.value) {
        PlantClosedForm(plant, x, soc, answer.value);
        ConservationCheckNeverFires(plant, x, soc, answer.value);
      } else {
        UnknownActionStopsThePlant(plant, x.hours, Net(x), soc, answer.value);
      }
    }
  }

  /** Why the conditions of a step end the run, if they do. */
  function ConditionsObjection(step: SimulationStep): Option<SimulationError> {
    if step.intervalHours <= 0.0 then Some(InvalidInterval)
    else if !(0.0 <= step.irradianceFactor <= 1.0) then Some(InvalidIrradiance)
    else if !(0.0 <= step.activityFactor <= 1.0) then Some(InvalidActivity)
    else None
  }

  /** Why the last of the given steps ends the run, if it does: there is no other
      reason than its conditions and the provider's answer. */
  function StepObjection(
    solar: SolarArray, building: BuildingLoad, provider: DecisionProvider, steps: seq<SimulationStep>, soc: real)
    : Option<SimulationError>
    requires steps != []
  {
    if ConditionsObjection(Last(steps)).Some? then ConditionsObjection(Last(steps))
    else AnswerObjection(provider(Question(IntervalsOf(solar, building, steps), soc)))
  }

  lemma LoopStepClosedForm(
    plant: Plant, solar: SolarArray, building: BuildingLoad, provider: DecisionProvider,
    steps: seq<SimulationStep>, soc: real)
    requires plant.Valid() && solar.Valid() && building.Valid() && ValidBattery(plant.capacity, soc)
    requires steps != [] && ValidSteps(Init(steps))
    ensures LoopStepOutcome(plant, solar, building, provider, steps, soc)
         == Unless(StepObjection(solar, building, provider, steps, soc),
                   LoopStepOf(plant, IntervalsOf(solar, building, steps), Answers(provider), soc))
  {
    InitOfSnoc(IntervalsOf(solar, building, Init(steps)), IntervalOf(solar, building, Last(steps)));
    ObserveSucceedsExactlyOnValidSteps(solar, building, Last(steps));
    if ValidStep(Last(steps)) {
      HoursAgree(solar, building, steps);
      HoursAgree(solar, building, Init(steps));
      ValidStepsGiveValidIntervals(solar, building, Init(steps));
      IntervalClosedForm(plant, provider, IntervalsOf(solar, building, steps), soc);
    }
  }

  /** The first objection to any of the steps. */
  function LoopObjection(
    plant: Plant, solar: SolarArray, building: BuildingLoad, provider: DecisionProvider,
    steps: seq<SimulationStep>, initialSoc: real)
    : Option<SimulationError>
  {
    if steps == [] then None else
    var earlier := LoopObjection(plant, solar, building, provider, Init(steps), initialSoc);
    if earlier.Some? then earlier else
    var flows := LoopFlows(plant, IntervalsOf(solar, building, Init(steps)), Answers(provider), initialSoc);
    StepObjection(solar, building, provider, steps, SocAfter(flows, initialSoc))
  }

  lemma NoStepObjectionIff(
    solar: SolarArray, building: BuildingLoad, provider: DecisionProvider, steps: seq<SimulationStep>, soc: real)
    requires steps != []
    ensures
      var answer := provider(Question(IntervalsOf(solar, building, steps), soc));
      StepObjection(solar, building, provider, steps, soc).None? <==>
      ValidStep(Last(steps)) && answer.Success? && KnownAction(answer.value)
  {
  }

  lemma {:induction false} NoObjectionIff(
    plant: Plant, solar: SolarArray, building: BuildingLoad, provider: DecisionProvider,
    steps: seq<SimulationStep>, initialSoc: real)
    ensures LoopObjection(plant, solar, building, provider, steps, initialSoc).None? <==>
            ValidSteps(steps) && AnswersUsably(plant, IntervalsOf(solar, building, steps), provider, initialSoc)
  {
    if steps == [] {
      assert IntervalsOf(solar, building, steps) == [];
    } else {
      var xs := IntervalsOf(solar, building, Init(steps));
      var soc := SocAfter(LoopFlows(plant, xs, Answers(provider), initialSoc), initialSoc);
      NoObjectionIff(plant, solar, building, provider, Init(steps), initialSoc);
      NoStepObjectionIff(solar, building, provider, steps, soc);
      InitOfSnoc(xs, IntervalOf(solar, building, Last(steps)));
      assert ValidSteps(steps) <==> ValidSteps(Init(steps)) && ValidStep(Last(steps));
    }
  }

  lemma LoopOutcomeUnfolds(
    plant: Plant, solar: SolarArray, building: BuildingLoad, provider: DecisionProvider,
    steps: seq<SimulationStep>, initialSoc: real, before: seq<LoopStep>, step: Result<LoopStep, SimulationError>)
    requires steps != [] && LoopOutcome(plant, solar, building, provider, Init(steps), initialSoc) == Success(before)
    requires step == LoopStepOutcome(plant, solar, building, provider, steps, SocLeftBy(before, initialSoc))
    ensures LoopOutcome(plant, solar, building, provider, steps, initialSoc)
         == match step case Success(s) => Success(before + [s]) case Failure(error) => Failure(error)
  {
  }

  /** One step more: what the run returns, given what it returned before. */
  lemma LoopClosedFormSnoc(
    plant: Plant, solar: SolarArray, building: BuildingLoad, provider: DecisionProvider,
    steps: seq<SimulationStep>, initialSoc: real, before: seq<LoopStep>)
    requires plant.Valid() && solar.Valid() && building.Valid() && ValidBattery(plant.capacity, initialSoc)
    requires steps != [] && LoopObjection(plant, solar, building, provider, Init(steps), initialSoc).None?
    requires before == LoopRun(plant, IntervalsOf(solar, building, Init(steps)), Answers(provider), initialSoc)
    requires LoopOutcome(plant, solar, building, provider, Init(steps), initialSoc) == Success(before)
    ensures LoopOutcome(plant, solar, building, provider, steps, initialSoc)
         == Unless(StepObjection(solar, building, provider, steps, SocLeftBy(before, initialSoc)),
                   LoopRun(plant, IntervalsOf(solar, building, steps), Answers(provider), initialSoc))
  {
    var xs, soc := IntervalsOf(solar, building, steps), SocLeftBy(before, initialSoc);
    InitOfSnoc(IntervalsOf(solar, building, Init(steps)), IntervalOf(solar, building, Last(steps)));
    NoObjectionIff(plant, solar, building, provider, Init(steps), initialSoc);
    ValidStepsGiveValidIntervals(solar, building, Init(steps));
    AnyPolicyKeepsThePlantPhysical(plant, Init(xs), Answers(provider), initialSoc);
    LoopFlowsUnfold(plant, xs, Answers(provider), initialSoc);
    LoopStepClosedForm(plant, solar, building, provider, steps, soc);
    LoopOutcomeUnfolds(plant, solar, building, provider, steps, initialSoc, before,
                       LoopStepOutcome(plant, solar, building, provider, steps, soc));
  }

  lemma SocLeftByFlows(steps: seq<LoopStep>, initialSoc: real)
    ensures SocAfter(FlowsOf(steps), initialSoc) == SocLeftBy(steps, initialSoc)
  {
  }

  /** A loop run fails only for a reason given by its inputs, with the first such
      reason as its error; otherwise it is the closed form. */
  lemma {:induction false} LoopClosedForm(
    plant: Plant, solar: SolarArray, building: BuildingLoad, provider: DecisionProvider,
    steps: seq<SimulationStep>, initialSoc: real)
    requires plant.Valid() && solar.Valid() && building.Valid() && ValidBattery(plant.capacity, initialSoc)
    ensures LoopOutcome(plant, solar, building, provider, steps, initialSoc)
         == Unless(LoopObjection(plant, solar, building, provider, steps, initialSoc),
                   LoopRun(plant, IntervalsOf(solar, building, steps), Answers(provider), initialSoc))
  {
    if steps == [] {
      assert IntervalsOf(solar, building, steps) == [];
    } else {
      LoopClosedForm(plant, solar, building, provider, Init(steps), initialSoc);
      if LoopObjection(plant, solar, building, provider, Init(steps), initialSoc).None? {
        var before := LoopRun(plant, IntervalsOf(solar, building, Init(steps)), Answers(provider), initialSoc);
        SocLeftByFlows(before, initialSoc);
        LoopClosedFormSnoc(plant, solar, building, provider, steps, initialSoc, before);
      }
    }
  }

  /** Why a configuration cannot be built, if it cannot: the components in order. */
  function ConfigurationObjection(s: SimulationScenario): Option<SimulationError> {
    if !ValidBattery(s.battery.capacityKwh, s.battery.initialStateOfChargeKwh) then Some(InvalidBattery)
    else if !s.solar.Valid() then Some(InvalidSolarArray)
    else if !s.building.Valid() then Some(InvalidBuilding)
    else if !s.grid.Valid() then Some(InvalidGrid)
    else None
  }

  function Objection(s: SimulationScenario, provider: DecisionProvider): Option<SimulationError> {
    if ConfigurationObjection(s).Some? then ConfigurationObjection(s)
    else LoopObjection(s.Plant(), s.solar, s.building, provider, s.steps, s.InitialSoc())
  }

  /** No valid scenario aborts: a run ends with the first objection to its
      configuration, its conditions or an answer, and completes exactly when there is
      none. No measurement is ever rejected and conservation never fails. */
  lemma NoValidScenarioAborts(s: SimulationScenario, provider: DecisionProvider)
    ensures RunOutcome(s, provider)
         == Unless(Objection(s, provider), LoopRun(s.Plant(), s.Intervals(), Answers(provider), s.InitialSoc()))
    ensures
      RunOutcome(s, provider).Success? <==>
      s.ValidConfiguration() && ValidSteps(s.steps) && AnswersUsably(s.Plant(), s.Intervals(), provider, s.InitialSoc())
  {
    if s.ValidConfiguration() {
      LoopClosedForm(s.Plant(), s.solar, s.building, provider, s.steps, s.InitialSoc());
      NoObjectionIff(s.Plant(), s.solar, s.building, provider, s.steps, s.InitialSoc());
    }
  }

  /** The first unknown action of an otherwise usable run ends it with its name,
      whatever conditions and answers would have followed. */
  lemma UnknownActionStopsTheRun(s: SimulationScenario, provider: DecisionProvider, k: nat)
    requires s.ValidConfiguration() && k < |s.steps| && ValidSteps(s.steps[..k + 1])
    requires
      var xs := IntervalsOf(s.solar, s.building, s.steps[..k + 1]);
      var soc := SocAfter(LoopFlows(s.Plant(), Init(xs), Answers(provider), s.InitialSoc()), s.InitialSoc());
      var answer := provider(Question(xs, soc));
      && AnswersUsably(s.Plant(), Init(xs), provider, s.InitialSoc())
      && answer.Success? && !KnownAction(answer.value)
    ensures
      var xs := IntervalsOf(s.solar, s.building, s.steps[..k + 1]);
      var soc := SocAfter(LoopFlows(s.Plant(), Init(xs), Answers(provider), s.InitialSoc()), s.InitialSoc());
      RunOutcome(s, provider) == Failure(UnknownAction(provider(Question(xs, soc)).value.action.name))
  {
    var upTo := s.steps[..k + 1];
    InitOfSnoc(IntervalsOf(s.solar, s.building, Init(upTo)), IntervalOf(s.solar, s.building, Last(upTo)));
    assert ValidSteps(Init(upTo)) && ValidStep(Last(upTo));
    NoObjectionIff(s.Plant(), s.solar, s.building, provider, Init(upTo), s.InitialSoc());
    LoopClosedForm(s.Plant(), s.solar, s.building, provider, upTo, s.InitialSoc());
    LoopFailureIsFinal(s.Plant(), s.solar, s.building, provider, s.steps, s.InitialSoc(), k + 1);
  }

  // ----- the C++ controller in the loop -----

  /** EnergyController as the decision provider. */
  function ControllerPolicy(limits: Limits): Policy {
    (m: EnergyMeasurement) => if m.intervalHours > 0.0 then Decide(limits, m) else IdleCommand(m)
  }

  /** The measurement reports the interval and the state of charge it is asked about. */
  predicate Reports(m: EnergyMeasurement, x: Interval, soc: real) {
    m.intervalHours == x.hours && m.netEnergyKwh == Net(x) && m.batteryStateOfChargeKwh == soc
  }

  /** The energy a realised decision requests of the plant. */
  lemma RealisedRequest(d: ControlDecision, m: EnergyMeasurement, action: ControlAction, wish: real)
    requires RealisesWish(d, m, action, wish)
    ensures wish > 0.0 ==> RequestedEnergy(d, m.intervalHours) == wish
  {
  }

  /** Clipping a wish to what is physically possible gives the limited strategy;
      stated over the energies alone, whatever the limits they come from. */
  lemma ClippedWish(
    plant: Plant, x: Interval, soc: real, action: ControlAction, requested: real,
    maxCharge: real, roomAbove: real, maxDischarge: real, roomBelow: real)
    requires ValidBattery(plant.capacity, soc)
    requires maxCharge >= 0.0 && roomAbove >= 0.0 && maxDischarge >= 0.0 && roomBelow >= 0.0
    requires
      var store, supply := SmallestOf(Net(x), maxCharge, roomAbove), SmallestOf(-Net(x), maxDischarge, roomBelow);
      if store > 0.0 then action == ChargeBattery && requested == store
      else if supply > 0.0 then action == DischargeBattery && requested == supply
      else action == Idle
    ensures ChargedBy(plant, x, soc, action, requested)
         == MoveWithin(SurplusOf(x), plant.capacity - soc, maxCharge, roomAbove)
    ensures DischargedBy(x, soc, action, requested) == MoveWithin(DeficitOf(x), soc, maxDischarge, roomBelow)
  {
  }

  /** What a decision asks of the plant: the wanted energies of its measurement. */
  predicate Requests(limits: Limits, x: Interval, soc: real, action: ControlAction, requested: real) {
    var store := SmallestOf(Net(x), Energy(limits.maxChargePowerKw, x.hours), RoomAbove(limits, soc));
    var supply := SmallestOf(-Net(x), Energy(limits.maxDischargePowerKw, x.hours), RoomBelow(limits, soc));
    if store > 0.0 then action == ChargeBattery && requested == store
    else if supply > 0.0 then action == DischargeBattery && requested == supply
    else action == Idle
  }

  lemma RealisedRequests(limits: Limits, x: Interval, soc: real, m: EnergyMeasurement, d: ControlDecision)
    requires Reports(m, x, soc) && Realises(limits, m, d)
    ensures Requests(limits, x, soc, d.action, RequestedEnergy(d, x.hours))
  {
    if Net(x) > 0.0 {
      RealisedRequest(d, m, ChargeBattery, WantedCharge(limits, m));
    } else if Net(x) < 0.0 {
      RealisedRequest(d, m, DischargeBattery, WantedDischarge(limits, m));
    }
  }

  lemma RequestedMoves(plant: Plant, limits: Limits, x: Interval, soc: real, action: ControlAction, requested: real)
    requires ValidBattery(plant.capacity, soc) && Requests(limits, x, soc, action, requested)
    requires Energy(limits.maxChargePowerKw, x.hours) >= 0.0 && Energy(limits.maxDischargePowerKw, x.hours) >= 0.0
    ensures ChargedBy(plant, x, soc, action, requested) == ChargeUnder(plant, Limited(limits), x, soc)
    ensures DischargedBy(x, soc, action, requested) == DischargeUnder(Limited(limits), x, soc)
  {
    ClippedWish(plant, x, soc, action, requested,
                Energy(limits.maxChargePowerKw, x.hours), RoomAbove(limits, soc),
                Energy(limits.maxDischargePowerKw, x.hours), RoomBelow(limits, soc));
  }

  /** What the plant does with a controller decision is the limited strategy. */
  lemma ControllerStepClosedForm(plant: Plant, limits: Limits, xs: seq<Interval>, soc: real)
    requires ValidLimits(limits) && ValidBattery(plant.capacity, soc)
    requires xs != [] && ValidInterval(Last(xs))
    ensures ApplyDecision(plant, Last(xs), soc, ControllerPolicy(limits)(Question(xs, soc)))
         == StrategyFlow(plant, Limited(limits), Last(xs), soc)
  {
    var m, d := Question(xs, soc), Decide(limits, Question(xs, soc));
    DecideClosedForm(limits, m);
    EnergyNotNegative(limits.maxChargePowerKw, m.intervalHours);
    EnergyNotNegative(limits.maxDischargePowerKw, m.intervalHours);
    RealisedRequests(limits, Last(xs), soc, m, d);
    RequestedMoves(plant, limits, Last(xs), soc, d.action, RequestedEnergy(d, m.intervalHours));
  }

  lemma {:induction false} ControllerLoopClosedForm(plant: Plant, limits: Limits, xs: seq<Interval>, initialSoc: real)
    requires plant.Valid() && ValidLimits(limits) && ValidIntervals(xs) && ValidBattery(plant.capacity, initialSoc)
    ensures LoopFlows(plant, xs, ControllerPolicy(limits), initialSoc)
         == StrategyRun(plant, Limited(limits), xs, initialSoc)
  {
    if xs == [] {
    } else {
      ControllerLoopClosedForm(plant, limits, Init(xs), initialSoc);
      LoopFlowsUnfold(plant, xs, ControllerPolicy(limits), initialSoc);
      StrategyRunIsPhysical(plant, Limited(limits), Init(xs), initialSoc);
      var soc := SocAfter(LoopFlows(plant, Init(xs), ControllerPolicy(limits), initialSoc), initialSoc);
      ControllerStepClosedForm(plant, limits, xs, soc);
    }
  }

  /** When the window ends at or below the capacity, the plant never clips what
      the controller requests. */
  lemma ControllerRequestsAreUnclipped(
    plant: Plant, limits: Limits, x: Interval, soc: real, m: EnergyMeasurement, d: ControlDecision)
    requires ValidBattery(plant.capacity, soc) && Reports(m, x, soc) && Realises(limits, m, d)
    requires limits.maximumBatterySocKwh <= plant.capacity && limits.minimumBatterySocKwh >= 0.0
    ensures
      var requested := RequestedEnergy(d, x.hours);
      && (d.action == ChargeBattery ==> ChargedBy(plant, x, soc, d.action, requested) == requested)
      && (d.action == DischargeBattery ==> DischargedBy(x, soc, d.action, requested) == requested)
  {
    if Net(x) > 0.0 {
      RealisedRequest(d, m, ChargeBattery, WantedCharge(limits, m));
    } else if Net(x) < 0.0 {
      RealisedRequest(d, m, DischargeBattery, WantedDischarge(limits, m));
    }
  }
}
