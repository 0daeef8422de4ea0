/** The hardware layer: checked actuator commands, simulated actuators with failure
    injection, and the executor that drives the battery and the grid connection. */
module Hardware {
  import opened Foundation
  import C = Control
  import D = Doubles

  datatype ActuatorType = UnknownType | Battery | GridConnection | EvCharger

  datatype ActuatorAction = UnknownAction | Idle | Charge | Discharge | Import | Export

  datatype ActuatorStatus = Ok | InvalidArgument | NotConfigured | UnsupportedAction | ApplyFailed

  datatype ActuatorCommand = ActuatorCommand(action: ActuatorAction, requestedPowerKw: D.Double)

  predicate Supported(kind: ActuatorType, action: ActuatorAction) {
    action == Idle ||
    match kind
    case Battery => action in {Charge, Discharge}
    case GridConnection => action in {Import, Export}
    case EvCharger => action == Charge
    case UnknownType => false
  }

  predicate PowerIsValid(c: ActuatorCommand) {
    && c.requestedPowerKw.Finite?
    && (if c.action == Idle then c.requestedPowerKw.value == 0.0 else c.requestedPowerKw.value > 0.0)
  }

  /** The checks of gridflex_actuator_apply before the driver is called: the status
      that ends the call, or none if the driver decides. */
  function Screen(kind: ActuatorType, hasCallback: bool, c: ActuatorCommand): Option<ActuatorStatus> {
    if kind == UnknownType then Some(InvalidArgument)
    else if c.action == UnknownAction then Some(InvalidArgument)
    else if !Supported(kind, c.action) then Some(UnsupportedAction)
    else if !PowerIsValid(c) then Some(InvalidArgument)
    else if !hasCallback then Some(NotConfigured)
    else None
  }

  datatype ExecutorError = UnsupportedControlAction

  function BatteryCommand(c: C.ControlCommand<D.Double>): Result<ActuatorCommand, ExecutorError> {
    match c.action
    case Idle => Success(ActuatorCommand(Idle, D.ZERO))
    case ChargeBattery => Success(ActuatorCommand(Charge, c.requestedPowerKw))
    case DischargeBattery => Success(ActuatorCommand(Discharge, c.requestedPowerKw))
    case ImportFromGrid => Success(ActuatorCommand(Idle, D.ZERO))
    case ExportToGrid => Success(ActuatorCommand(Idle, D.ZERO))
    case Unrecognised(_) => Failure(UnsupportedControlAction)
  }

  function GridCommand(c: C.ControlCommand<D.Double>): Result<ActuatorCommand, ExecutorError> {
    match c.action
    case Idle => Success(ActuatorCommand(Idle, D.ZERO))
    case ChargeBattery => Success(ActuatorCommand(Idle, D.ZERO))
    case DischargeBattery => Success(ActuatorCommand(Idle, D.ZERO))
    case ImportFromGrid => Success(ActuatorCommand(Import, c.requestedPowerKw))
    case ExportToGrid => Success(ActuatorCommand(Export, c.requestedPowerKw))
    case Unrecognised(_) => Failure(UnsupportedControlAction)
  }

  /** Exactly the constructible commands with a known action pass every check on
      both devices, so that only a missing callback or the driver can fail. */
  lemma WellFormedCommandsPassTheHardwareLayer(step: int, action: C.ControlAction, power: D.Double, hasCallback: bool)
    requires step != 0 && !action.Unrecognised?
    ensures
      var c := C.ControlCommand(step, action, power);
      var battery, grid := BatteryCommand(c), GridCommand(c);
      && battery.Success? && grid.Success?
      && (C.CppCommand(step, action, power).Success? ==>
            && Screen(Battery, hasCallback, battery.value) == (if hasCallback then None else Some(NotConfigured))
            && Screen(GridConnection, hasCallback, grid.value) == (if hasCallback then None else Some(NotConfigured)))
      && (action != C.ControlAction.Idle && !C.CppCommand(step, action, power).Success? ==>
            Screen(Battery, hasCallback, battery.value) == Some(InvalidArgument)
            || Screen(GridConnection, hasCallback, grid.value) == Some(InvalidArgument))
  {
  }

  /** The actions each kind of actuator can be asked for besides idling. */
  const CAPABILITIES: set<(ActuatorType, ActuatorAction)> :=
    {(Battery, Charge), (Battery, Discharge), (GridConnection, Import), (GridConnection, Export), (EvCharger, Charge)}

  /** A command an actuator of this kind has to accept: idling at zero power, or a
      capability at a finite power above zero. */
  predicate Admissible(kind: ActuatorType, c: ActuatorCommand) {
    && kind != UnknownType
    && c.requestedPowerKw.Finite?
    && (if c.action == Idle then c.requestedPowerKw.value == 0.0
        else (kind, c.action) in CAPABILITIES && c.requestedPowerKw.value > 0.0)
  }

  /** Each refusal exactly when it is due: the driver is reached with admissible
      commands and a callback only, and an unsupported action is told apart from an
      unknown one and from an invalid power. */
  lemma RefusalsAreExact(kind: ActuatorType, hasCallback: bool, c: ActuatorCommand)
    ensures Screen(kind, hasCallback, c) == None <==> Admissible(kind, c) && hasCallback
    ensures Screen(kind, hasCallback, c) == Some(NotConfigured) <==> Admissible(kind, c) && !hasCallback
    ensures Screen(kind, hasCallback, c) == Some(UnsupportedAction) <==>
            && kind != UnknownType && c.action !in {UnknownAction, Idle}
            && (kind, c.action) !in CAPABILITIES
    ensures Screen(kind, hasCallback, c) in {None, Some(NotConfigured), Some(UnsupportedAction), Some(InvalidArgument)}
    ensures Supported(kind, c.action) <==> c.action == Idle || (kind, c.action) in CAPABILITIES
  {
  }

  // ----- device state and its evolution over any history -----

  const APPLY_COUNT_LIMIT: nat := 0x1_0000_0000

  /** What a simulated actuator holds; the counter is an unsigned 32-bit integer. */
  datatype DeviceState = DeviceState(
    failureEnabled: bool,
    applyCount: nat,
    lastAction: ActuatorAction,
    lastRequestedPowerKw: D.Double)

  const INITIAL_STATE: DeviceState := DeviceState(false, 0, UnknownAction, D.ZERO)

  datatype Applied = Applied(status: ActuatorStatus, state: DeviceState)

  /** The simulated driver: counts every call, records only successful ones. */
  function DriverOutcome(d: DeviceState, c: ActuatorCommand): Applied {
    var counted := d.(applyCount := (d.applyCount + 1) % APPLY_COUNT_LIMIT);
    if d.failureEnabled then Applied(ApplyFailed, counted)
    else Applied(Ok, counted.(lastAction := c.action, lastRequestedPowerKw := c.requestedPowerKw))
  }

  function ApplyTo(kind: ActuatorType, d: DeviceState, c: ActuatorCommand): Applied {
    match Screen(kind, true, c)
    case Some(status) => Applied(status, d)
    case None => DriverOutcome(d, c)
  }

  /** An admissible command fails exactly when a failure is injected; it is counted
      either way, and recorded exactly when it succeeds. */
  lemma DriverFailsAsInjected(kind: ActuatorType, d: DeviceState, c: ActuatorCommand)
    requires Admissible(kind, c) && d.applyCount < 4294967296
    ensures
      var a := ApplyTo(kind, d, c);
      && a.status == (if d.failureEnabled then ApplyFailed else Ok)
      && a.state == DeviceState(
           d.failureEnabled,
           if d.applyCount == 4294967295 then 0 else d.applyCount + 1,
           if d.failureEnabled then d.lastAction else c.action,
           if d.failureEnabled then d.lastRequestedPowerKw else c.requestedPowerKw)
  {
    RefusalsAreExact(kind, true, c);
  }

  datatype SystemState = SystemState(battery: DeviceState, grid: DeviceState)

  datatype Execution = Execution(batteryStatus: ActuatorStatus, gridStatus: ActuatorStatus) {
    predicate Succeeded() {
      batteryStatus == Ok && gridStatus == Ok
    }
  }

  datatype Executed = Executed(result: Result<Execution, ExecutorError>, state: SystemState)

  /** HardwareCommandExecutor::execute: both commands are built before either
      device is touched, then the battery is driven, then the grid. */
  function ExecuteOn(s: SystemState, c: C.ControlCommand<D.Double>): Executed {
    match BatteryCommand(c)
    case Failure(error) => Executed(Failure(error), s)
    case Success(batteryCommand) =>
      match GridCommand(c)
      case Failure(error) => Executed(Failure(error), s)
      case Success(gridCommand) =>
        var battery := ApplyTo(Battery, s.battery, batteryCommand);
        var grid := ApplyTo(GridConnection, s.grid, gridCommand);
        Executed(Success(Execution(battery.status, grid.status)), SystemState(battery.state, grid.state))
  }

  datatype Operation =
    | Execute(command: C.ControlCommand<D.Double>)
    | SetBatteryFailure(enabled: bool)
    | SetGridFailure(enabled: bool)

  function Step(s: SystemState, op: Operation): SystemState {
    match op
    case Execute(c) => ExecuteOn(s, c).state
    case SetBatteryFailure(enabled) => s.(battery := s.battery.(failureEnabled := enabled))
    case SetGridFailure(enabled) => s.(grid := s.grid.(failureEnabled := enabled))
  }

  const INITIAL_SYSTEM: SystemState := SystemState(INITIAL_STATE, INITIAL_STATE)

  function StateAfter(history: seq<Operation>): SystemState {
    if history == [] then INITIAL_SYSTEM else Step(StateAfter(Init(history)), Last(history))
  }

  /** The commands of a history were built by the ControlCommand constructor. */
  predicate Constructible(history: seq<Operation>) {
    forall k :: 0 <= k < |history| && history[k].Execute? ==>
      var c := history[k].command;
      C.CppCommand(c.sourceStepNumber, c.action, c.requestedPowerKw).Success?
  }

  /** What the k-th operation reported. */
  function Report(history: seq<Operation>, k: nat): Result<Execution, ExecutorError>
    requires k < |history| && history[k].Execute?
  {
    ExecuteOn(StateAfter(history[..k]), history[k].command).result
  }

  /** The two devices of the executor, and what belongs to each. */
  datatype Device = BatteryDevice | GridDevice {
    function Kind(): ActuatorType {
      if BatteryDevice? then Battery else GridConnection
    }

    function Command(c: C.ControlCommand<D.Double>): Result<ActuatorCommand, ExecutorError> {
      if BatteryDevice? then BatteryCommand(c) else GridCommand(c)
    }

    function State(s: SystemState): DeviceState {
      if BatteryDevice? then s.battery else s.grid
    }

    function Status(e: Execution): ActuatorStatus {
      if BatteryDevice? then e.batteryStatus else e.gridStatus
    }
  }

  /** The k-th operation is an execute reported successful for the device. */
  predicate ReportedSuccess(device: Device, history: seq<Operation>, k: nat)
    requires k < |history|
  {
    history[k].Execute? && Report(history, k).Success? && device.Status(Report(history, k).value) == Ok
  }

  lemma ReportOfPrefix(history: seq<Operation>, n: nat, k: nat)
    requires k < n <= |history| && history[k].Execute?
    ensures Report(history[..n], k) == Report(history, k)
  {
    assert history[..n][..k] == history[..k];
  }

  /** The device shows exactly what it was last successfully told. */
  predicate Shows(d: DeviceState, c: ActuatorCommand) {
    d.lastAction == c.action && d.lastRequestedPowerKw == c.requestedPowerKw
  }

  lemma SuccessfulDriveShows(kind: ActuatorType, d: DeviceState, c: ActuatorCommand)
    ensures
      var a := ApplyTo(kind, d, c);
      if a.status == Ok then Shows(a.state, c)
      else a.state.lastAction == d.lastAction && a.state.lastRequestedPowerKw == d.lastRequestedPowerKw
  {
  }

  /** The battery does what the command says about the battery: it charges or
      discharges at the requested power exactly when told to, and otherwise idles. */
  predicate BatteryObeys(d: DeviceState, c: C.ControlCommand<D.Double>) {
    && (d.lastAction == Charge <==> c.action == C.ChargeBattery)
    && (d.lastAction == Discharge <==> c.action == C.DischargeBattery)
    && (if c.action in {C.ChargeBattery, C.DischargeBattery}
        then d.lastRequestedPowerKw == c.requestedPowerKw
        else d.lastAction == Idle && d.lastRequestedPowerKw == D.ZERO)
  }

  /** And the grid connection what it says about the grid. */
  predicate GridObeys(d: DeviceState, c: C.ControlCommand<D.Double>) {
    && (d.lastAction == Import <==> c.action == C.ImportFromGrid)
    && (d.lastAction == Export <==> c.action == C.ExportToGrid)
    && (if c.action in {C.ImportFromGrid, C.ExportToGrid}
        then d.lastRequestedPowerKw == c.requestedPowerKw
        else d.lastAction == Idle && d.lastRequestedPowerKw == D.ZERO)
  }

  /** A device that shows its own part of a command does what the command says. */
  lemma ShowingIsObeying(c: C.ControlCommand<D.Double>)
    requires !c.action.Unrecognised?
    ensures BatteryCommand(c).Success? && GridCommand(c).Success?
    ensures forall d :: Shows(d, BatteryCommand(c).value) ==> BatteryObeys(d, c)
    ensures forall d :: Shows(d, GridCommand(c).value) ==> GridObeys(d, c)
  {
  }

  /** Executing drives each device with its own command. */
  lemma ExecuteDrives(device: Device, s: SystemState, c: C.ControlCommand<D.Double>)
    requires ExecuteOn(s, c).result.Success?
    ensures device.Command(c).Success?
    ensures
      var a := ApplyTo(device.Kind(), device.State(s), device.Command(c).value);
      && device.State(ExecuteOn(s, c).state) == a.state
      && device.Status(ExecuteOn(s, c).result.value) == a.status
  {
  }

  /** After any history each device does what the latest execute reported successful
      for it says, or is in its initial state if there was none. */
  lemma {:induction false} DeviceShowsLatestSuccess(device: Device, history: seq<Operation>, latest: int)
    requires -1 <= latest < |history|
    requires latest >= 0 ==> ReportedSuccess(device, history, latest)
    requires forall k :: latest < k < |history| ==> !ReportedSuccess(device, history, k)
    ensures
      var d := device.State(StateAfter(history));
      if latest == -1 then d.lastAction == UnknownAction && d.lastRequestedPowerKw == D.ZERO
      else if device.BatteryDevice? then BatteryObeys(d, history[latest].command)
      else GridObeys(d, history[latest].command)
  {
    if history == [] {
      assert latest == -1;
    } else {
      var n := |history| - 1;
      assert history[..n] == Init(history) && Last(history) == history[n];
      if latest < n {
        forall k | 0 <= k < n
          ensures ReportedSuccess(device, Init(history), k) == ReportedSuccess(device, history, k)
        {
          if history[k].Execute? {
            ReportOfPrefix(history, n, k);
          }
        }
        DeviceShowsLatestSuccess(device, Init(history), latest);
        assert !ReportedSuccess(device, history, n);
      }
      if history[n].Execute? && Report(history, n).Success? {
        var before, c := StateAfter(Init(history)), history[n].command;
        ExecuteDrives(device, before, c);
        ShowingIsObeying(c);
        SuccessfulDriveShows(device.Kind(), device.State(before), device.Command(c).value);
      }
    }
  }

  /** An execute that reached the devices: its action is known. */
  predicate Drives(op: Operation) {
    op.Execute? && !op.command.action.Unrecognised?
  }

  function ExecuteCount(history: seq<Operation>): nat {
    if history == [] then 0
    else ExecuteCount(Init(history)) +
         (if Drives(Last(history)) then 1 else 0)
  }

  lemma CountUp(count: nat)
    ensures (count % APPLY_COUNT_LIMIT + 1) % APPLY_COUNT_LIMIT == (count + 1) % APPLY_COUNT_LIMIT
  {
  }

  /** Both apply counters are the number of executes, modulo 2^32: failing devices
      count too, and a failing battery never keeps the grid from being driven. */
  lemma {:induction false} ApplyCountsAreExecutes(history: seq<Operation>)
    requires Constructible(history)
    ensures StateAfter(history).battery.applyCount == ExecuteCount(history) % 4294967296
    ensures StateAfter(history).grid.applyCount == ExecuteCount(history) % 4294967296
  {
    if history == [] {
    } else {
      ApplyCountsAreExecutes(Init(history));
      var op := Last(history);
      assert op == history[|history| - 1];
      CountUp(ExecuteCount(Init(history)));
      if Drives(op) {
        WellFormedCommandsPassTheHardwareLayer(
          op.command.sourceStepNumber, op.command.action, op.command.requestedPowerKw, true);
      }
    }
  }

  /** Whether a failure is injected into the device: what the latest toggle said. */
  function FailureInjected(device: Device, history: seq<Operation>): bool {
    if history == [] then false
    else match Last(history)
      case SetBatteryFailure(enabled) =>
        if device.BatteryDevice? then enabled else FailureInjected(device, Init(history))
      case SetGridFailure(enabled) =>
        if device.GridDevice? then enabled else FailureInjected(device, Init(history))
      case Execute(_) => FailureInjected(device, Init(history))
  }

  lemma {:induction false} TogglesAreRemembered(device: Device, history: seq<Operation>)
    ensures device.State(StateAfter(history)).failureEnabled == FailureInjected(device, history)
  {
    if history == [] {
    } else {
      TogglesAreRemembered(device, Init(history));
    }
  }

  /** Every execute of a constructible command with a known action reports, for each
      device, a failure exactly when one was injected into that device. */
  lemma ReportsFollowTheToggles(device: Device, history: seq<Operation>, k: nat)
    requires k < |history| && Drives(history[k])
    requires
      var c := history[k].command;
      C.CppCommand(c.sourceStepNumber, c.action, c.requestedPowerKw).Success?
    ensures Report(history, k).Success?
    ensures device.Status(Report(history, k).value)
         == (if FailureInjected(device, history[..k]) then ApplyFailed else Ok)
  {
    var before, c := StateAfter(history[..k]), history[k].command;
    TogglesAreRemembered(device, history[..k]);
    WellFormedCommandsPassTheHardwareLayer(c.sourceStepNumber, c.action, c.requestedPowerKw, true);
    ExecuteDrives(device, before, c);
  }

  predicate Active(d: DeviceState) {
    d.lastAction !in {UnknownAction, Idle}
  }

  /** The latest execute of a history that reached the devices, or none. */
  function LatestDriven(history: seq<Operation>): (k: int)
    ensures -1 <= k < |history|
    ensures k >= 0 ==> Drives(history[k])
    ensures forall j :: k < j < |history| ==> !Drives(history[j])
  {
    if history == [] then -1
    else if Drives(Last(history)) then |history| - 1
    else LatestDriven(Init(history))
  }

  /** Battery and grid can only be active together if the latest execute that
      reached them reported a failure of at least one. */
  lemma {:induction false} BothActiveOnlyAfterFailure(history: seq<Operation>)
    requires Active(StateAfter(history).battery) && Active(StateAfter(history).grid)
    ensures LatestDriven(history) >= 0
    ensures
      var report := Report(history, LatestDriven(history));
      report.Success? && !report.value.Succeeded()
  {
    var n := |history| - 1;
    assert history[..n] == Init(history) && Last(history) == history[n];
    if Drives(Last(history)) {
      var before, c := StateAfter(Init(history)), Last(history).command;
      SuccessfulDriveShows(Battery, before.battery, BatteryCommand(c).value);
      SuccessfulDriveShows(GridConnection, before.grid, GridCommand(c).value);
    } else {
      BothActiveOnlyAfterFailure(Init(history));
      ReportOfPrefix(history, n, LatestDriven(Init(history)));
    }
  }

  /** An unknown action is refused before any device is touched. */
  lemma UnknownActionTouchesNothing(s: SystemState, c: C.ControlCommand<D.Double>)
    ensures ExecuteOn(s, c).result.Failure? <==> c.action.Unrecognised?
    ensures c.action.Unrecognised? ==> ExecuteOn(s, c).state == s
  {
  }

  // ----- the devices themselves -----

  class SimulatedActuator {
    const kind: ActuatorType
    var failureEnabled: bool
    var applyCount: nat
    var lastAction: ActuatorAction
    var lastRequestedPowerKw: D.Double

    /** gridflex_simulated_actuator_init: any known kind. */
    static method Create(kind: ActuatorType) returns (r: Option<SimulatedActuator>)
      ensures r.Some? <==> kind in {Battery, GridConnection, EvCharger}
      ensures r.Some? ==> fresh(r.value) && r.value.kind == kind
      ensures r.Some? ==> r.value.State() == DeviceState(false, 0, UnknownAction, D.Finite(0.0))
    {
      if kind == UnknownType {
        return None;
      }
      var actuator := new SimulatedActuator(kind);
      return Some(actuator);
    }

    constructor (kind: ActuatorType)
      requires kind != UnknownType
      ensures this.kind == kind && State() == INITIAL_STATE
    {
      this.kind := kind;
      failureEnabled := false;
      applyCount := 0;
      lastAction := UnknownAction;
      lastRequestedPowerKw := D.ZERO;
    }

    function State(): DeviceState
      reads this
    {
      DeviceState(failureEnabled, applyCount, lastAction, lastRequestedPowerKw)
    }

    method SetApplyFailure(enabled: bool)
      modifies this`failureEnabled
      ensures State() == old(State()).(failureEnabled := enabled)
    {
      failureEnabled := enabled;
    }

    method Drive(c: ActuatorCommand) returns (status: ActuatorStatus)
      modifies this
      ensures Applied(status, State()) == DriverOutcome(old(State()), c)
    {
      applyCount := (applyCount + 1) % APPLY_COUNT_LIMIT;
      if failureEnabled {
        return ApplyFailed;
      }
      lastAction := c.action;
      lastRequestedPowerKw := c.requestedPowerKw;
      return Ok;
    }
  }

  method Apply(actuator: SimulatedActuator, c: ActuatorCommand) returns (status: ActuatorStatus)
    modifies actuator
    ensures Applied(status, actuator.State()) == ApplyTo(actuator.kind, old(actuator.State()), c)
  {
    match Screen(actuator.kind, true, c) {
      case Some(refusal) => status := refusal;
      case None => status := actuator.Drive(c);
    }
  }

  class HardwareCommandExecutor {
    const battery: SimulatedActuator
    const grid: SimulatedActuator

    /** The executor takes a battery and a grid connection, in that order. */
    static method Create(battery: SimulatedActuator, grid: SimulatedActuator)
      returns (r: Option<HardwareCommandExecutor>)
      ensures r.Some? <==> battery.kind == Battery && grid.kind == GridConnection
      ensures r.Some? ==> r.value.Valid() && r.value.battery == battery && r.value.grid == grid
    {
      if battery.kind != Battery || grid.kind != GridConnection {
        return None;
      }
      var executor := new HardwareCommandExecutor(battery, grid);
      return Some(executor);
    }

    constructor (battery: SimulatedActuator, grid: SimulatedActuator)
      requires battery.kind == Battery && grid.kind == GridConnection
      ensures this.battery == battery && this.grid == grid
    {
      this.battery := battery;
      this.grid := grid;
    }

    predicate Valid() {
      battery.kind == Battery && grid.kind == GridConnection
    }

    function State(): SystemState
      reads battery, grid
    {
      SystemState(battery.State(), grid.State())
    }

    method Execute(c: C.ControlCommand<D.Double>) returns (r: Result<Execution, ExecutorError>)
      requires Valid()
      modifies battery, grid
      ensures Executed(r, State()) == ExecuteOn(old(State()), c)
      ensures r.Failure? <==> c.action.Unrecognised?
      ensures r.Success? && r.value.batteryStatus == Ok ==> BatteryObeys(battery.State(), c)
      ensures r.Success? && r.value.gridStatus == Ok ==> GridObeys(grid.State(), c)
    {
      var batteryCommand :- BatteryCommand(c);
      match GridCommand(c) {
        case Failure(error) =>
          r := Failure(error);
        case Success(gridCommand) =>
          var batteryStatus := Apply(battery, batteryCommand);
          var gridStatus := Apply(grid, gridCommand);
          r := Success(Execution(batteryStatus, gridStatus));
      }
    }
  }
}
