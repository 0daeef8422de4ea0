/** Control actions, commands and limits, over reals in the plant model and over
    doubles at the native boundary. */
module Control {
  import opened Foundation
  import D = Doubles

  datatype ControlAction =
    | Idle
    | ChargeBattery
    | DischargeBattery
    | ImportFromGrid
    | ExportToGrid
    | Unrecognised(name: string)

  datatype ControlCommand<+N> = ControlCommand(
    sourceStepNumber: int,
    action: ControlAction,
    requestedPowerKw: N)

  type ControlDecision = ControlCommand<real>

  datatype ControllerLimits<+N> = ControllerLimits(
    maxChargePowerKw: N,
    maxDischargePowerKw: N,
    minimumBatterySocKwh: N,
    maximumBatterySocKwh: N)

  type Limits = ControllerLimits<real>

  predicate ValidLimits(limits: Limits) {
    && limits.maxChargePowerKw > 0.0
    && limits.maxDischargePowerKw > 0.0
    && 0.0 <= limits.minimumBatterySocKwh < limits.maximumBatterySocKwh
  }

  /** Energy that still fits below the end of the operating window. */
  function RoomAbove(limits: Limits, soc: real): real {
    Max(0.0, limits.maximumBatterySocKwh - soc)
  }

  /** Energy held above the start of the operating window. */
  function RoomBelow(limits: Limits, soc: real): real {
    Max(0.0, soc - limits.minimumBatterySocKwh)
  }

  datatype LimitsRule = ChargePowerRule | DischargePowerRule | MinimumSocRule | MaximumSocRule | WindowRule

  /** What each rule demands of the limits, in the order they are checked. */
  predicate LimitsSatisfy(l: ControllerLimits<D.Double>, rule: LimitsRule) {
    match rule
    case ChargePowerRule => l.maxChargePowerKw.Finite? && l.maxChargePowerKw.value > 0.0
    case DischargePowerRule => l.maxDischargePowerKw.Finite? && l.maxDischargePowerKw.value > 0.0
    case MinimumSocRule => l.minimumBatterySocKwh.Finite? && l.minimumBatterySocKwh.value >= 0.0
    case MaximumSocRule => l.maximumBatterySocKwh.Finite?
    case WindowRule => D.Less(l.minimumBatterySocKwh, l.maximumBatterySocKwh)
  }

  function LimitsPosition(rule: LimitsRule): nat {
    match rule
    case ChargePowerRule => 0
    case DischargePowerRule => 1
    case MinimumSocRule => 2
    case MaximumSocRule => 3
    case WindowRule => 4
  }

  /** The C++ ControllerLimits constructor. */
  function CppLimits(l: ControllerLimits<D.Double>): (r: Result<ControllerLimits<D.Double>, LimitsRule>)
    ensures r.Success? <==>
            && l.maxChargePowerKw.Finite? && l.maxDischargePowerKw.Finite?
            && l.minimumBatterySocKwh.Finite? && l.maximumBatterySocKwh.Finite?
            && ValidLimits(ControllerLimits(l.maxChargePowerKw.value, l.maxDischargePowerKw.value,
                                            l.minimumBatterySocKwh.value, l.maximumBatterySocKwh.value))
    ensures r.Success? ==> r.value == l
    ensures r.Failure? ==>
              && !LimitsSatisfy(l, r.error)
              && forall rule :: LimitsPosition(rule) < LimitsPosition(r.error) ==> LimitsSatisfy(l, rule)
  {
    if !l.maxChargePowerKw.Finite? || D.LessEq(l.maxChargePowerKw, D.ZERO) then Failure(ChargePowerRule)
    else if !l.maxDischargePowerKw.Finite? || D.LessEq(l.maxDischargePowerKw, D.ZERO) then Failure(DischargePowerRule)
    else if !l.minimumBatterySocKwh.Finite? || D.Less(l.minimumBatterySocKwh, D.ZERO) then Failure(MinimumSocRule)
    else if !l.maximumBatterySocKwh.Finite? then Failure(MaximumSocRule)
    else if D.LessEq(l.maximumBatterySocKwh, l.minimumBatterySocKwh) then Failure(WindowRule)
    else Success(l)
  }

  datatype CommandRule = SourceStepRule | FinitePowerRule | NonNegativePowerRule | IdlePowerRule | ActivePowerRule

  /** The invariant of a command: idle means exactly no power. */
  predicate WellFormed(c: ControlCommand<D.Double>) {
    && c.sourceStepNumber != 0
    && c.requestedPowerKw.Finite?
    && c.requestedPowerKw.value >= 0.0
    && (c.action == Idle <==> c.requestedPowerKw.value == 0.0)
  }

  predicate CommandSatisfies(c: ControlCommand<D.Double>, rule: CommandRule) {
    match rule
    case SourceStepRule => c.sourceStepNumber != 0
    case FinitePowerRule => c.requestedPowerKw.Finite?
    case NonNegativePowerRule => D.LessEq(D.ZERO, c.requestedPowerKw)
    case IdlePowerRule => c.action == Idle ==> c.requestedPowerKw == D.ZERO
    case ActivePowerRule => c.action != Idle ==> c.requestedPowerKw != D.ZERO
  }

  /** The C++ ControlCommand constructor. */
  function CppCommand(step: int, action: ControlAction, power: D.Double)
    : (r: Result<ControlCommand<D.Double>, CommandRule>)
    ensures r.Success? <==> WellFormed(ControlCommand(step, action, power))
    ensures r.Success? ==> r.value == ControlCommand(step, action, power)
    ensures r.Failure? ==> !CommandSatisfies(ControlCommand(step, action, power), r.error)
  {
    if step == 0 then Failure(SourceStepRule)
    else if !power.Finite? then Failure(FinitePowerRule)
    else if power.value < 0.0 then Failure(NonNegativePowerRule)
    else if action == Idle && power.value != 0.0 then Failure(IdlePowerRule)
    else if action != Idle && power.value == 0.0 then Failure(ActivePowerRule)
    else Success(ControlCommand(step, action, power))
  }
}
