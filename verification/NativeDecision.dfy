/** EnergyController::decide over doubles, for every rounding. */
module NativeDecision {
  import opened Foundation
  import opened Measurements
  import opened Control
  import E = EnergyController
  import D = Doubles

  type NativeLimits = ControllerLimits<D.Double>
  type NativeMeasurement = Measurement<D.Double>
  type NativeCommand = ControlCommand<D.Double>

  function RequestOrIdle(m: NativeMeasurement, action: ControlAction, allowed: D.Double)
    : Result<NativeCommand, CommandRule>
  {
    if D.LessEq(allowed, D.ZERO) then CppCommand(m.stepNumber, Idle, D.ZERO)
    else CppCommand(m.stepNumber, action, allowed)
  }

  /** The least of the offered power, the power limit and the power that uses up
      the room in the operating window. */
  function AllowedPower(round: D.Rounding, offered: D.Double, limit: D.Double, room: D.Double, hours: real): D.Double
    requires hours > 0.0
  {
    D.SmallestOf(D.Quotient(round, offered, hours), limit, D.Quotient(round, D.Larger(D.ZERO, room), hours))
  }

  function Decide(round: D.Rounding, limits: NativeLimits, m: NativeMeasurement): Result<NativeCommand, CommandRule>
    requires m.intervalHours.Finite? && m.intervalHours.value > 0.0
  {
    var net, hours := m.netEnergyKwh, m.intervalHours.value;
    if D.LessEq(D.Abs(net), D.Finite(E.ENERGY_BALANCE_TOLERANCE_KWH)) then
      CppCommand(m.stepNumber, Idle, D.ZERO)
    else if D.Less(D.ZERO, net) then
      var room := D.Sub(round, limits.maximumBatterySocKwh, m.batteryStateOfChargeKwh);
      RequestOrIdle(m, ChargeBattery, AllowedPower(round, net, limits.maxChargePowerKw, room, hours))
    else
      var room := D.Sub(round, m.batteryStateOfChargeKwh, limits.minimumBatterySocKwh);
      RequestOrIdle(m, DischargeBattery, AllowedPower(round, D.Abs(net), limits.maxDischargePowerKw, room, hours))
  }

  /** However the quotients overflow or underflow, the allowed power is a number
      that does not exceed the finite, positive limit. */
  lemma AllowedPowerIsBounded(round: D.Rounding, offered: D.Double, limit: D.Double, room: D.Double, hours: real)
    requires D.RoundsToNumbers(round) && hours > 0.0
    requires offered != D.NaN && room != D.NaN && limit.Finite?
    ensures
      var allowed := AllowedPower(round, offered, limit, room, hours);
      allowed != D.NaN && !D.Less(limit, allowed)
  {
    assert D.Quotient(round, offered, hours) != D.NaN;
    assert D.Quotient(round, D.Larger(D.ZERO, room), hours) != D.NaN;
  }

  lemma BoundedRequestSucceeds(m: NativeMeasurement, action: ControlAction, allowed: D.Double, limit: D.Double)
    requires m.stepNumber > 0 && action != Idle
    requires limit.Finite? && allowed != D.NaN && !D.Less(limit, allowed)
    ensures
      var r := RequestOrIdle(m, action, allowed);
      && r.Success? && WellFormed(r.value)
      && r.value.sourceStepNumber == m.stepNumber && r.value.action in {Idle, action}
  {
  }

  /** Deciding is total: every measurement the constructor accepts yields a
      well-formed command for the same step, whatever rounding does. */
  lemma DecideIsTotal(round: D.Rounding, limits: NativeLimits, m: NativeMeasurement)
    requires D.RoundsToNumbers(round) && CppLimits(limits).Success?
    requires m.stepNumber >= 0 && CppMeasurement(round, m).Success?
    ensures m.intervalHours.Finite? && m.intervalHours.value > 0.0
    ensures
      var r := Decide(round, limits, m);
      && r.Success? && WellFormed(r.value)
      && r.value.sourceStepNumber == m.stepNumber
      && r.value.action in {Idle, ChargeBattery, DischargeBattery}
  {
    CppAcceptsExactlyTheRules(round, m);
    AllFieldsSatisfy(round, m);
    var net, soc, hours := ValueOf(m, NetEnergy), ValueOf(m, StateOfCharge), ValueOf(m, IntervalLength);
    assert net.Finite? && soc.Finite? && hours.Finite?;
    var above := D.Sub(round, limits.maximumBatterySocKwh, soc);
    var below := D.Sub(round, soc, limits.minimumBatterySocKwh);
    AllowedPowerIsBounded(round, net, limits.maxChargePowerKw, above, hours.value);
    AllowedPowerIsBounded(round, D.Abs(net), limits.maxDischargePowerKw, below, hours.value);
    BoundedRequestSucceeds(
      m, ChargeBattery, AllowedPower(round, net, limits.maxChargePowerKw, above, hours.value),
      limits.maxChargePowerKw);
    BoundedRequestSucceeds(
      m, DischargeBattery, AllowedPower(round, D.Abs(net), limits.maxDischargePowerKw, below, hours.value),
      limits.maxDischargePowerKw);
  }

  function LiftLimits(l: Limits): NativeLimits {
    ControllerLimits(D.Finite(l.maxChargePowerKw), D.Finite(l.maxDischargePowerKw),
                     D.Finite(l.minimumBatterySocKwh), D.Finite(l.maximumBatterySocKwh))
  }

  lemma ExactAllowedPower(offered: real, limit: real, room: real, hours: real)
    requires hours > 0.0
    ensures AllowedPower(D.EXACT, D.Finite(offered), D.Finite(limit), D.Finite(room), hours)
         == D.Finite(E.SmallestOf(offered / hours, limit, Max(0.0, room) / hours))
  {
  }

  /** With exact arithmetic the native decision is the one over reals. */
  lemma ExactDecisionsAgree(limits: Limits, m: EnergyMeasurement)
    requires m.stepNumber > 0 && m.intervalHours > 0.0
    ensures
      var d := E.Decide(limits, m);
      Decide(D.EXACT, LiftLimits(limits), Lift(m))
      == Success(ControlCommand(d.sourceStepNumber, d.action, D.Finite(d.requestedPowerKw)))
  {
    var hours := m.intervalHours;
    ExactAllowedPower(m.netEnergyKwh, limits.maxChargePowerKw,
                      limits.maximumBatterySocKwh - m.batteryStateOfChargeKwh, hours);
    ExactAllowedPower(Abs(m.netEnergyKwh), limits.maxDischargePowerKw,
                      m.batteryStateOfChargeKwh - limits.minimumBatterySocKwh, hours);
    assert D.Sub(D.EXACT, D.Finite(limits.maximumBatterySocKwh), D.Finite(m.batteryStateOfChargeKwh))
        == D.Finite(limits.maximumBatterySocKwh - m.batteryStateOfChargeKwh);
    assert D.Sub(D.EXACT, D.Finite(m.batteryStateOfChargeKwh), D.Finite(limits.minimumBatterySocKwh))
        == D.Finite(m.batteryStateOfChargeKwh - limits.minimumBatterySocKwh);
  }

  /** None of the candidates is less, and it is one of them. */
  predicate IsLeastOf(a: D.Double, x: D.Double, y: D.Double, z: D.Double) {
    && (a == x || a == y || a == z)
    && !D.Less(x, a) && !D.Less(y, a) && !D.Less(z, a)
  }

  /** The power at which the battery would reach the end of the window it moves to. */
  function RoomPower(round: D.Rounding, from: D.Double, to: D.Double, hours: real): D.Double
    requires hours > 0.0
  {
    D.Quotient(round, D.Larger(D.ZERO, D.Sub(round, to, from)), hours)
  }

  /** A positive power, the least of the three, or idling because one of the other
      two leaves nothing to move. */
  predicate MovesTheLeast(
    c: NativeCommand, action: ControlAction, offered: D.Double, limit: D.Double, room: D.Double)
  {
    var power := c.requestedPowerKw;
    if c.action == Idle then power == D.ZERO && (D.LessEq(offered, D.ZERO) || D.LessEq(room, D.ZERO))
    else c.action == action && D.Less(D.ZERO, power) && IsLeastOf(power, offered, limit, room)
  }

  /** What any rounding leaves of the decision rule: the battery idles while the
      reported net energy is within the balance threshold, and otherwise moves in its
      direction, at the least of the offered power, the limit of that direction and the
      power that uses up the room in the window. */
  predicate PointsTheRightWay(round: D.Rounding, limits: NativeLimits, m: NativeMeasurement, c: NativeCommand)
    requires m.intervalHours.Finite? && m.intervalHours.value > 0.0
  {
    var net, soc, hours := m.netEnergyKwh, m.batteryStateOfChargeKwh, m.intervalHours.value;
    if D.Less(D.Finite(0.000000001), net) then
      MovesTheLeast(c, ChargeBattery, D.Quotient(round, net, hours), limits.maxChargePowerKw,
                    RoomPower(round, soc, limits.maximumBatterySocKwh, hours))
    else if D.Less(net, D.Finite(-0.000000001)) then
      MovesTheLeast(c, DischargeBattery, D.Quotient(round, D.Negate(net), hours), limits.maxDischargePowerKw,
                    RoomPower(round, limits.minimumBatterySocKwh, soc, hours))
    else c.action == Idle && c.requestedPowerKw == D.ZERO
  }

  lemma AllowedPowerIsLeast(round: D.Rounding, offered: D.Double, limit: D.Double, room: D.Double, hours: real)
    requires D.RoundsToNumbers(round) && hours > 0.0
    requires offered != D.NaN && room != D.NaN && limit.Finite?
    ensures IsLeastOf(AllowedPower(round, offered, limit, room, hours), D.Quotient(round, offered, hours), limit,
                      D.Quotient(round, D.Larger(D.ZERO, room), hours))
  {
    AllowedPowerIsBounded(round, offered, limit, room, hours);
    assert D.Quotient(round, offered, hours) != D.NaN;
    assert D.Quotient(round, D.Larger(D.ZERO, room), hours) != D.NaN;
  }

  /** For every rounding, limits and accepted measurement. */
  lemma DecisionsPointTheRightWay(round: D.Rounding, limits: NativeLimits, m: NativeMeasurement)
    requires D.RoundsToNumbers(round) && CppLimits(limits).Success?
    requires m.stepNumber >= 0 && CppMeasurement(round, m).Success?
    ensures m.intervalHours.Finite? && m.intervalHours.value > 0.0
    ensures Decide(round, limits, m).Success? && PointsTheRightWay(round, limits, m, Decide(round, limits, m).value)
  {
    DecideIsTotal(round, limits, m);
    CppAcceptsExactlyTheRules(round, m);
    AllFieldsSatisfy(round, m);
    var net, soc, hours := ValueOf(m, NetEnergy), ValueOf(m, StateOfCharge), ValueOf(m, IntervalLength);
    assert net.Finite? && soc.Finite?;
    AllowedPowerIsLeast(round, net, limits.maxChargePowerKw,
                        D.Sub(round, limits.maximumBatterySocKwh, soc), hours.value);
    AllowedPowerIsLeast(round, D.Abs(net), limits.maxDischargePowerKw,
                        D.Sub(round, soc, limits.minimumBatterySocKwh), hours.value);
  }
}
