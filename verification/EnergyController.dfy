/** EnergyController::decide over exact reals. */
module EnergyController {
  import opened Foundation
  import opened Measurements
  import opened Control

  const ENERGY_BALANCE_TOLERANCE_KWH: real := 0.000000001

  function IdleCommand(m: EnergyMeasurement): ControlDecision {
    ControlCommand(m.stepNumber, Idle, 0.0)
  }

  function SmallestOf(a: real, b: real, c: real): real {
    Min(Min(a, b), c)
  }

  function DecideSurplus(limits: Limits, m: EnergyMeasurement): ControlDecision
    requires m.intervalHours > 0.0
  {
    var requestedPower := m.netEnergyKwh / m.intervalHours;
    var availableEnergy := RoomAbove(limits, m.batteryStateOfChargeKwh);
    var allowed := SmallestOf(requestedPower, limits.maxChargePowerKw, availableEnergy / m.intervalHours);
    if allowed <= 0.0 then IdleCommand(m)
    else ControlCommand(m.stepNumber, ChargeBattery, allowed)
  }

  function DecideDeficit(limits: Limits, m: EnergyMeasurement): ControlDecision
    requires m.intervalHours > 0.0
  {
    var requestedPower := Abs(m.netEnergyKwh) / m.intervalHours;
    var availableEnergy := RoomBelow(limits, m.batteryStateOfChargeKwh);
    var allowed := SmallestOf(requestedPower, limits.maxDischargePowerKw, availableEnergy / m.intervalHours);
    if allowed <= 0.0 then IdleCommand(m)
    else ControlCommand(m.stepNumber, DischargeBattery, allowed)
  }

  function Decide(limits: Limits, m: EnergyMeasurement): ControlDecision
    requires m.intervalHours > 0.0
  {
    if Abs(m.netEnergyKwh) <= ENERGY_BALANCE_TOLERANCE_KWH then IdleCommand(m)
    else if m.netEnergyKwh > 0.0 then DecideSurplus(limits, m)
    else DecideDeficit(limits, m)
  }

  lemma ThreeWayMinTimesHours(a: real, b: real, c: real, h: real)
    requires h > 0.0
    ensures Energy(SmallestOf(a / h, b, c / h), h) == SmallestOf(a, Energy(b, h), c)
  {
    MinTimesHours(a / h, b, h);
    MinTimesHours(Min(a / h, b), c / h, h);
    RateTimesHours(a, h);
    RateTimesHours(c, h);
  }

  lemma SignOfEnergy(power: real, h: real)
    requires h > 0.0
    ensures Energy(power, h) > 0.0 <==> power > 0.0
    ensures Energy(power, h) == 0.0 <==> power == 0.0
  {
  }

  /** Energy the controller wants stored in one interval. */
  function WantedCharge(limits: Limits, m: EnergyMeasurement): real {
    SmallestOf(m.netEnergyKwh, Energy(limits.maxChargePowerKw, m.intervalHours),
               RoomAbove(limits, m.batteryStateOfChargeKwh))
  }

  /** Energy the controller wants supplied in one interval. */
  function WantedDischarge(limits: Limits, m: EnergyMeasurement): real {
    SmallestOf(-m.netEnergyKwh, Energy(limits.maxDischargePowerKw, m.intervalHours),
               RoomBelow(limits, m.batteryStateOfChargeKwh))
  }

  /** A decision that moves exactly the wished energy, or idles if none is wished. */
  predicate RealisesWish(d: ControlDecision, m: EnergyMeasurement, action: ControlAction, wish: real) {
    if wish > 0.0
    then d.sourceStepNumber == m.stepNumber && d.action == action
         && d.requestedPowerKw > 0.0 && Energy(d.requestedPowerKw, m.intervalHours) == wish
    else d == IdleCommand(m)
  }

  lemma SurplusClosedForm(limits: Limits, m: EnergyMeasurement)
    requires m.intervalHours > 0.0
    ensures RealisesWish(DecideSurplus(limits, m), m, ChargeBattery, WantedCharge(limits, m))
  {
    var available, h := RoomAbove(limits, m.batteryStateOfChargeKwh), m.intervalHours;
    ThreeWayMinTimesHours(m.netEnergyKwh, limits.maxChargePowerKw, available, h);
    SignOfEnergy(SmallestOf(m.netEnergyKwh / h, limits.maxChargePowerKw, available / h), h);
  }

  lemma DeficitClosedForm(limits: Limits, m: EnergyMeasurement)
    requires m.intervalHours > 0.0 && m.netEnergyKwh < 0.0
    ensures RealisesWish(DecideDeficit(limits, m), m, DischargeBattery, WantedDischarge(limits, m))
  {
    var available, h := RoomBelow(limits, m.batteryStateOfChargeKwh), m.intervalHours;
    ThreeWayMinTimesHours(-m.netEnergyKwh, limits.maxDischargePowerKw, available, h);
    SignOfEnergy(SmallestOf(-m.netEnergyKwh / h, limits.maxDischargePowerKw, available / h), h);
  }

  predicate IsBalanced(m: EnergyMeasurement) {
    Abs(m.netEnergyKwh) <= ENERGY_BALANCE_TOLERANCE_KWH
  }

  /** The decision rule without divisions: store the wanted surplus, supply the
      wanted deficit, and otherwise idle. */
  predicate Realises(limits: Limits, m: EnergyMeasurement, d: ControlDecision) {
    if IsBalanced(m) then d == IdleCommand(m)
    else if m.netEnergyKwh > 0.0 then RealisesWish(d, m, ChargeBattery, WantedCharge(limits, m))
    else RealisesWish(d, m, DischargeBattery, WantedDischarge(limits, m))
  }

  lemma DecideClosedForm(limits: Limits, m: EnergyMeasurement)
    requires m.intervalHours > 0.0
    ensures Realises(limits, m, Decide(limits, m))
  {
    if !IsBalanced(m) {
      if m.netEnergyKwh > 0.0 {
        SurplusClosedForm(limits, m);
      } else {
        DeficitClosedForm(limits, m);
      }
    }
  }

  /** The sign of the true imbalance, once it exceeds the validators' tolerance,
      decides the direction of the battery, and an active decision never moves
      more than the true imbalance plus that tolerance. */
  lemma DirectionAgreesWithReality(limits: Limits, m: EnergyMeasurement)
    requires Accepted(m)
    ensures
      var imbalance := m.generatedEnergyKwh - m.consumedEnergyKwh;
      var tolerance := NetTolerance(m.generatedEnergyKwh, m.consumedEnergyKwh);
      var d := Decide(limits, m);
      && (imbalance < -tolerance ==> d.action != ChargeBattery)
      && (imbalance > tolerance ==> d.action != DischargeBattery)
      && Energy(d.requestedPowerKw, m.intervalHours) <= Abs(imbalance) + tolerance
  {
    DecideClosedForm(limits, m);
  }

  ghost predicate CanCharge(limits: Limits, generated: real, consumed: real) {
    exists m: EnergyMeasurement ::
      && Accepted(m)
      && m.generatedEnergyKwh == generated && m.consumedEnergyKwh == consumed
      && Decide(limits, m).action == ChargeBattery
  }

  /** The exact threshold of that agreement: charging is compatible with some
      accepted report of the given energies if and only if their true net energy,
      overstated by the whole tolerance, is above the balance threshold. */
  lemma ChargingThreshold(limits: Limits, generated: real, consumed: real)
    requires ValidLimits(limits) && generated >= 0.0 && consumed >= 0.0
    ensures
      CanCharge(limits, generated, consumed) <==>
      generated - consumed + NetTolerance(generated, consumed) > 0.000000001
  {
    var net := generated - consumed + NetTolerance(generated, consumed);
    if net > ENERGY_BALANCE_TOLERANCE_KWH {
      var m := Measurement(1, 1.0, 1.0, generated, consumed, net, 0.0, 0.0, 0.0, 0.0);
      DecideClosedForm(limits, m);
      assert Accepted(m) && Decide(limits, m).action == ChargeBattery;
    }
    if CanCharge(limits, generated, consumed) {
      var m: EnergyMeasurement :|
        && Accepted(m)
        && m.generatedEnergyKwh == generated && m.consumedEnergyKwh == consumed
        && Decide(limits, m).action == ChargeBattery;
      DecideClosedForm(limits, m);
    }
  }

  ghost predicate CanDischarge(limits: Limits, generated: real, consumed: real) {
    exists m: EnergyMeasurement ::
      && Accepted(m)
      && m.generatedEnergyKwh == generated && m.consumedEnergyKwh == consumed
      && Decide(limits, m).action == DischargeBattery
  }

  /** And of its mirror: discharging is compatible with some accepted report if and
      only if the true deficit, overstated by the whole tolerance, is above the
      balance threshold. */
  lemma DischargingThreshold(limits: Limits, generated: real, consumed: real)
    requires ValidLimits(limits) && generated >= 0.0 && consumed >= 0.0
    ensures
      CanDischarge(limits, generated, consumed) <==>
      consumed - generated + NetTolerance(generated, consumed) > 0.000000001
  {
    var deficit := consumed - generated + NetTolerance(generated, consumed);
    if deficit > ENERGY_BALANCE_TOLERANCE_KWH {
      var soc := limits.minimumBatterySocKwh + 1.0;
      var m := Measurement(1, 1.0, 1.0, generated, consumed, -deficit, soc, 0.0, 0.0, 0.0);
      DecideClosedForm(limits, m);
      assert Accepted(m) && Decide(limits, m).action == DischargeBattery;
    }
    if CanDischarge(limits, generated, consumed) {
      var m: EnergyMeasurement :|
        && Accepted(m)
        && m.generatedEnergyKwh == generated && m.consumedEnergyKwh == consumed
        && Decide(limits, m).action == DischargeBattery;
      DecideClosedForm(limits, m);
    }
  }
}
