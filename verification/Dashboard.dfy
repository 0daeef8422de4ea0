/** explain_decision: a second implementation of the controller's rule, used as a
    checker of whoever decided. */
module Dashboard {
  import opened Foundation
  import opened Batteries
  import opened Measurements
  import opened Control
  import opened EnergyController
  import opened Plants
  import opened Loop

  const MATCH_TOLERANCE_KW: real := 0.000001
  const BALANCED_TOLERANCE_KWH: real := 0.000000001

  datatype Code =
    | IsBalancedCode | LimitsUnknown
    | CoversSurplus | MaxChargePower | SocMaximum
    | CoversDeficit | MaxDischargePower | SocMinimum
    | BatteryFull | BatteryAtMinimum
    | Unexplained

  datatype Candidate = Candidate(code: Code, powerKw: real)

  /** min(candidates, key=power): the first of the smallest. */
  function Binding(a: Candidate, b: Candidate, c: Candidate): Candidate {
    var ab := if b.powerKw < a.powerKw then b else a;
    if c.powerKw < ab.powerKw then c else ab
  }

  function BindingCandidate(limits: Limits, net: real, hours: real, soc: real): Candidate
    requires hours > 0.0
  {
    if net > 0.0 then
      Binding(Candidate(CoversSurplus, net / hours),
              Candidate(MaxChargePower, limits.maxChargePowerKw),
              Candidate(SocMaximum, RoomAbove(limits, soc) / hours))
    else
      Binding(Candidate(CoversDeficit, -net / hours),
              Candidate(MaxDischargePower, limits.maxDischargePowerKw),
              Candidate(SocMinimum, RoomBelow(limits, soc) / hours))
  }

  function Explain(step: LoopStep, limits: Option<Limits>): Code
    requires step.interval.hours > 0.0
  {
    var net := step.netEnergyKwh;
    if Abs(net) <= BALANCED_TOLERANCE_KWH then IsBalancedCode
    else if limits.None? then LimitsUnknown
    else
      var binding := BindingCandidate(limits.value, net, step.interval.hours, step.flow.socBefore);
      var expected := if net > 0.0 then ChargeBattery else DischargeBattery;
      if step.decision.action == Idle && binding.powerKw <= MATCH_TOLERANCE_KW then
        if net > 0.0 then BatteryFull else BatteryAtMinimum
      else if step.decision.action == expected
              && Abs(step.decision.requestedPowerKw - binding.powerKw) <= MATCH_TOLERANCE_KW then binding.code
      else Unexplained
  }

  /** The smallest candidate, as an energy: what the controller wants moved. */
  lemma BindingEnergy(limits: Limits, net: real, hours: real, soc: real)
    requires hours > 0.0 && net != 0.0
    ensures
      Energy(BindingCandidate(limits, net, hours, soc).powerKw, hours) ==
      if net > 0.0 then SmallestOf(net, Energy(limits.maxChargePowerKw, hours), RoomAbove(limits, soc))
      else SmallestOf(-net, Energy(limits.maxDischargePowerKw, hours), RoomBelow(limits, soc))
    ensures
      BindingCandidate(limits, net, hours, soc).powerKw ==
      if net > 0.0 then SmallestOf(net / hours, limits.maxChargePowerKw, RoomAbove(limits, soc) / hours)
      else SmallestOf(-net / hours, limits.maxDischargePowerKw, RoomBelow(limits, soc) / hours)
  {
    if net > 0.0 {
      ThreeWayMinTimesHours(net, limits.maxChargePowerKw, RoomAbove(limits, soc), hours);
    } else {
      ThreeWayMinTimesHours(-net, limits.maxDischargePowerKw, RoomBelow(limits, soc), hours);
    }
  }

  lemma BindingIsNotNegative(limits: Limits, net: real, hours: real, soc: real)
    requires ValidLimits(limits) && hours > 0.0 && net != 0.0
    ensures BindingCandidate(limits, net, hours, soc).powerKw >= 0.0
  {
  }

  lemma CompareRates(a: real, b: real, hours: real)
    requires hours > 0.0
    ensures a / hours < b / hours <==> a < b
  {
    if a < b {
      assert b / hours - a / hours == (b - a) / hours;
    } else {
      assert a / hours - b / hours == (a - b) / hours;
    }
  }

  /** A power limit compared with an energy spread over the interval. */
  lemma CompareWithLimit(limit: real, energy: real, hours: real)
    requires hours > 0.0
    ensures limit < energy / hours <==> Energy(limit, hours) < energy
    ensures energy / hours < limit <==> energy < Energy(limit, hours)
  {
    RateTimesHours(energy, hours);
    var rate := energy / hours;
    if limit < rate {
      assert Energy(rate, hours) - Energy(limit, hours) == (rate - limit) * hours;
    } else {
      EnergyMonotone(rate, limit, hours);
      if rate < limit {
        assert Energy(limit, hours) - Energy(rate, hours) == (limit - rate) * hours;
      }
    }
  }

  /** The code by comparing energies: the first candidate wins ties. */
  lemma BindingCode(limits: Limits, net: real, hours: real, soc: real)
    requires hours > 0.0 && net != 0.0
    ensures
      var code := BindingCandidate(limits, net, hours, soc).code;
      var offered := if net > 0.0 then net else -net;
      var cap := Energy(if net > 0.0 then limits.maxChargePowerKw else limits.maxDischargePowerKw, hours);
      var window := if net > 0.0 then RoomAbove(limits, soc) else RoomBelow(limits, soc);
      code == (if offered <= cap && offered <= window then (if net > 0.0 then CoversSurplus else CoversDeficit)
               else if cap < offered && cap <= window then (if net > 0.0 then MaxChargePower else MaxDischargePower)
               else (if net > 0.0 then SocMaximum else SocMinimum))
  {
    var offered := if net > 0.0 then net else -net;
    var limit := if net > 0.0 then limits.maxChargePowerKw else limits.maxDischargePowerKw;
    var window := if net > 0.0 then RoomAbove(limits, soc) else RoomBelow(limits, soc);
    CompareWithLimit(limit, offered, hours);
    CompareWithLimit(limit, window, hours);
    CompareRates(window, offered, hours);
  }

  // ----- which decisions are explained -----

  lemma RateOf(power: real, energy: real, hours: real)
    requires hours > 0.0 && Energy(power, hours) == energy
    ensures power == energy / hours
  {
  }

  /** The rate that realises the wish of the decision rule. */
  function WishedRate(limits: Limits, m: EnergyMeasurement): real
    requires m.intervalHours > 0.0
  {
    (if m.netEnergyKwh > 0.0 then WantedCharge(limits, m) else WantedDischarge(limits, m)) / m.intervalHours
  }

  lemma BindingIsTheWishedRate(limits: Limits, m: EnergyMeasurement)
    requires m.intervalHours > 0.0 && m.netEnergyKwh != 0.0
    ensures BindingCandidate(limits, m.netEnergyKwh, m.intervalHours, m.batteryStateOfChargeKwh).powerKw
         == WishedRate(limits, m)
  {
    var b := BindingCandidate(limits, m.netEnergyKwh, m.intervalHours, m.batteryStateOfChargeKwh);
    BindingEnergy(limits, m.netEnergyKwh, m.intervalHours, m.batteryStateOfChargeKwh);
    var wanted := if m.netEnergyKwh > 0.0 then WantedCharge(limits, m) else WantedDischarge(limits, m);
    RateOf(b.powerKw, wanted, m.intervalHours);
  }

  /** The code by comparing energies: the first of the smallest wins. */
  function ComparedCode(limits: Limits, net: real, hours: real, soc: real): Code {
    var offered := Abs(net);
    var cap := Energy(if net > 0.0 then limits.maxChargePowerKw else limits.maxDischargePowerKw, hours);
    var window := if net > 0.0 then RoomAbove(limits, soc) else RoomBelow(limits, soc);
    if offered <= cap && offered <= window then (if net > 0.0 then CoversSurplus else CoversDeficit)
    else if cap < offered && cap <= window then (if net > 0.0 then MaxChargePower else MaxDischargePower)
    else if net > 0.0 then SocMaximum else SocMinimum
  }

  /** The exact condition for an unbalanced step to be explained: the action the
      decision rule takes, at its rate to within a millionth of a kilowatt, or idling
      where that rate is no more than that. An active decision is then explained by the
      first smallest candidate, and idling by the end of the window it is at. */
  lemma ExplainedIff(step: LoopStep, limits: Limits, m: EnergyMeasurement)
    requires step.interval.hours > 0.0 && (step.netEnergyKwh < -0.000000001 || step.netEnergyKwh > 0.000000001)
    requires m.intervalHours == step.interval.hours && m.netEnergyKwh == step.netEnergyKwh
    requires m.batteryStateOfChargeKwh == step.flow.socBefore
    ensures
      var rate, power := WishedRate(limits, m), step.decision.requestedPowerKw;
      var expected := if step.netEnergyKwh > 0.0 then ChargeBattery else DischargeBattery;
      var idles := step.decision.action == Idle && rate <= 0.000001;
      var follows := step.decision.action == expected && rate - 0.000001 <= power <= rate + 0.000001;
      Explain(step, Some(limits)) ==
      if idles then (if step.netEnergyKwh > 0.0 then BatteryFull else BatteryAtMinimum)
      else if follows then ComparedCode(limits, step.netEnergyKwh, step.interval.hours, step.flow.socBefore)
      else Unexplained
  {
    BindingIsTheWishedRate(limits, m);
    BindingCode(limits, step.netEnergyKwh, step.interval.hours, step.flow.socBefore);
  }

  /** Without limits an unbalanced step is left open, never called unexplained; a
      balanced one needs none. */
  lemma WithoutLimits(step: LoopStep, limits: Option<Limits>)
    requires step.interval.hours > 0.0
    ensures Explain(step, None)
         == if -0.000000001 <= step.netEnergyKwh <= 0.000000001 then IsBalancedCode else LimitsUnknown
    ensures Explain(step, limits) == LimitsUnknown <==>
            limits.None? && (step.netEnergyKwh < -0.000000001 || step.netEnergyKwh > 0.000000001)
    ensures Explain(step, limits) == IsBalancedCode <==> -0.000000001 <= step.netEnergyKwh <= 0.000000001
  {
    if limits.Some? && Abs(step.netEnergyKwh) > BALANCED_TOLERANCE_KWH {
      BindingCode(limits.value, step.netEnergyKwh, step.interval.hours, step.flow.socBefore);
    }
  }

  // ----- explanations of controller decisions -----

  /** What each code claims about the plant. */
  predicate EffectHolds(limits: Limits, code: Code, step: LoopStep) {
    var f, d := step.flow, step.decision;
    var residualSurplus, residualDeficit := f.exported + f.curtailed, f.imported + f.unserved;
    match code
    case IsBalancedCode => f.charged == 0.0 && f.discharged == 0.0 && residualSurplus == 0.0 && residualDeficit == 0.0
    case CoversSurplus => residualSurplus == 0.0
    case CoversDeficit => residualDeficit == 0.0
    case MaxChargePower => d.requestedPowerKw == limits.maxChargePowerKw && residualSurplus > 0.0
    case MaxDischargePower => d.requestedPowerKw == limits.maxDischargePowerKw && residualDeficit > 0.0
    case SocMaximum => f.socAfter == limits.maximumBatterySocKwh && residualSurplus > 0.0
    case SocMinimum => f.socAfter == limits.minimumBatterySocKwh && residualDeficit > 0.0
    case BatteryFull =>
      f.socBefore >= limits.maximumBatterySocKwh && f.charged == 0.0 && residualSurplus == step.netEnergyKwh
    case BatteryAtMinimum =>
      f.socBefore <= limits.minimumBatterySocKwh && f.discharged == 0.0 && residualDeficit == -step.netEnergyKwh
    case _ => false
  }

  /** The controller requests exactly the binding candidate. */
  lemma DecisionIsTheBindingCandidate(limits: Limits, m: EnergyMeasurement)
    requires m.intervalHours > 0.0 && !IsBalanced(m)
    ensures
      var b := BindingCandidate(limits, m.netEnergyKwh, m.intervalHours, m.batteryStateOfChargeKwh);
      Decide(limits, m) ==
      if b.powerKw <= 0.0 then IdleCommand(m)
      else ControlCommand(m.stepNumber, if m.netEnergyKwh > 0.0 then ChargeBattery else DischargeBattery, b.powerKw)
  {
    BindingEnergy(limits, m.netEnergyKwh, m.intervalHours, m.batteryStateOfChargeKwh);
  }

  /** The code of a controller decision, by comparing energies. */
  function ExpectedCode(limits: Limits, x: Interval, soc: real): Code {
    var net := Net(x);
    if net == 0.0 then IsBalancedCode
    else if net > 0.0 then
      var cap, window := Energy(limits.maxChargePowerKw, x.hours), RoomAbove(limits, soc);
      if window == 0.0 then BatteryFull
      else if net <= cap && net <= window then CoversSurplus
      else if cap < net && cap <= window then MaxChargePower
      else SocMaximum
    else
      var cap, window := Energy(limits.maxDischargePowerKw, x.hours), RoomBelow(limits, soc);
      if window == 0.0 then BatteryAtMinimum
      else if -net <= cap && -net <= window then CoversDeficit
      else if cap < -net && cap <= window then MaxDischargePower
      else SocMinimum
  }

  lemma BindingSign(limits: Limits, net: real, hours: real, soc: real)
    requires ValidLimits(limits) && hours > 0.0 && net != 0.0
    ensures BindingCandidate(limits, net, hours, soc).powerKw <= 0.0
       <==> (if net > 0.0 then RoomAbove(limits, soc) else RoomBelow(limits, soc)) == 0.0
  {
    BindingEnergy(limits, net, hours, soc);
    SignOfEnergy(BindingCandidate(limits, net, hours, soc).powerKw, hours);
    SignOfEnergy(limits.maxChargePowerKw, hours);
    SignOfEnergy(limits.maxDischargePowerKw, hours);
  }

  function ControllerLoopStep(plant: Plant, limits: Limits, xs: seq<Interval>, soc: real): LoopStep
    requires xs != []
  {
    LoopStepOf(plant, xs, ControllerPolicy(limits), soc)
  }

  /** Completeness: every decision of the controller is explained from its own limits. */
  lemma ControllerDecisionsAreExplained(plant: Plant, limits: Limits, xs: seq<Interval>, soc: real)
    requires ValidLimits(limits) && xs != [] && ValidInterval(Last(xs))
    ensures Explain(ControllerLoopStep(plant, limits, xs, soc), Some(limits)) == ExpectedCode(limits, Last(xs), soc)
  {
    var x, m := Last(xs), Question(xs, soc);
    if Net(x) != 0.0 {
      DecisionIsTheBindingCandidate(limits, m);
      BindingSign(limits, Net(x), x.hours, soc);
      BindingCode(limits, Net(x), x.hours, soc);
    }
  }

  /** The effects on the energy flows, without the requested power. */
  lemma EffectsOfExpectedCode(plant: Plant, limits: Limits, x: Interval, soc: real)
    requires ValidBattery(plant.capacity, soc) && limits.maximumBatterySocKwh <= plant.capacity
    requires limits.minimumBatterySocKwh >= 0.0
    requires Energy(limits.maxChargePowerKw, x.hours) >= 0.0 && Energy(limits.maxDischargePowerKw, x.hours) >= 0.0
    ensures
      var f := StrategyFlow(plant, Limited(limits), x, soc);
      var residualSurplus, residualDeficit := f.exported + f.curtailed, f.imported + f.unserved;
      match ExpectedCode(limits, x, soc)
      case IsBalancedCode => f.charged == 0.0 && f.discharged == 0.0 && residualSurplus == 0.0 && residualDeficit == 0.0
      case CoversSurplus => residualSurplus == 0.0
      case CoversDeficit => residualDeficit == 0.0
      case MaxChargePower => residualSurplus > 0.0
      case MaxDischargePower => residualDeficit > 0.0
      case SocMaximum => f.socAfter == limits.maximumBatterySocKwh && residualSurplus > 0.0
      case SocMinimum => f.socAfter == limits.minimumBatterySocKwh && residualDeficit > 0.0
      case BatteryFull => soc >= limits.maximumBatterySocKwh && f.charged == 0.0 && residualSurplus == Net(x)
      case BatteryAtMinimum => soc <= limits.minimumBatterySocKwh && f.discharged == 0.0 && residualDeficit == -Net(x)
      case _ => false
  {
  }

  /** Truth: when the window ends within the battery, each code means what it says. */
  lemma ExplanationsAreTrue(plant: Plant, limits: Limits, xs: seq<Interval>, soc: real)
    requires ValidLimits(limits) && ValidBattery(plant.capacity, soc) && xs != [] && ValidInterval(Last(xs))
    requires limits.maximumBatterySocKwh <= plant.capacity
    ensures
      var step := ControllerLoopStep(plant, limits, xs, soc);
      EffectHolds(limits, Explain(step, Some(limits)), step)
  {
    var x, m := Last(xs), Question(xs, soc);
    var step := ControllerLoopStep(plant, limits, xs, soc);
    ControllerDecisionsAreExplained(plant, limits, xs, soc);
    ControllerStepClosedForm(plant, limits, xs, soc);
    EnergyNotNegative(limits.maxChargePowerKw, x.hours);
    EnergyNotNegative(limits.maxDischargePowerKw, x.hours);
    EffectsOfExpectedCode(plant, limits, x, soc);
    if Net(x) != 0.0 {
      DecisionIsTheBindingCandidate(limits, m);
      BindingSign(limits, Net(x), x.hours, soc);
      BindingCode(limits, Net(x), x.hours, soc);
    }
  }

  /** The expected code is never the one for an unexplained decision. */
  lemma ExpectedIsExplained(limits: Limits, x: Interval, soc: real)
    ensures ExpectedCode(limits, x, soc) !in {Unexplained, LimitsUnknown}
  {
  }

  /** Explained under the limits by the code that comparing energies predicts, and
      truly so when the window ends within the battery. */
  predicate WellExplained(plant: Plant, limits: Limits, step: LoopStep) {
    && step.interval.hours > 0.0
    && Explain(step, Some(limits)) == ExpectedCode(limits, step.interval, step.flow.socBefore)
    && Explain(step, Some(limits)) !in {Unexplained, LimitsUnknown}
    && (limits.maximumBatterySocKwh <= plant.capacity ==> EffectHolds(limits, Explain(step, Some(limits)), step))
  }

  /** Over a whole run of the controller, every step is explained and, when the window
      ends within the battery, truly so. */
  lemma ControllerRunIsExplained(plant: Plant, limits: Limits, xs: seq<Interval>, initialSoc: real, k: nat)
    requires plant.Valid() && ValidLimits(limits) && ValidIntervals(xs) && ValidBattery(plant.capacity, initialSoc)
    requires k < |xs|
    ensures
      var step := LoopRun(plant, xs, ControllerPolicy(limits), initialSoc)[k];
      step.interval == xs[k] && WellExplained(plant, limits, step)
  {
    var policy := ControllerPolicy(limits);
    var soc := SocLeftBy(LoopRun(plant, xs, policy, initialSoc)[..k], initialSoc);
    LoopRunAt(plant, xs, policy, initialSoc, k);
    LoopRunPrefix(plant, xs, policy, initialSoc, k);
    AnyPolicyKeepsThePlantPhysical(plant, xs[..k], policy, initialSoc);
    assert soc == SocAfter(LoopFlows(plant, xs[..k], policy, initialSoc), initialSoc);
    ControllerDecisionsAreExplained(plant, limits, xs[..k + 1], soc);
    ExpectedIsExplained(limits, xs[k], soc);
    if limits.maximumBatterySocKwh <= plant.capacity {
      ExplanationsAreTrue(plant, limits, xs[..k + 1], soc);
    }
  }

  /** Every code is true for every interval and state of charge. */
  ghost predicate AlwaysTrue(plant: Plant, limits: Limits) {
    forall xs: seq<Interval>, soc: real ::
      xs != [] && ValidInterval(Last(xs)) && ValidBattery(plant.capacity, soc) ==>
        var step := ControllerLoopStep(plant, limits, xs, soc);
        EffectHolds(limits, Explain(step, Some(limits)), step)
  }

  /** A full battery below the window's end, offered more than the window would still
      take, at less than the power limit: whatever the interval, the charge is
      announced as reaching the maximum, yet nothing is stored, the state of charge
      stays below that maximum, and the whole surplus goes to the grid. */
  lemma FullBatteryIsMisreported(plant: Plant, limits: Limits, xs: seq<Interval>)
    requires plant.Valid() && ValidLimits(limits) && xs != [] && ValidInterval(Last(xs))
    requires 0.0 < limits.maximumBatterySocKwh - plant.capacity < Net(Last(xs))
    requires limits.maximumBatterySocKwh - plant.capacity < Energy(limits.maxChargePowerKw, Last(xs).hours)
    ensures
      var step := ControllerLoopStep(plant, limits, xs, plant.capacity);
      && Explain(step, Some(limits)) == SocMaximum
      && step.decision.action == ChargeBattery && step.flow.charged == 0.0
      && step.flow.socBefore == step.flow.socAfter == plant.capacity < limits.maximumBatterySocKwh
      && step.flow.exported + step.flow.curtailed == step.netEnergyKwh
      && !EffectHolds(limits, SocMaximum, step)
  {
    ControllerDecisionsAreExplained(plant, limits, xs, plant.capacity);
    ControllerStepClosedForm(plant, limits, xs, plant.capacity);
    DecideClosedForm(limits, Question(xs, plant.capacity));
  }

  /** Every battery that cannot reach the maximum has such intervals. */
  function Overfilling(plant: Plant, limits: Limits): Interval
    requires ValidLimits(limits)
  {
    var energy := limits.maximumBatterySocKwh - plant.capacity + 1.0;
    Interval(energy / limits.maxChargePowerKw, energy, 0.0)
  }

  lemma OverfillingIsMisreported(plant: Plant, limits: Limits)
    requires plant.Valid() && ValidLimits(limits) && limits.maximumBatterySocKwh > plant.capacity
    ensures !AlwaysTrue(plant, limits)
  {
    var x := Overfilling(plant, limits);
    RateTimesHours(x.generated, limits.maxChargePowerKw);
    assert Energy(limits.maxChargePowerKw, x.hours) == x.generated;
    SignOfEnergy(x.hours, limits.maxChargePowerKw);
    assert Last([x]) == x && Net(x) == x.generated;
    FullBatteryIsMisreported(plant, limits, [x]);
  }

  /** The exact condition for that: the controller's maximum state of charge is
      one the battery can reach. */
  lemma ExplanationsAreTrueIff(plant: Plant, limits: Limits)
    requires plant.Valid() && ValidLimits(limits)
    ensures AlwaysTrue(plant, limits) <==> limits.maximumBatterySocKwh <= plant.capacity
  {
    if limits.maximumBatterySocKwh <= plant.capacity {
      forall xs: seq<Interval>, soc: real | xs != [] && ValidInterval(Last(xs)) && ValidBattery(plant.capacity, soc)
        ensures
          var step := ControllerLoopStep(plant, limits, xs, soc);
          EffectHolds(limits, Explain(step, Some(limits)), step)
      {
        ExplanationsAreTrue(plant, limits, xs, soc);
      }
    } else {
      OverfillingIsMisreported(plant, limits);
    }
  }
}
