/** A run whose every decision is explained follows the controller it was explained
    by, whoever decided. */
module Tracking {
  import opened Foundation
  import opened Batteries
  import opened Control
  import opened EnergyController
  import opened Plants
  import opened Loop
  import opened RunSafety
  import opened Dashboard

  lemma EnergyDifference(a: real, b: real, hours: real)
    ensures Energy(a, hours) - Energy(b, hours) == Energy(a - b, hours)
  {
  }

  /** Powers within the matching tolerance request energies within its energy. */
  lemma CloseRequests(power: real, binding: real, hours: real)
    requires hours > 0.0 && binding >= 0.0 && Abs(power - binding) <= MATCH_TOLERANCE_KW
    ensures Abs(Energy(Max(power, 0.0), hours) - Energy(binding, hours)) <= Energy(MATCH_TOLERANCE_KW, hours)
  {
    var difference := Max(power, 0.0) - binding;
    EnergyDifference(Max(power, 0.0), binding, hours);
    EnergyMonotone(difference, MATCH_TOLERANCE_KW, hours);
    EnergyMonotone(-difference, MATCH_TOLERANCE_KW, hours);
    EnergyDifference(0.0, difference, hours);
  }

  /** What the checker leaves open: the action is the expected one and its request
      is close to the wanted energy, or it idles and hardly any energy is wanted. */
  predicate CloseTo(limits: Limits, x: Interval, soc: real, d: ControlDecision, slack: real) {
    var net, requested := Net(x), RequestedEnergy(d, x.hours);
    var store := SmallestOf(net, Energy(limits.maxChargePowerKw, x.hours), RoomAbove(limits, soc));
    var supply := SmallestOf(-net, Energy(limits.maxDischargePowerKw, x.hours), RoomBelow(limits, soc));
    if net == 0.0 then true
    else if net > 0.0 then
      (d.action == Idle && store <= slack) || (d.action == ChargeBattery && Abs(requested - store) <= slack)
    else
      (d.action == Idle && supply <= slack) || (d.action == DischargeBattery && Abs(requested - supply) <= slack)
  }

  lemma ExplainedIsClose(step: LoopStep, limits: Limits)
    requires ValidLimits(limits) && step.interval.hours > 0.0 && step.netEnergyKwh == Net(step.interval)
    requires Explain(step, Some(limits)) != Unexplained
    ensures CloseTo(limits, step.interval, step.flow.socBefore, step.decision,
                    Energy(MATCH_TOLERANCE_KW, step.interval.hours))
  {
    var x, soc, d := step.interval, step.flow.socBefore, step.decision;
    if Net(x) != 0.0 {
      var binding := BindingCandidate(limits, Net(x), x.hours, soc).powerKw;
      BindingIsNotNegative(limits, Net(x), x.hours, soc);
      BindingEnergy(limits, Net(x), x.hours, soc);
      if d.action == Idle {
        EnergyMonotone(binding, MATCH_TOLERANCE_KW, x.hours);
      } else {
        CloseRequests(d.requestedPowerKw, binding, x.hours);
      }
    }
  }

  /** A close request moves the battery to within the slack; stated over energies. */
  lemma CloseRequestMovesClose(
    surplus: real, room: real, cap: real, window: real, idle: bool, requested: real, slack: real)
    requires surplus > 0.0 && room >= 0.0 && cap >= 0.0 && window >= 0.0 && slack >= 0.0
    requires if idle then SmallestOf(surplus, cap, window) <= slack
             else Abs(requested - SmallestOf(surplus, cap, window)) <= slack
    ensures
      var moved := if idle then 0.0 else Min(Min(requested, surplus), room);
      Abs(moved - MoveWithin(surplus, room, cap, window)) <= slack
  {
  }

  lemma CloseChargeLandsClose(plant: Plant, limits: Limits, x: Interval, soc: real, d: ControlDecision, slack: real)
    requires ValidBattery(plant.capacity, soc) && slack >= 0.0 && Net(x) > 0.0
    requires Energy(limits.maxChargePowerKw, x.hours) >= 0.0 && CloseTo(limits, x, soc, d, slack)
    ensures Abs(ChargedBy(plant, x, soc, d.action, RequestedEnergy(d, x.hours))
                - ChargeUnder(plant, Limited(limits), x, soc)) <= slack
  {
    CloseRequestMovesClose(Net(x), plant.capacity - soc, Energy(limits.maxChargePowerKw, x.hours),
                           RoomAbove(limits, soc), d.action == Idle, RequestedEnergy(d, x.hours), slack);
  }

  lemma CloseDischargeLandsClose(limits: Limits, x: Interval, soc: real, d: ControlDecision, slack: real)
    requires soc >= 0.0 && slack >= 0.0 && Net(x) < 0.0
    requires Energy(limits.maxDischargePowerKw, x.hours) >= 0.0 && CloseTo(limits, x, soc, d, slack)
    ensures Abs(DischargedBy(x, soc, d.action, RequestedEnergy(d, x.hours))
                - DischargeUnder(Limited(limits), x, soc)) <= slack
  {
    CloseRequestMovesClose(-Net(x), soc, Energy(limits.maxDischargePowerKw, x.hours),
                           RoomBelow(limits, soc), d.action == Idle, RequestedEnergy(d, x.hours), slack);
  }

  /** Soundness of the checker: from the same state of charge, an explained decision
      takes the plant to within the matching tolerance of the controller's. */
  lemma CloseDecisionLandsClose(plant: Plant, limits: Limits, x: Interval, soc: real, d: ControlDecision, slack: real)
    requires ValidLimits(limits) && ValidInterval(x) && ValidBattery(plant.capacity, soc) && slack >= 0.0
    requires CloseTo(limits, x, soc, d, slack)
    ensures Abs(ApplyDecision(plant, x, soc, d).socAfter - StrategyFlow(plant, Limited(limits), x, soc).socAfter)
         <= slack
  {
    EnergyNotNegative(limits.maxChargePowerKw, x.hours);
    EnergyNotNegative(limits.maxDischargePowerKw, x.hours);
    AnyDecisionIsFeasible(plant, x, soc, d);
    IdleDirections(plant, Limited(limits), x, soc);
    if Net(x) > 0.0 {
      CloseChargeLandsClose(plant, limits, x, soc, d, slack);
      assert DischargedBy(x, soc, d.action, RequestedEnergy(d, x.hours)) == 0.0;
    } else if Net(x) < 0.0 {
      CloseDischargeLandsClose(limits, x, soc, d, slack);
      assert ChargedBy(plant, x, soc, d.action, RequestedEnergy(d, x.hours)) == 0.0;
    }
  }

  /** Moving towards a bound is non-expansive; stated over the energies alone, with
      the other state of charge `ahead` of the first towards that bound. */
  lemma ClampedMoveIsNonExpansive(
    offered: real, cap: real, room: real, gap: real, ahead: real, window: real, otherRoom: real, otherWindow: real)
    requires offered >= 0.0 && cap >= 0.0 && room >= 0.0
    requires otherRoom == room - ahead && otherRoom >= 0.0
    requires window == Max(0.0, gap) && otherWindow == Max(0.0, gap - ahead)
    ensures Abs(MoveWithin(offered, room, cap, window) - MoveWithin(offered, otherRoom, cap, otherWindow) - ahead)
         <= Abs(ahead)
  {
  }

  lemma ChargeIsNonExpansive(plant: Plant, limits: Limits, x: Interval, soc: real, otherSoc: real)
    requires ValidBattery(plant.capacity, soc) && ValidBattery(plant.capacity, otherSoc)
    requires Energy(limits.maxChargePowerKw, x.hours) >= 0.0
    ensures Abs(ChargeUnder(plant, Limited(limits), x, soc) - ChargeUnder(plant, Limited(limits), x, otherSoc)
                - (otherSoc - soc)) <= Abs(otherSoc - soc)
  {
    ClampedMoveIsNonExpansive(SurplusOf(x), Energy(limits.maxChargePowerKw, x.hours), plant.capacity - soc,
                              limits.maximumBatterySocKwh - soc, otherSoc - soc, RoomAbove(limits, soc),
                              plant.capacity - otherSoc, RoomAbove(limits, otherSoc));
  }

  lemma DischargeIsNonExpansive(limits: Limits, x: Interval, soc: real, otherSoc: real)
    requires soc >= 0.0 && otherSoc >= 0.0
    requires Energy(limits.maxDischargePowerKw, x.hours) >= 0.0
    ensures Abs(DischargeUnder(Limited(limits), x, soc) - DischargeUnder(Limited(limits), x, otherSoc)
                - (soc - otherSoc)) <= Abs(soc - otherSoc)
  {
    ClampedMoveIsNonExpansive(DeficitOf(x), Energy(limits.maxDischargePowerKw, x.hours), soc,
                              soc - limits.minimumBatterySocKwh, soc - otherSoc, RoomBelow(limits, soc),
                              otherSoc, RoomBelow(limits, otherSoc));
  }

  /** The controller's step map never drives two states of charge apart. */
  lemma ControllerStepIsNonExpansive(plant: Plant, limits: Limits, x: Interval, soc: real, otherSoc: real)
    requires ValidLimits(limits) && ValidInterval(x)
    requires ValidBattery(plant.capacity, soc) && ValidBattery(plant.capacity, otherSoc)
    ensures
      Abs(StrategyFlow(plant, Limited(limits), x, soc).socAfter
          - StrategyFlow(plant, Limited(limits), x, otherSoc).socAfter)
      <= Abs(soc - otherSoc)
  {
    EnergyNotNegative(limits.maxChargePowerKw, x.hours);
    EnergyNotNegative(limits.maxDischargePowerKw, x.hours);
    IdleDirections(plant, Limited(limits), x, soc);
    IdleDirections(plant, Limited(limits), x, otherSoc);
    if Net(x) > 0.0 {
      ChargeIsNonExpansive(plant, limits, x, soc, otherSoc);
    } else {
      DischargeIsNonExpansive(limits, x, soc, otherSoc);
    }
  }

  /** Every interval of the run is explained by the given limits. */
  predicate Explained(steps: seq<LoopStep>, limits: Limits) {
    forall k :: 0 <= k < |steps| ==>
      steps[k].interval.hours > 0.0 && Explain(steps[k], Some(limits)) != Unexplained
  }

  lemma ExplainedStepTracks(plant: Plant, limits: Limits, xs: seq<Interval>, policy: Policy, soc: real, otherSoc: real)
    requires ValidLimits(limits) && xs != [] && ValidInterval(Last(xs))
    requires ValidBattery(plant.capacity, soc) && ValidBattery(plant.capacity, otherSoc)
    requires Explain(LoopStepOf(plant, xs, policy, soc), Some(limits)) != Unexplained
    ensures
      Abs(LoopStepOf(plant, xs, policy, soc).flow.socAfter
          - StrategyFlow(plant, Limited(limits), Last(xs), otherSoc).socAfter)
      <= Abs(soc - otherSoc) + Energy(MATCH_TOLERANCE_KW, Last(xs).hours)
  {
    var x, step := Last(xs), LoopStepOf(plant, xs, policy, soc);
    EnergyNotNegative(MATCH_TOLERANCE_KW, x.hours);
    ExplainedIsClose(step, limits);
    CloseDecisionLandsClose(plant, limits, x, soc, step.decision, Energy(MATCH_TOLERANCE_KW, x.hours));
    ControllerStepIsNonExpansive(plant, limits, x, soc, otherSoc);
  }

  lemma ExplainedInit(plant: Plant, limits: Limits, xs: seq<Interval>, policy: Policy, initialSoc: real)
    requires xs != [] && Explained(LoopRun(plant, xs, policy, initialSoc), limits)
    ensures Explained(LoopRun(plant, Init(xs), policy, initialSoc), limits)
    ensures
      var last := LoopStepOf(plant, xs, policy, SocAfter(LoopFlows(plant, Init(xs), policy, initialSoc), initialSoc));
      last.interval.hours > 0.0 && Explain(last, Some(limits)) != Unexplained
  {
    var steps, before := LoopRun(plant, xs, policy, initialSoc), LoopRun(plant, Init(xs), policy, initialSoc);
    LoopFlowsUnfold(plant, xs, policy, initialSoc);
    assert forall k :: 0 <= k < |before| ==> before[k] == steps[k];
    assert Last(steps) == steps[|xs| - 1];
  }

  lemma {:induction false} ExplainedRunEndsNearTheController(
    plant: Plant, limits: Limits, xs: seq<Interval>, policy: Policy, initialSoc: real)
    requires plant.Valid() && ValidLimits(limits) && ValidIntervals(xs) && ValidBattery(plant.capacity, initialSoc)
    requires Explained(LoopRun(plant, xs, policy, initialSoc), limits)
    ensures
      Abs(SocAfter(LoopFlows(plant, xs, policy, initialSoc), initialSoc)
          - SocAfter(LoopFlows(plant, xs, ControllerPolicy(limits), initialSoc), initialSoc))
      <= Energy(MATCH_TOLERANCE_KW, Hours(xs))
  {
    if xs == [] {
      EnergyNotNegative(MATCH_TOLERANCE_KW, Hours(xs));
    } else {
      ExplainedInit(plant, limits, xs, policy, initialSoc);
      ExplainedRunEndsNearTheController(plant, limits, Init(xs), policy, initialSoc);
      var soc := SocAfter(LoopFlows(plant, Init(xs), policy, initialSoc), initialSoc);
      var otherSoc := SocAfter(LoopFlows(plant, Init(xs), ControllerPolicy(limits), initialSoc), initialSoc);
      AnyPolicyKeepsThePlantPhysical(plant, Init(xs), policy, initialSoc);
      AnyPolicyKeepsThePlantPhysical(plant, Init(xs), ControllerPolicy(limits), initialSoc);
      LoopFlowsUnfold(plant, xs, policy, initialSoc);
      LoopFlowsUnfold(plant, xs, ControllerPolicy(limits), initialSoc);
      ControllerStepClosedForm(plant, limits, xs, otherSoc);
      ExplainedStepTracks(plant, limits, xs, policy, soc, otherSoc);
      EnergyOverTime(MATCH_TOLERANCE_KW, Hours(Init(xs)), Last(xs).hours);
    }
  }

  /** At every point of the two runs the states of charge are within the matching
      tolerance times the hours elapsed by then. */
  ghost predicate TracksThroughout(xs: seq<Interval>, flows: seq<Flow>, controlled: seq<Flow>, initialSoc: real) {
    && |flows| == |controlled| == |xs|
    && forall n :: 0 <= n <= |xs| ==>
         Abs(SocAfter(flows[..n], initialSoc) - SocAfter(controlled[..n], initialSoc))
         <= Energy(MATCH_TOLERANCE_KW, Hours(xs[..n]))
  }

  /** Explained runs track the controller: at every point, the state of charge of an
      explained run, whoever decided, is within the matching tolerance times the
      elapsed hours of the run the controller would have made. */
  lemma ExplainedRunsTrackTheController(
    plant: Plant, limits: Limits, xs: seq<Interval>, policy: Policy, initialSoc: real)
    requires plant.Valid() && ValidLimits(limits) && ValidIntervals(xs) && ValidBattery(plant.capacity, initialSoc)
    requires Explained(LoopRun(plant, xs, policy, initialSoc), limits)
    ensures TracksThroughout(xs, LoopFlows(plant, xs, policy, initialSoc),
                             LoopFlows(plant, xs, ControllerPolicy(limits), initialSoc), initialSoc)
  {
    var flows := LoopFlows(plant, xs, policy, initialSoc);
    var controlled := LoopFlows(plant, xs, ControllerPolicy(limits), initialSoc);
    forall n | 0 <= n <= |xs|
      ensures Abs(SocAfter(flows[..n], initialSoc) - SocAfter(controlled[..n], initialSoc))
           <= Energy(MATCH_TOLERANCE_KW, Hours(xs[..n]))
    {
      LoopRunPrefix(plant, xs, policy, initialSoc, n);
      LoopFlowsPrefix(plant, xs, policy, initialSoc, n);
      LoopFlowsPrefix(plant, xs, ControllerPolicy(limits), initialSoc, n);
      ExplainedRunEndsNearTheController(plant, limits, xs[..n], policy, initialSoc);
    }
  }

  lemma NearTheWindow(limits: Limits, soc: real, otherSoc: real, slack: real)
    requires limits.minimumBatterySocKwh <= otherSoc <= limits.maximumBatterySocKwh && Abs(soc - otherSoc) <= slack
    ensures DistanceToWindow(limits, soc) <= slack
  {
  }

  /** So an explained run that starts inside the operating window never strays from
      it by more than that tolerance. */
  lemma ExplainedRunsStayNearTheWindow(
    plant: Plant, limits: Limits, xs: seq<Interval>, policy: Policy, initialSoc: real, n: nat)
    requires plant.Valid() && ValidLimits(limits) && ValidIntervals(xs) && ValidBattery(plant.capacity, initialSoc)
    requires Explained(LoopRun(plant, xs, policy, initialSoc), limits)
    requires limits.minimumBatterySocKwh <= initialSoc <= limits.maximumBatterySocKwh && n <= |xs|
    ensures DistanceToWindow(limits, SocAfter(LoopFlows(plant, xs, policy, initialSoc)[..n], initialSoc))
         <= Energy(MATCH_TOLERANCE_KW, Hours(xs[..n]))
  {
    var flows := LoopFlows(plant, xs, policy, initialSoc);
    var controlled := LoopFlows(plant, xs, ControllerPolicy(limits), initialSoc);
    ExplainedRunsTrackTheController(plant, limits, xs, policy, initialSoc);
    ControllerIsDrawnToWindow(plant, limits, xs, initialSoc, 0, n);
    assert controlled[..0] == [];
    NearTheWindow(limits, SocAfter(flows[..n], initialSoc), SocAfter(controlled[..n], initialSoc),
                  Energy(MATCH_TOLERANCE_KW, Hours(xs[..n])));
  }
}
