/** Comparing two runs over the same intervals: the one that always moves as much
    energy through the battery as it can never leaves more for the grid. */
module Dominance {
  import opened Foundation
  import opened Batteries
  import opened Grids
  import opened Control
  import opened Plants
  import opened Loop

  /** Keeping up in one interval: moving at least as much, or else already being
      at least as full (after charging) or as empty (after discharging). */
  predicate KeepsUp(ahead: Flow, behind: Flow) {
    && (ahead.charged >= behind.charged || ahead.socAfter >= behind.socAfter)
    && (ahead.discharged >= behind.discharged || ahead.socAfter <= behind.socAfter)
  }

  /** Having used the battery at least as much in both directions, and so having
      left at most as much deficit and surplus to the grid. */
  predicate Dominates(ahead: Totals, behind: Totals) {
    && ahead.charged >= behind.charged
    && ahead.discharged >= behind.discharged
    && ahead.imported + ahead.unserved <= behind.imported + behind.unserved
    && ahead.exported + ahead.curtailed <= behind.exported + behind.curtailed
  }

  /** One interval of the induction, over the energies alone: cumulative charge and
      discharge must both dominate for either to be maintained. */
  lemma KeepingUpStep(
    initialSoc: real, charged: real, discharged: real, otherCharged: real, otherDischarged: real,
    c: real, d: real, otherC: real, otherD: real)
    requires charged >= otherCharged && discharged >= otherDischarged
    requires (c == 0.0 && otherC == 0.0) || (d == 0.0 && otherD == 0.0)
    requires
      var after := initialSoc + charged - discharged + c - d;
      var otherAfter := initialSoc + otherCharged - otherDischarged + otherC - otherD;
      (c >= otherC || after >= otherAfter) && (d >= otherD || after <= otherAfter)
    ensures charged + c >= otherCharged + otherC && discharged + d >= otherDischarged + otherD
  {
  }

  /** The surplus or the deficit of an interval is zero, and with it one direction. */
  lemma OneDirection(plant: Plant, x: Interval, soc: real, charged: real, discharged: real)
    requires Feasible(plant, x, soc, charged, discharged)
    ensures Net(x) >= 0.0 ==> discharged == 0.0
    ensures Net(x) <= 0.0 ==> charged == 0.0
  {
  }

  lemma {:induction false} KeepingUpMovesMore(
    plant: Plant, xs: seq<Interval>, ahead: seq<Flow>, behind: seq<Flow>, initialSoc: real)
    requires plant.Valid() && ValidIntervals(xs) && ValidBattery(plant.capacity, initialSoc)
    requires PhysicalRun(plant, xs, ahead, initialSoc) && PhysicalRun(plant, xs, behind, initialSoc)
    requires forall k :: 0 <= k < |xs| ==> KeepsUp(ahead[k], behind[k])
    ensures TotalsOf(ahead).charged >= TotalsOf(behind).charged
    ensures TotalsOf(ahead).discharged >= TotalsOf(behind).discharged
  {
    if xs == [] {
      assert ahead == [] && behind == [];
    } else {
      var n := |xs| - 1;
      PhysicalRunPrefix(plant, xs, ahead, initialSoc, n);
      PhysicalRunPrefix(plant, xs, behind, initialSoc, n);
      PhysicalRunAccounts(plant, Init(xs), Init(ahead), initialSoc);
      PhysicalRunAccounts(plant, Init(xs), Init(behind), initialSoc);
      KeepingUpMovesMore(plant, Init(xs), Init(ahead), Init(behind), initialSoc);
      assert KeepsUp(ahead[n], behind[n]);
      OneDirection(plant, xs[n], SocAfter(ahead[..n], initialSoc), ahead[n].charged, ahead[n].discharged);
      OneDirection(plant, xs[n], SocAfter(behind[..n], initialSoc), behind[n].charged, behind[n].discharged);
      var t, u := TotalsOf(Init(ahead)), TotalsOf(Init(behind));
      KeepingUpStep(initialSoc, t.charged, t.discharged, u.charged, u.discharged,
                    ahead[n].charged, ahead[n].discharged, behind[n].charged, behind[n].discharged);
    }
  }

  /** Keeping up in every interval dominates over the whole run: what the battery
      does not move, the grid has to. */
  lemma KeepingUpDominates(
    plant: Plant, xs: seq<Interval>, ahead: seq<Flow>, behind: seq<Flow>, initialSoc: real)
    requires plant.Valid() && ValidIntervals(xs) && ValidBattery(plant.capacity, initialSoc)
    requires PhysicalRun(plant, xs, ahead, initialSoc) && PhysicalRun(plant, xs, behind, initialSoc)
    requires forall k :: 0 <= k < |xs| ==> KeepsUp(ahead[k], behind[k])
    ensures Dominates(TotalsOf(ahead), TotalsOf(behind))
  {
    KeepingUpMovesMore(plant, xs, ahead, behind, initialSoc);
    PhysicalRunAccounts(plant, xs, ahead, initialSoc);
    PhysicalRunAccounts(plant, xs, behind, initialSoc);
  }

  /** Domination at every point of the run, not just at its end. */
  ghost predicate DominatesThroughout(ahead: seq<Flow>, behind: seq<Flow>) {
    && |ahead| == |behind|
    && forall n :: 0 <= n <= |ahead| ==> Dominates(TotalsOf(ahead[..n]), TotalsOf(behind[..n]))
  }

  lemma KeepingUpDominatesThroughout(
    plant: Plant, xs: seq<Interval>, ahead: seq<Flow>, behind: seq<Flow>, initialSoc: real)
    requires plant.Valid() && ValidIntervals(xs) && ValidBattery(plant.capacity, initialSoc)
    requires PhysicalRun(plant, xs, ahead, initialSoc) && PhysicalRun(plant, xs, behind, initialSoc)
    requires forall k :: 0 <= k < |xs| ==> KeepsUp(ahead[k], behind[k])
    ensures DominatesThroughout(ahead, behind)
  {
    forall n | 0 <= n <= |xs|
      ensures Dominates(TotalsOf(ahead[..n]), TotalsOf(behind[..n]))
    {
      PhysicalRunPrefix(plant, xs, ahead, initialSoc, n);
      PhysicalRunPrefix(plant, xs, behind, initialSoc, n);
      KeepingUpDominates(plant, xs[..n], ahead[..n], behind[..n], initialSoc);
    }
  }

  // ----- battery first is optimal -----

  lemma BatteryFirstKeepsUp(plant: Plant, x: Interval, soc: real, behind: Flow, otherSoc: real)
    requires ValidBattery(plant.capacity, soc) && ValidBattery(plant.capacity, otherSoc)
    requires Feasible(plant, x, otherSoc, behind.charged, behind.discharged)
    requires behind.socAfter == otherSoc + behind.charged - behind.discharged
    ensures KeepsUp(StrategyFlow(plant, BatteryFirst, x, soc), behind)
  {
  }

  lemma StrategyRunAt(plant: Plant, s: Strategy, xs: seq<Interval>, initialSoc: real, k: nat)
    requires k < |xs|
    ensures
      var flows := StrategyRun(plant, s, xs, initialSoc);
      flows[k] == StrategyFlow(plant, s, xs[k], SocAfter(flows[..k], initialSoc))
  {
    StrategyRunPrefix(plant, s, xs, initialSoc, k);
    StrategyRunPrefix(plant, s, xs, initialSoc, k + 1);
    assert Init(xs[..k + 1]) == xs[..k];
  }

  lemma SocAlongPhysicalRun(plant: Plant, xs: seq<Interval>, flows: seq<Flow>, initialSoc: real, k: nat)
    requires plant.Valid() && ValidIntervals(xs) && ValidBattery(plant.capacity, initialSoc)
    requires PhysicalRun(plant, xs, flows, initialSoc) && k <= |xs|
    ensures ValidBattery(plant.capacity, SocAfter(flows[..k], initialSoc))
  {
    PhysicalRunPrefix(plant, xs, flows, initialSoc, k);
    PhysicalRunAccounts(plant, xs[..k], flows[..k], initialSoc);
  }

  lemma BatteryFirstDominatesEveryPhysicalRun(
    plant: Plant, xs: seq<Interval>, flows: seq<Flow>, initialSoc: real)
    requires plant.Valid() && ValidIntervals(xs) && ValidBattery(plant.capacity, initialSoc)
    requires PhysicalRun(plant, xs, flows, initialSoc)
    ensures DominatesThroughout(StrategyRun(plant, BatteryFirst, xs, initialSoc), flows)
  {
    var best := StrategyRun(plant, BatteryFirst, xs, initialSoc);
    StrategyRunIsPhysical(plant, BatteryFirst, xs, initialSoc);
    forall k | 0 <= k < |xs|
      ensures KeepsUp(best[k], flows[k])
    {
      StrategyRunAt(plant, BatteryFirst, xs, initialSoc, k);
      SocAlongPhysicalRun(plant, xs, best, initialSoc, k);
      SocAlongPhysicalRun(plant, xs, flows, initialSoc, k);
      BatteryFirstKeepsUp(plant, xs[k], SocAfter(best[..k], initialSoc), flows[k], SocAfter(flows[..k], initialSoc));
    }
    KeepingUpDominatesThroughout(plant, xs, best, flows, initialSoc);
  }

  /** Battery first is optimal: at every point of every scenario, no decision
      provider has left less deficit or less surplus to the grid. */
  lemma BatteryFirstIsOptimal(plant: Plant, xs: seq<Interval>, policy: Policy, initialSoc: real)
    requires plant.Valid() && ValidIntervals(xs) && ValidBattery(plant.capacity, initialSoc)
    ensures DominatesThroughout(StrategyRun(plant, BatteryFirst, xs, initialSoc),
                                LoopFlows(plant, xs, policy, initialSoc))
  {
    AnyPolicyKeepsThePlantPhysical(plant, xs, policy, initialSoc);
    BatteryFirstDominatesEveryPhysicalRun(plant, xs, LoopFlows(plant, xs, policy, initialSoc), initialSoc);
  }

  // ----- relaxing the controller limits -----

  /** At least the power in both directions and at least the window. */
  predicate Relaxes(wide: Limits, tight: Limits) {
    && wide.maxChargePowerKw >= tight.maxChargePowerKw
    && wide.maxDischargePowerKw >= tight.maxDischargePowerKw
    && wide.minimumBatterySocKwh <= tight.minimumBatterySocKwh
    && wide.maximumBatterySocKwh >= tight.maximumBatterySocKwh
  }

  /** Charging against larger caps keeps up; stated over the energies alone. */
  lemma LargerCapKeepsUp(
    surplus: real, capacity: real, soc: real, otherSoc: real, cap: real, otherCap: real, top: real, otherTop: real)
    requires 0.0 <= otherCap <= cap && otherTop <= top && surplus >= 0.0
    requires soc <= capacity && otherSoc <= capacity
    ensures
      var charged := Min(Min(surplus, capacity - soc), Min(cap, Max(0.0, top - soc)));
      var otherCharged := Min(Min(surplus, capacity - otherSoc), Min(otherCap, Max(0.0, otherTop - otherSoc)));
      charged >= otherCharged || soc + charged >= otherSoc + otherCharged
  {
  }

  lemma RelaxedLimitsKeepUp(plant: Plant, wide: Limits, tight: Limits, x: Interval, soc: real, otherSoc: real)
    requires ValidInterval(x) && ValidLimits(tight) && Relaxes(wide, tight)
    requires ValidBattery(plant.capacity, soc) && ValidBattery(plant.capacity, otherSoc)
    ensures KeepsUp(StrategyFlow(plant, Limited(wide), x, soc), StrategyFlow(plant, Limited(tight), x, otherSoc))
  {
    EnergyNotNegative(tight.maxChargePowerKw, x.hours);
    EnergyNotNegative(tight.maxDischargePowerKw, x.hours);
    EnergyMonotone(tight.maxChargePowerKw, wide.maxChargePowerKw, x.hours);
    EnergyMonotone(tight.maxDischargePowerKw, wide.maxDischargePowerKw, x.hours);
    var ahead, behind := StrategyFlow(plant, Limited(wide), x, soc), StrategyFlow(plant, Limited(tight), x, otherSoc);
    assert Net(x) >= 0.0 ==> ahead.discharged == 0.0 && behind.discharged == 0.0;
    assert Net(x) <= 0.0 ==> ahead.charged == 0.0 && behind.charged == 0.0;
    LargerCapKeepsUp(
      SurplusOf(x), plant.capacity, soc, otherSoc,
      Energy(wide.maxChargePowerKw, x.hours), Energy(tight.maxChargePowerKw, x.hours),
      wide.maximumBatterySocKwh, tight.maximumBatterySocKwh);
    // Discharging is charging seen from above: mirror the state of charge.
    LargerCapKeepsUp(
      DeficitOf(x), 0.0, -soc, -otherSoc,
      Energy(wide.maxDischargePowerKw, x.hours), Energy(tight.maxDischargePowerKw, x.hours),
      -wide.minimumBatterySocKwh, -tight.minimumBatterySocKwh);
  }

  /** Relaxing the controller limits never leaves more to the grid, at any point of
      any scenario. */
  lemma RelaxedLimitsDominate(plant: Plant, wide: Limits, tight: Limits, xs: seq<Interval>, initialSoc: real)
    requires plant.Valid() && ValidIntervals(xs) && ValidBattery(plant.capacity, initialSoc)
    requires ValidLimits(tight) && Relaxes(wide, tight) && ValidLimits(wide)
    ensures DominatesThroughout(LoopFlows(plant, xs, ControllerPolicy(wide), initialSoc),
                                LoopFlows(plant, xs, ControllerPolicy(tight), initialSoc))
  {
    ControllerLoopClosedForm(plant, wide, xs, initialSoc);
    ControllerLoopClosedForm(plant, tight, xs, initialSoc);
    var ahead := StrategyRun(plant, Limited(wide), xs, initialSoc);
    var behind := StrategyRun(plant, Limited(tight), xs, initialSoc);
    StrategyRunIsPhysical(plant, Limited(wide), xs, initialSoc);
    StrategyRunIsPhysical(plant, Limited(tight), xs, initialSoc);
    forall k | 0 <= k < |xs|
      ensures KeepsUp(ahead[k], behind[k])
    {
      StrategyRunAt(plant, Limited(wide), xs, initialSoc, k);
      StrategyRunAt(plant, Limited(tight), xs, initialSoc, k);
      SocAlongPhysicalRun(plant, xs, ahead, initialSoc, k);
      SocAlongPhysicalRun(plant, xs, behind, initialSoc, k);
      RelaxedLimitsKeepUp(plant, wide, tight, xs[k],
                          SocAfter(ahead[..k], initialSoc), SocAfter(behind[..k], initialSoc));
    }
    KeepingUpDominatesThroughout(plant, xs, ahead, behind, initialSoc);
  }

  // ----- the reference is an instance of the controller -----

  /** The window is the whole battery and no interval reaches a power limit. */
  predicate Unrestricting(limits: Limits, capacity: real, xs: seq<Interval>) {
    && limits.minimumBatterySocKwh == 0.0
    && limits.maximumBatterySocKwh == capacity
    && forall k :: 0 <= k < |xs| ==>
         && SurplusOf(xs[k]) <= Energy(limits.maxChargePowerKw, xs[k].hours)
         && DeficitOf(xs[k]) <= Energy(limits.maxDischargePowerKw, xs[k].hours)
  }

  lemma UnrestrictedStep(plant: Plant, limits: Limits, x: Interval, soc: real)
    requires ValidBattery(plant.capacity, soc)
    requires limits.minimumBatterySocKwh == 0.0 && limits.maximumBatterySocKwh == plant.capacity
    requires SurplusOf(x) <= Energy(limits.maxChargePowerKw, x.hours)
    requires DeficitOf(x) <= Energy(limits.maxDischargePowerKw, x.hours)
    ensures StrategyFlow(plant, Limited(limits), x, soc) == StrategyFlow(plant, BatteryFirst, x, soc)
  {
  }

  /** Under such limits the controller in the loop and the battery-first reference
      agree on every flow of every interval. */
  lemma {:induction false} ReferenceIsAnUnrestrictedController(
    plant: Plant, limits: Limits, xs: seq<Interval>, initialSoc: real)
    requires plant.Valid() && ValidIntervals(xs) && ValidBattery(plant.capacity, initialSoc)
    requires ValidLimits(limits) && Unrestricting(limits, plant.capacity, xs)
    ensures LoopFlows(plant, xs, ControllerPolicy(limits), initialSoc)
         == StrategyRun(plant, BatteryFirst, xs, initialSoc)
  {
    ControllerLoopClosedForm(plant, limits, xs, initialSoc);
    if xs == [] {
    } else {
      ReferenceIsAnUnrestrictedController(plant, limits, Init(xs), initialSoc);
      ControllerLoopClosedForm(plant, limits, Init(xs), initialSoc);
      StrategyRunIsPhysical(plant, BatteryFirst, Init(xs), initialSoc);
      UnrestrictedStep(plant, limits, Last(xs),
                       SocAfter(StrategyRun(plant, BatteryFirst, Init(xs), initialSoc), initialSoc));
    }
  }
}
