/** Properties every run keeps: energy conservation under any policy, and the
    operating window under the controller. */
module RunSafety {
  import opened Foundation
  import opened EnergyBalance
  import opened Batteries
  import opened Control
  import opened Plants
  import opened Loop
  import opened Dominance

  // ----- conservation -----

  function TotalImbalance(xs: seq<Interval>): real {
    if xs == [] then 0.0 else TotalImbalance(Init(xs)) + Last(xs).generated - Last(xs).consumed
  }

  /** The most that n balances can have snapped away. */
  function SnapAllowance(n: nat): real {
    n as real * BALANCE_TOLERANCE_KWH
  }

  lemma {:induction false} SnappingAddsUp(xs: seq<Interval>)
    ensures Abs(TotalImbalance(xs) - (TotalSurplus(xs) - TotalDeficit(xs))) <= SnapAllowance(|xs|)
    ensures (forall k :: 0 <= k < |xs| ==> Net(xs[k]) == xs[k].generated - xs[k].consumed) ==>
              TotalImbalance(xs) == TotalSurplus(xs) - TotalDeficit(xs)
  {
    if xs == [] {
    } else {
      SnappingAddsUp(Init(xs));
      assert Last(xs) == xs[|xs| - 1];
    }
  }

  /** Energy that entered the plant, from the sun and the grid, minus what left it. */
  function EnergyReceived(xs: seq<Interval>, t: Totals): real {
    TotalImbalance(xs) + t.imported + t.unserved - t.exported - t.curtailed
  }

  lemma PhysicalRunReceives(plant: Plant, xs: seq<Interval>, flows: seq<Flow>, initialSoc: real)
    requires plant.Valid() && ValidIntervals(xs) && ValidBattery(plant.capacity, initialSoc)
    requires PhysicalRun(plant, xs, flows, initialSoc)
    ensures EnergyReceived(xs, TotalsOf(flows)) - (SocAfter(flows, initialSoc) - initialSoc)
         == TotalImbalance(xs) - (TotalSurplus(xs) - TotalDeficit(xs))
  {
    PhysicalRunAccounts(plant, xs, flows, initialSoc);
  }

  /** The battery gained what the plant received, up to what the balances snapped
      away, and exactly that when none was snapped. */
  predicate ConservesEnergy(xs: seq<Interval>, flows: seq<Flow>, initialSoc: real) {
    var received, gained := EnergyReceived(xs, TotalsOf(flows)), SocAfter(flows, initialSoc) - initialSoc;
    && Abs(received - gained) <= SnapAllowance(|xs|)
    && ((forall k :: 0 <= k < |xs| ==> Net(xs[k]) == xs[k].generated - xs[k].consumed) ==> received == gained)
  }

  /** Conservation telescopes: every run, under any policy, conserves energy. */
  lemma EnergyIsConservedOverRuns(plant: Plant, xs: seq<Interval>, policy: Policy, initialSoc: real)
    requires plant.Valid() && ValidIntervals(xs) && ValidBattery(plant.capacity, initialSoc)
    ensures ConservesEnergy(xs, LoopFlows(plant, xs, policy, initialSoc), initialSoc)
  {
    AnyPolicyKeepsThePlantPhysical(plant, xs, policy, initialSoc);
    PhysicalRunReceives(plant, xs, LoopFlows(plant, xs, policy, initialSoc), initialSoc);
    SnappingAddsUp(xs);
  }

  // ----- the operating window -----

  /** How far a state of charge is outside the window; zero inside it. */
  function DistanceToWindow(l: Limits, soc: real): real {
    Max(0.0, Max(soc - l.maximumBatterySocKwh, l.minimumBatterySocKwh - soc))
  }

  /** One interval never increases the distance and never crosses the window. */
  predicate DrawnToWindow(l: Limits, before: real, after: real) {
    && DistanceToWindow(l, after) <= DistanceToWindow(l, before)
    && (before >= l.minimumBatterySocKwh ==> after >= l.minimumBatterySocKwh)
    && (before <= l.maximumBatterySocKwh ==> after <= l.maximumBatterySocKwh)
  }

  lemma OneIntervalIsDrawnToWindow(plant: Plant, l: Limits, x: Interval, soc: real)
    requires ValidLimits(l) && ValidInterval(x) && ValidBattery(plant.capacity, soc)
    ensures DrawnToWindow(l, soc, StrategyFlow(plant, Limited(l), x, soc).socAfter)
  {
    StrategiesAreFeasible(plant, Limited(l), x, soc);
    assert ChargeUnder(plant, Limited(l), x, soc) <= RoomAbove(l, soc);
    assert DischargeUnder(Limited(l), x, soc) <= RoomBelow(l, soc);
  }

  lemma DrawnToWindowChains(l: Limits, a: real, b: real, c: real)
    requires DrawnToWindow(l, a, b) && DrawnToWindow(l, b, c)
    ensures DrawnToWindow(l, a, c)
  {
  }

  lemma NextIntervalIsDrawnToWindow(plant: Plant, l: Limits, xs: seq<Interval>, initialSoc: real, k: nat)
    requires plant.Valid() && ValidLimits(l) && ValidIntervals(xs) && ValidBattery(plant.capacity, initialSoc)
    requires k < |xs|
    ensures
      var flows := StrategyRun(plant, Limited(l), xs, initialSoc);
      DrawnToWindow(l, SocAfter(flows[..k], initialSoc), SocAfter(flows[..k + 1], initialSoc))
  {
    var flows := StrategyRun(plant, Limited(l), xs, initialSoc);
    StrategyRunIsPhysical(plant, Limited(l), xs, initialSoc);
    SocAlongPhysicalRun(plant, xs, flows, initialSoc, k);
    StrategyRunAt(plant, Limited(l), xs, initialSoc, k);
    OneIntervalIsDrawnToWindow(plant, l, xs[k], SocAfter(flows[..k], initialSoc));
    assert Last(flows[..k + 1]) == flows[k];
  }

  /** Window safety and attraction over whole runs: between any two points of a run
      with the controller in the loop, the state of charge has come no further from
      the window, has not crossed it, and has not left it. */
  lemma {:induction false} ControllerIsDrawnToWindow(
    plant: Plant, l: Limits, xs: seq<Interval>, initialSoc: real, earlier: nat, later: nat)
    requires plant.Valid() && ValidLimits(l) && ValidIntervals(xs) && ValidBattery(plant.capacity, initialSoc)
    requires earlier <= later <= |xs|
    ensures
      var flows := LoopFlows(plant, xs, ControllerPolicy(l), initialSoc);
      DrawnToWindow(l, SocAfter(flows[..earlier], initialSoc), SocAfter(flows[..later], initialSoc))
    decreases later
  {
    ControllerLoopClosedForm(plant, l, xs, initialSoc);
    var flows := LoopFlows(plant, xs, ControllerPolicy(l), initialSoc);
    if earlier != later {
      ControllerIsDrawnToWindow(plant, l, xs, initialSoc, earlier, later - 1);
      NextIntervalIsDrawnToWindow(plant, l, xs, initialSoc, later - 1);
      DrawnToWindowChains(l, SocAfter(flows[..earlier], initialSoc), SocAfter(flows[..later - 1], initialSoc),
                          SocAfter(flows[..later], initialSoc));
    }
  }
}
