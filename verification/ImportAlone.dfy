/** What battery first does not optimise: grid import, or unserved demand, on its
    own. Each is dominated exactly while the other cannot be traded for it. */
module ImportAlone {
  import opened Foundation
  import opened EnergyBalance
  import opened Batteries
  import opened Grids
  import opened Measurements
  import opened Control
  import opened EnergyController
  import opened Plants
  import opened Loop
  import opened Dominance

  predicate CanImport(grid: GridConnection) {
    grid.isAvailable && grid.maxImportPowerKw > 0.0
  }

  /** In every interval the grid alone could supply the whole deficit. */
  predicate CapNeverBinds(grid: GridConnection, xs: seq<Interval>) {
    forall k :: 0 <= k < |xs| ==> DeficitOf(xs[k]) <= grid.Limit(Import, xs[k].hours)
  }

  predicate NoDeficits(xs: seq<Interval>) {
    forall k :: 0 <= k < |xs| ==> DeficitOf(xs[k]) == 0.0
  }

  // ----- where each is dominated -----

  /** While the import cap cannot bind, no physical run leaves demand unserved. */
  lemma {:induction false} NothingIsUnserved(plant: Plant, xs: seq<Interval>, flows: seq<Flow>, initialSoc: real)
    requires PhysicalRun(plant, xs, flows, initialSoc) && CapNeverBinds(plant.grid, xs)
    ensures TotalsOf(flows).unserved == 0.0
  {
    if xs == [] {
      assert flows == [];
    } else {
      var n := |xs| - 1;
      PhysicalRunPrefix(plant, xs, flows, initialSoc, n);
      NothingIsUnserved(plant, Init(xs), Init(flows), initialSoc);
      assert Feasible(plant, xs[n], SocAfter(flows[..n], initialSoc), flows[n].charged, flows[n].discharged);
    }
  }

  lemma SettledImport(plant: Plant, xs: seq<Interval>, flows: seq<Flow>, initialSoc: real, k: nat)
    requires PhysicalRun(plant, xs, flows, initialSoc) && k < |xs|
    ensures flows[k].imported == Min(DeficitOf(xs[k]) - flows[k].discharged, plant.grid.Limit(Import, xs[k].hours))
    ensures flows[k].unserved == DeficitOf(xs[k]) - flows[k].discharged - flows[k].imported
  {
    assert flows[k] == Settle(plant, xs[k], SocAfter(flows[..k], initialSoc), flows[k].charged, flows[k].discharged);
  }

  lemma ResidualIsNotNegative(plant: Plant, xs: seq<Interval>, flows: seq<Flow>, initialSoc: real, k: nat)
    requires PhysicalRun(plant, xs, flows, initialSoc) && k < |xs|
    ensures DeficitOf(xs[k]) - flows[k].discharged >= 0.0
  {
    assert Feasible(plant, xs[k], SocAfter(flows[..k], initialSoc), flows[k].charged, flows[k].discharged);
  }

  lemma NoCap(grid: GridConnection, hours: real)
    requires grid.Valid() && !CanImport(grid)
    ensures grid.Limit(Import, hours) == 0.0
  {
    assert Energy(0.0, hours) == 0.0;
  }

  lemma {:induction false} NothingIsImported(plant: Plant, xs: seq<Interval>, flows: seq<Flow>, initialSoc: real)
    requires plant.Valid() && !CanImport(plant.grid) && PhysicalRun(plant, xs, flows, initialSoc)
    ensures TotalsOf(flows).imported == 0.0
  {
    if xs == [] {
      assert flows == [];
    } else {
      var n := |xs| - 1;
      PhysicalRunPrefix(plant, xs, flows, initialSoc, n);
      NothingIsImported(plant, Init(xs), Init(flows), initialSoc);
      NoCap(plant.grid, xs[n].hours);
      SettledImport(plant, xs, flows, initialSoc, n);
      ResidualIsNotNegative(plant, xs, flows, initialSoc, n);
    }
  }

  lemma {:induction false} PhysicalMovesAreNotNegative(
    plant: Plant, xs: seq<Interval>, flows: seq<Flow>, initialSoc: real)
    requires PhysicalRun(plant, xs, flows, initialSoc)
    ensures TotalsOf(flows).charged >= 0.0 && TotalsOf(flows).discharged >= 0.0
  {
    if xs == [] {
      assert flows == [];
    } else {
      var n := |xs| - 1;
      PhysicalRunPrefix(plant, xs, flows, initialSoc, n);
      PhysicalMovesAreNotNegative(plant, Init(xs), Init(flows), initialSoc);
      assert Feasible(plant, xs[n], SocAfter(flows[..n], initialSoc), flows[n].charged, flows[n].discharged);
    }
  }

  lemma {:induction false} NoDeficitsInTotal(xs: seq<Interval>)
    requires NoDeficits(xs)
    ensures TotalDeficit(xs) == 0.0
  {
    if xs == [] {
      assert TotalDeficit(xs) == 0.0;
    } else {
      NoDeficitsInTotal(Init(xs));
    }
  }

  lemma NothingIsNeeded(plant: Plant, xs: seq<Interval>, flows: seq<Flow>, initialSoc: real)
    requires plant.Valid() && ValidIntervals(xs) && ValidBattery(plant.capacity, initialSoc)
    requires PhysicalRun(plant, xs, flows, initialSoc) && NoDeficits(xs)
    ensures TotalsOf(flows).imported == 0.0 && TotalsOf(flows).unserved == 0.0
  {
    PhysicalRunAccounts(plant, xs, flows, initialSoc);
    PhysicalMovesAreNotNegative(plant, xs, flows, initialSoc);
    NoDeficitsInTotal(xs);
  }

  /** The last interval, over the energies alone. */
  lemma LastImport(imported: real, otherImported: real, residual: real, otherResidual: real, limit: real)
    requires imported <= otherImported && imported + residual <= otherImported + otherResidual
    ensures imported + Min(residual, limit) <= otherImported + Min(otherResidual, limit)
  {
  }

  lemma LastUnserved(residual: real, otherResidual: real, limit: real)
    requires residual <= otherResidual
    ensures residual - Min(residual, limit) <= otherResidual - Min(otherResidual, limit)
  {
  }

  lemma TotalsOfLast(flows: seq<Flow>)
    requires flows != []
    ensures TotalsOf(flows) == Plus(TotalsOf(Init(flows)), AsTotals(Last(flows)))
  {
  }

  /** A run that dominates imports no more, if before its last interval nothing could
      be unserved. */
  lemma DominatedImport(plant: Plant, xs: seq<Interval>, ahead: seq<Flow>, behind: seq<Flow>, initialSoc: real)
    requires xs != [] && CapNeverBinds(plant.grid, Init(xs))
    requires PhysicalRun(plant, xs, ahead, initialSoc) && PhysicalRun(plant, xs, behind, initialSoc)
    requires Dominates(TotalsOf(Init(ahead)), TotalsOf(Init(behind))) && Dominates(TotalsOf(ahead), TotalsOf(behind))
    ensures TotalsOf(ahead).imported <= TotalsOf(behind).imported
  {
    var n := |xs| - 1;
    PhysicalRunPrefix(plant, xs, ahead, initialSoc, n);
    PhysicalRunPrefix(plant, xs, behind, initialSoc, n);
    NothingIsUnserved(plant, Init(xs), Init(ahead), initialSoc);
    NothingIsUnserved(plant, Init(xs), Init(behind), initialSoc);
    SettledImport(plant, xs, ahead, initialSoc, n);
    SettledImport(plant, xs, behind, initialSoc, n);
    TotalsOfLast(ahead);
    TotalsOfLast(behind);
    LastImport(TotalsOf(Init(ahead)).imported, TotalsOf(Init(behind)).imported,
               ahead[n].imported + ahead[n].unserved, behind[n].imported + behind[n].unserved,
               plant.grid.Limit(Import, xs[n].hours));
  }

  /** And leaves no more unserved, if before its last interval there was no deficit. */
  lemma DominatedUnserved(plant: Plant, xs: seq<Interval>, ahead: seq<Flow>, behind: seq<Flow>, initialSoc: real)
    requires plant.Valid() && ValidIntervals(xs) && xs != [] && ValidBattery(plant.capacity, initialSoc)
    requires NoDeficits(Init(xs))
    requires PhysicalRun(plant, xs, ahead, initialSoc) && PhysicalRun(plant, xs, behind, initialSoc)
    requires Dominates(TotalsOf(ahead), TotalsOf(behind))
    ensures TotalsOf(ahead).unserved <= TotalsOf(behind).unserved
  {
    var n := |xs| - 1;
    PhysicalRunPrefix(plant, xs, ahead, initialSoc, n);
    PhysicalRunPrefix(plant, xs, behind, initialSoc, n);
    NothingIsNeeded(plant, Init(xs), Init(ahead), initialSoc);
    NothingIsNeeded(plant, Init(xs), Init(behind), initialSoc);
    SettledImport(plant, xs, ahead, initialSoc, n);
    SettledImport(plant, xs, behind, initialSoc, n);
    TotalsOfLast(ahead);
    TotalsOfLast(behind);
    LastUnserved(ahead[n].imported + ahead[n].unserved, behind[n].imported + behind[n].unserved,
                 plant.grid.Limit(Import, xs[n].hours));
  }

  /** The reference has imported no more, at every point of the run. */
  ghost predicate ImportsNoMoreThroughout(ahead: seq<Flow>, behind: seq<Flow>) {
    && |ahead| == |behind|
    && forall n :: 0 <= n <= |ahead| ==>
         TotalsOf(ahead[..n]).imported <= TotalsOf(behind[..n]).imported
  }

  /** Whenever the import cap cannot bind, nothing is unserved and import alone is
      dominated under any policy, at every point of the scenario. */
  lemma ImportIsDominatedWhileUncapped(plant: Plant, xs: seq<Interval>, policy: Policy, initialSoc: real)
    requires plant.Valid() && ValidIntervals(xs) && ValidBattery(plant.capacity, initialSoc)
    requires CapNeverBinds(plant.grid, xs)
    ensures
      var reference, loop := StrategyRun(plant, BatteryFirst, xs, initialSoc), LoopFlows(plant, xs, policy, initialSoc);
      && ImportsNoMoreThroughout(reference, loop)
      && TotalsOf(reference).unserved == 0.0 && TotalsOf(loop).unserved == 0.0
  {
    var reference, loop := StrategyRun(plant, BatteryFirst, xs, initialSoc), LoopFlows(plant, xs, policy, initialSoc);
    StrategyRunIsPhysical(plant, BatteryFirst, xs, initialSoc);
    AnyPolicyKeepsThePlantPhysical(plant, xs, policy, initialSoc);
    NothingIsUnserved(plant, xs, reference, initialSoc);
    NothingIsUnserved(plant, xs, loop, initialSoc);
    BatteryFirstIsOptimal(plant, xs, policy, initialSoc);
    forall n | 0 <= n <= |xs|
      ensures TotalsOf(reference[..n]).imported <= TotalsOf(loop[..n]).imported
    {
      PhysicalRunPrefix(plant, xs, reference, initialSoc, n);
      PhysicalRunPrefix(plant, xs, loop, initialSoc, n);
      NothingIsUnserved(plant, xs[..n], reference[..n], initialSoc);
      NothingIsUnserved(plant, xs[..n], loop[..n], initialSoc);
      assert Dominates(TotalsOf(reference[..n]), TotalsOf(loop[..n]));
    }
  }

  // ----- an ample battery -----

  /** Room for every surplus and energy for every deficit of the scenario. */
  predicate Ample(plant: Plant, xs: seq<Interval>, soc: real) {
    TotalDeficit(xs) <= soc && soc + TotalSurplus(xs) <= plant.capacity
  }

  lemma {:induction false} TotalsAreNotNegative(xs: seq<Interval>)
    ensures TotalSurplus(xs) >= 0.0 && TotalDeficit(xs) >= 0.0
  {
    if xs == [] {
      assert TotalSurplus(xs) == 0.0;
    } else {
      TotalsAreNotNegative(Init(xs));
    }
  }

  /** On any run so far, the ample battery still holds the last deficit and has room
      for the last surplus. */
  lemma StillAmple(plant: Plant, xs: seq<Interval>, before: seq<Flow>, initialSoc: real)
    requires plant.Valid() && ValidIntervals(xs) && ValidBattery(plant.capacity, initialSoc)
    requires xs != [] && Ample(plant, xs, initialSoc)
    requires PhysicalRun(plant, Init(xs), before, initialSoc)
    ensures Ample(plant, Init(xs), initialSoc)
    ensures DeficitOf(Last(xs)) <= SocAfter(before, initialSoc) <= plant.capacity - SurplusOf(Last(xs))
  {
    PhysicalRunAccounts(plant, Init(xs), before, initialSoc);
    PhysicalMovesAreNotNegative(plant, Init(xs), before, initialSoc);
  }

  /** With an ample battery, battery first leaves nothing to the grid. */
  lemma {:induction false} AmpleBatteryCoversAll(plant: Plant, xs: seq<Interval>, initialSoc: real)
    requires plant.Valid() && ValidIntervals(xs) && ValidBattery(plant.capacity, initialSoc)
    requires Ample(plant, xs, initialSoc)
    ensures
      var t := TotalsOf(StrategyRun(plant, BatteryFirst, xs, initialSoc));
      t.charged == TotalSurplus(xs) && t.discharged == TotalDeficit(xs)
  {
    if xs == [] {
      assert TotalSurplus(xs) == 0.0;
    } else {
      var before := StrategyRun(plant, BatteryFirst, Init(xs), initialSoc);
      StrategyRunIsPhysical(plant, BatteryFirst, Init(xs), initialSoc);
      StillAmple(plant, xs, before, initialSoc);
      AmpleBatteryCoversAll(plant, Init(xs), initialSoc);
      TotalsOfSnoc(before, StrategyFlow(plant, BatteryFirst, Last(xs), SocAfter(before, initialSoc)));
    }
  }

  /** The books of a loop run, whatever the policy. */
  lemma LoopRunAccounts(plant: Plant, xs: seq<Interval>, policy: Policy, initialSoc: real)
    requires plant.Valid() && ValidIntervals(xs) && ValidBattery(plant.capacity, initialSoc)
    ensures
      var soc := SocAfter(LoopFlows(plant, xs, policy, initialSoc), initialSoc);
      var t := TotalsOf(LoopFlows(plant, xs, policy, initialSoc));
      && 0.0 <= soc <= plant.capacity && soc == initialSoc + t.charged - t.discharged
      && t.discharged + t.imported + t.unserved == TotalDeficit(xs)
      && t.imported >= 0.0 && t.unserved >= 0.0
  {
    AnyPolicyKeepsThePlantPhysical(plant, xs, policy, initialSoc);
    PhysicalRunAccounts(plant, xs, LoopFlows(plant, xs, policy, initialSoc), initialSoc);
  }

  // ----- saving the battery for later -----

  /** Stores every surplus and spends the battery in the last step. Until then
      deficits go to the grid: all of them, or what the cap allows if it serves. */
  function Saving(grid: GridConnection, last: int, serves: bool): Policy {
    (m: EnergyMeasurement) =>
      if m.intervalHours <= 0.0 then IdleCommand(m)
      else if m.netEnergyKwh > 0.0 then
        ControlCommand(m.stepNumber, ChargeBattery, m.netEnergyKwh / m.intervalHours)
      else if m.stepNumber == last then
        ControlCommand(m.stepNumber, DischargeBattery, -m.netEnergyKwh / m.intervalHours)
      else if serves then
        ControlCommand(m.stepNumber, DischargeBattery, -m.netEnergyKwh / m.intervalHours - grid.maxImportPowerKw)
      else IdleCommand(m)
  }

  lemma RequestAboveCap(energy: real, power: real, hours: real)
    requires hours > 0.0
    ensures Energy(Max(energy / hours - power, 0.0), hours) == Max(energy - Energy(power, hours), 0.0)
  {
    var excess := energy / hours - power;
    RateTimesHours(energy, hours);
    assert Energy(excess, hours) == energy - Energy(power, hours);
    SignOfEnergy(excess, hours);
  }

  /** What the saving policy moves in an interval before the last. */
  predicate SavingFlow(grid: GridConnection, x: Interval, serves: bool, f: Flow) {
    var excess := Max(0.0, DeficitOf(x) - grid.Limit(Import, x.hours));
    && f.charged == SurplusOf(x)
    && f.discharged == (if serves then excess else 0.0)
    && f.imported == Min(DeficitOf(x), grid.Limit(Import, x.hours))
    && f.unserved == (if serves then 0.0 else excess)
  }

  lemma SavingStep(grid: GridConnection, capacity: real, xs: seq<Interval>, last: int, serves: bool, soc: real)
    requires grid.Valid() && CanImport(grid) && xs != [] && ValidInterval(Last(xs)) && |xs| < last
    requires 0.0 <= DeficitOf(Last(xs)) <= soc <= capacity - SurplusOf(Last(xs))
    ensures SavingFlow(grid, Last(xs), serves,
                       ApplyDecision(Plant(capacity, grid), Last(xs), soc,
                                     Saving(grid, last, serves)(Question(xs, soc))))
  {
    var x := Last(xs);
    LimitIsNotNegative(grid, Import, x.hours);
    RateTimesHours(Net(x), x.hours);
    RequestAboveCap(-Net(x), grid.maxImportPowerKw, x.hours);
    SignOfEnergy(Net(x) / x.hours, x.hours);
  }

  /** The saving run, one interval longer. */
  lemma SavingUnfolds(plant: Plant, xs: seq<Interval>, last: int, serves: bool, initialSoc: real) returns (f: Flow)
    requires plant.Valid() && CanImport(plant.grid) && ValidIntervals(xs) && ValidBattery(plant.capacity, initialSoc)
    requires Ample(plant, xs, initialSoc) && |xs| < last && xs != []
    ensures Ample(plant, Init(xs), initialSoc)
    ensures SavingFlow(plant.grid, Last(xs), serves, f)
    ensures
      var policy := Saving(plant.grid, last, serves);
      && LoopFlows(plant, xs, policy, initialSoc) == LoopFlows(plant, Init(xs), policy, initialSoc) + [f]
      && TotalsOf(LoopFlows(plant, xs, policy, initialSoc))
         == Plus(TotalsOf(LoopFlows(plant, Init(xs), policy, initialSoc)), AsTotals(f))
  {
    var policy := Saving(plant.grid, last, serves);
    var before := LoopFlows(plant, Init(xs), policy, initialSoc);
    var soc := SocAfter(before, initialSoc);
    f := ApplyDecision(plant, Last(xs), soc, policy(Question(xs, soc)));
    AnyPolicyKeepsThePlantPhysical(plant, Init(xs), policy, initialSoc);
    StillAmple(plant, xs, before, initialSoc);
    LoopFlowsUnfold(plant, xs, policy, initialSoc);
    SavingStep(plant.grid, plant.capacity, xs, last, serves, soc);
    TotalsOfSnoc(before, f);
  }

  /** The saving run so far: all surplus is stored; serving, nothing is unserved, and
      otherwise nothing is discharged. */
  lemma {:induction false} SavingMoves(
    plant: Plant, xs: seq<Interval>, last: int, serves: bool, initialSoc: real)
    requires plant.Valid() && CanImport(plant.grid) && ValidIntervals(xs) && ValidBattery(plant.capacity, initialSoc)
    requires Ample(plant, xs, initialSoc) && |xs| < last
    ensures
      var t := TotalsOf(LoopFlows(plant, xs, Saving(plant.grid, last, serves), initialSoc));
      t.charged == TotalSurplus(xs) && (if serves then t.unserved == 0.0 else t.discharged == 0.0)
  {
    if xs == [] {
      assert LoopFlows(plant, xs, Saving(plant.grid, last, serves), initialSoc) == [];
    } else {
      var f := SavingUnfolds(plant, xs, last, serves, initialSoc);
      SavingMoves(plant, Init(xs), last, serves, initialSoc);
    }
  }

  /** What the saving run imported and, unless it serves, left unserved is at least
      that of any one interval. */
  lemma {:induction false} SavingLeaves(
    plant: Plant, xs: seq<Interval>, last: int, serves: bool, initialSoc: real, k: nat)
    requires plant.Valid() && CanImport(plant.grid) && ValidIntervals(xs) && ValidBattery(plant.capacity, initialSoc)
    requires Ample(plant, xs, initialSoc) && |xs| < last && k < |xs|
    ensures
      var t := TotalsOf(LoopFlows(plant, xs, Saving(plant.grid, last, serves), initialSoc));
      && t.imported >= Min(DeficitOf(xs[k]), plant.grid.Limit(Import, xs[k].hours))
      && (!serves ==> t.unserved >= DeficitOf(xs[k]) - plant.grid.Limit(Import, xs[k].hours))
  {
    var policy := Saving(plant.grid, last, serves);
    var f := SavingUnfolds(plant, xs, last, serves, initialSoc);
    LimitIsNotNegative(plant.grid, Import, Last(xs).hours);
    LoopRunAccounts(plant, Init(xs), policy, initialSoc);
    if k < |xs| - 1 {
      SavingLeaves(plant, Init(xs), last, serves, initialSoc, k);
    }
  }

  /** A last interval that only consumes. */
  function Demand(hours: real, energy: real): Interval {
    Interval(hours, 0.0, energy)
  }

  /** Both runs spend the whole battery on a final demand of more than it holds. */
  lemma SpendingStep(plant: Plant, xs: seq<Interval>, serves: bool, soc: real, hours: real, energy: real)
    requires hours > 0.0 && energy > BALANCE_TOLERANCE_KWH && 0.0 <= soc <= energy
    ensures
      var y, limit := Demand(hours, energy), plant.grid.Limit(Import, hours);
      var f := StrategyFlow(plant, BatteryFirst, y, soc);
      var g := ApplyDecision(plant, y, soc, Saving(plant.grid, |xs| + 1, serves)(Question(xs + [y], soc)));
      && f.imported == Min(energy - soc, limit) && f.unserved == energy - soc - f.imported
      && g.imported == f.imported && g.unserved == f.unserved
  {
    var y := Demand(hours, energy);
    assert Net(y) == -energy && Last(xs + [y]) == y;
    RateTimesHours(energy, hours);
    SignOfEnergy(energy / hours, hours);
  }

  lemma ReferenceSpends(plant: Plant, xs: seq<Interval>, initialSoc: real, soc: real, hours: real, energy: real)
    requires plant.Valid() && ValidIntervals(xs) && ValidBattery(plant.capacity, initialSoc)
    requires Ample(plant, xs, initialSoc) && hours > 0.0 && energy > BALANCE_TOLERANCE_KWH
    requires soc == initialSoc + TotalSurplus(xs) - TotalDeficit(xs) && soc <= energy
    ensures
      var t := TotalsOf(StrategyRun(plant, BatteryFirst, xs + [Demand(hours, energy)], initialSoc));
      && t.imported == Min(energy - soc, plant.grid.Limit(Import, hours))
      && t.unserved == energy - soc - Min(energy - soc, plant.grid.Limit(Import, hours))
  {
    var before := StrategyRun(plant, BatteryFirst, xs, initialSoc);
    StrategyRunIsPhysical(plant, BatteryFirst, xs, initialSoc);
    PhysicalRunAccounts(plant, xs, before, initialSoc);
    AmpleBatteryCoversAll(plant, xs, initialSoc);
    SpendingStep(plant, xs, false, soc, hours, energy);
    RunOfSnoc(plant, BatteryFirst, xs, Demand(hours, energy), initialSoc);
    TotalsOfSnoc(before, StrategyFlow(plant, BatteryFirst, Demand(hours, energy), soc));
  }

  lemma SaverSpends(plant: Plant, xs: seq<Interval>, serves: bool, initialSoc: real, hours: real, energy: real)
    requires plant.Valid() && CanImport(plant.grid) && ValidIntervals(xs) && ValidBattery(plant.capacity, initialSoc)
    requires hours > 0.0 && energy > BALANCE_TOLERANCE_KWH
    requires
      SocAfter(LoopFlows(plant, xs, Saving(plant.grid, |xs| + 1, serves), initialSoc), initialSoc) <= energy
    ensures
      var policy := Saving(plant.grid, |xs| + 1, serves);
      var before := LoopFlows(plant, xs, policy, initialSoc);
      var residual := energy - SocAfter(before, initialSoc);
      var t, u := TotalsOf(before), TotalsOf(LoopFlows(plant, xs + [Demand(hours, energy)], policy, initialSoc));
      && u.imported == t.imported + Min(residual, plant.grid.Limit(Import, hours))
      && u.unserved == t.unserved + residual - Min(residual, plant.grid.Limit(Import, hours))
  {
    var policy, y := Saving(plant.grid, |xs| + 1, serves), Demand(hours, energy);
    var before := LoopFlows(plant, xs, policy, initialSoc);
    var soc := SocAfter(before, initialSoc);
    AnyPolicyKeepsThePlantPhysical(plant, xs, policy, initialSoc);
    InitOfSnoc(xs, y);
    LoopFlowsUnfold(plant, xs + [y], policy, initialSoc);
    SpendingStep(plant, xs, serves, soc, hours, energy);
    TotalsOfSnoc(before, ApplyDecision(plant, y, soc, policy(Question(xs + [y], soc))));
  }

  /** The saving run against the reference before the final demand: it still holds
      what the grid supplied or left unserved. */
  lemma SaverHoldsMore(plant: Plant, xs: seq<Interval>, serves: bool, initialSoc: real)
    requires plant.Valid() && CanImport(plant.grid) && ValidIntervals(xs) && ValidBattery(plant.capacity, initialSoc)
    requires Ample(plant, xs, initialSoc)
    ensures
      var before := LoopFlows(plant, xs, Saving(plant.grid, |xs| + 1, serves), initialSoc);
      SocAfter(before, initialSoc)
      == initialSoc + TotalSurplus(xs) - TotalDeficit(xs) + TotalsOf(before).imported + TotalsOf(before).unserved
  {
    LoopRunAccounts(plant, xs, Saving(plant.grid, |xs| + 1, serves), initialSoc);
    SavingMoves(plant, xs, |xs| + 1, serves, initialSoc);
  }

  // ----- the exact conditions -----

  /** After these intervals, whatever the next one, the battery and the policy,
      the reference has imported no more. */
  ghost predicate ImportNeverWorseAfter(grid: GridConnection, xs: seq<Interval>) {
    forall y: Interval, capacity: real, policy: Policy, initialSoc: real ::
      ValidInterval(y) && ValidBattery(capacity, initialSoc) ==>
        TotalsOf(StrategyRun(Plant(capacity, grid), BatteryFirst, xs + [y], initialSoc)).imported
        <= TotalsOf(LoopFlows(Plant(capacity, grid), xs + [y], policy, initialSoc)).imported
  }

  ghost predicate UnservedNeverWorseAfter(grid: GridConnection, xs: seq<Interval>) {
    forall y: Interval, capacity: real, policy: Policy, initialSoc: real ::
      ValidInterval(y) && ValidBattery(capacity, initialSoc) ==>
        TotalsOf(StrategyRun(Plant(capacity, grid), BatteryFirst, xs + [y], initialSoc)).unserved
        <= TotalsOf(LoopFlows(Plant(capacity, grid), xs + [y], policy, initialSoc)).unserved
  }

  /** The interval that takes a power exactly one energy. */
  lemma HoursFor(power: real, energy: real)
    requires power > 0.0 && energy > 0.0
    ensures energy / power > 0.0 && Energy(power, energy / power) == energy
  {
    RateTimesHours(energy, power);
    assert energy / power > 0.0;
  }

  lemma CapIsPositive(grid: GridConnection, hours: real)
    requires CanImport(grid) && hours > 0.0
    ensures grid.Limit(Import, hours) > 0.0
  {
    SignOfEnergy(grid.maxImportPowerKw, hours);
  }

  /** What the saver holds more covers what it imported before, and what it left
      unserved on top; stated over the energies alone. */
  lemma ImportGap(
    imported: real, unserved: real, soc: real, otherSoc: real, energy: real, limit: real,
    total: real, otherTotal: real)
    requires soc == otherSoc + imported + unserved && unserved > 0.0
    requires 0.0 <= otherSoc && soc <= energy <= limit
    requires total == imported + Min(energy - soc, limit) && otherTotal == Min(energy - otherSoc, limit)
    ensures total < otherTotal
  {
  }

  lemma UnservedGap(
    imported: real, unserved: real, soc: real, otherSoc: real, energy: real, limit: real,
    total: real, otherTotal: real)
    requires soc == otherSoc + imported && imported > 0.0 && unserved == 0.0
    requires energy == soc + limit && limit > 0.0
    requires total == unserved + (energy - soc) - Min(energy - soc, limit)
    requires otherTotal == energy - otherSoc - Min(energy - otherSoc, limit)
    ensures total < otherTotal
  {
  }

  lemma SaverHasLeftUnserved(plant: Plant, xs: seq<Interval>, k: nat, initialSoc: real)
    requires plant.Valid() && CanImport(plant.grid) && ValidIntervals(xs) && ValidBattery(plant.capacity, initialSoc)
    requires Ample(plant, xs, initialSoc) && k < |xs| && DeficitOf(xs[k]) > plant.grid.Limit(Import, xs[k].hours)
    ensures TotalsOf(LoopFlows(plant, xs, Saving(plant.grid, |xs| + 1, false), initialSoc)).unserved > 0.0
  {
    SavingLeaves(plant, xs, |xs| + 1, false, initialSoc, k);
  }

  lemma StrictlyLessImport(plant: Plant, xs: seq<Interval>, initialSoc: real, hours: real, energy: real)
    requires plant.Valid() && CanImport(plant.grid) && ValidIntervals(xs) && ValidBattery(plant.capacity, initialSoc)
    requires Ample(plant, xs, initialSoc) && hours > 0.0 && energy > BALANCE_TOLERANCE_KWH
    requires TotalsOf(LoopFlows(plant, xs, Saving(plant.grid, |xs| + 1, false), initialSoc)).unserved > 0.0
    requires plant.capacity <= energy <= plant.grid.Limit(Import, hours)
    ensures
      var after, policy := xs + [Demand(hours, energy)], Saving(plant.grid, |xs| + 1, false);
      TotalsOf(LoopFlows(plant, after, policy, initialSoc)).imported
      < TotalsOf(StrategyRun(plant, BatteryFirst, after, initialSoc)).imported
  {
    var policy := Saving(plant.grid, |xs| + 1, false);
    var before := LoopFlows(plant, xs, policy, initialSoc);
    TotalsAreNotNegative(xs);
    LoopRunAccounts(plant, xs, policy, initialSoc);
    SaverHoldsMore(plant, xs, false, initialSoc);
    var otherSoc := initialSoc + TotalSurplus(xs) - TotalDeficit(xs);
    ReferenceSpends(plant, xs, initialSoc, otherSoc, hours, energy);
    SaverSpends(plant, xs, false, initialSoc, hours, energy);
    ImportGap(TotalsOf(before).imported, TotalsOf(before).unserved, SocAfter(before, initialSoc),
              otherSoc, energy, plant.grid.Limit(Import, hours),
              TotalsOf(LoopFlows(plant, xs + [Demand(hours, energy)], policy, initialSoc)).imported,
              TotalsOf(StrategyRun(plant, BatteryFirst, xs + [Demand(hours, energy)], initialSoc)).imported);
  }

  /** Once the import cap has bound anywhere, a policy that leaves those deficits to
      the grid and saves the battery for a later demand imports strictly less. */
  lemma SavingImportsLess(grid: GridConnection, xs: seq<Interval>, k: nat)
    requires grid.Valid() && CanImport(grid) && ValidIntervals(xs)
    requires k < |xs| && DeficitOf(xs[k]) > grid.Limit(Import, xs[k].hours)
    ensures !ImportNeverWorseAfter(grid, xs)
  {
    TotalsAreNotNegative(xs);
    var initialSoc := TotalDeficit(xs) + 1.0;
    var capacity := initialSoc + TotalSurplus(xs);
    var y := Demand(capacity / grid.maxImportPowerKw, capacity);
    HoursFor(grid.maxImportPowerKw, capacity);
    SaverHasLeftUnserved(Plant(capacity, grid), xs, k, initialSoc);
    StrictlyLessImport(Plant(capacity, grid), xs, initialSoc, y.hours, capacity);
    assert ValidInterval(y) && ValidBattery(capacity, initialSoc);
  }

  /** The serving saver before the final demand: it has imported something, left
      nothing unserved, and holds that much more than the reference. */
  lemma SaverHasImported(plant: Plant, xs: seq<Interval>, k: nat, initialSoc: real)
    requires plant.Valid() && CanImport(plant.grid) && ValidIntervals(xs) && ValidBattery(plant.capacity, initialSoc)
    requires Ample(plant, xs, initialSoc) && k < |xs| && DeficitOf(xs[k]) > 0.0
    ensures
      var before := LoopFlows(plant, xs, Saving(plant.grid, |xs| + 1, true), initialSoc);
      && TotalsOf(before).imported > 0.0 && TotalsOf(before).unserved == 0.0
      && SocAfter(before, initialSoc)
         == initialSoc + TotalSurplus(xs) - TotalDeficit(xs) + TotalsOf(before).imported
  {
    SavingLeaves(plant, xs, |xs| + 1, true, initialSoc, k);
    SavingMoves(plant, xs, |xs| + 1, true, initialSoc);
    SaverHoldsMore(plant, xs, true, initialSoc);
    CapIsPositive(plant.grid, xs[k].hours);
  }

  lemma StrictlyLessUnserved(plant: Plant, xs: seq<Interval>, initialSoc: real, hours: real, energy: real)
    requires plant.Valid() && CanImport(plant.grid) && ValidIntervals(xs) && ValidBattery(plant.capacity, initialSoc)
    requires Ample(plant, xs, initialSoc) && hours > 0.0 && energy > BALANCE_TOLERANCE_KWH
    requires plant.grid.Limit(Import, hours) > 0.0
    requires
      var before := LoopFlows(plant, xs, Saving(plant.grid, |xs| + 1, true), initialSoc);
      && TotalsOf(before).imported > 0.0 && TotalsOf(before).unserved == 0.0
      && SocAfter(before, initialSoc)
         == initialSoc + TotalSurplus(xs) - TotalDeficit(xs) + TotalsOf(before).imported
      && energy == SocAfter(before, initialSoc) + plant.grid.Limit(Import, hours)
    ensures
      var after, policy := xs + [Demand(hours, energy)], Saving(plant.grid, |xs| + 1, true);
      TotalsOf(LoopFlows(plant, after, policy, initialSoc)).unserved
      < TotalsOf(StrategyRun(plant, BatteryFirst, after, initialSoc)).unserved
  {
    var after, policy := xs + [Demand(hours, energy)], Saving(plant.grid, |xs| + 1, true);
    var before := LoopFlows(plant, xs, policy, initialSoc);
    var soc, otherSoc := SocAfter(before, initialSoc), initialSoc + TotalSurplus(xs) - TotalDeficit(xs);
    assert otherSoc <= soc <= energy;
    ReferenceSpends(plant, xs, initialSoc, otherSoc, hours, energy);
    SaverSpends(plant, xs, true, initialSoc, hours, energy);
    UnservedGap(TotalsOf(before).imported, TotalsOf(before).unserved, soc, otherSoc,
                energy, plant.grid.Limit(Import, hours),
                TotalsOf(LoopFlows(plant, after, policy, initialSoc)).unserved,
                TotalsOf(StrategyRun(plant, BatteryFirst, after, initialSoc)).unserved);
  }

  /** Once there has been any deficit, a policy that imports all it can and saves the
      battery for a demand the grid cannot meet leaves strictly less unserved. */
  lemma SavingServesMore(grid: GridConnection, xs: seq<Interval>, k: nat)
    requires grid.Valid() && CanImport(grid) && ValidIntervals(xs)
    requires k < |xs| && DeficitOf(xs[k]) > 0.0
    ensures !UnservedNeverWorseAfter(grid, xs)
  {
    TotalsAreNotNegative(xs);
    var initialSoc := TotalDeficit(xs) + 1.0;
    var plant := Plant(initialSoc + TotalSurplus(xs), grid);
    var before := LoopFlows(plant, xs, Saving(grid, |xs| + 1, true), initialSoc);
    SaverHasImported(plant, xs, k, initialSoc);
    CapIsPositive(grid, 1.0);
    var energy := SocAfter(before, initialSoc) + grid.Limit(Import, 1.0);
    StrictlyLessUnserved(plant, xs, initialSoc, 1.0, energy);
    assert ValidInterval(Demand(1.0, energy)) && ValidBattery(plant.capacity, initialSoc);
  }

  lemma DominatedAfter(
    grid: GridConnection, xs: seq<Interval>, y: Interval, capacity: real, policy: Policy, initialSoc: real)
    requires grid.Valid() && ValidIntervals(xs) && ValidInterval(y) && ValidBattery(capacity, initialSoc)
    ensures
      var t := TotalsOf(StrategyRun(Plant(capacity, grid), BatteryFirst, xs + [y], initialSoc));
      var u := TotalsOf(LoopFlows(Plant(capacity, grid), xs + [y], policy, initialSoc));
      && (CapNeverBinds(grid, xs) ==> t.imported <= u.imported)
      && (NoDeficits(xs) ==> t.unserved <= u.unserved)
  {
    var plant, all := Plant(capacity, grid), xs + [y];
    var reference, loop := StrategyRun(plant, BatteryFirst, all, initialSoc), LoopFlows(plant, all, policy, initialSoc);
    assert ValidIntervals(all);
    InitOfSnoc(xs, y);
    StrategyRunIsPhysical(plant, BatteryFirst, all, initialSoc);
    AnyPolicyKeepsThePlantPhysical(plant, all, policy, initialSoc);
    BatteryFirstIsOptimal(plant, all, policy, initialSoc);
    assert reference[..|all|] == reference && loop[..|all|] == loop;
    assert Dominates(TotalsOf(reference[..|all|]), TotalsOf(loop[..|all|]));
    assert Dominates(TotalsOf(reference[..|xs|]), TotalsOf(loop[..|xs|]));
    if CapNeverBinds(grid, xs) {
      DominatedImport(plant, all, reference, loop, initialSoc);
    }
    if NoDeficits(xs) {
      DominatedUnserved(plant, all, reference, loop, initialSoc);
    }
  }

  /** The exact condition for import alone, on a grid that can import: after any
      intervals, and whatever comes next, battery first has imported no more than any
      policy if and only if the import cap has not been able to bind. */
  lemma ImportIsDominatedIff(grid: GridConnection, xs: seq<Interval>)
    requires grid.Valid() && CanImport(grid) && ValidIntervals(xs)
    ensures ImportNeverWorseAfter(grid, xs) <==> CapNeverBinds(grid, xs)
  {
    if CapNeverBinds(grid, xs) {
      forall y: Interval, capacity: real, policy: Policy, initialSoc: real
        | ValidInterval(y) && ValidBattery(capacity, initialSoc)
        ensures TotalsOf(StrategyRun(Plant(capacity, grid), BatteryFirst, xs + [y], initialSoc)).imported
             <= TotalsOf(LoopFlows(Plant(capacity, grid), xs + [y], policy, initialSoc)).imported
      {
        DominatedAfter(grid, xs, y, capacity, policy, initialSoc);
      }
    } else {
      var k: nat :| k < |xs| && DeficitOf(xs[k]) > grid.Limit(Import, xs[k].hours);
      SavingImportsLess(grid, xs, k);
    }
  }

  /** And for unserved demand alone: if and only if there has been no deficit. */
  lemma UnservedIsDominatedIff(grid: GridConnection, xs: seq<Interval>)
    requires grid.Valid() && CanImport(grid) && ValidIntervals(xs)
    ensures UnservedNeverWorseAfter(grid, xs) <==> NoDeficits(xs)
  {
    if NoDeficits(xs) {
      forall y: Interval, capacity: real, policy: Policy, initialSoc: real
        | ValidInterval(y) && ValidBattery(capacity, initialSoc)
        ensures TotalsOf(StrategyRun(Plant(capacity, grid), BatteryFirst, xs + [y], initialSoc)).unserved
             <= TotalsOf(LoopFlows(Plant(capacity, grid), xs + [y], policy, initialSoc)).unserved
      {
        DominatedAfter(grid, xs, y, capacity, policy, initialSoc);
      }
    } else {
      var k: nat :| k < |xs| && DeficitOf(xs[k]) > 0.0;
      SavingServesMore(grid, xs, k);
    }
  }

  // ----- over all scenarios -----

  ghost predicate ImportNeverWorse(grid: GridConnection) {
    forall capacity: real, xs: seq<Interval>, policy: Policy, initialSoc: real ::
      ValidBattery(capacity, initialSoc) && ValidIntervals(xs) ==>
        TotalsOf(StrategyRun(Plant(capacity, grid), BatteryFirst, xs, initialSoc)).imported
        <= TotalsOf(LoopFlows(Plant(capacity, grid), xs, policy, initialSoc)).imported
  }

  ghost predicate UnservedNeverWorse(grid: GridConnection) {
    forall capacity: real, xs: seq<Interval>, policy: Policy, initialSoc: real ::
      ValidBattery(capacity, initialSoc) && ValidIntervals(xs) ==>
        TotalsOf(StrategyRun(Plant(capacity, grid), BatteryFirst, xs, initialSoc)).unserved
        <= TotalsOf(LoopFlows(Plant(capacity, grid), xs, policy, initialSoc)).unserved
  }

  lemma DominatedWithoutImport(plant: Plant, xs: seq<Interval>, policy: Policy, initialSoc: real)
    requires plant.Valid() && ValidIntervals(xs) && ValidBattery(plant.capacity, initialSoc) && !CanImport(plant.grid)
    ensures
      var t := TotalsOf(StrategyRun(plant, BatteryFirst, xs, initialSoc));
      var u := TotalsOf(LoopFlows(plant, xs, policy, initialSoc));
      t.imported == u.imported && t.unserved <= u.unserved
  {
    var reference, loop := StrategyRun(plant, BatteryFirst, xs, initialSoc), LoopFlows(plant, xs, policy, initialSoc);
    StrategyRunIsPhysical(plant, BatteryFirst, xs, initialSoc);
    AnyPolicyKeepsThePlantPhysical(plant, xs, policy, initialSoc);
    NothingIsImported(plant, xs, reference, initialSoc);
    NothingIsImported(plant, xs, loop, initialSoc);
    BatteryFirstIsOptimal(plant, xs, policy, initialSoc);
    assert reference[..|xs|] == reference && loop[..|xs|] == loop;
    assert Dominates(TotalsOf(reference[..|xs|]), TotalsOf(loop[..|xs|]));
  }

  lemma NeverWorseIsNeverWorseAfter(grid: GridConnection, xs: seq<Interval>)
    requires ValidIntervals(xs)
    ensures ImportNeverWorse(grid) ==> ImportNeverWorseAfter(grid, xs)
    ensures UnservedNeverWorse(grid) ==> UnservedNeverWorseAfter(grid, xs)
  {
    assert forall y: Interval :: ValidInterval(y) ==> ValidIntervals(xs + [y]);
  }

  /** An hour in which a kilowatt-hour more is needed than the grid can supply. */
  lemma BindingScenario(grid: GridConnection)
    requires grid.Valid() && CanImport(grid)
    ensures !ImportNeverWorse(grid) && !UnservedNeverWorse(grid)
  {
    var x := Demand(1.0, grid.maxImportPowerKw + 1.0);
    assert Energy(grid.maxImportPowerKw, 1.0) == grid.maxImportPowerKw;
    assert DeficitOf(x) == grid.maxImportPowerKw + 1.0 && [x][0] == x;
    SavingImportsLess(grid, [x], 0);
    SavingServesMore(grid, [x], 0);
    NeverWorseIsNeverWorseAfter(grid, [x]);
  }

  /** Over all scenarios at once, neither is dominated on any grid that can import:
      every such grid has a scenario whose cap binds. */
  lemma ImportAloneIsDominatedIff(grid: GridConnection)
    requires grid.Valid()
    ensures ImportNeverWorse(grid) <==> !CanImport(grid)
    ensures UnservedNeverWorse(grid) <==> !CanImport(grid)
  {
    if CanImport(grid) {
      BindingScenario(grid);
    } else {
      forall capacity: real, xs: seq<Interval>, policy: Policy, initialSoc: real
        | ValidBattery(capacity, initialSoc) && ValidIntervals(xs)
        ensures TotalsOf(StrategyRun(Plant(capacity, grid), BatteryFirst, xs, initialSoc)).imported
             <= TotalsOf(LoopFlows(Plant(capacity, grid), xs, policy, initialSoc)).imported
        ensures TotalsOf(StrategyRun(Plant(capacity, grid), BatteryFirst, xs, initialSoc)).unserved
             <= TotalsOf(LoopFlows(Plant(capacity, grid), xs, policy, initialSoc)).unserved
      {
        DominatedWithoutImport(Plant(capacity, grid), xs, policy, initialSoc);
      }
    }
  }
}
