/** Closed forms of what one interval does to the plant, and whole runs of them.
    Relations between runs are proved over these forms; modules Reference and
    Loop show that the simulation code computes exactly them. */
module Plants {
  import opened Foundation
  import opened EnergyBalance
  import opened Batteries
  import opened Grids
  import opened Control

  /** What an interval offers before anything is dispatched. */
  datatype Interval = Interval(hours: real, generated: real, consumed: real)

  predicate ValidInterval(x: Interval) {
    x.hours > 0.0 && x.generated >= 0.0 && x.consumed >= 0.0
  }

  predicate ValidIntervals(xs: seq<Interval>) {
    forall k :: 0 <= k < |xs| ==> ValidInterval(xs[k])
  }

  function Net(x: Interval): real {
    Snap(x.generated - x.consumed)
  }

  function SurplusOf(x: Interval): real {
    Max(Net(x), 0.0)
  }

  function DeficitOf(x: Interval): real {
    Max(-Net(x), 0.0)
  }

  datatype Plant = Plant(capacity: real, grid: GridConnection) {
    predicate Valid() {
      capacity > 0.0 && grid.Valid()
    }
  }

  /** The energy flows of one interval. */
  datatype Flow = Flow(
    socBefore: real,
    charged: real,
    discharged: real,
    socAfter: real,
    imported: real,
    exported: real,
    curtailed: real,
    unserved: real)

  /** After the battery has moved its share, the grid takes or supplies what it
      can and the rest is curtailed or unserved. */
  function Settle(plant: Plant, x: Interval, soc: real, charged: real, discharged: real): Flow {
    var surplus, deficit := SurplusOf(x) - charged, DeficitOf(x) - discharged;
    var exported := Min(surplus, plant.grid.Limit(Export, x.hours));
    var imported := Min(deficit, plant.grid.Limit(Import, x.hours));
    Flow(soc, charged, discharged, soc + charged - discharged,
         imported, exported, surplus - exported, deficit - imported)
  }

  /** The physical limits on what a battery can do in an interval. */
  predicate Feasible(plant: Plant, x: Interval, soc: real, charged: real, discharged: real) {
    && 0.0 <= charged <= Min(SurplusOf(x), plant.capacity - soc)
    && 0.0 <= discharged <= Min(DeficitOf(x), soc)
  }

  lemma SettleKeepsThePlantPhysical(plant: Plant, x: Interval, soc: real, charged: real, discharged: real)
    requires plant.Valid() && ValidInterval(x) && ValidBattery(plant.capacity, soc)
    requires Feasible(plant, x, soc, charged, discharged)
    ensures
      var f := Settle(plant, x, soc, charged, discharged);
      && ValidBattery(plant.capacity, f.socAfter)
      && f.imported >= 0.0 && f.exported >= 0.0 && f.curtailed >= 0.0 && f.unserved >= 0.0
      && f.imported <= plant.grid.Limit(Import, x.hours)
      && f.exported <= plant.grid.Limit(Export, x.hours)
      && (f.curtailed > 0.0 ==> f.exported == plant.grid.Limit(Export, x.hours))
      && (f.unserved > 0.0 ==> f.imported == plant.grid.Limit(Import, x.hours))
      && (f.imported + f.unserved == 0.0 || f.exported + f.curtailed == 0.0)
      && f.exported + f.curtailed + f.charged == SurplusOf(x)
      && f.imported + f.unserved + f.discharged == DeficitOf(x)
  {
    LimitIsNotNegative(plant.grid, Import, x.hours);
    LimitIsNotNegative(plant.grid, Export, x.hours);
  }

  // ----- decisions applied to the plant -----

  function RequestedEnergy(d: ControlDecision, hours: real): real {
    Energy(Max(d.requestedPowerKw, 0.0), hours)
  }

  function ChargedBy(plant: Plant, x: Interval, soc: real, action: ControlAction, requested: real): real {
    if action == ChargeBattery
    then Min(Min(requested, SurplusOf(x)), plant.capacity - soc)
    else 0.0
  }

  function DischargedBy(x: Interval, soc: real, action: ControlAction, requested: real): real {
    if action == DischargeBattery
    then Min(Min(requested, DeficitOf(x)), soc)
    else 0.0
  }

  /** The plant applies a decision within what is physically available. */
  function ApplyDecision(plant: Plant, x: Interval, soc: real, d: ControlDecision): Flow {
    var requested := RequestedEnergy(d, x.hours);
    Settle(plant, x, soc, ChargedBy(plant, x, soc, d.action, requested), DischargedBy(x, soc, d.action, requested))
  }

  lemma AnyDecisionIsFeasible(plant: Plant, x: Interval, soc: real, d: ControlDecision)
    requires ValidInterval(x) && ValidBattery(plant.capacity, soc)
    ensures
      var requested := RequestedEnergy(d, x.hours);
      && requested >= 0.0
      && Feasible(plant, x, soc,
                  ChargedBy(plant, x, soc, d.action, requested), DischargedBy(x, soc, d.action, requested))
  {
    EnergyNotNegative(Max(d.requestedPowerKw, 0.0), x.hours);
  }

  // ----- strategies -----

  datatype Strategy =
    | BatteryFirst            // the Python reference: no power limits, window [0, capacity]
    | Limited(limits: Limits) // the C++ controller in the loop

  predicate ValidStrategy(s: Strategy) {
    s.Limited? ==> ValidLimits(s.limits)
  }

  /** A move of the battery within what is offered, the room at its physical end,
      a power limit's energy and the operating window. */
  function MoveWithin(offered: real, room: real, cap: real, window: real): real {
    Min(Min(offered, room), Min(cap, window))
  }

  function LimitedCharge(l: Limits, capacity: real, surplus: real, hours: real, soc: real): real {
    MoveWithin(surplus, capacity - soc, Energy(l.maxChargePowerKw, hours), RoomAbove(l, soc))
  }

  function LimitedDischarge(l: Limits, deficit: real, hours: real, soc: real): real {
    MoveWithin(deficit, soc, Energy(l.maxDischargePowerKw, hours), RoomBelow(l, soc))
  }

  function ChargeUnder(plant: Plant, s: Strategy, x: Interval, soc: real): real {
    match s
    case BatteryFirst => Min(SurplusOf(x), plant.capacity - soc)
    case Limited(l) => LimitedCharge(l, plant.capacity, SurplusOf(x), x.hours, soc)
  }

  function DischargeUnder(s: Strategy, x: Interval, soc: real): real {
    match s
    case BatteryFirst => Min(DeficitOf(x), soc)
    case Limited(l) => LimitedDischarge(l, DeficitOf(x), x.hours, soc)
  }

  function StrategyFlow(plant: Plant, s: Strategy, x: Interval, soc: real): Flow {
    Settle(plant, x, soc, ChargeUnder(plant, s, x, soc), DischargeUnder(s, x, soc))
  }

  lemma StrategiesAreFeasible(plant: Plant, s: Strategy, x: Interval, soc: real)
    requires ValidStrategy(s) && ValidInterval(x) && ValidBattery(plant.capacity, soc)
    ensures Feasible(plant, x, soc, ChargeUnder(plant, s, x, soc), DischargeUnder(s, x, soc))
  {
    if s.Limited? {
      EnergyNotNegative(s.limits.maxChargePowerKw, x.hours);
      EnergyNotNegative(s.limits.maxDischargePowerKw, x.hours);
    }
  }

  lemma IdleDirections(plant: Plant, s: Strategy, x: Interval, soc: real)
    requires ValidStrategy(s) && x.hours > 0.0 && ValidBattery(plant.capacity, soc)
    ensures Net(x) >= 0.0 ==> DischargeUnder(s, x, soc) == 0.0
    ensures Net(x) <= 0.0 ==> ChargeUnder(plant, s, x, soc) == 0.0
  {
    if s.Limited? {
      EnergyNotNegative(s.limits.maxChargePowerKw, x.hours);
      EnergyNotNegative(s.limits.maxDischargePowerKw, x.hours);
    }
  }

  // ----- runs -----

  function SocAfter(flows: seq<Flow>, initialSoc: real): real {
    if flows == [] then initialSoc else Last(flows).socAfter
  }

  /** One flow per interval, each starting from the state of charge the previous one left. */
  function StrategyRun(plant: Plant, s: Strategy, xs: seq<Interval>, initialSoc: real): (flows: seq<Flow>)
    ensures |flows| == |xs|
  {
    if xs == [] then [] else
    var before := StrategyRun(plant, s, Init(xs), initialSoc);
    before + [StrategyFlow(plant, s, Last(xs), SocAfter(before, initialSoc))]
  }

  datatype Totals = Totals(
    charged: real,
    discharged: real,
    imported: real,
    exported: real,
    curtailed: real,
    unserved: real)

  function TotalsOf(flows: seq<Flow>): Totals {
    if flows == [] then Totals(0.0, 0.0, 0.0, 0.0, 0.0, 0.0) else
    var t, f := TotalsOf(Init(flows)), Last(flows);
    Totals(t.charged + f.charged, t.discharged + f.discharged, t.imported + f.imported,
           t.exported + f.exported, t.curtailed + f.curtailed, t.unserved + f.unserved)
  }

  function AsTotals(f: Flow): Totals {
    Totals(f.charged, f.discharged, f.imported, f.exported, f.curtailed, f.unserved)
  }

  function Plus(a: Totals, b: Totals): Totals {
    Totals(a.charged + b.charged, a.discharged + b.discharged, a.imported + b.imported,
           a.exported + b.exported, a.curtailed + b.curtailed, a.unserved + b.unserved)
  }

  function TotalSurplus(xs: seq<Interval>): real {
    if xs == [] then 0.0 else TotalSurplus(Init(xs)) + SurplusOf(Last(xs))
  }

  function TotalDeficit(xs: seq<Interval>): real {
    if xs == [] then 0.0 else TotalDeficit(Init(xs)) + DeficitOf(Last(xs))
  }

  /** A physical run: each flow is a feasible battery movement, settled with the grid. */
  ghost predicate PhysicalRun(plant: Plant, xs: seq<Interval>, flows: seq<Flow>, initialSoc: real) {
    && |flows| == |xs|
    && forall k :: 0 <= k < |xs| ==>
         var soc := SocAfter(flows[..k], initialSoc);
         && flows[k] == Settle(plant, xs[k], soc, flows[k].charged, flows[k].discharged)
         && Feasible(plant, xs[k], soc, flows[k].charged, flows[k].discharged)
  }

  lemma PhysicalRunPrefix(plant: Plant, xs: seq<Interval>, flows: seq<Flow>, initialSoc: real, n: nat)
    requires PhysicalRun(plant, xs, flows, initialSoc) && n <= |xs|
    ensures PhysicalRun(plant, xs[..n], flows[..n], initialSoc)
  {
    forall k | 0 <= k < n
      ensures flows[..n][..k] == flows[..k]
    {
    }
  }

  lemma PhysicalRunSnoc(plant: Plant, xs: seq<Interval>, flows: seq<Flow>, f: Flow, initialSoc: real)
    requires xs != [] && PhysicalRun(plant, Init(xs), flows, initialSoc)
    requires var soc := SocAfter(flows, initialSoc);
             && f == Settle(plant, Last(xs), soc, f.charged, f.discharged)
             && Feasible(plant, Last(xs), soc, f.charged, f.discharged)
    ensures PhysicalRun(plant, xs, flows + [f], initialSoc)
  {
    forall k | 0 <= k < |xs|
      ensures k < |flows| ==> (flows + [f])[..k] == flows[..k]
      ensures k == |flows| ==> (flows + [f])[..k] == flows
    {
    }
  }

  /** Every physical run keeps the battery within its capacity and balances its
      books: stored energy is what went in minus what came out, and surplus and
      deficit are split between battery, grid and loss. */
  lemma {:induction false} PhysicalRunAccounts(plant: Plant, xs: seq<Interval>, flows: seq<Flow>, initialSoc: real)
    requires plant.Valid() && ValidIntervals(xs) && ValidBattery(plant.capacity, initialSoc)
    requires PhysicalRun(plant, xs, flows, initialSoc)
    ensures ValidBattery(plant.capacity, SocAfter(flows, initialSoc))
    ensures
      var t := TotalsOf(flows);
      && SocAfter(flows, initialSoc) == initialSoc + t.charged - t.discharged
      && t.charged + t.exported + t.curtailed == TotalSurplus(xs)
      && t.discharged + t.imported + t.unserved == TotalDeficit(xs)
      && t.imported >= 0.0 && t.exported >= 0.0 && t.curtailed >= 0.0 && t.unserved >= 0.0
  {
    if xs == [] {
    } else {
      var n := |xs| - 1;
      PhysicalRunPrefix(plant, xs, flows, initialSoc, n);
      PhysicalRunAccounts(plant, Init(xs), Init(flows), initialSoc);
      var f, soc := Last(flows), SocAfter(Init(flows), initialSoc);
      assert flows[..n] == Init(flows);
      SettleKeepsThePlantPhysical(plant, Last(xs), soc, f.charged, f.discharged);
    }
  }

  lemma {:induction false} StrategyRunIsPhysical(plant: Plant, s: Strategy, xs: seq<Interval>, initialSoc: real)
    requires plant.Valid() && ValidStrategy(s) && ValidIntervals(xs) && ValidBattery(plant.capacity, initialSoc)
    ensures PhysicalRun(plant, xs, StrategyRun(plant, s, xs, initialSoc), initialSoc)
    ensures ValidBattery(plant.capacity, SocAfter(StrategyRun(plant, s, xs, initialSoc), initialSoc))
  {
    if xs == [] {
    } else {
      var before := StrategyRun(plant, s, Init(xs), initialSoc);
      StrategyRunIsPhysical(plant, s, Init(xs), initialSoc);
      var soc := SocAfter(before, initialSoc);
      StrategiesAreFeasible(plant, s, Last(xs), soc);
      PhysicalRunSnoc(plant, xs, before, StrategyFlow(plant, s, Last(xs), soc), initialSoc);
      PhysicalRunAccounts(plant, xs, StrategyRun(plant, s, xs, initialSoc), initialSoc);
    }
  }

  /** A prefix of a run is the run of the prefix. */
  lemma {:induction false} StrategyRunPrefix(plant: Plant, s: Strategy, xs: seq<Interval>, initialSoc: real, n: nat)
    requires n <= |xs|
    ensures StrategyRun(plant, s, xs[..n], initialSoc) == StrategyRun(plant, s, xs, initialSoc)[..n]
  {
    if n == |xs| {
      assert xs[..n] == xs;
    } else {
      assert Init(xs)[..n] == xs[..n];
      StrategyRunPrefix(plant, s, Init(xs), initialSoc, n);
    }
  }

  lemma RunOfSnoc(plant: Plant, s: Strategy, xs: seq<Interval>, x: Interval, soc: real)
    ensures
      var before := StrategyRun(plant, s, xs, soc);
      StrategyRun(plant, s, xs + [x], soc) == before + [StrategyFlow(plant, s, x, SocAfter(before, soc))]
  {
    InitOfSnoc(xs, x);
  }

  lemma TotalsOfSnoc(flows: seq<Flow>, f: Flow)
    ensures TotalsOf(flows + [f]) == Plus(TotalsOf(flows), AsTotals(f))
  {
    InitOfSnoc(flows, f);
  }
}
