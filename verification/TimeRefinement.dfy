/** Splitting intervals into equal parts: the battery ends where it did, and finer
    accounting can only reveal more unresolved energy. */
module TimeRefinement {
  import opened Foundation
  import opened EnergySources
  import opened EnergyBalance
  import opened Batteries
  import opened Grids
  import opened Control
  import opened Plants
  import opened Scenarios

  // ----- two consecutive intervals and the one they merge into -----

  function Merge(x: Interval, y: Interval): Interval {
    Interval(x.hours + y.hours, x.generated + y.generated, x.consumed + y.consumed)
  }

  predicate SameSide(offered: real, cap: real, moreOffered: real, moreCap: real) {
    (offered <= cap && moreOffered <= moreCap) || (cap <= offered && moreCap <= moreOffered)
  }

  /** When the same term binds in both parts, two moves towards an end of the window
      are one move. */
  lemma MovesMerge(
    offered: real, cap: real, moreOffered: real, moreCap: real, wholeOffered: real, wholeCap: real,
    room: real, moreRoom: real, gap: real, window: real, moreWindow: real)
    requires offered >= 0.0 && cap >= 0.0 && moreOffered >= 0.0 && moreCap >= 0.0 && room >= 0.0
    requires SameSide(offered, cap, moreOffered, moreCap)
    requires wholeOffered == offered + moreOffered && wholeCap == cap + moreCap
    requires window == Max(0.0, gap)
    requires moreRoom == room - MoveWithin(offered, room, cap, window)
    requires moreWindow == Max(0.0, gap - MoveWithin(offered, room, cap, window))
    ensures
      MoveWithin(offered, room, cap, window) + MoveWithin(moreOffered, moreRoom, moreCap, moreWindow)
      == MoveWithin(wholeOffered, room, wholeCap, window)
  {
  }

  /** Without a power limit or a window, two moves are always one move. */
  lemma UnlimitedMovesMerge(offered: real, moreOffered: real, wholeOffered: real, room: real)
    requires offered >= 0.0 && moreOffered >= 0.0 && room >= 0.0 && wholeOffered == offered + moreOffered
    ensures Min(offered, room) + Min(moreOffered, room - Min(offered, room)) == Min(wholeOffered, room)
  {
  }

  /** Leftovers that each exceed or meet their own limit exceed a joint limit by no more. */
  lemma ExcessesMerge(left: real, limit: real, moreLeft: real, moreLimit: real)
    ensures
      (left + moreLeft) - Min(left + moreLeft, limit + moreLimit)
      <= (left - Min(left, limit)) + (moreLeft - Min(moreLeft, moreLimit))
  {
  }

  /** The two intervals run in the same direction, unsnapped, and against the
      power limits alike. */
  predicate Mergeable(s: Strategy, x: Interval, y: Interval) {
    && x.hours > 0.0 && y.hours > 0.0
    && Net(x) == x.generated - x.consumed && Net(y) == y.generated - y.consumed
    && ((Net(x) > 0.0 && Net(y) > 0.0) || (Net(x) < 0.0 && Net(y) < 0.0))
    && (s.Limited? ==>
          && SameSide(SurplusOf(x), Energy(s.limits.maxChargePowerKw, x.hours),
                      SurplusOf(y), Energy(s.limits.maxChargePowerKw, y.hours))
          && SameSide(DeficitOf(x), Energy(s.limits.maxDischargePowerKw, x.hours),
                      DeficitOf(y), Energy(s.limits.maxDischargePowerKw, y.hours)))
  }

  lemma OffersAddUp(s: Strategy, x: Interval, y: Interval)
    requires Mergeable(s, x, y)
    ensures Net(Merge(x, y)) == Net(x) + Net(y)
    ensures SurplusOf(Merge(x, y)) == SurplusOf(x) + SurplusOf(y)
    ensures DeficitOf(Merge(x, y)) == DeficitOf(x) + DeficitOf(y)
  {
  }

  lemma UnlimitedChargesAddUp(plant: Plant, x: Interval, y: Interval, soc: real)
    requires ValidBattery(plant.capacity, soc) && SurplusOf(Merge(x, y)) == SurplusOf(x) + SurplusOf(y)
    ensures
      var first := ChargeUnder(plant, BatteryFirst, x, soc);
      first + ChargeUnder(plant, BatteryFirst, y, soc + first) == ChargeUnder(plant, BatteryFirst, Merge(x, y), soc)
  {
    UnlimitedMovesMerge(SurplusOf(x), SurplusOf(y), SurplusOf(Merge(x, y)), plant.capacity - soc);
  }

  lemma UnlimitedDischargesAddUp(x: Interval, y: Interval, soc: real)
    requires soc >= 0.0 && DeficitOf(Merge(x, y)) == DeficitOf(x) + DeficitOf(y)
    ensures
      var first := DischargeUnder(BatteryFirst, x, soc);
      first + DischargeUnder(BatteryFirst, y, soc - first) == DischargeUnder(BatteryFirst, Merge(x, y), soc)
  {
    UnlimitedMovesMerge(DeficitOf(x), DeficitOf(y), DeficitOf(Merge(x, y)), soc);
  }

  lemma CapsAddUp(power: real, hours: real, moreHours: real)
    requires power >= 0.0 && hours > 0.0 && moreHours > 0.0
    ensures Energy(power, hours) >= 0.0 && Energy(power, moreHours) >= 0.0
    ensures Energy(power, hours + moreHours) == Energy(power, hours) + Energy(power, moreHours)
  {
    EnergyNotNegative(power, hours);
    EnergyNotNegative(power, moreHours);
    EnergyOverTime(power, hours, moreHours);
  }

  lemma LimitedChargesMerge(
    l: Limits, capacity: real, surplus: real, hours: real, moreSurplus: real, moreHours: real,
    wholeSurplus: real, wholeHours: real, soc: real)
    requires ValidLimits(l) && soc <= capacity && hours > 0.0 && moreHours > 0.0
    requires surplus >= 0.0 && moreSurplus >= 0.0
    requires wholeSurplus == surplus + moreSurplus && wholeHours == hours + moreHours
    requires SameSide(surplus, Energy(l.maxChargePowerKw, hours), moreSurplus, Energy(l.maxChargePowerKw, moreHours))
    ensures
      var first := LimitedCharge(l, capacity, surplus, hours, soc);
      first + LimitedCharge(l, capacity, moreSurplus, moreHours, soc + first)
      == LimitedCharge(l, capacity, wholeSurplus, wholeHours, soc)
  {
    var power, first := l.maxChargePowerKw, LimitedCharge(l, capacity, surplus, hours, soc);
    CapsAddUp(power, hours, moreHours);
    MovesMerge(surplus, Energy(power, hours), moreSurplus, Energy(power, moreHours),
               wholeSurplus, Energy(power, wholeHours), capacity - soc, capacity - (soc + first),
               l.maximumBatterySocKwh - soc, RoomAbove(l, soc), RoomAbove(l, soc + first));
  }

  lemma LimitedDischargesMerge(
    l: Limits, deficit: real, hours: real, moreDeficit: real, moreHours: real,
    wholeDeficit: real, wholeHours: real, soc: real)
    requires ValidLimits(l) && soc >= 0.0 && hours > 0.0 && moreHours > 0.0
    requires deficit >= 0.0 && moreDeficit >= 0.0
    requires wholeDeficit == deficit + moreDeficit && wholeHours == hours + moreHours
    requires SameSide(deficit, Energy(l.maxDischargePowerKw, hours),
                      moreDeficit, Energy(l.maxDischargePowerKw, moreHours))
    ensures
      var first := LimitedDischarge(l, deficit, hours, soc);
      first + LimitedDischarge(l, moreDeficit, moreHours, soc - first)
      == LimitedDischarge(l, wholeDeficit, wholeHours, soc)
  {
    var power, first := l.maxDischargePowerKw, LimitedDischarge(l, deficit, hours, soc);
    CapsAddUp(power, hours, moreHours);
    MovesMerge(deficit, Energy(power, hours), moreDeficit, Energy(power, moreHours),
               wholeDeficit, Energy(power, wholeHours), soc, soc - first,
               soc - l.minimumBatterySocKwh, RoomBelow(l, soc), RoomBelow(l, soc - first));
  }

  lemma LimitedChargesAddUp(plant: Plant, l: Limits, x: Interval, y: Interval, soc: real)
    requires ValidLimits(l) && ValidBattery(plant.capacity, soc) && x.hours > 0.0 && y.hours > 0.0
    requires SurplusOf(Merge(x, y)) == SurplusOf(x) + SurplusOf(y)
    requires SameSide(SurplusOf(x), Energy(l.maxChargePowerKw, x.hours),
                      SurplusOf(y), Energy(l.maxChargePowerKw, y.hours))
    ensures
      var first := ChargeUnder(plant, Limited(l), x, soc);
      first + ChargeUnder(plant, Limited(l), y, soc + first) == ChargeUnder(plant, Limited(l), Merge(x, y), soc)
  {
    LimitedChargesMerge(l, plant.capacity, SurplusOf(x), x.hours, SurplusOf(y), y.hours,
                        SurplusOf(Merge(x, y)), Merge(x, y).hours, soc);
  }

  lemma LimitedDischargesAddUp(l: Limits, x: Interval, y: Interval, soc: real)
    requires ValidLimits(l) && soc >= 0.0 && x.hours > 0.0 && y.hours > 0.0
    requires DeficitOf(Merge(x, y)) == DeficitOf(x) + DeficitOf(y)
    requires SameSide(DeficitOf(x), Energy(l.maxDischargePowerKw, x.hours),
                      DeficitOf(y), Energy(l.maxDischargePowerKw, y.hours))
    ensures
      var first := DischargeUnder(Limited(l), x, soc);
      first + DischargeUnder(Limited(l), y, soc - first) == DischargeUnder(Limited(l), Merge(x, y), soc)
  {
    LimitedDischargesMerge(l, DeficitOf(x), x.hours, DeficitOf(y), y.hours,
                           DeficitOf(Merge(x, y)), Merge(x, y).hours, soc);
  }

  lemma LimitsAddUp(grid: GridConnection, direction: Direction, x: Interval, y: Interval)
    ensures grid.Limit(direction, x.hours + y.hours) == grid.Limit(direction, x.hours) + grid.Limit(direction, y.hours)
  {
    EnergyOverTime(grid.maxImportPowerKw, x.hours, y.hours);
    EnergyOverTime(grid.maxExportPowerKw, x.hours, y.hours);
  }

  /** The finer account moves the same energy through the battery, offers the same
      to the grid in all, and resolves no more of it. */
  predicate Refines(fine: Totals, whole: Totals) {
    && fine.charged == whole.charged
    && fine.discharged == whole.discharged
    && fine.imported + fine.unserved == whole.imported + whole.unserved
    && fine.exported + fine.curtailed == whole.exported + whole.curtailed
    && fine.curtailed >= whole.curtailed
    && fine.unserved >= whole.unserved
  }

  lemma ChargesAddUp(plant: Plant, s: Strategy, x: Interval, y: Interval, soc: real)
    requires ValidStrategy(s) && Mergeable(s, x, y) && ValidBattery(plant.capacity, soc)
    ensures
      var first := ChargeUnder(plant, s, x, soc);
      first + ChargeUnder(plant, s, y, soc + first) == ChargeUnder(plant, s, Merge(x, y), soc)
  {
    OffersAddUp(s, x, y);
    match s
    case BatteryFirst => UnlimitedChargesAddUp(plant, x, y, soc);
    case Limited(l) => LimitedChargesAddUp(plant, l, x, y, soc);
  }

  lemma DischargesAddUp(plant: Plant, s: Strategy, x: Interval, y: Interval, soc: real)
    requires ValidStrategy(s) && Mergeable(s, x, y) && ValidBattery(plant.capacity, soc)
    ensures
      var first := DischargeUnder(s, x, soc);
      first + DischargeUnder(s, y, soc - first) == DischargeUnder(s, Merge(x, y), soc)
  {
    OffersAddUp(s, x, y);
    match s
    case BatteryFirst => UnlimitedDischargesAddUp(x, y, soc);
    case Limited(l) => LimitedDischargesAddUp(l, x, y, soc);
  }

  /** In both directions the moves of the parts, one after the other, are the move of
      the whole: one direction adds up and the other is idle. */
  lemma MergedMovesAddUp(plant: Plant, s: Strategy, x: Interval, y: Interval, soc: real, next: real)
    requires ValidStrategy(s) && Mergeable(s, x, y) && ValidBattery(plant.capacity, soc)
    requires next == soc + ChargeUnder(plant, s, x, soc) - DischargeUnder(s, x, soc)
    requires ValidBattery(plant.capacity, next)
    ensures ChargeUnder(plant, s, x, soc) + ChargeUnder(plant, s, y, next) == ChargeUnder(plant, s, Merge(x, y), soc)
    ensures DischargeUnder(s, x, soc) + DischargeUnder(s, y, next) == DischargeUnder(s, Merge(x, y), soc)
  {
    OffersAddUp(s, x, y);
    IdleDirections(plant, s, x, soc);
    IdleDirections(plant, s, y, next);
    IdleDirections(plant, s, Merge(x, y), soc);
    if Net(x) > 0.0 {
      ChargesAddUp(plant, s, x, y, soc);
      assert next == soc + ChargeUnder(plant, s, x, soc);
    } else {
      DischargesAddUp(plant, s, x, y, soc);
      assert next == soc - DischargeUnder(s, x, soc);
    }
  }

  /** Settling two moves one after the other, against settling their sum at once. */
  lemma SettlementsMerge(
    plant: Plant, x: Interval, y: Interval, soc: real, next: real,
    charged: real, discharged: real, moreCharged: real, moreDischarged: real)
    requires SurplusOf(Merge(x, y)) == SurplusOf(x) + SurplusOf(y)
    requires DeficitOf(Merge(x, y)) == DeficitOf(x) + DeficitOf(y)
    requires next == soc + charged - discharged
    ensures
      var f, g := Settle(plant, x, soc, charged, discharged), Settle(plant, y, next, moreCharged, moreDischarged);
      var whole := Settle(plant, Merge(x, y), soc, charged + moreCharged, discharged + moreDischarged);
      g.socAfter == whole.socAfter && Refines(Plus(AsTotals(f), AsTotals(g)), AsTotals(whole))
  {
    LimitsAddUp(plant.grid, Import, x, y);
    LimitsAddUp(plant.grid, Export, x, y);
    ExcessesMerge(SurplusOf(x) - charged, plant.grid.Limit(Export, x.hours),
                  SurplusOf(y) - moreCharged, plant.grid.Limit(Export, y.hours));
    ExcessesMerge(DeficitOf(x) - discharged, plant.grid.Limit(Import, x.hours),
                  DeficitOf(y) - moreDischarged, plant.grid.Limit(Import, y.hours));
  }

  lemma MergedFlow(plant: Plant, s: Strategy, x: Interval, y: Interval, soc: real)
    requires ValidStrategy(s) && Mergeable(s, x, y) && ValidBattery(plant.capacity, soc)
    requires ValidBattery(plant.capacity, StrategyFlow(plant, s, x, soc).socAfter)
    ensures
      var f := StrategyFlow(plant, s, x, soc);
      var g := StrategyFlow(plant, s, y, f.socAfter);
      var whole := StrategyFlow(plant, s, Merge(x, y), soc);
      g.socAfter == whole.socAfter && Refines(Plus(AsTotals(f), AsTotals(g)), AsTotals(whole))
  {
    var f := StrategyFlow(plant, s, x, soc);
    var g := StrategyFlow(plant, s, y, f.socAfter);
    OffersAddUp(s, x, y);
    MergedMovesAddUp(plant, s, x, y, soc, f.socAfter);
    SettlementsMerge(plant, x, y, soc, f.socAfter, f.charged, f.discharged, g.charged, g.discharged);
  }

  // ----- n equal parts -----

  function Part(x: Interval, n: nat): Interval
    requires n > 0
  {
    Interval(x.hours / n as real, x.generated / n as real, x.consumed / n as real)
  }

  function Copies<T>(p: T, k: nat): (ps: seq<T>)
    ensures |ps| == k
  {
    if k == 0 then [] else Copies(p, k - 1) + [p]
  }

  /** k copies merged into one interval. */
  function Times(p: Interval, k: nat): Interval
    requires k > 0
  {
    if k == 1 then p else Merge(Times(p, k - 1), p)
  }

  lemma OneMore(k: nat, v: real)
    requires k > 0
    ensures k as real * v == (k - 1) as real * v + v
  {
    assert k as real == (k - 1) as real + 1.0;
  }

  lemma DividedAndMultiplied(n: nat, v: real)
    requires n > 0
    ensures n as real * (v / n as real) == v
  {
  }

  lemma {:induction false} TimesScales(p: Interval, k: nat)
    requires k > 0
    ensures Times(p, k) == Interval(k as real * p.hours, k as real * p.generated, k as real * p.consumed)
  {
    if k == 1 {
    } else {
      TimesScales(p, k - 1);
      OneMore(k, p.hours);
      OneMore(k, p.generated);
      OneMore(k, p.consumed);
    }
  }

  lemma PartsMakeTheWhole(x: Interval, n: nat)
    requires n > 0
    ensures Times(Part(x, n), n) == x
  {
    TimesScales(Part(x, n), n);
    DividedAndMultiplied(n, x.hours);
    DividedAndMultiplied(n, x.generated);
    DividedAndMultiplied(n, x.consumed);
  }

  /** The part's balance is not snapped. */
  predicate Unsnapped(p: Interval) {
    Abs(p.generated - p.consumed) > BALANCE_TOLERANCE_KWH
  }

  lemma {:induction false} TimesOnTheSameSide(s: Strategy, p: Interval, k: nat)
    requires k > 0 && p.hours > 0.0 && Unsnapped(p)
    ensures Mergeable(s, Times(p, k), p)
    ensures Net(Times(p, k)) > 0.0 <==> Net(p) > 0.0
    ensures Abs(Net(Times(p, k))) >= Abs(Net(p))
  {
    if k == 1 {
    } else {
      TimesOnTheSameSide(s, p, k - 1);
      if s.Limited? {
        EnergyOverTime(s.limits.maxChargePowerKw, Times(p, k - 1).hours, p.hours);
        EnergyOverTime(s.limits.maxDischargePowerKw, Times(p, k - 1).hours, p.hours);
      }
    }
  }

  lemma CopiesUnfold(plant: Plant, s: Strategy, p: Interval, k: nat, soc: real)
    requires k > 0
    ensures
      var before := StrategyRun(plant, s, Copies(p, k - 1), soc);
      var last := StrategyFlow(plant, s, p, SocAfter(before, soc));
      && StrategyRun(plant, s, Copies(p, k), soc) == before + [last]
      && TotalsOf(before + [last]) == Plus(TotalsOf(before), AsTotals(last))
  {
    var before := StrategyRun(plant, s, Copies(p, k - 1), soc);
    assert Copies(p, k) == Copies(p, k - 1) + [p];
    RunOfSnoc(plant, s, Copies(p, k - 1), p, soc);
    TotalsOfSnoc(before, StrategyFlow(plant, s, p, SocAfter(before, soc)));
  }

  lemma RefinementChains(fine: Totals, part: Totals, middle: Totals, whole: Totals)
    requires Refines(fine, middle) && Refines(Plus(middle, part), whole)
    ensures Refines(Plus(fine, part), whole)
  {
  }

  lemma {:induction false} CopiesAreValid(p: Interval, k: nat)
    requires ValidInterval(p)
    ensures ValidIntervals(Copies(p, k))
  {
    if k == 0 {
    } else {
      CopiesAreValid(p, k - 1);
    }
  }

  /** k unsnapped copies do what their merged interval does, in finer account. */
  lemma {:induction false} CopiesRefineTheWhole(plant: Plant, s: Strategy, p: Interval, k: nat, soc: real)
    requires k > 0 && ValidInterval(p) && Unsnapped(p)
    requires plant.Valid() && ValidStrategy(s) && ValidBattery(plant.capacity, soc)
    ensures
      var flows, whole := StrategyRun(plant, s, Copies(p, k), soc), StrategyFlow(plant, s, Times(p, k), soc);
      SocAfter(flows, soc) == whole.socAfter && Refines(TotalsOf(flows), AsTotals(whole))
  {
    CopiesUnfold(plant, s, p, k, soc);
    if k == 1 {
    } else {
      CopiesRefineTheWhole(plant, s, p, k - 1, soc);
      TimesOnTheSameSide(s, p, k - 1);
      CopiesAreValid(p, k - 1);
      StrategyRunIsPhysical(plant, s, Copies(p, k - 1), soc);
      MergedFlow(plant, s, Times(p, k - 1), p, soc);
      var before := StrategyRun(plant, s, Copies(p, k - 1), soc);
      RefinementChains(TotalsOf(before), AsTotals(StrategyFlow(plant, s, p, SocAfter(before, soc))),
                       AsTotals(StrategyFlow(plant, s, Times(p, k - 1), soc)),
                       AsTotals(StrategyFlow(plant, s, Times(p, k), soc)));
    }
  }

  const NOTHING: Totals := Totals(0.0, 0.0, 0.0, 0.0, 0.0, 0.0)

  lemma BalancedIntervalDoesNothing(plant: Plant, s: Strategy, x: Interval, soc: real)
    requires ValidInterval(x) && Net(x) == 0.0
    requires plant.Valid() && ValidStrategy(s) && ValidBattery(plant.capacity, soc)
    ensures StrategyFlow(plant, s, x, soc).socAfter == soc
    ensures AsTotals(StrategyFlow(plant, s, x, soc)) == NOTHING
  {
    IdleDirections(plant, s, x, soc);
    LimitIsNotNegative(plant.grid, Import, x.hours);
    LimitIsNotNegative(plant.grid, Export, x.hours);
  }

  lemma IdleFlowAppends(flows: seq<Flow>, f: Flow, soc: real)
    requires SocAfter(flows, soc) == soc && TotalsOf(flows) == NOTHING
    requires f.socAfter == soc && AsTotals(f) == NOTHING
    ensures SocAfter(flows + [f], soc) == soc && TotalsOf(flows + [f]) == NOTHING
  {
    TotalsOfSnoc(flows, f);
  }

  /** Copies of a balanced part leave everything where it is. */
  lemma {:induction false} SnappedCopiesDoNothing(plant: Plant, s: Strategy, p: Interval, k: nat, soc: real)
    requires ValidInterval(p) && !Unsnapped(p)
    requires plant.Valid() && ValidStrategy(s) && ValidBattery(plant.capacity, soc)
    ensures SocAfter(StrategyRun(plant, s, Copies(p, k), soc), soc) == soc
    ensures TotalsOf(StrategyRun(plant, s, Copies(p, k), soc)) == NOTHING
  {
    if k == 0 {
    } else {
      SnappedCopiesDoNothing(plant, s, p, k - 1, soc);
      CopiesUnfold(plant, s, p, k, soc);
      BalancedIntervalDoesNothing(plant, s, p, soc);
      IdleFlowAppends(StrategyRun(plant, s, Copies(p, k - 1), soc), StrategyFlow(plant, s, p, soc), soc);
    }
  }

  /** Splitting makes an imbalance too small to count. */
  predicate NewlySnapped(x: Interval, n: nat)
    requires n > 0
  {
    Unsnapped(x) && !Unsnapped(Part(x, n))
  }

  lemma PartsAreSmaller(v: real, n: nat)
    requires n > 0 && v >= 0.0
    ensures 0.0 <= v / n as real <= v
  {
    var part, d := v / n as real, n as real;
    assert part >= 0.0 && d >= 1.0;
    DividedAndMultiplied(n, v);
    ProductNonNegative(d - 1.0, part);
    assert (d - 1.0) * part == d * part - part;
  }

  lemma PartIsValid(x: Interval, n: nat)
    requires n > 0 && ValidInterval(x)
    ensures ValidInterval(Part(x, n))
    ensures !Unsnapped(x) ==> !Unsnapped(Part(x, n))
  {
    var d := n as real;
    var raw := x.generated - x.consumed;
    assert x.generated / d - x.consumed / d == raw / d;
    PartsAreSmaller(Abs(raw), n);
    assert Abs(raw / d) == Abs(raw) / d;
  }

  /** Splitting one interval into n equal parts that stay clear of the balance
      threshold leaves the state of charge at its end unchanged and never lowers
      unresolved energy, for the controller loop and for the reference. */
  lemma SplittingRefines(plant: Plant, s: Strategy, x: Interval, n: nat, soc: real)
    requires n > 0 && ValidInterval(x) && !NewlySnapped(x, n)
    requires plant.Valid() && ValidStrategy(s) && ValidBattery(plant.capacity, soc)
    ensures
      var flows, whole := StrategyRun(plant, s, Copies(Part(x, n), n), soc), StrategyFlow(plant, s, x, soc);
      SocAfter(flows, soc) == whole.socAfter && Refines(TotalsOf(flows), AsTotals(whole))
  {
    PartIsValid(x, n);
    PartsMakeTheWhole(x, n);
    if Unsnapped(Part(x, n)) {
      CopiesRefineTheWhole(plant, s, Part(x, n), n, soc);
    } else {
      SnappedCopiesDoNothing(plant, s, Part(x, n), n, soc);
      BalancedIntervalDoesNothing(plant, s, x, soc);
    }
  }

  /** The battery is already at the bound its direction would move it towards. */
  predicate AtRest(plant: Plant, s: Strategy, x: Interval, soc: real) {
    if x.generated > x.consumed
    then soc >= (if s.Limited? then Min(s.limits.maximumBatterySocKwh, plant.capacity) else plant.capacity)
    else soc <= (if s.Limited? then s.limits.minimumBatterySocKwh else 0.0)
  }

  lemma UnsnappedMovesUnlessAtRest(plant: Plant, s: Strategy, x: Interval, soc: real)
    requires x.hours > 0.0 && Unsnapped(x) && ValidStrategy(s) && ValidBattery(plant.capacity, soc)
    ensures StrategyFlow(plant, s, x, soc).socAfter == soc <==> AtRest(plant, s, x, soc)
  {
    IdleDirections(plant, s, x, soc);
    if s.Limited? {
      assert Energy(s.limits.maxChargePowerKw, x.hours) > 0.0;
      assert Energy(s.limits.maxDischargePowerKw, x.hours) > 0.0;
    }
  }

  /** The exact condition for the end state to survive splitting: no newly snapped
      parts, or a battery that would not have moved anyway. */
  lemma SplittingKeepsSocIff(plant: Plant, s: Strategy, x: Interval, n: nat, soc: real)
    requires n > 0 && ValidInterval(x)
    requires plant.Valid() && ValidStrategy(s) && ValidBattery(plant.capacity, soc)
    ensures
      SocAfter(StrategyRun(plant, s, Copies(Part(x, n), n), soc), soc) == StrategyFlow(plant, s, x, soc).socAfter
      <==> !NewlySnapped(x, n) || AtRest(plant, s, x, soc)
  {
    PartIsValid(x, n);
    if !NewlySnapped(x, n) {
      SplittingRefines(plant, s, x, n, soc);
    } else {
      SnappedCopiesDoNothing(plant, s, Part(x, n), n, soc);
      UnsnappedMovesUnlessAtRest(plant, s, x, soc);
    }
  }

  /** The surplus or deficit of an unsnapped interval goes somewhere. */
  lemma UnsnappedIsAccounted(plant: Plant, s: Strategy, x: Interval, soc: real)
    requires ValidInterval(x) && Unsnapped(x)
    requires plant.Valid() && ValidStrategy(s) && ValidBattery(plant.capacity, soc)
    ensures !Refines(NOTHING, AsTotals(StrategyFlow(plant, s, x, soc)))
  {
    var f := StrategyFlow(plant, s, x, soc);
    assert f.charged + f.exported + f.curtailed == SurplusOf(x);
    assert f.discharged + f.imported + f.unserved == DeficitOf(x);
    assert SurplusOf(x) > 0.0 || DeficitOf(x) > 0.0;
  }

  /** The exact condition for the whole account to be refined, energy through the
      battery included: no newly snapped parts. */
  lemma SplittingRefinesIff(plant: Plant, s: Strategy, x: Interval, n: nat, soc: real)
    requires n > 0 && ValidInterval(x)
    requires plant.Valid() && ValidStrategy(s) && ValidBattery(plant.capacity, soc)
    ensures
      Refines(TotalsOf(StrategyRun(plant, s, Copies(Part(x, n), n), soc)), AsTotals(StrategyFlow(plant, s, x, soc)))
      <==> !NewlySnapped(x, n)
  {
    PartIsValid(x, n);
    if !NewlySnapped(x, n) {
      SplittingRefines(plant, s, x, n, soc);
    } else {
      SnappedCopiesDoNothing(plant, s, Part(x, n), n, soc);
      UnsnappedIsAccounted(plant, s, x, soc);
    }
  }

  /** The exact condition for unresolved energy not to be lowered: no newly snapped
      parts, or an interval that leaves nothing unresolved when whole. */
  lemma UnresolvedIsNotLoweredIff(plant: Plant, s: Strategy, x: Interval, n: nat, soc: real)
    requires n > 0 && ValidInterval(x)
    requires plant.Valid() && ValidStrategy(s) && ValidBattery(plant.capacity, soc)
    ensures
      var parts := TotalsOf(StrategyRun(plant, s, Copies(Part(x, n), n), soc));
      var whole := StrategyFlow(plant, s, x, soc);
      parts.curtailed >= whole.curtailed && parts.unserved >= whole.unserved
      <==> !NewlySnapped(x, n) || (whole.curtailed == 0.0 && whole.unserved == 0.0)
  {
    PartIsValid(x, n);
    if !NewlySnapped(x, n) {
      SplittingRefines(plant, s, x, n, soc);
    } else {
      SnappedCopiesDoNothing(plant, s, Part(x, n), n, soc);
      StrategiesAreFeasible(plant, s, x, soc);
      SettleKeepsThePlantPhysical(plant, x, soc, ChargeUnder(plant, s, x, soc), DischargeUnder(s, x, soc));
    }
  }

  /** An imbalance of n tolerances, in n parts of one tolerance each. */
  function JustSnapped(n: nat): Interval {
    Interval(1.0, n as real * BALANCE_TOLERANCE_KWH, 0.0)
  }

  /** Splitting into two parts or more, whatever their number, can newly snap. */
  lemma SomeIntervalIsNewlySnapped(n: nat)
    requires n > 0
    ensures (exists x :: ValidInterval(x) && NewlySnapped(x, n)) <==> n > 1
  {
    if n > 1 {
      var x := JustSnapped(n);
      assert n as real >= 2.0;
      assert Part(x, n).generated == BALANCE_TOLERANCE_KWH && Part(x, n).consumed == 0.0;
      assert ValidInterval(x) && NewlySnapped(x, n);
    } else {
      forall x ensures !NewlySnapped(x, n) {
        assert Part(x, 1) == x;
      }
    }
  }

  // ----- whole scenarios -----

  function SplitAll(xs: seq<Interval>, ns: seq<nat>): seq<Interval>
    requires |xs| == |ns| && forall k :: 0 <= k < |ns| ==> ns[k] > 0
  {
    if xs == [] then [] else SplitAll(Init(xs), Init(ns)) + Copies(Part(Last(xs), Last(ns)), Last(ns))
  }

  lemma SocOfConcatenation(a: seq<Flow>, b: seq<Flow>, soc: real)
    ensures SocAfter(a + b, soc) == SocAfter(b, SocAfter(a, soc))
  {
    if b == [] {
      assert a + b == a;
    }
  }

  lemma {:induction false} RunOfConcatenation(
    plant: Plant, s: Strategy, xs: seq<Interval>, ys: seq<Interval>, soc: real)
    ensures
      var first := StrategyRun(plant, s, xs, soc);
      StrategyRun(plant, s, xs + ys, soc) == first + StrategyRun(plant, s, ys, SocAfter(first, soc))
  {
    if ys == [] {
      assert xs + ys == xs;
    } else {
      assert xs + ys == (xs + Init(ys)) + [Last(ys)];
      RunOfConcatenation(plant, s, xs, Init(ys), soc);
      var first := StrategyRun(plant, s, xs, soc);
      var next := StrategyRun(plant, s, Init(ys), SocAfter(first, soc));
      RunOfSnoc(plant, s, xs + Init(ys), Last(ys), soc);
      SocOfConcatenation(first, next, soc);
      var last := StrategyFlow(plant, s, Last(ys), SocAfter(next, SocAfter(first, soc)));
      assert (first + next) + [last] == first + (next + [last]);
    }
  }

  lemma {:induction false} TotalsOfConcatenation(a: seq<Flow>, b: seq<Flow>)
    ensures TotalsOf(a + b) == Plus(TotalsOf(a), TotalsOf(b))
  {
    if b == [] {
      assert a + b == a;
    } else {
      assert Init(a + b) == a + Init(b) && Last(a + b) == Last(b);
      TotalsOfConcatenation(a, Init(b));
    }
  }

  lemma RefinementAdds(fine: Totals, parts: Totals, coarse: Totals, whole: Totals)
    requires Refines(fine, coarse) && Refines(parts, whole)
    ensures Refines(Plus(fine, parts), Plus(coarse, whole))
  {
  }

  lemma {:induction false} RefinementAppends(fine: seq<Flow>, parts: seq<Flow>, coarse: seq<Flow>, whole: Flow)
    requires Refines(TotalsOf(fine), TotalsOf(coarse)) && Refines(TotalsOf(parts), AsTotals(whole))
    ensures Refines(TotalsOf(fine + parts), TotalsOf(coarse + [whole]))
  {
    TotalsOfConcatenation(fine, parts);
    TotalsOfSnoc(coarse, whole);
    RefinementAdds(TotalsOf(fine), TotalsOf(parts), TotalsOf(coarse), AsTotals(whole));
  }

  /** Refining a whole scenario, each interval into a number of parts of its own:
      the state of charge at its end is unchanged and unresolved energy is never
      lowered, for the controller loop and for the reference. */
  lemma {:induction false} RefinedRunAgrees(
    plant: Plant, s: Strategy, xs: seq<Interval>, ns: seq<nat>, initialSoc: real)
    requires |xs| == |ns| && forall k :: 0 <= k < |ns| ==> ns[k] > 0
    requires ValidIntervals(xs) && forall k :: 0 <= k < |xs| ==> !NewlySnapped(xs[k], ns[k])
    requires plant.Valid() && ValidStrategy(s) && ValidBattery(plant.capacity, initialSoc)
    ensures
      var fine, coarse := StrategyRun(plant, s, SplitAll(xs, ns), initialSoc), StrategyRun(plant, s, xs, initialSoc);
      SocAfter(fine, initialSoc) == SocAfter(coarse, initialSoc) && Refines(TotalsOf(fine), TotalsOf(coarse))
  {
    if xs == [] {
    } else {
      var x, n := Last(xs), Last(ns);
      RefinedRunAgrees(plant, s, Init(xs), Init(ns), initialSoc);
      StrategyRunIsPhysical(plant, s, Init(xs), initialSoc);
      var earlier, coarse := SplitAll(Init(xs), Init(ns)), StrategyRun(plant, s, Init(xs), initialSoc);
      var soc := SocAfter(coarse, initialSoc);
      SplittingRefines(plant, s, x, n, soc);
      RunOfConcatenation(plant, s, earlier, Copies(Part(x, n), n), initialSoc);
      var fine, parts := StrategyRun(plant, s, earlier, initialSoc), StrategyRun(plant, s, Copies(Part(x, n), n), soc);
      RefinementAppends(fine, parts, coarse, StrategyFlow(plant, s, x, soc));
      SocOfConcatenation(fine, parts, initialSoc);
    }
  }

  function Sum(ns: seq<nat>): nat {
    if ns == [] then 0 else Sum(Init(ns)) + Last(ns)
  }

  lemma {:induction false} SplitAllPrefix(xs: seq<Interval>, ns: seq<nat>, n: nat)
    requires |xs| == |ns| && forall k :: 0 <= k < |ns| ==> ns[k] > 0
    requires n <= |xs|
    ensures |SplitAll(xs, ns)| == Sum(ns) && Sum(ns[..n]) <= Sum(ns)
    ensures SplitAll(xs, ns)[..Sum(ns[..n])] == SplitAll(xs[..n], ns[..n])
  {
    if n == |xs| {
      assert xs[..n] == xs && ns[..n] == ns;
      if xs != [] {
        SplitAllPrefix(Init(xs), Init(ns), n - 1);
      }
    } else {
      assert Init(xs)[..n] == xs[..n] && Init(ns)[..n] == ns[..n];
      SplitAllPrefix(Init(xs), Init(ns), n);
    }
  }

  /** At the end of every original interval the finer run is at the same state of
      charge, with an account that refines the coarse one's. */
  ghost predicate RefinesThroughout(fine: seq<Flow>, coarse: seq<Flow>, ns: seq<nat>, initialSoc: real) {
    |coarse| == |ns| &&
    forall n :: 0 <= n <= |ns| ==>
      && Sum(ns[..n]) <= |fine|
      && SocAfter(fine[..Sum(ns[..n])], initialSoc) == SocAfter(coarse[..n], initialSoc)
      && Refines(TotalsOf(fine[..Sum(ns[..n])]), TotalsOf(coarse[..n]))
  }

  /** And so at the end of every original interval, not just of the scenario. */
  lemma RefinedRunAgreesThroughout(plant: Plant, s: Strategy, xs: seq<Interval>, ns: seq<nat>, initialSoc: real)
    requires |xs| == |ns| && forall k :: 0 <= k < |ns| ==> ns[k] > 0
    requires ValidIntervals(xs) && forall k :: 0 <= k < |xs| ==> !NewlySnapped(xs[k], ns[k])
    requires plant.Valid() && ValidStrategy(s) && ValidBattery(plant.capacity, initialSoc)
    ensures RefinesThroughout(StrategyRun(plant, s, SplitAll(xs, ns), initialSoc),
                              StrategyRun(plant, s, xs, initialSoc), ns, initialSoc)
  {
    var fine, coarse := StrategyRun(plant, s, SplitAll(xs, ns), initialSoc), StrategyRun(plant, s, xs, initialSoc);
    forall n | 0 <= n <= |ns|
      ensures Sum(ns[..n]) <= |fine|
      ensures SocAfter(fine[..Sum(ns[..n])], initialSoc) == SocAfter(coarse[..n], initialSoc)
      ensures Refines(TotalsOf(fine[..Sum(ns[..n])]), TotalsOf(coarse[..n]))
    {
      SplitAllPrefix(xs, ns, n);
      StrategyRunPrefix(plant, s, SplitAll(xs, ns), initialSoc, Sum(ns[..n]));
      StrategyRunPrefix(plant, s, xs, initialSoc, n);
      RefinedRunAgrees(plant, s, xs[..n], ns[..n], initialSoc);
    }
  }

  /** The same conditions over equal parts of each step. */
  function RefineSteps(steps: seq<SimulationStep>, ns: seq<nat>): seq<SimulationStep>
    requires |steps| == |ns| && forall k :: 0 <= k < |ns| ==> ns[k] > 0
  {
    if steps == [] then [] else
    RefineSteps(Init(steps), Init(ns)) +
    Copies(Last(steps).(intervalHours := Last(steps).intervalHours / Last(ns) as real), Last(ns))
  }

  lemma {:induction false} IntervalsOfConcatenation(
    solar: SolarArray, building: BuildingLoad, a: seq<SimulationStep>, b: seq<SimulationStep>)
    ensures IntervalsOf(solar, building, a + b) == IntervalsOf(solar, building, a) + IntervalsOf(solar, building, b)
  {
    if b == [] {
      assert a + b == a;
    } else {
      assert Init(a + b) == a + Init(b) && Last(a + b) == Last(b);
      IntervalsOfConcatenation(solar, building, a, Init(b));
    }
  }

  lemma {:induction false} IntervalsOfCopies(solar: SolarArray, building: BuildingLoad, step: SimulationStep, k: nat)
    ensures IntervalsOf(solar, building, Copies(step, k)) == Copies(IntervalOf(solar, building, step), k)
  {
    if k == 0 {
    } else {
      IntervalsOfCopies(solar, building, step, k - 1);
      InitOfSnoc(Copies(step, k - 1), step);
    }
  }

  lemma EnergyOfPart(power: real, hours: real, n: nat)
    requires n > 0
    ensures Energy(power, hours / n as real) == Energy(power, hours) / n as real
  {
  }

  /** Generation and consumption are linear in the interval: refining the steps of
      a scenario splits its intervals. */
  lemma {:induction false} RefinedStepsSplitIntervals(
    solar: SolarArray, building: BuildingLoad, steps: seq<SimulationStep>, ns: seq<nat>)
    requires |steps| == |ns| && forall k :: 0 <= k < |ns| ==> ns[k] > 0
    ensures IntervalsOf(solar, building, RefineSteps(steps, ns)) == SplitAll(IntervalsOf(solar, building, steps), ns)
  {
    if steps == [] {
    } else {
      var step, n := Last(steps), Last(ns);
      var part := step.(intervalHours := step.intervalHours / n as real);
      RefinedStepsSplitIntervals(solar, building, Init(steps), Init(ns));
      IntervalsOfConcatenation(solar, building, RefineSteps(Init(steps), Init(ns)), Copies(part, n));
      IntervalsOfCopies(solar, building, part, n);
      EnergyOfPart(solar.OutputPower(step.irradianceFactor), step.intervalHours, n);
      EnergyOfPart(building.PowerDemand(step.activityFactor), step.intervalHours, n);
      assert IntervalOf(solar, building, part) == Part(IntervalOf(solar, building, step), n);
      InitOfSnoc(IntervalsOf(solar, building, Init(steps)), IntervalOf(solar, building, step));
    }
  }
}
