/** What the plant does with a requested power that is not a finite number: the
    client reads it with float, which accepts NaN and the infinities. */
module RawDecisions {
  import opened Foundation
  import opened Batteries
  import opened Grids
  import opened Control
  import opened Plants
  import opened Loop
  import D = Doubles

  type RawDecision = ControlCommand<D.Double>

  /** Python's min: the first argument unless the second is less. */
  function Smaller(a: D.Double, b: D.Double): D.Double {
    if D.Less(b, a) then b else a
  }

  /** max(power, 0.0) * interval. */
  function RawRequest(power: D.Double, hours: real): D.Double
    requires hours > 0.0
  {
    D.Scale(D.EXACT, hours, D.Larger(power, D.ZERO))
  }

  /** Energy the battery moves for a request: at most what is offered and what there
      is room for. A request that is not less than zero is not refused. */
  function RawMove(request: D.Double, offered: real, room: real): D.Double {
    Smaller(Smaller(request, D.Finite(offered)), D.Finite(room))
  }

  /** The energies of one interval, any of which may not be a number. */
  datatype RawFlow = RawFlow(
    charged: D.Double,
    discharged: D.Double,
    imported: D.Double,
    exported: D.Double,
    curtailed: D.Double,
    unserved: D.Double)

  function Lifted(f: Flow): RawFlow {
    RawFlow(D.Finite(f.charged), D.Finite(f.discharged), D.Finite(f.imported), D.Finite(f.exported),
            D.Finite(f.curtailed), D.Finite(f.unserved))
  }

  /** The grid is asked for what is left over, if that is greater than zero. */
  function RawTransfer(left: D.Double, limit: real): (D.Double, D.Double) {
    if !D.Less(D.ZERO, left) then (D.ZERO, D.ZERO)
    else
      var transferred := Smaller(left, D.Finite(limit));
      (transferred, D.Larger(D.Sub(D.EXACT, left, transferred), D.ZERO))
  }

  /** The grid's share of what the battery has left over. */
  function RawSettle(
    surplus: real, deficit: real, exportLimit: real, importLimit: real, charged: D.Double, discharged: D.Double)
    : RawFlow
  {
    var sold := RawTransfer(D.Sub(D.EXACT, D.Finite(surplus), charged), exportLimit);
    var bought := RawTransfer(D.Sub(D.EXACT, D.Finite(deficit), discharged), importLimit);
    RawFlow(charged, discharged, bought.0, sold.0, sold.1, bought.1)
  }

  function RawCharge(plant: Plant, x: Interval, soc: real, d: RawDecision): D.Double
    requires x.hours > 0.0
  {
    if d.action == ChargeBattery
    then RawMove(RawRequest(d.requestedPowerKw, x.hours), SurplusOf(x), plant.capacity - soc)
    else D.ZERO
  }

  function RawDischarge(x: Interval, soc: real, d: RawDecision): D.Double
    requires x.hours > 0.0
  {
    if d.action == DischargeBattery
    then RawMove(RawRequest(d.requestedPowerKw, x.hours), DeficitOf(x), soc)
    else D.ZERO
  }

  /** One interval, up to the conservation check. */
  function RawOutcome(plant: Plant, x: Interval, soc: real, d: RawDecision): RawFlow
    requires x.hours > 0.0
  {
    RawSettle(SurplusOf(x), DeficitOf(x), plant.grid.Limit(Export, x.hours), plant.grid.Limit(Import, x.hours),
              RawCharge(plant, x, soc, d), RawDischarge(x, soc, d))
  }

  function Total(a: real, b: D.Double, c: D.Double, d: D.Double): D.Double {
    D.Add(D.EXACT, D.Add(D.EXACT, D.Add(D.EXACT, D.Finite(a), b), c), d)
  }

  /** math.isclose with an absolute tolerance. */
  predicate IsClose(a: D.Double, b: D.Double, tolerance: real) {
    (a != D.NaN && a == b) || (a.Finite? && b.Finite? && Abs(a.value - b.value) <= tolerance)
  }

  predicate CheckPasses(x: Interval, f: RawFlow) {
    IsClose(Total(x.generated, f.discharged, f.imported, f.unserved),
            Total(x.consumed, f.charged, f.exported, f.curtailed),
            CONSERVATION_TOLERANCE_KWH)
  }

  /** A finite power that requests the same of the plant. */
  function Effective(x: Interval, d: RawDecision): ControlDecision
    requires x.hours > 0.0
  {
    var power :=
      match d.requestedPowerKw
      case Finite(power) => power
      case PosInf => (SurplusOf(x) + DeficitOf(x)) / x.hours
      case _ => 0.0;
    ControlCommand(d.sourceStepNumber, d.action, power)
  }

  predicate AsksForNaN(d: RawDecision) {
    d.requestedPowerKw.NaN? && d.action in {ChargeBattery, DischargeBattery}
  }

  /** As requests, an infinite power and one that covers everything offered are the same. */
  lemma RequestsAgree(x: Interval, d: RawDecision)
    requires x.hours > 0.0
    ensures
      var request, requested := RawRequest(d.requestedPowerKw, x.hours), RequestedEnergy(Effective(x, d), x.hours);
      if d.requestedPowerKw.NaN? then request == D.NaN
      else request == D.Finite(requested)
           || (request == D.PosInf && requested >= SurplusOf(x) && requested >= DeficitOf(x))
  {
    RateTimesHours(SurplusOf(x) + DeficitOf(x), x.hours);
    assert SurplusOf(x) + DeficitOf(x) >= 0.0;
  }

  lemma MovesAgree(request: D.Double, requested: real, offered: real, room: real)
    requires request == D.Finite(requested) || (request == D.PosInf && requested >= offered)
    ensures RawMove(request, offered, room) == D.Finite(Min(Min(requested, offered), room))
  {
  }

  lemma TransfersAgree(left: real, limit: real)
    requires left >= 0.0 && limit >= 0.0
    ensures RawTransfer(D.Finite(left), limit) == (D.Finite(Min(left, limit)), D.Finite(left - Min(left, limit)))
  {
  }

  lemma ExactDifference(a: real, b: real)
    ensures D.Sub(D.EXACT, D.Finite(a), D.Finite(b)) == D.Finite(a - b)
  {
  }

  /** The settlement of two numbers. */
  function SettledNumbers(
    surplus: real, deficit: real, exportLimit: real, importLimit: real, charged: real, discharged: real): RawFlow
  {
    var exported, imported := Min(surplus - charged, exportLimit), Min(deficit - discharged, importLimit);
    RawFlow(D.Finite(charged), D.Finite(discharged), D.Finite(imported), D.Finite(exported),
            D.Finite(surplus - charged - exported), D.Finite(deficit - discharged - imported))
  }

  lemma SettlementsAgree(
    surplus: real, deficit: real, exportLimit: real, importLimit: real, charged: real, discharged: real)
    requires exportLimit >= 0.0 && importLimit >= 0.0 && charged <= surplus && discharged <= deficit
    ensures RawSettle(surplus, deficit, exportLimit, importLimit, D.Finite(charged), D.Finite(discharged))
         == SettledNumbers(surplus, deficit, exportLimit, importLimit, charged, discharged)
  {
    ExactDifference(surplus, charged);
    ExactDifference(deficit, discharged);
    TransfersAgree(surplus - charged, exportLimit);
    TransfersAgree(deficit - discharged, importLimit);
  }

  lemma ChecksAgree(x: Interval, f: Flow)
    ensures CheckPasses(x, Lifted(f)) <==> EnergyIsConserved(x, f)
  {
  }

  /** What the battery moves for a power that is not NaN. */
  lemma BatteryAgrees(plant: Plant, x: Interval, soc: real, d: RawDecision)
    requires x.hours > 0.0 && !AsksForNaN(d)
    ensures
      var requested := RequestedEnergy(Effective(x, d), x.hours);
      && RawCharge(plant, x, soc, d) == D.Finite(ChargedBy(plant, x, soc, d.action, requested))
      && RawDischarge(x, soc, d) == D.Finite(DischargedBy(x, soc, d.action, requested))
  {
    var request, requested := RawRequest(d.requestedPowerKw, x.hours), RequestedEnergy(Effective(x, d), x.hours);
    RequestsAgree(x, d);
    if d.action == ChargeBattery {
      MovesAgree(request, requested, SurplusOf(x), plant.capacity - soc);
    } else if d.action == DischargeBattery {
      MovesAgree(request, requested, DeficitOf(x), soc);
    }
  }

  lemma LiftedSettlement(plant: Plant, x: Interval, soc: real, charged: real, discharged: real)
    ensures Lifted(Settle(plant, x, soc, charged, discharged))
         == SettledNumbers(SurplusOf(x), DeficitOf(x), plant.grid.Limit(Export, x.hours),
                           plant.grid.Limit(Import, x.hours), charged, discharged)
  {
  }

  /** Every power that is not NaN, the infinite ones included, does what some finite
      power does: results about all finite decisions cover it. */
  lemma OtherRequestsAgree(plant: Plant, x: Interval, soc: real, d: RawDecision)
    requires plant.Valid() && ValidInterval(x) && ValidBattery(plant.capacity, soc) && !AsksForNaN(d)
    ensures RawOutcome(plant, x, soc, d) == Lifted(ApplyDecision(plant, x, soc, Effective(x, d)))
  {
    var requested := RequestedEnergy(Effective(x, d), x.hours);
    BatteryAgrees(plant, x, soc, d);
    AnyDecisionIsFeasible(plant, x, soc, Effective(x, d));
    LimitIsNotNegative(plant.grid, Import, x.hours);
    LimitIsNotNegative(plant.grid, Export, x.hours);
    var charged, discharged := ChargedBy(plant, x, soc, d.action, requested), DischargedBy(x, soc, d.action, requested);
    SettlementsAgree(SurplusOf(x), DeficitOf(x), plant.grid.Limit(Export, x.hours), plant.grid.Limit(Import, x.hours),
                     charged, discharged);
    LiftedSettlement(plant, x, soc, charged, discharged);
  }

  lemma NaNReachesTheBattery(plant: Plant, x: Interval, soc: real, d: RawDecision)
    requires x.hours > 0.0 && AsksForNaN(d)
    ensures RawCharge(plant, x, soc, d) == D.NaN || RawDischarge(x, soc, d) == D.NaN
  {
  }

  lemma NaNFailsTheCheck(x: Interval, f: RawFlow)
    requires f.charged == D.NaN || f.discharged == D.NaN
    ensures !CheckPasses(x, f)
  {
  }

  /** The exact condition for the conservation check to pass: it fires on NaN powers
      that reach the battery and on nothing else. */
  lemma ConservationFailsExactlyOnNaN(plant: Plant, x: Interval, soc: real, d: RawDecision)
    requires plant.Valid() && ValidInterval(x) && ValidBattery(plant.capacity, soc)
    ensures CheckPasses(x, RawOutcome(plant, x, soc, d)) <==> !AsksForNaN(d)
  {
    if AsksForNaN(d) {
      NaNReachesTheBattery(plant, x, soc, d);
      NaNFailsTheCheck(x, RawOutcome(plant, x, soc, d));
    } else {
      OtherRequestsAgree(plant, x, soc, d);
      ChecksAgree(x, ApplyDecision(plant, x, soc, Effective(x, d)));
      ConservationCheckNeverFires(plant, x, soc, Effective(x, d));
    }
  }
}
