/** The grid connection: transfers limited by power, interval and availability. */
module Grids {
  import opened Foundation
  import opened SimulationErrors

  datatype Direction = Import | Export

  datatype GridTransfer = GridTransfer(
    direction: Direction,
    requestedEnergyKwh: real,
    transferredEnergyKwh: real,
    remainingEnergyKwh: real)

  datatype GridConnection = GridConnection(
    maxImportPowerKw: real,
    maxExportPowerKw: real,
    isAvailable: bool)
  {
    predicate Valid() {
      maxImportPowerKw >= 0.0 && maxExportPowerKw >= 0.0
    }

    /** The most energy the connection can move in one interval. */
    function Limit(direction: Direction, intervalHours: real): real {
      if !isAvailable then 0.0
      else Energy(if direction == Import then maxImportPowerKw else maxExportPowerKw, intervalHours)
    }

    function Transfer(direction: Direction, requested: real, intervalHours: real)
      : (r: Result<GridTransfer, SimulationError>)
      ensures r.Success? <==> requested >= 0.0 && intervalHours > 0.0
      ensures r.Failure? ==> r.error == if requested < 0.0 then NegativeGridRequest else InvalidInterval
      ensures r.Success? && Valid() ==>
                var t := r.value;
                && t.direction == direction && t.requestedEnergyKwh == requested
                && t.transferredEnergyKwh >= 0.0 && t.remainingEnergyKwh >= 0.0
                && t.transferredEnergyKwh + t.remainingEnergyKwh == requested
                && t.transferredEnergyKwh <= Limit(direction, intervalHours)
                && (t.remainingEnergyKwh > 0.0 ==> t.transferredEnergyKwh == Limit(direction, intervalHours))
                && (!isAvailable ==> t.transferredEnergyKwh == 0.0)
                && (isAvailable && direction == Import && t.remainingEnergyKwh > 0.0 ==>
                      t.transferredEnergyKwh == maxImportPowerKw * intervalHours)
                && (isAvailable && direction == Export && t.remainingEnergyKwh > 0.0 ==>
                      t.transferredEnergyKwh == maxExportPowerKw * intervalHours)
    {
      if requested < 0.0 then Failure(NegativeGridRequest)
      else if intervalHours <= 0.0 then Failure(InvalidInterval)
      else
        var maxPower := if direction == Import then maxImportPowerKw else maxExportPowerKw;
        var transferred := if isAvailable then Min(requested, Energy(maxPower, intervalHours)) else 0.0;
        Success(GridTransfer(direction, requested, transferred, Max(requested - transferred, 0.0)))
    }
  }

  /** A connection is created from two powers that are not negative; zero closes a direction. */
  function CreateGrid(maxImportPowerKw: real, maxExportPowerKw: real, isAvailable: bool)
    : (r: Result<GridConnection, SimulationError>)
    ensures r.Success? <==> Min(maxImportPowerKw, maxExportPowerKw) >= 0.0
    ensures r.Success? <==> GridConnection(maxImportPowerKw, maxExportPowerKw, isAvailable).Valid()
    ensures r.Success? ==> r.value == GridConnection(maxImportPowerKw, maxExportPowerKw, isAvailable)
    ensures r.Failure? ==> r.error == InvalidGrid
  {
    if maxImportPowerKw < 0.0 then Failure(InvalidGrid)
    else if maxExportPowerKw < 0.0 then Failure(InvalidGrid)
    else Success(GridConnection(maxImportPowerKw, maxExportPowerKw, isAvailable))
  }

  lemma LimitIsNotNegative(grid: GridConnection, direction: Direction, intervalHours: real)
    requires grid.Valid() && intervalHours > 0.0
    ensures grid.Limit(direction, intervalHours) >= 0.0
  {
  }

  /** A connection asked for more than its power allows moves exactly that power's
      energy, in each direction its own; out of service it moves nothing. */
  lemma LimitsAreTheOwnPowers(grid: GridConnection, intervalHours: real)
    requires grid.Valid() && intervalHours > 0.0
    ensures grid.Limit(Import, intervalHours)
         == if grid.isAvailable then grid.maxImportPowerKw * intervalHours else 0.0
    ensures grid.Limit(Export, intervalHours)
         == if grid.isAvailable then grid.maxExportPowerKw * intervalHours else 0.0
    ensures
      forall direction, requested :: requested > grid.Limit(direction, intervalHours) ==>
        && grid.Transfer(direction, requested, intervalHours).Success?
        && grid.Transfer(direction, requested, intervalHours).value.transferredEnergyKwh
           == grid.Limit(direction, intervalHours)
  {
    LimitIsNotNegative(grid, Import, intervalHours);
    LimitIsNotNegative(grid, Export, intervalHours);
  }
}
