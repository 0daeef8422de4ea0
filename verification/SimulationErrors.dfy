/** Everything that can stop a simulation run: the exceptions of the Python package. */
module SimulationErrors {
  import opened Measurements

  datatype SimulationError =
    | InvalidBattery
    | NegativeBatteryRequest
    | InvalidSolarArray
    | InvalidBuilding
    | InvalidGrid
    | InvalidInterval
    | InvalidIrradiance
    | InvalidActivity
    | NegativeEnergy
    | NegativeGridRequest
    | EmptyTimeline
    | MeasurementRejected(rule: Rule)
    | DecisionUnavailable(reason: string)
    | UnknownAction(name: string)
    | EnergyNotConserved(stepNumber: int)
}
