/** The battery: the one mutable object of the plant. */
module Batteries {
  import opened Foundation
  import opened SimulationErrors

  predicate ValidBattery(capacity: real, stateOfCharge: real) {
    capacity > 0.0 && 0.0 <= stateOfCharge <= capacity
  }

  /** Energy accepted by a charge request, or the rejection of a negative one. */
  function AcceptedEnergy(capacity: real, stateOfCharge: real, requested: real): Result<real, SimulationError> {
    if requested < 0.0 then Failure(NegativeBatteryRequest)
    else Success(Min(requested, capacity - stateOfCharge))
  }

  /** Energy delivered by a discharge request, or the rejection of a negative one. */
  function DeliveredEnergy(stateOfCharge: real, requested: real): Result<real, SimulationError> {
    if requested < 0.0 then Failure(NegativeBatteryRequest)
    else Success(Min(requested, stateOfCharge))
  }

  class Battery {
    const capacityKwh: real
    var stateOfChargeKwh: real

    predicate Valid()
      reads this
    {
      ValidBattery(capacityKwh, stateOfChargeKwh)
    }

    constructor (capacity: real, stateOfCharge: real)
      requires ValidBattery(capacity, stateOfCharge)
      ensures Valid() && capacityKwh == capacity && stateOfChargeKwh == stateOfCharge
    {
      capacityKwh := capacity;
      stateOfChargeKwh := stateOfCharge;
    }

    static method Create(capacity: real, stateOfCharge: real) returns (r: Result<Battery, SimulationError>)
      ensures r.Success? <==> ValidBattery(capacity, stateOfCharge)
      ensures r.Failure? ==> r.error == InvalidBattery
      ensures r.Success? ==>
                && fresh(r.value) && r.value.Valid()
                && r.value.capacityKwh == capacity && r.value.stateOfChargeKwh == stateOfCharge
    {
      if capacity <= 0.0 || stateOfCharge < 0.0 || stateOfCharge > capacity {
        return Failure(InvalidBattery);
      }
      var battery := new Battery(capacity, stateOfCharge);
      return Success(battery);
    }

    method Charge(requested: real) returns (r: Result<real, SimulationError>)
      requires Valid()
      modifies this`stateOfChargeKwh
      ensures Valid()
      ensures r == AcceptedEnergy(capacityKwh, old(stateOfChargeKwh), requested)
      ensures r.Failure? ==> requested < 0.0 && stateOfChargeKwh == old(stateOfChargeKwh)
      ensures r.Success? ==>
                && stateOfChargeKwh == Min(old(stateOfChargeKwh) + requested, capacityKwh)
                && r.value == stateOfChargeKwh - old(stateOfChargeKwh)
    {
      if requested < 0.0 {
        return Failure(NegativeBatteryRequest);
      }
      var accepted := Min(requested, capacityKwh - stateOfChargeKwh);
      stateOfChargeKwh := stateOfChargeKwh + accepted;
      return Success(accepted);
    }

    method Discharge(requested: real) returns (r: Result<real, SimulationError>)
      requires Valid()
      modifies this`stateOfChargeKwh
      ensures Valid()
      ensures r == DeliveredEnergy(old(stateOfChargeKwh), requested)
      ensures r.Failure? ==> requested < 0.0 && stateOfChargeKwh == old(stateOfChargeKwh)
      ensures r.Success? ==>
                && stateOfChargeKwh == Max(old(stateOfChargeKwh) - requested, 0.0)
                && r.value == old(stateOfChargeKwh) - stateOfChargeKwh
    {
      if requested < 0.0 {
        return Failure(NegativeBatteryRequest);
      }
      var delivered := Min(requested, stateOfChargeKwh);
      stateOfChargeKwh := stateOfChargeKwh - delivered;
      return Success(delivered);
    }
  }
}
