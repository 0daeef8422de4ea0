/** The balance of one interval, with imbalances up to the tolerance snapped to zero. */
module EnergyBalance {
  import opened Foundation
  import opened SimulationErrors

  const BALANCE_TOLERANCE_KWH: real := 0.000000001

  datatype BalanceStatus = Surplus | Deficit | Balanced

  datatype Balance = Balance(
    generatedEnergyKwh: real,
    consumedEnergyKwh: real,
    netEnergyKwh: real,
    status: BalanceStatus)
  {
    function SurplusEnergy(): real {
      Max(netEnergyKwh, 0.0)
    }

    function DeficitEnergy(): real {
      Max(-netEnergyKwh, 0.0)
    }
  }

  function Snap(net: real): real {
    if Abs(net) <= BALANCE_TOLERANCE_KWH then 0.0 else net
  }

  function Calculate(generated: real, consumed: real): (r: Result<Balance, SimulationError>)
    ensures r.Success? <==> generated >= 0.0 && consumed >= 0.0
    ensures r.Failure? ==> r.error == NegativeEnergy
    ensures r.Success? ==>
              var b, imbalance := r.value, generated - consumed;
              && b.generatedEnergyKwh == generated && b.consumedEnergyKwh == consumed
              && (b.status.Balanced? <==> -0.000000001 <= imbalance <= 0.000000001)
              && b.netEnergyKwh == (if b.status.Balanced? then 0.0 else imbalance)
              && (b.status.Surplus? <==> b.SurplusEnergy() > 0.0)
              && (b.status.Deficit? <==> b.DeficitEnergy() > 0.0)
              && b.SurplusEnergy() - b.DeficitEnergy() == b.netEnergyKwh
  {
    if generated < 0.0 || consumed < 0.0 then Failure(NegativeEnergy)
    else
      var net := generated - consumed;
      if Abs(net) <= BALANCE_TOLERANCE_KWH then Success(Balance(generated, consumed, 0.0, Balanced))
      else if net > 0.0 then Success(Balance(generated, consumed, net, Surplus))
      else Success(Balance(generated, consumed, net, Deficit))
  }
}
