/** The energy measurement and its two validators, the Python dataclass and the
    C++ class, which must accept exactly the same measurements. */
module Measurements {
  import opened Foundation
  import D = Doubles

  /** N is real in the plant model and Double at the native boundary. */
  datatype Measurement<+N> = Measurement(
    stepNumber: int,
    elapsedTimeHours: N,
    intervalHours: N,
    generatedEnergyKwh: N,
    consumedEnergyKwh: N,
    netEnergyKwh: N,
    batteryStateOfChargeKwh: N,
    gridImportEnergyKwh: N,
    gridExportEnergyKwh: N,
    unresolvedEnergyKwh: N)

  type EnergyMeasurement = Measurement<real>

  datatype Field =
    | ElapsedTime | IntervalLength | GeneratedEnergy | ConsumedEnergy | NetEnergy
    | StateOfCharge | GridImport | GridExport | UnresolvedEnergy

  datatype Rule =
    | StepNumberIsPositive
    | IsFinite(field: Field)
    | IsPositive(field: Field)
    | IsNotNegative(field: Field)
    | NotBothImportAndExport
    | NetEqualsGeneratedMinusConsumed

  const NET_ABSOLUTE_TOLERANCE_KWH: real := 0.000001
  const NET_RELATIVE_TOLERANCE: real := 0.000000001

  function PositiveFinite(value: D.Double, field: Field): Check<Rule> {
    if !value.Finite? then Fail(IsFinite(field))
    else if value.value <= 0.0 then Fail(IsPositive(field))
    else Pass
  }

  function NonNegativeFinite(value: D.Double, field: Field): Check<Rule> {
    if !value.Finite? then Fail(IsFinite(field))
    else if value.value < 0.0 then Fail(IsNotNegative(field))
    else Pass
  }

  predicate NetIsConsistent(round: D.Rounding, m: Measurement<D.Double>) {
    var expected := D.Sub(round, m.generatedEnergyKwh, m.consumedEnergyKwh);
    var tolerance :=
      D.Add(round,
            D.Finite(NET_ABSOLUTE_TOLERANCE_KWH),
            D.Scale(round, NET_RELATIVE_TOLERANCE, D.Larger(m.generatedEnergyKwh, m.consumedEnergyKwh)));
    !D.Less(tolerance, D.Abs(D.Sub(round, m.netEnergyKwh, expected)))
  }

  predicate BothImportAndExport(m: Measurement<D.Double>) {
    D.Less(D.ZERO, m.gridImportEnergyKwh) && D.Less(D.ZERO, m.gridExportEnergyKwh)
  }

  /** The Python dataclass: its checks in source order. */
  function PythonMeasurement(round: D.Rounding, m: Measurement<D.Double>): Result<Measurement<D.Double>, Rule> {
    if m.stepNumber <= 0 then Failure(StepNumberIsPositive) else
    :- PositiveFinite(m.elapsedTimeHours, ElapsedTime);
    :- PositiveFinite(m.intervalHours, IntervalLength);
    :- NonNegativeFinite(m.generatedEnergyKwh, GeneratedEnergy);
    :- NonNegativeFinite(m.consumedEnergyKwh, ConsumedEnergy);
    :- NonNegativeFinite(m.batteryStateOfChargeKwh, StateOfCharge);
    :- NonNegativeFinite(m.gridImportEnergyKwh, GridImport);
    :- NonNegativeFinite(m.gridExportEnergyKwh, GridExport);
    :- NonNegativeFinite(m.unresolvedEnergyKwh, UnresolvedEnergy);
    if !m.netEnergyKwh.Finite? then Failure(IsFinite(NetEnergy))
    else if BothImportAndExport(m) then Failure(NotBothImportAndExport)
    else if !NetIsConsistent(round, m) then Failure(NetEqualsGeneratedMinusConsumed)
    else Success(m)
  }

  /** The C++ constructor: its checks in source order, which differs from Python's. */
  function CppMeasurement(round: D.Rounding, m: Measurement<D.Double>): Result<Measurement<D.Double>, Rule> {
    if m.stepNumber == 0 then Failure(StepNumberIsPositive) else
    :- PositiveFinite(m.elapsedTimeHours, ElapsedTime);
    :- PositiveFinite(m.intervalHours, IntervalLength);
    :- NonNegativeFinite(m.generatedEnergyKwh, GeneratedEnergy);
    :- NonNegativeFinite(m.consumedEnergyKwh, ConsumedEnergy);
    if !m.netEnergyKwh.Finite? then Failure(IsFinite(NetEnergy)) else
    :- NonNegativeFinite(m.batteryStateOfChargeKwh, StateOfCharge);
    :- NonNegativeFinite(m.gridImportEnergyKwh, GridImport);
    :- NonNegativeFinite(m.gridExportEnergyKwh, GridExport);
    :- NonNegativeFinite(m.unresolvedEnergyKwh, UnresolvedEnergy);
    if BothImportAndExport(m) then Failure(NotBothImportAndExport)
    else if !NetIsConsistent(round, m) then Failure(NetEqualsGeneratedMinusConsumed)
    else Success(m)
  }

  function ValueOf(m: Measurement<D.Double>, field: Field): D.Double {
    match field
    case ElapsedTime => m.elapsedTimeHours
    case IntervalLength => m.intervalHours
    case GeneratedEnergy => m.generatedEnergyKwh
    case ConsumedEnergy => m.consumedEnergyKwh
    case NetEnergy => m.netEnergyKwh
    case StateOfCharge => m.batteryStateOfChargeKwh
    case GridImport => m.gridImportEnergyKwh
    case GridExport => m.gridExportEnergyKwh
    case UnresolvedEnergy => m.unresolvedEnergyKwh
  }

  /** What each rule demands, independently of any validator. */
  predicate Satisfies(round: D.Rounding, m: Measurement<D.Double>, rule: Rule) {
    match rule
    case StepNumberIsPositive => m.stepNumber > 0
    case IsFinite(field) => ValueOf(m, field).Finite?
    case IsPositive(field) =>
      field in {ElapsedTime, IntervalLength} ==> D.Less(D.ZERO, ValueOf(m, field))
    case IsNotNegative(field) =>
      field != NetEnergy ==> D.LessEq(D.ZERO, ValueOf(m, field))
    case NotBothImportAndExport => !BothImportAndExport(m)
    case NetEqualsGeneratedMinusConsumed => NetIsConsistent(round, m)
  }

  ghost predicate SatisfiesAll(round: D.Rounding, m: Measurement<D.Double>) {
    forall rule: Rule :: Satisfies(round, m, rule)
  }

  lemma AllFieldsSatisfy(round: D.Rounding, m: Measurement<D.Double>)
    requires SatisfiesAll(round, m)
    ensures m.stepNumber > 0 && !BothImportAndExport(m) && NetIsConsistent(round, m)
    ensures forall f: Field :: ValueOf(m, f).Finite?
    ensures ValueOf(m, ElapsedTime).value > 0.0 && ValueOf(m, IntervalLength).value > 0.0
    ensures forall f: Field :: f != NetEnergy ==> ValueOf(m, f).value >= 0.0
  {
    assert Satisfies(round, m, StepNumberIsPositive);
    assert Satisfies(round, m, NotBothImportAndExport);
    assert Satisfies(round, m, NetEqualsGeneratedMinusConsumed);
    forall f: Field
      ensures ValueOf(m, f).Finite?
      ensures f != NetEnergy ==> ValueOf(m, f).value >= 0.0
    {
      assert Satisfies(round, m, IsFinite(f));
      assert Satisfies(round, m, IsNotNegative(f));
    }
    assert Satisfies(round, m, IsPositive(ElapsedTime)) && Satisfies(round, m, IsPositive(IntervalLength));
    assert ValueOf(m, ElapsedTime).Finite? && ValueOf(m, IntervalLength).Finite?;
  }

  lemma PythonNamesAViolation(round: D.Rounding, m: Measurement<D.Double>)
    requires PythonMeasurement(round, m).Failure?
    ensures !Satisfies(round, m, PythonMeasurement(round, m).error)
  {
  }

  lemma PythonAcceptsOnlyTheRules(round: D.Rounding, m: Measurement<D.Double>, rule: Rule)
    requires PythonMeasurement(round, m).Success?
    ensures Satisfies(round, m, rule)
  {
  }

  lemma PythonAcceptsExactlyTheRules(round: D.Rounding, m: Measurement<D.Double>)
    ensures PythonMeasurement(round, m).Success? <==> SatisfiesAll(round, m)
    ensures PythonMeasurement(round, m).Success? ==> PythonMeasurement(round, m).value == m
    ensures PythonMeasurement(round, m).Failure? ==> !Satisfies(round, m, PythonMeasurement(round, m).error)
  {
    match PythonMeasurement(round, m)
    case Failure(_) =>
      PythonNamesAViolation(round, m);
    case Success(_) =>
      forall rule: Rule ensures Satisfies(round, m, rule) {
        PythonAcceptsOnlyTheRules(round, m, rule);
      }
  }

  lemma CppNamesAViolation(round: D.Rounding, m: Measurement<D.Double>)
    requires m.stepNumber >= 0
    requires CppMeasurement(round, m).Failure?
    ensures !Satisfies(round, m, CppMeasurement(round, m).error)
  {
  }

  lemma CppAcceptsOnlyTheRules(round: D.Rounding, m: Measurement<D.Double>, rule: Rule)
    requires m.stepNumber >= 0
    requires CppMeasurement(round, m).Success?
    ensures Satisfies(round, m, rule)
  {
  }

  lemma CppAcceptsExactlyTheRules(round: D.Rounding, m: Measurement<D.Double>)
    requires m.stepNumber >= 0
    ensures CppMeasurement(round, m).Success? <==> SatisfiesAll(round, m)
    ensures CppMeasurement(round, m).Success? ==> CppMeasurement(round, m).value == m
    ensures CppMeasurement(round, m).Failure? ==> !Satisfies(round, m, CppMeasurement(round, m).error)
  {
    match CppMeasurement(round, m)
    case Failure(_) =>
      CppNamesAViolation(round, m);
    case Success(_) =>
      forall rule: Rule ensures Satisfies(round, m, rule) {
        CppAcceptsOnlyTheRules(round, m, rule);
      }
  }

  // ----- which rule a rejection names -----

  function PythonRank(field: Field): nat {
    match field
    case ElapsedTime => 1
    case IntervalLength => 2
    case GeneratedEnergy => 3
    case ConsumedEnergy => 4
    case StateOfCharge => 5
    case GridImport => 6
    case GridExport => 7
    case UnresolvedEnergy => 8
    case NetEnergy => 9
  }

  /** C++ looks at the net energy before the state of charge. */
  function CppRank(field: Field): nat {
    match field
    case ElapsedTime => 1
    case IntervalLength => 2
    case GeneratedEnergy => 3
    case ConsumedEnergy => 4
    case NetEnergy => 5
    case StateOfCharge => 6
    case GridImport => 7
    case GridExport => 8
    case UnresolvedEnergy => 9
  }

  /** Rules in checking order: the step number, then field by field whether it is
      finite and whether its sign is right, then the rules that relate fields. */
  function Position(rank: Field -> nat, rule: Rule): nat {
    match rule
    case StepNumberIsPositive => 0
    case IsFinite(field) => 2 * rank(field)
    case IsPositive(field) => 2 * rank(field) + 1
    case IsNotNegative(field) => 2 * rank(field) + 1
    case NotBothImportAndExport => 20
    case NetEqualsGeneratedMinusConsumed => 21
  }

  /** A rejection names the first violated rule: all earlier ones hold. */
  lemma PythonNamesTheFirstViolation(round: D.Rounding, m: Measurement<D.Double>, rule: Rule)
    requires PythonMeasurement(round, m).Failure?
    requires Position(PythonRank, rule) < Position(PythonRank, PythonMeasurement(round, m).error)
    ensures Satisfies(round, m, rule)
  {
    match rule
    case IsFinite(field) =>
    case IsPositive(field) =>
    case IsNotNegative(field) =>
    case _ =>
  }

  lemma CppNamesTheFirstViolation(round: D.Rounding, m: Measurement<D.Double>, rule: Rule)
    requires m.stepNumber >= 0 && CppMeasurement(round, m).Failure?
    requires Position(CppRank, rule) < Position(CppRank, CppMeasurement(round, m).error)
    ensures Satisfies(round, m, rule)
  {
    match rule
    case IsFinite(field) =>
    case IsPositive(field) =>
    case IsNotNegative(field) =>
    case _ =>
  }

  /** Both validators accept the same measurements, whatever the rounding. The
      step number is unsigned in C++. */
  lemma ValidatorsAgree(round: D.Rounding, m: Measurement<D.Double>)
    requires m.stepNumber >= 0
    ensures PythonMeasurement(round, m).Success? <==> CppMeasurement(round, m).Success?
  {
    PythonAcceptsExactlyTheRules(round, m);
    CppAcceptsExactlyTheRules(round, m);
  }

  function Lift(m: EnergyMeasurement): Measurement<D.Double> {
    Measurement(
      m.stepNumber, D.Finite(m.elapsedTimeHours), D.Finite(m.intervalHours),
      D.Finite(m.generatedEnergyKwh), D.Finite(m.consumedEnergyKwh), D.Finite(m.netEnergyKwh),
      D.Finite(m.batteryStateOfChargeKwh), D.Finite(m.gridImportEnergyKwh),
      D.Finite(m.gridExportEnergyKwh), D.Finite(m.unresolvedEnergyKwh))
  }

  function NetTolerance(generated: real, consumed: real): real {
    NET_ABSOLUTE_TOLERANCE_KWH + NET_RELATIVE_TOLERANCE * Max(generated, consumed)
  }

  /** The measurements both validators accept when arithmetic is exact. */
  predicate Accepted(m: EnergyMeasurement) {
    && m.stepNumber > 0
    && m.elapsedTimeHours > 0.0
    && m.intervalHours > 0.0
    && m.generatedEnergyKwh >= 0.0
    && m.consumedEnergyKwh >= 0.0
    && m.batteryStateOfChargeKwh >= 0.0
    && m.gridImportEnergyKwh >= 0.0
    && m.gridExportEnergyKwh >= 0.0
    && m.unresolvedEnergyKwh >= 0.0
    && !(m.gridImportEnergyKwh > 0.0 && m.gridExportEnergyKwh > 0.0)
    && Abs(m.netEnergyKwh - (m.generatedEnergyKwh - m.consumedEnergyKwh))
       <= NetTolerance(m.generatedEnergyKwh, m.consumedEnergyKwh)
  }

  /** With exact arithmetic, acceptance in numbers. */
  lemma AcceptanceInNumbers(m: EnergyMeasurement)
    ensures Accepted(m) <==>
            && m.stepNumber > 0 && m.elapsedTimeHours > 0.0 && m.intervalHours > 0.0
            && m.generatedEnergyKwh >= 0.0 && m.consumedEnergyKwh >= 0.0 && m.batteryStateOfChargeKwh >= 0.0
            && m.gridImportEnergyKwh >= 0.0 && m.gridExportEnergyKwh >= 0.0 && m.unresolvedEnergyKwh >= 0.0
            && (m.gridImportEnergyKwh == 0.0 || m.gridExportEnergyKwh == 0.0)
            && -0.000001 - 0.000000001 * Max(m.generatedEnergyKwh, m.consumedEnergyKwh)
               <= m.netEnergyKwh - (m.generatedEnergyKwh - m.consumedEnergyKwh)
               <= 0.000001 + 0.000000001 * Max(m.generatedEnergyKwh, m.consumedEnergyKwh)
  {
  }

  lemma ExactAcceptance(m: EnergyMeasurement)
    ensures PythonMeasurement(D.EXACT, Lift(m)).Success? <==> Accepted(m)
    ensures m.stepNumber >= 0 ==> (CppMeasurement(D.EXACT, Lift(m)).Success? <==> Accepted(m))
  {
  }
}
