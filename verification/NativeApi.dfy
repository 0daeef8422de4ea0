/** The C ABI: status mapping, out-pointers and the per-thread last-error message. */
module NativeApi {
  import opened Foundation
  import opened Measurements
  import opened Control
  import opened NativeDecision
  import E = EnergyController
  import D = Doubles

  type ThreadId = nat

  datatype Status = Ok | InvalidArgument | InvalidLimits | InvalidMeasurement | InternalError

  // ----- messages: the violated rule, never a value -----

  /** The size of the managed reader's stack buffer, which every message fits. */
  const STACK_BUFFER_SIZE: nat := 256

  const INTERNAL_ERROR_MESSAGE: string := "The native controller failed unexpectedly."
  const UNKNOWN_ACTION_MESSAGE: string := "The controller produced an unknown action."
  const NULL_POINTERS_MESSAGE: string := "The handle, measurement and decision pointers must not be null."
  const NULL_HANDLE_MESSAGE: string := "The handle output pointer must not be null."
  const NULL_LIMITS_MESSAGE: string := "The limits pointer must not be null."

  function FieldName(field: Field): (name: string)
    ensures 5 < |name| <= 23
  {
    match field
    case ElapsedTime => "Elapsed time"
    case IntervalLength => "Measurement interval"
    case GeneratedEnergy => "Generated energy"
    case ConsumedEnergy => "Consumed energy"
    case NetEnergy => "Net energy"
    case StateOfCharge => "Battery state of charge"
    case GridImport => "Grid import energy"
    case GridExport => "Grid export energy"
    case UnresolvedEnergy => "Unresolved energy"
  }

  /** Who the message is about, and what is wrong with it. */
  function Subject(rule: Rule): (subject: string)
    ensures 5 < |subject| <= 23
  {
    match rule
    case StepNumberIsPositive => "Measurement step number"
    case IsFinite(field) => FieldName(field)
    case IsPositive(field) => FieldName(field)
    case IsNotNegative(field) => FieldName(field)
    case NotBothImportAndExport => "A measurement"
    case NetEqualsGeneratedMinusConsumed => "Net energy"
  }

  function Complaint(rule: Rule): (complaint: string)
    ensures 0 < |complaint| <= 57
  {
    match rule
    case StepNumberIsPositive => " must be greater than zero."
    case IsFinite(_) => " must be a finite number."
    case IsPositive(_) => " must be greater than zero."
    case IsNotNegative(_) => " cannot be negative."
    case NotBothImportAndExport => " cannot contain both grid import and grid export energy."
    case NetEqualsGeneratedMinusConsumed => " must equal generated energy minus consumed energy."
  }

  function RuleMessage(rule: Rule): (message: string)
    ensures 0 < |message| < STACK_BUFFER_SIZE
  {
    Subject(rule) + Complaint(rule)
  }

  function LimitsMessage(rule: LimitsRule): (message: string)
    ensures 0 < |message| < STACK_BUFFER_SIZE
  {
    match rule
    case ChargePowerRule => "Maximum charge power must be finite and greater than zero."
    case DischargePowerRule => "Maximum discharge power must be finite and greater than zero."
    case MinimumSocRule => "Minimum battery state of charge must be finite and non-negative."
    case MaximumSocRule => "Maximum battery state of charge must be finite."
    case WindowRule => "Maximum battery state of charge must be greater than the minimum."
  }

  function FieldLetters(field: Field): (char, char, nat) {
    match field
    case ElapsedTime => ('E', 'e', 12)
    case IntervalLength => ('M', 'r', 20)
    case GeneratedEnergy => ('G', 'a', 16)
    case ConsumedEnergy => ('C', 'm', 15)
    case NetEnergy => ('N', 'n', 10)
    case StateOfCharge => ('B', 'r', 23)
    case GridImport => ('G', 'i', 18)
    case GridExport => ('G', 'e', 18)
    case UnresolvedEnergy => ('U', 'o', 17)
  }

  /** Two letters of its subject, and the length of the whole. */
  function Fingerprint(rule: Rule): (char, char, nat) {
    match rule
    case StepNumberIsPositive => ('M', 'r', 50)
    case NotBothImportAndExport => ('A', 's', 69)
    case NetEqualsGeneratedMinusConsumed => ('N', 'n', 61)
    case IsFinite(field) => (FieldLetters(field).0, FieldLetters(field).1, FieldLetters(field).2 + 25)
    case IsPositive(field) => (FieldLetters(field).0, FieldLetters(field).1, FieldLetters(field).2 + 27)
    case IsNotNegative(field) => (FieldLetters(field).0, FieldLetters(field).1, FieldLetters(field).2 + 20)
  }

  lemma FingerprintsDiffer(a: Rule, b: Rule)
    requires Fingerprint(a) == Fingerprint(b)
    ensures a == b
  {
  }

  lemma FieldsHaveTheirLetters(field: Field)
    ensures
      var letters := FieldLetters(field);
      FieldName(field)[0] == letters.0 && FieldName(field)[5] == letters.1 && |FieldName(field)| == letters.2
  {
  }

  lemma RulesHaveTheirFingerprints(rule: Rule)
    ensures
      var f := Fingerprint(rule);
      Subject(rule)[0] == f.0 && Subject(rule)[5] == f.1 && |Subject(rule)| + |Complaint(rule)| == f.2
  {
    match rule
    case IsFinite(field) => FieldsHaveTheirLetters(field);
    case IsPositive(field) => FieldsHaveTheirLetters(field);
    case IsNotNegative(field) => FieldsHaveTheirLetters(field);
    case _ =>
  }

  /** No two rules share a message: what a caller reads identifies the rule broken. */
  lemma MessagesTellRulesApart(a: Rule, b: Rule)
    requires RuleMessage(a) == RuleMessage(b)
    ensures a == b
  {
    var s, t, u, v := Subject(a), Complaint(a), Subject(b), Complaint(b);
    assert (s + t)[0] == s[0] && (s + t)[5] == s[5] && |s + t| == |s| + |t|;
    assert (u + v)[0] == u[0] && (u + v)[5] == u[5] && |u + v| == |u| + |v|;
    RulesHaveTheirFingerprints(a);
    RulesHaveTheirFingerprints(b);
    FingerprintsDiffer(a, b);
  }

  function LimitsMessageLength(rule: LimitsRule): nat {
    match rule
    case ChargePowerRule => 58
    case DischargePowerRule => 61
    case MinimumSocRule => 64
    case MaximumSocRule => 47
    case WindowRule => 65
  }

  lemma LimitsMessagesHaveTheirLength(rule: LimitsRule)
    ensures |LimitsMessage(rule)| == LimitsMessageLength(rule)
  {
  }

  lemma LimitsMessagesTellRulesApart(a: LimitsRule, b: LimitsRule)
    requires LimitsMessage(a) == LimitsMessage(b)
    ensures a == b
  {
    LimitsMessagesHaveTheirLength(a);
    LimitsMessagesHaveTheirLength(b);
  }

  // ----- what each call computes -----

  datatype CallResult<+T> = CallResult(status: Status, message: string, output: Option<T>)

  function CreateFrom(limits: Option<NativeLimits>): CallResult<NativeLimits> {
    match limits
    case None => CallResult(InvalidArgument, NULL_LIMITS_MESSAGE, None)
    case Some(l) =>
      match CppLimits(l)
      case Failure(rule) => CallResult(InvalidLimits, LimitsMessage(rule), None)
      case Success(valid) => CallResult(Ok, "", Some(valid))
  }

  /** gridflex_controller_create: the output is the new handle's limits. */
  function CreateOutcome(limits: Option<NativeLimits>, hasHandleOutput: bool): CallResult<NativeLimits> {
    if !hasHandleOutput then CallResult(InvalidArgument, NULL_HANDLE_MESSAGE, None) else CreateFrom(limits)
  }

  /** The guard on the interval only makes the function total: an accepted measurement
      passes it. */
  function DecideOn(round: D.Rounding, limits: NativeLimits, m: NativeMeasurement): CallResult<NativeCommand> {
    if !m.intervalHours.Finite? || m.intervalHours.value <= 0.0 then
      CallResult(InternalError, INTERNAL_ERROR_MESSAGE, None)
    else
      match Decide(round, limits, m)
      case Failure(_) => CallResult(InternalError, INTERNAL_ERROR_MESSAGE, None)
      case Success(command) =>
        if command.action.Unrecognised? then CallResult(InternalError, UNKNOWN_ACTION_MESSAGE, None)
        else CallResult(Ok, "", Some(command))
  }

  /** gridflex_controller_decide: the handle holds the limits it was created with. */
  function DecideOutcome(
    round: D.Rounding, handle: Option<NativeLimits>, measurement: Option<NativeMeasurement>, hasDecisionOutput: bool)
    : CallResult<NativeCommand>
  {
    if handle.None? || measurement.None? || !hasDecisionOutput then
      CallResult(InvalidArgument, NULL_POINTERS_MESSAGE, None)
    else
      match CppMeasurement(round, measurement.value)
      case Failure(rule) => CallResult(InvalidMeasurement, RuleMessage(rule), None)
      case Success(m) => DecideOn(round, handle.value, m)
  }

  predicate UnsignedStep(m: Option<NativeMeasurement>) {
    m.Some? ==> m.value.stepNumber >= 0
  }

  predicate CreatedHandle(handle: Option<NativeLimits>) {
    handle.Some? ==> CppLimits(handle.value).Success?
  }

  /** Whatever create stores in its output, null included, decide may be given. */
  lemma CreateYieldsUsableHandles(limits: Option<NativeLimits>, hasHandleOutput: bool)
    ensures
      var r := CreateOutcome(limits, hasHandleOutput);
      && CreatedHandle(r.output)
      && (r.status == Ok <==> r.output.Some?) && (r.status == Ok <==> r.message == "")
      && (r.status == Ok <==> hasHandleOutput && limits.Some? && CppLimits(limits.value).Success?)
      && r.status != InternalError
  {
  }

  /** Each status of create if and only if its cause; a rejection of limits names the
      first rule they break, and the handle holds exactly the limits it was given. */
  lemma CreateReportsTheCause(limits: Option<NativeLimits>, hasHandleOutput: bool)
    ensures
      var r := CreateOutcome(limits, hasHandleOutput);
      var complete := hasHandleOutput && limits.Some?;
      && (r.status == InvalidArgument <==> !complete)
      && (r.status == InvalidLimits <==> complete && CppLimits(limits.value).Failure?)
      && (r.status == InvalidLimits ==>
            exists rule ::
              && r.message == LimitsMessage(rule) && !LimitsSatisfy(limits.value, rule)
              && forall earlier :: LimitsPosition(earlier) < LimitsPosition(rule) ==>
                   LimitsSatisfy(limits.value, earlier))
      && (r.status == Ok ==> complete && r.output == limits)
  {
    if hasHandleOutput && limits.Some? && CppLimits(limits.value).Failure? {
      var rule := CppLimits(limits.value).error;
      assert CreateOutcome(limits, true).message == LimitsMessage(rule);
    }
  }

  /** Native decide is total: with all pointers given, either the measurement breaks
      the rule its message names and no decision is produced, or it is accepted and
      a well-formed command for the same step is. INTERNAL_ERROR cannot occur. */
  lemma NativeDecideIsTotal(
    round: D.Rounding, handle: Option<NativeLimits>, measurement: Option<NativeMeasurement>, hasDecisionOutput: bool)
    requires D.RoundsToNumbers(round) && CreatedHandle(handle) && UnsignedStep(measurement)
    ensures
      var r := DecideOutcome(round, handle, measurement, hasDecisionOutput);
      var complete := handle.Some? && measurement.Some? && hasDecisionOutput;
      && (r.status == InvalidArgument <==> !complete)
      && (r.status == InvalidMeasurement <==> complete && !SatisfiesAll(round, measurement.value))
      && (r.status == Ok <==> complete && SatisfiesAll(round, measurement.value))
      && (r.status == InvalidMeasurement ==>
            exists rule ::
              && r.message == RuleMessage(rule) && !Satisfies(round, measurement.value, rule)
              && forall earlier :: Position(CppRank, earlier) < Position(CppRank, rule) ==>
                   Satisfies(round, measurement.value, earlier))
      && (r.output.Some? <==> r.status == Ok)
      && (r.status == Ok ==>
            && WellFormed(r.output.value)
            && r.output.value.sourceStepNumber == measurement.value.stepNumber
            && r.output.value.action in {Idle, ChargeBattery, DischargeBattery})
      && (r.message == "" <==> r.status == Ok)
  {
    if handle.Some? && measurement.Some? && hasDecisionOutput {
      var m := measurement.value;
      CppAcceptsExactlyTheRules(round, m);
      if CppMeasurement(round, m).Success? {
        DecideIsTotal(round, handle.value, m);
      } else {
        var rule := CppMeasurement(round, m).error;
        forall earlier | Position(CppRank, earlier) < Position(CppRank, rule)
          ensures Satisfies(round, m, earlier)
        {
          CppNamesTheFirstViolation(round, m, earlier);
        }
        assert DecideOutcome(round, handle, measurement, true).message == RuleMessage(rule);
      }
    }
  }

  /** The decision that crosses the boundary is the controller's: for every rounding it
      points the right way, within the limits the handle was created with. */
  lemma NativeDecisionsPointTheRightWay(
    round: D.Rounding, handle: Option<NativeLimits>, measurement: Option<NativeMeasurement>, hasDecisionOutput: bool)
    requires D.RoundsToNumbers(round) && CreatedHandle(handle) && UnsignedStep(measurement)
    requires DecideOutcome(round, handle, measurement, hasDecisionOutput).status == Ok
    ensures handle.Some? && measurement.Some?
    ensures measurement.value.intervalHours.Finite? && measurement.value.intervalHours.value > 0.0
    ensures
      var r := DecideOutcome(round, handle, measurement, hasDecisionOutput);
      r.output.Some? && PointsTheRightWay(round, handle.value, measurement.value, r.output.value)
  {
    NativeDecideIsTotal(round, handle, measurement, hasDecisionOutput);
    DecisionsPointTheRightWay(round, handle.value, measurement.value);
  }

  function LiftDecision(d: ControlDecision): NativeCommand {
    ControlCommand(d.sourceStepNumber, d.action, D.Finite(d.requestedPowerKw))
  }

  /** And with exact arithmetic it realises the wish of the decision rule. */
  lemma ExactNativeDecisionsRealiseTheWish(limits: Limits, m: EnergyMeasurement)
    requires ValidLimits(limits) && Accepted(m)
    ensures
      var r := DecideOutcome(D.EXACT, Some(LiftLimits(limits)), Some(Lift(m)), true);
      && r == CallResult(Ok, "", Some(LiftDecision(E.Decide(limits, m))))
      && E.Realises(limits, m, E.Decide(limits, m))
  {
    ExactAcceptance(m);
    ExactDecisionsAgree(limits, m);
    E.DecideClosedForm(limits, m);
  }

  // ----- the last-error state over any interleaving of threads -----

  type LastErrors = map<ThreadId, string>

  function MessageOn(errors: LastErrors, thread: ThreadId): string {
    if thread in errors then errors[thread] else ""
  }

  datatype NativeCall =
    | CreateCall(thread: ThreadId, limits: Option<NativeLimits>, hasHandleOutput: bool)
    | DecideCall(
        thread: ThreadId,
        handle: Option<NativeLimits>,
        measurement: Option<NativeMeasurement>,
        hasDecisionOutput: bool)

  function CallMessage(round: D.Rounding, c: NativeCall): string {
    match c
    case CreateCall(_, limits, out) => CreateOutcome(limits, out).message
    case DecideCall(_, handle, m, out) => DecideOutcome(round, handle, m, out).message
  }

  function AfterCalls(round: D.Rounding, errors: LastErrors, calls: seq<NativeCall>): LastErrors {
    if calls == [] then errors
    else AfterCalls(round, errors, Init(calls))[Last(calls).thread := CallMessage(round, Last(calls))]
  }

  predicate NoneBy(thread: ThreadId, calls: seq<NativeCall>) {
    forall k :: 0 <= k < |calls| ==> calls[k].thread != thread
  }

  lemma {:induction false} OtherThreadsDoNotInterfere(
    round: D.Rounding, errors: LastErrors, calls: seq<NativeCall>, thread: ThreadId)
    requires NoneBy(thread, calls)
    ensures MessageOn(AfterCalls(round, errors, calls), thread) == MessageOn(errors, thread)
  {
    if calls == [] {
    } else {
      OtherThreadsDoNotInterfere(round, errors, Init(calls), thread);
      assert Last(calls) == calls[|calls| - 1];
    }
  }

  lemma {:induction false} AfterConcatenation(
    round: D.Rounding, errors: LastErrors, a: seq<NativeCall>, b: seq<NativeCall>)
    ensures AfterCalls(round, errors, a + b) == AfterCalls(round, AfterCalls(round, errors, a), b)
  {
    if b == [] {
      assert a + b == a;
    } else {
      assert Init(a + b) == a + Init(b) && Last(a + b) == Last(b);
      AfterConcatenation(round, errors, a, Init(b));
    }
  }

  /** In every interleaving a thread's message is that of its own latest call. */
  lemma LastErrorIsTheLatestOwnCalls(
    round: D.Rounding, errors: LastErrors, earlier: seq<NativeCall>, own: NativeCall, later: seq<NativeCall>)
    requires NoneBy(own.thread, later)
    ensures MessageOn(AfterCalls(round, errors, earlier + [own] + later), own.thread) == CallMessage(round, own)
  {
    AfterConcatenation(round, errors, earlier + [own], later);
    InitOfSnoc(earlier, own);
    OtherThreadsDoNotInterfere(round, AfterCalls(round, errors, earlier + [own]), later, own.thread);
  }

  /** The bytes a bounded read leaves in its buffer: as much of the message as fits
      before a terminating NUL, and everything after that untouched. */
  predicate BoundedRead(before: seq<char>, after: seq<char>, size: nat, message: string) {
    && |after| == |before|
    && size <= |before|
    && (size == 0 ==> after == before)
    && (size > 0 ==>
          var copied := if |message| < size then |message| else size - 1;
          && after[..copied] == message[..copied]
          && after[copied] == '\0'
          && after[copied + 1..] == before[copied + 1..])
  }

  /** The message a call sets replaces the one it cleared. */
  lemma LastUpdateWins(errors: LastErrors, thread: ThreadId, first: string, second: string)
    ensures errors[thread := first][thread := second] == errors[thread := second]
  {
  }

  class HandleCell {
    var value: Option<NativeLimits>
    constructor ()
      ensures value == None
    {
      value := None;
    }
  }

  class DecisionCell {
    var value: NativeCommand
    constructor (initial: NativeCommand)
      ensures value == initial
    {
      value := initial;
    }
  }

  class Library {
    const round: D.Rounding
    var lastErrors: LastErrors

    constructor (round: D.Rounding)
      ensures this.round == round && lastErrors == map[]
    {
      this.round := round;
      lastErrors := map[];
    }

    function LastError(thread: ThreadId): string
      reads this
    {
      MessageOn(lastErrors, thread)
    }

    method Create(thread: ThreadId, limits: Option<NativeLimits>, handle: HandleCell?) returns (status: Status)
      modifies this`lastErrors, handle
      ensures
        var r := CreateOutcome(limits, handle != null);
        && status == r.status
        && lastErrors == old(lastErrors)[thread := r.message]
        && (handle != null ==> handle.value == r.output)
    {
      lastErrors := lastErrors[thread := ""];
      if handle == null {
        LastUpdateWins(old(lastErrors), thread, "", NULL_HANDLE_MESSAGE);
        lastErrors := lastErrors[thread := NULL_HANDLE_MESSAGE];
        return InvalidArgument;
      }
      var r := CreateFrom(limits);
      LastUpdateWins(old(lastErrors), thread, "", r.message);
      lastErrors := lastErrors[thread := r.message];
      handle.value := r.output;
      return r.status;
    }

    method Decide(
      thread: ThreadId, handle: Option<NativeLimits>, measurement: Option<NativeMeasurement>, decision: DecisionCell?)
      returns (status: Status)
      modifies this`lastErrors, decision
      ensures
        var r := DecideOutcome(round, handle, measurement, decision != null);
        && status == r.status
        && lastErrors == old(lastErrors)[thread := r.message]
        && (decision != null ==>
              decision.value == match r.output case Some(c) => c case None => old(decision.value))
    {
      lastErrors := lastErrors[thread := ""];
      if handle.None? || measurement.None? || decision == null {
        LastUpdateWins(old(lastErrors), thread, "", NULL_POINTERS_MESSAGE);
        lastErrors := lastErrors[thread := NULL_POINTERS_MESSAGE];
        return InvalidArgument;
      }
      match CppMeasurement(round, measurement.value) {
        case Failure(rule) =>
          LastUpdateWins(old(lastErrors), thread, "", RuleMessage(rule));
          lastErrors := lastErrors[thread := RuleMessage(rule)];
          return InvalidMeasurement;
        case Success(m) =>
          var r := DecideOn(round, handle.value, m);
          LastUpdateWins(old(lastErrors), thread, "", r.message);
          lastErrors := lastErrors[thread := r.message];
          match r.output {
            case Some(command) => decision.value := command;
            case None =>
          }
          return r.status;
      }
    }

    /** Other threads running between two native calls. */
    method Interleave(calls: seq<NativeCall>)
      modifies this`lastErrors
      ensures lastErrors == AfterCalls(round, old(lastErrors), calls)
    {
      for k := 0 to |calls|
        invariant lastErrors == AfterCalls(round, old(lastErrors), calls[..k])
      {
        assert Init(calls[..k + 1]) == calls[..k];
        match calls[k] {
          case CreateCall(thread, limits, hasHandleOutput) =>
            var cell := new HandleCell();
            var status := Create(thread, limits, if hasHandleOutput then cell else null);
          case DecideCall(thread, handle, measurement, hasDecisionOutput) =>
            var cell := new DecisionCell(ControlCommand(0, Idle, D.ZERO));
            var status := Decide(thread, handle, measurement, if hasDecisionOutput then cell else null);
        }
      }
      assert calls[..|calls|] == calls;
    }

    /** gridflex_controller_last_error_message. The buffer may be larger than the
        size the caller announces. */
    method LastErrorMessage(thread: ThreadId, buffer: array?<char>, size: nat) returns (length: nat)
      requires buffer != null ==> size <= buffer.Length
      modifies buffer
      ensures length == |LastError(thread)|
      ensures buffer != null ==> BoundedRead(old(buffer[..]), buffer[..], size, LastError(thread))
    {
      var message := LastError(thread);
      length := |message|;
      if buffer != null && size > 0 {
        var copied := if length < size - 1 then length else size - 1;
        for i := 0 to copied
          invariant forall k :: 0 <= k < i ==> buffer[k] == message[k]
          invariant forall k :: i <= k < buffer.Length ==> buffer[k] == old(buffer[k])
        {
          buffer[i] := message[i];
        }
        buffer[copied] := '\0';
      }
    }
  }

  // ----- the managed reader -----

  /** ReadLastErrorMessage: a stack buffer first, and a second, exact read when the
      message does not fit. Other threads may run between the two native calls; the
      result is the whole message whatever its length, and null after success. */
  method ReadLastErrorMessage(library: Library, thread: ThreadId, others: seq<NativeCall>)
    returns (message: Option<string>)
    requires NoneBy(thread, others)
    modifies library`lastErrors
    ensures library.LastError(thread) == old(library.LastError(thread))
    ensures message == if old(library.LastError(thread)) == "" then None else Some(old(library.LastError(thread)))
  {
    var stackBuffer := new char[STACK_BUFFER_SIZE];
    var length := library.LastErrorMessage(thread, stackBuffer, stackBuffer.Length);
    if length == 0 {
      return None;
    }
    if length < stackBuffer.Length {
      ghost var text := library.LastError(thread);
      assert stackBuffer[..length] == stackBuffer[..][..length] == text[..length] == text;
      return Some(stackBuffer[..length]);
    }
    library.Interleave(others);
    OtherThreadsDoNotInterfere(library.round, old(library.lastErrors), others, thread);
    var heapBuffer := new char[length + 1];
    length := library.LastErrorMessage(thread, heapBuffer, heapBuffer.Length);
    ghost var text := library.LastError(thread);
    assert heapBuffer[..length] == heapBuffer[..][..length] == text[..length] == text;
    var shown := if length < heapBuffer.Length - 1 then length else heapBuffer.Length - 1;
    return Some(heapBuffer[..shown]);
  }

  datatype GatewayError =
    | MeasurementRejected(reason: Option<string>)
    | DecisionFailed(status: Status, reason: Option<string>)

  /** NativeControllerGateway.Decide: the reason is read right after the failed
      call, with other threads free to run in between and during the read. */
  method GatewayDecide(
    library: Library, thread: ThreadId, handle: Option<NativeLimits>, measurement: NativeMeasurement,
    between: seq<NativeCall>, during: seq<NativeCall>)
    returns (r: Result<NativeCommand, GatewayError>)
    requires NoneBy(thread, between) && NoneBy(thread, during)
    modifies library`lastErrors
    ensures
      var call := DecideOutcome(library.round, handle, Some(measurement), true);
      match call.status
      case Ok => r.Success? && call.output == Some(r.value)
      case InvalidMeasurement => r == Failure(MeasurementRejected(Some(call.message)))
      case _ => r == Failure(DecisionFailed(call.status, Some(call.message)))
    ensures
      D.RoundsToNumbers(library.round) && CreatedHandle(handle) && measurement.stepNumber >= 0 && r.Success? ==>
        && handle.Some? && measurement.intervalHours.Finite? && measurement.intervalHours.value > 0.0
        && PointsTheRightWay(library.round, handle.value, measurement, r.value)
        && r.value.sourceStepNumber == measurement.stepNumber
    ensures
      library.round == D.EXACT ==>
        forall limits: Limits, m: EnergyMeasurement ::
          handle == Some(LiftLimits(limits)) && measurement == Lift(m) && ValidLimits(limits) && Accepted(m) ==>
            r == Success(LiftDecision(E.Decide(limits, m)))
  {
    forall limits: Limits, m: EnergyMeasurement | ValidLimits(limits) && Accepted(m)
      ensures
        DecideOutcome(D.EXACT, Some(LiftLimits(limits)), Some(Lift(m)), true)
        == CallResult(Ok, "", Some(LiftDecision(E.Decide(limits, m))))
    {
      ExactNativeDecisionsRealiseTheWish(limits, m);
    }
    var decision := new DecisionCell(ControlCommand(0, Idle, D.ZERO));
    var status := library.Decide(thread, handle, Some(measurement), decision);
    if status != Ok {
      ghost var afterDecide := library.lastErrors;
      library.Interleave(between);
      OtherThreadsDoNotInterfere(library.round, afterDecide, between, thread);
      var reason := ReadLastErrorMessage(library, thread, during);
      if status == InvalidMeasurement {
        return Failure(MeasurementRejected(reason));
      }
      return Failure(DecisionFailed(status, reason));
    }
    if D.RoundsToNumbers(library.round) && CreatedHandle(handle) && measurement.stepNumber >= 0 {
      NativeDecisionsPointTheRightWay(library.round, handle, Some(measurement), true);
      NativeDecideIsTotal(library.round, handle, Some(measurement), true);
    }
    return Success(decision.value);
  }
}
