/** Lock-free decision statistics: the counters, the gateway that records into
    them, and every interleaving of calls and snapshots over their atomic steps. */
module Statistics {
  import opened Foundation

  const ACTION_COUNT: nat := 5

  datatype Counters = Counters(decidedByAction: seq<nat>, rejected: nat, failed: nat, lastDecisionTicks: int) {
    predicate Valid() {
      |decidedByAction| == ACTION_COUNT
    }
  }

  const NO_DECISIONS: Counters := Counters([0, 0, 0, 0, 0], 0, 0, 0)

  /** How a decision request ends: decided, an ArgumentException, any other failure. */
  datatype Outcome = Decided(action: nat, ticks: int) | Rejected | Failed

  predicate ValidOutcome(o: Outcome) {
    o.Decided? ==> o.action < ACTION_COUNT
  }

  /** The increment that records an outcome. */
  function Increment(c: Counters, o: Outcome): (r: Counters)
    requires c.Valid() && ValidOutcome(o)
    ensures r.Valid()
  {
    match o
    case Decided(action, _) => c.(decidedByAction := c.decidedByAction[action := c.decidedByAction[action] + 1])
    case Rejected => c.(rejected := c.rejected + 1)
    case Failed => c.(failed := c.failed + 1)
  }

  /** The exchange that follows the increment of a decision. */
  function Stamp(c: Counters, o: Outcome): Counters {
    if o.Decided? then c.(lastDecisionTicks := o.ticks) else c
  }

  function Sum(s: seq<nat>): nat {
    if s == [] then 0 else Sum(Init(s)) + Last(s)
  }

  datatype Snapshot = Snapshot(
    decided: nat,
    decidedByAction: seq<nat>,
    rejected: nat,
    failed: nat,
    lastDecisionTicks: Option<int>)

  function SnapshotOf(c: Counters): Snapshot {
    Snapshot(Sum(c.decidedByAction), c.decidedByAction, c.rejected, c.failed,
             if c.lastDecisionTicks == 0 then None else Some(c.lastDecisionTicks))
  }

  class ControlDecisionStatistics {
    const decidedByAction: array<nat>
    var rejected: nat
    var failed: nat
    var lastDecisionTicks: int

    constructor ()
      ensures Valid() && View() == NO_DECISIONS && fresh(decidedByAction)
    {
      decidedByAction := new nat[ACTION_COUNT](_ => 0);
      rejected := 0;
      failed := 0;
      lastDecisionTicks := 0;
      new;
      assert decidedByAction[..] == [0, 0, 0, 0, 0];
    }

    predicate Valid() {
      decidedByAction.Length == ACTION_COUNT
    }

    function View(): Counters
      reads this, decidedByAction
    {
      Counters(decidedByAction[..], rejected, failed, lastDecisionTicks)
    }

    method RecordDecided(action: nat, ticks: int)
      requires Valid() && action < ACTION_COUNT
      modifies this`lastDecisionTicks, decidedByAction
      ensures View() == Stamp(Increment(old(View()), Decided(action, ticks)), Decided(action, ticks))
      ensures View() == old(View()).(
                          decidedByAction := old(decidedByAction[..])[action := old(decidedByAction[action]) + 1],
                          lastDecisionTicks := ticks)
    {
      decidedByAction[action] := decidedByAction[action] + 1;
      lastDecisionTicks := ticks;
    }

    method RecordRejected()
      requires Valid()
      modifies this`rejected
      ensures View() == Increment(old(View()), Rejected) == old(View()).(rejected := old(rejected) + 1)
    {
      rejected := rejected + 1;
    }

    method RecordFailed()
      requires Valid()
      modifies this`failed
      ensures View() == Increment(old(View()), Failed) == old(View()).(failed := old(failed) + 1)
    {
      failed := failed + 1;
    }

    /** Undisturbed, the separate readings add up to the counters. */
    method GetSnapshot() returns (snapshot: Snapshot)
      requires Valid()
      ensures snapshot == SnapshotOf(View())
    {
      var byAction: seq<nat>, decided := [], 0;
      for action := 0 to decidedByAction.Length
        invariant byAction == decidedByAction[..action] && decided == Sum(byAction)
      {
        InitOfSnoc(byAction, decidedByAction[action]);
        byAction, decided := byAction + [decidedByAction[action]], decided + decidedByAction[action];
      }
      assert byAction == decidedByAction[..];
      var ticks := lastDecisionTicks;
      snapshot := Snapshot(decided, byAction, rejected, failed, if ticks == 0 then None else Some(ticks));
    }
  }

  datatype Failure = ArgumentException | OtherException

  datatype GatewayResult = Answered(action: nat) | Thrown(failure: Failure)

  /** What a metric listener or a logger does when it is told of an ending. */
  type Sink = Option<Failure>

  /** The listeners the gateway informs, by ending: metrics before the statistics
      are updated, the logger after. */
  datatype Sinks = Sinks(
    decidedMetric: Sink,
    decidedLog: Sink,
    rejectedMetric: Sink,
    rejectedLog: Sink,
    failedMetric: Sink,
    failedLog: Sink)
  {
    predicate Quiet() {
      && decidedMetric.None? && decidedLog.None?
      && rejectedMetric.None? && rejectedLog.None?
      && failedMetric.None? && failedLog.None?
    }
  }

  function AfterRecording(c: Counters, o: Outcome): (r: Counters)
    requires c.Valid() && ValidOutcome(o)
    ensures r.Valid()
  {
    Stamp(Increment(c, o), o)
  }

  function AfterAll(c: Counters, outcomes: seq<Outcome>): (r: Counters)
    requires c.Valid() && forall k :: 0 <= k < |outcomes| ==> ValidOutcome(outcomes[k])
    ensures r.Valid()
  {
    if outcomes == [] then c else AfterRecording(AfterAll(c, Init(outcomes)), Last(outcomes))
  }

  /** The endings that a failure adds to the statistics. */
  function FailureRecordings(failure: Failure, sinks: Sinks): seq<Outcome> {
    match failure
    case ArgumentException => if sinks.rejectedMetric.None? then [Rejected] else []
    case OtherException => if sinks.failedMetric.None? then [Failed] else []
  }

  /** The endings that one call adds to the statistics, in order. */
  function Recordings(result: GatewayResult, now: int, sinks: Sinks): seq<Outcome> {
    match result
    case Thrown(failure) => FailureRecordings(failure, sinks)
    case Answered(action) =>
      if sinks.decidedMetric.Some? then FailureRecordings(sinks.decidedMetric.value, sinks)
      else if sinks.decidedLog.Some? then
        [Decided(action, now)] + FailureRecordings(sinks.decidedLog.value, sinks)
      else [Decided(action, now)]
  }

  function LogOf(failure: Failure, sinks: Sinks): Sink {
    if failure == ArgumentException then sinks.rejectedLog else sinks.failedLog
  }

  function MetricOf(failure: Failure, sinks: Sinks): Sink {
    if failure == ArgumentException then sinks.rejectedMetric else sinks.failedMetric
  }

  /** What the caller sees of a failure: the first sink to throw replaces it. */
  function FailureSeen(failure: Failure, sinks: Sinks): Failure {
    if MetricOf(failure, sinks).Some? then MetricOf(failure, sinks).value
    else if LogOf(failure, sinks).Some? then LogOf(failure, sinks).value
    else failure
  }

  function ResultSeen(result: GatewayResult, sinks: Sinks): GatewayResult {
    match result
    case Thrown(failure) => Thrown(FailureSeen(failure, sinks))
    case Answered(_) =>
      if sinks.decidedMetric.Some? then Thrown(FailureSeen(sinks.decidedMetric.value, sinks))
      else if sinks.decidedLog.Some? then Thrown(FailureSeen(sinks.decidedLog.value, sinks))
      else result
  }

  function OutcomeOf(result: GatewayResult, now: int): Outcome {
    match result
    case Answered(action) => Decided(action, now)
    case Thrown(ArgumentException) => Rejected
    case Thrown(OtherException) => Failed
  }

  /** A call is counted once, and as what it was, if and only if the metric of its
      ending is quiet and, after a decision, either the logger is quiet too or the
      metric of the failure it raises is not. Otherwise it is lost, counted as a failure
      it was not, or counted twice. */
  lemma CountedOnceIff(result: GatewayResult, now: int, sinks: Sinks)
    ensures
      Recordings(result, now, sinks) == [OutcomeOf(result, now)] <==>
      match result
      case Thrown(failure) => MetricOf(failure, sinks).None?
      case Answered(_) =>
        && sinks.decidedMetric.None?
        && (sinks.decidedLog.None? || MetricOf(sinks.decidedLog.value, sinks).Some?)
    ensures |Recordings(result, now, sinks)| <= 2
    ensures |Recordings(result, now, sinks)| == 2 <==>
            && result.Answered? && sinks.decidedMetric.None? && sinks.decidedLog.Some?
            && MetricOf(sinks.decidedLog.value, sinks).None?
  {
    if result.Answered? && sinks.decidedMetric.Some? {
      var failure := sinks.decidedMetric.value;
      assert FailureRecordings(failure, sinks) in {[], [Rejected], [Failed]};
    }
  }

  lemma {:induction false} AfterAllConcatenated(c: Counters, first: seq<Outcome>, second: seq<Outcome>)
    requires c.Valid()
    requires forall k :: 0 <= k < |first| ==> ValidOutcome(first[k])
    requires forall k :: 0 <= k < |second| ==> ValidOutcome(second[k])
    ensures forall k :: 0 <= k < |first + second| ==> ValidOutcome((first + second)[k])
    ensures AfterAll(c, first + second) == AfterAll(AfterAll(c, first), second)
  {
    if second == [] {
      assert first + second == first;
    } else {
      assert Init(first + second) == first + Init(second) && Last(first + second) == Last(second);
      AfterAllConcatenated(c, first, Init(second));
    }
  }

  /** The two catch blocks. */
  method RecordFailure(statistics: ControlDecisionStatistics, failure: Failure, sinks: Sinks) returns (r: GatewayResult)
    requires statistics.Valid()
    modifies statistics`rejected, statistics`failed
    ensures statistics.View() == AfterAll(old(statistics.View()), FailureRecordings(failure, sinks))
    ensures r == Thrown(FailureSeen(failure, sinks))
  {
    ghost var before := statistics.View();
    r := Thrown(failure);
    match failure {
      case ArgumentException =>
        if sinks.rejectedMetric.Some? {
          return Thrown(sinks.rejectedMetric.value);
        }
        statistics.RecordRejected();
        assert statistics.View() == AfterAll(before, [Rejected]);
        if sinks.rejectedLog.Some? {
          r := Thrown(sinks.rejectedLog.value);
        }
      case OtherException =>
        if sinks.failedMetric.Some? {
          return Thrown(sinks.failedMetric.value);
        }
        statistics.RecordFailed();
        assert statistics.View() == AfterAll(before, [Failed]);
        if sinks.failedLog.Some? {
          r := Thrown(sinks.failedLog.value);
        }
    }
  }

  /** InstrumentedControllerGateway.Decide: a missing measurement is refused before
      anything is recorded; otherwise the ending is recorded and passed on. What a
      metric or the logger throws takes the place of what it interrupts. */
  method InstrumentedDecide<M>(
    statistics: ControlDecisionStatistics, inner: M -> GatewayResult, measurement: Option<M>, now: int, sinks: Sinks)
    returns (r: GatewayResult)
    requires statistics.Valid()
    requires forall m :: inner(m).Answered? ==> inner(m).action < ACTION_COUNT
    modifies statistics, statistics.decidedByAction
    ensures measurement.None? ==> r == Thrown(ArgumentException) && statistics.View() == old(statistics.View())
    ensures
      measurement.Some? ==>
        && statistics.View() == AfterAll(old(statistics.View()), Recordings(inner(measurement.value), now, sinks))
        && r == ResultSeen(inner(measurement.value), sinks)
        && (sinks.Quiet() ==>
              && r == inner(measurement.value)
              && statistics.View() == AfterRecording(old(statistics.View()), OutcomeOf(r, now)))
  {
    if measurement.None? {
      return Thrown(ArgumentException);
    }
    ghost var before := statistics.View();
    var result := inner(measurement.value);
    ghost var recordings := Recordings(result, now, sinks);
    match result {
      case Thrown(failure) =>
        r := RecordFailure(statistics, failure, sinks);
      case Answered(action) =>
        if sinks.decidedMetric.Some? {
          r := RecordFailure(statistics, sinks.decidedMetric.value, sinks);
        } else {
          statistics.RecordDecided(action, now);
          assert statistics.View() == AfterAll(before, [Decided(action, now)]);
          if sinks.decidedLog.Some? {
            var failure := sinks.decidedLog.value;
            r := RecordFailure(statistics, failure, sinks);
            AfterAllConcatenated(before, [Decided(action, now)], FailureRecordings(failure, sinks));
          } else {
            r := result;
          }
        }
    }
  }

  // ----- concurrent calls and snapshots -----

  /** Where a call is: inside the controller, returned but not recorded, past its
      increment, or finished. */
  datatype Call = Running | Returned(outcome: Outcome) | Recorded(outcome: Outcome) | Finished(outcome: Outcome)

  /** A snapshot under way: the values read so far, in reading order. */
  type Reads = seq<int>

  datatype State = State(counters: Counters, calls: seq<Call>, snapshots: seq<Reads>)

  const INITIAL: State := State(NO_DECISIONS, [], [])

  /** One atomic step by any thread. */
  datatype Event =
    | BeginCall
    | ReturnFrom(call: nat, outcome: Outcome)
    | Record(call: nat)
    | Finish(call: nat)
    | BeginSnapshot
    | ReadNext(snapshot: nat)

  // The shared locations in the order a snapshot reads them.
  const TICKS: nat := 5
  const REJECTED: nat := 6
  const FAILED: nat := 7
  const LOCATIONS: nat := 8

  function ValueAt(c: Counters, location: nat): int
    requires c.Valid() && location < LOCATIONS
  {
    if location < ACTION_COUNT then c.decidedByAction[location]
    else if location == TICKS then c.lastDecisionTicks
    else if location == REJECTED then c.rejected
    else c.failed
  }

  predicate OutcomesValid(calls: seq<Call>) {
    forall i :: 0 <= i < |calls| && !calls[i].Running? ==> ValidOutcome(calls[i].outcome)
  }

  /** Steps that are not enabled change nothing, so every sequence of events is an
      interleaving and every interleaving is one. */
  function Step(s: State, e: Event): (r: State)
    requires s.counters.Valid() && OutcomesValid(s.calls)
    ensures r.counters.Valid() && OutcomesValid(r.calls)
  {
    match e
    case BeginCall => s.(calls := s.calls + [Running])
    case ReturnFrom(i, outcome) =>
      if i < |s.calls| && s.calls[i].Running? && ValidOutcome(outcome)
      then s.(calls := s.calls[i := Returned(outcome)]) else s
    case Record(i) =>
      if i < |s.calls| && s.calls[i].Returned?
      then s.(calls := s.calls[i := Recorded(s.calls[i].outcome)],
              counters := Increment(s.counters, s.calls[i].outcome)) else s
    case Finish(i) =>
      if i < |s.calls| && s.calls[i].Recorded?
      then s.(calls := s.calls[i := Finished(s.calls[i].outcome)],
              counters := Stamp(s.counters, s.calls[i].outcome)) else s
    case BeginSnapshot => s.(snapshots := s.snapshots + [[]])
    case ReadNext(j) =>
      if j < |s.snapshots| && |s.snapshots[j]| < LOCATIONS
      then s.(snapshots := s.snapshots[j := s.snapshots[j] + [ValueAt(s.counters, |s.snapshots[j]|)]]) else s
  }

  function StateAfter(events: seq<Event>): (s: State)
    ensures s.counters.Valid() && OutcomesValid(s.calls)
  {
    if events == [] then INITIAL else Step(StateAfter(Init(events)), Last(events))
  }

  // ----- each finished call is counted in exactly one place -----

  function LocationOf(o: Outcome): nat {
    match o
    case Decided(action, _) => action
    case Rejected => REJECTED
    case Failed => FAILED
  }

  /** The call is past its increment, at this location. */
  predicate TalliedAt(c: Call, location: nat) {
    (c.Recorded? || c.Finished?) && LocationOf(c.outcome) == location
  }

  function Tally(calls: seq<Call>, location: nat): nat {
    if calls == [] then 0 else Tally(Init(calls), location) + (if TalliedAt(Last(calls), location) then 1 else 0)
  }

  lemma {:induction false} TallyUpdate(calls: seq<Call>, i: nat, c: Call, location: nat)
    requires i < |calls|
    ensures Tally(calls[i := c], location) + (if TalliedAt(calls[i], location) then 1 else 0)
         == Tally(calls, location) + (if TalliedAt(c, location) then 1 else 0)
  {
    if i < |calls| - 1 {
      assert Init(calls[i := c]) == Init(calls)[i := c];
      TallyUpdate(Init(calls), i, c, location);
    } else {
      assert Init(calls[i := c]) == Init(calls);
    }
  }

  /** The counter at the location is the number of calls tallied there. */
  predicate Tallied(s: State, location: nat)
    requires s.counters.Valid() && location < LOCATIONS
  {
    ValueAt(s.counters, location) == Tally(s.calls, location)
  }

  lemma BeginKeepsTallies(s: State, location: nat)
    requires s.counters.Valid() && OutcomesValid(s.calls) && location < LOCATIONS && Tallied(s, location)
    ensures Tallied(Step(s, BeginCall), location)
  {
    InitOfSnoc(s.calls, Running);
  }

  lemma ReturnKeepsTallies(s: State, i: nat, outcome: Outcome, location: nat)
    requires s.counters.Valid() && OutcomesValid(s.calls) && location < LOCATIONS && Tallied(s, location)
    ensures Tallied(Step(s, ReturnFrom(i, outcome)), location)
  {
    if i < |s.calls| {
      TallyUpdate(s.calls, i, Returned(outcome), location);
    }
  }

  lemma IncrementAddsOne(c: Counters, o: Outcome, location: nat)
    requires c.Valid() && ValidOutcome(o) && location < LOCATIONS && location != TICKS
    ensures ValueAt(Increment(c, o), location) == ValueAt(c, location) + (if LocationOf(o) == location then 1 else 0)
  {
  }

  lemma RecordKeepsTallies(s: State, i: nat, location: nat)
    requires s.counters.Valid() && OutcomesValid(s.calls) && location < LOCATIONS && Tallied(s, location)
    requires location != TICKS
    ensures Tallied(Step(s, Record(i)), location)
  {
    if i < |s.calls| && s.calls[i].Returned? {
      TallyUpdate(s.calls, i, Recorded(s.calls[i].outcome), location);
      IncrementAddsOne(s.counters, s.calls[i].outcome, location);
    }
  }

  lemma FinishKeepsTallies(s: State, i: nat, location: nat)
    requires s.counters.Valid() && OutcomesValid(s.calls) && location < LOCATIONS && Tallied(s, location)
    requires location != TICKS
    ensures Tallied(Step(s, Finish(i)), location)
  {
    if i < |s.calls| && s.calls[i].Recorded? {
      TallyUpdate(s.calls, i, Finished(s.calls[i].outcome), location);
    }
  }

  lemma StepKeepsTallies(s: State, e: Event, location: nat)
    requires s.counters.Valid() && OutcomesValid(s.calls) && location < LOCATIONS && location != TICKS
    requires Tallied(s, location)
    ensures Tallied(Step(s, e), location)
  {
    match e {
      case BeginCall => BeginKeepsTallies(s, location);
      case ReturnFrom(i, outcome) => ReturnKeepsTallies(s, i, outcome, location);
      case Record(i) => RecordKeepsTallies(s, i, location);
      case Finish(i) => FinishKeepsTallies(s, i, location);
      case _ =>
    }
  }

  /** In every reachable state each counter is the number of calls past their
      increment with that outcome: none is lost, none counted twice or elsewhere. */
  lemma {:induction false} CountersAreTallies(events: seq<Event>, location: nat)
    requires location < LOCATIONS && location != TICKS
    ensures ValueAt(StateAfter(events).counters, location) == Tally(StateAfter(events).calls, location)
  {
    if events == [] {
    } else {
      CountersAreTallies(Init(events), location);
      StepKeepsTallies(StateAfter(Init(events)), Last(events), location);
    }
  }

  function TotalOf(c: Counters): nat {
    Sum(c.decidedByAction) + c.rejected + c.failed
  }

  function PastIncrement(calls: seq<Call>): nat {
    if calls == [] then 0
    else PastIncrement(Init(calls)) + (if Last(calls).Recorded? || Last(calls).Finished? then 1 else 0)
  }

  lemma SumOfPrefix(s: seq<nat>, n: nat)
    requires n < |s|
    ensures Sum(s[..n + 1]) == Sum(s[..n]) + s[n]
  {
    assert Init(s[..n + 1]) == s[..n];
  }

  lemma SumOfFive(s: seq<nat>)
    requires |s| == 5
    ensures Sum(s) == s[0] + s[1] + s[2] + s[3] + s[4]
  {
    assert s == s[..5] && s[..0] == [];
    SumOfPrefix(s, 0);
    SumOfPrefix(s, 1);
    SumOfPrefix(s, 2);
    SumOfPrefix(s, 3);
    SumOfPrefix(s, 4);
  }

  lemma {:induction false} TalliesPartitionTheCalls(calls: seq<Call>)
    requires OutcomesValid(calls)
    ensures Tally(calls, 0) + Tally(calls, 1) + Tally(calls, 2) + Tally(calls, 3) + Tally(calls, 4)
          + Tally(calls, REJECTED) + Tally(calls, FAILED) == PastIncrement(calls)
  {
    if calls == [] {
    } else {
      TalliesPartitionTheCalls(Init(calls));
      assert Last(calls) == calls[|calls| - 1];
    }
  }

  lemma {:induction false} AllFinishedArePastIncrement(calls: seq<Call>)
    requires forall i :: 0 <= i < |calls| ==> calls[i].Finished?
    ensures PastIncrement(calls) == |calls|
  {
    if calls == [] {
    } else {
      AllFinishedArePastIncrement(Init(calls));
    }
  }

  /** In total the counters hold exactly the calls past their increment. */
  lemma EveryCallIsCountedOnce(events: seq<Event>)
    ensures TotalOf(StateAfter(events).counters) == PastIncrement(StateAfter(events).calls)
  {
    SumOfFive(StateAfter(events).counters.decidedByAction);
    CountersAreTallies(events, 0);
    CountersAreTallies(events, 1);
    CountersAreTallies(events, 2);
    CountersAreTallies(events, 3);
    CountersAreTallies(events, 4);
    CountersAreTallies(events, REJECTED);
    CountersAreTallies(events, FAILED);
    TalliesPartitionTheCalls(StateAfter(events).calls);
  }

  /** Once no call is under way the counters hold exactly all calls ever begun. */
  lemma QuiescentCountersHoldEveryCall(events: seq<Event>)
    requires forall i :: 0 <= i < |StateAfter(events).calls| ==> StateAfter(events).calls[i].Finished?
    ensures TotalOf(StateAfter(events).counters) == |StateAfter(events).calls|
  {
    EveryCallIsCountedOnce(events);
    AllFinishedArePastIncrement(StateAfter(events).calls);
  }

  /** The time of the latest decision to finish, or zero if none has. */
  function LatestDecisionTicks(events: seq<Event>): int {
    if events == [] then 0 else
    var earlier, calls := LatestDecisionTicks(Init(events)), StateAfter(Init(events)).calls;
    match Last(events)
    case Finish(i) =>
      if i < |calls| && calls[i].Recorded? && calls[i].outcome.Decided? then calls[i].outcome.ticks else earlier
    case _ => earlier
  }

  /** The time the counters hold is that of the decision that finished last. */
  lemma {:induction false} LastDecisionIsTheLatestFinished(events: seq<Event>)
    ensures StateAfter(events).counters.lastDecisionTicks == LatestDecisionTicks(events)
  {
    if events == [] {
    } else {
      LastDecisionIsTheLatestFinished(Init(events));
    }
  }

  // ----- snapshots -----

  lemma StepNeverDecreases(s: State, e: Event, location: nat)
    requires s.counters.Valid() && OutcomesValid(s.calls) && location < LOCATIONS && location != TICKS
    ensures ValueAt(s.counters, location) <= ValueAt(Step(s, e).counters, location)
  {
  }

  lemma {:induction false} CountersNeverDecrease(events: seq<Event>, earlier: nat, location: nat)
    requires earlier <= |events| && location < LOCATIONS && location != TICKS
    ensures ValueAt(StateAfter(events[..earlier]).counters, location) <= ValueAt(StateAfter(events).counters, location)
  {
    if earlier == |events| {
      assert events[..earlier] == events;
    } else {
      assert Init(events)[..earlier] == events[..earlier];
      CountersNeverDecrease(Init(events), earlier, location);
      StepNeverDecreases(StateAfter(Init(events)), Last(events), location);
    }
  }

  lemma {:induction false} SnapshotsPersist(events: seq<Event>, earlier: nat)
    requires earlier <= |events|
    ensures |StateAfter(events[..earlier]).snapshots| <= |StateAfter(events).snapshots|
    ensures forall j :: 0 <= j < |StateAfter(events[..earlier]).snapshots| ==>
              StateAfter(events[..earlier]).snapshots[j] <= StateAfter(events).snapshots[j]
  {
    if earlier == |events| {
      assert events[..earlier] == events;
    } else {
      assert Init(events)[..earlier] == events[..earlier];
      SnapshotsPersist(Init(events), earlier);
    }
  }

  lemma {:induction false} ReadsAreBounded(events: seq<Event>, j: nat)
    requires j < |StateAfter(events).snapshots|
    ensures |StateAfter(events).snapshots[j]| <= LOCATIONS
  {
    if events != [] && j < |StateAfter(Init(events)).snapshots| {
      ReadsAreBounded(Init(events), j);
    }
  }

  /** Whatever a snapshot has read lies between the counters when it began and the
      counters now. */
  lemma {:induction false} ReadsLieBetween(events: seq<Event>, begin: nat, j: nat, location: nat)
    requires begin <= |events| && location != TICKS
    requires j < |StateAfter(events[..begin]).snapshots| && StateAfter(events[..begin]).snapshots[j] == []
    requires j < |StateAfter(events).snapshots| && location < |StateAfter(events).snapshots[j]|
    ensures location < LOCATIONS
    ensures
      ValueAt(StateAfter(events[..begin]).counters, location)
      <= StateAfter(events).snapshots[j][location]
      <= ValueAt(StateAfter(events).counters, location)
  {
    ReadsAreBounded(events, j);
    assert events[..|events|] == events;
    if begin < |events| {
      assert Init(events)[..begin] == events[..begin];
      var before, e := StateAfter(Init(events)), Last(events);
      SnapshotsPersist(Init(events), begin);
      if location < |before.snapshots[j]| {
        ReadsLieBetween(Init(events), begin, j, location);
        StepNeverDecreases(before, e, location);
      } else {
        CountersNeverDecrease(Init(events), begin, location);
      }
    }
  }

  predicate Complete(events: seq<Event>, j: nat) {
    j < |StateAfter(events).snapshots| && |StateAfter(events).snapshots[j]| == LOCATIONS
  }

  /** The snapshot a completed sequence of readings is reported as. */
  function Reported(readings: Reads): Snapshot
    requires |readings| == LOCATIONS && forall l :: 0 <= l < LOCATIONS && l != TICKS ==> readings[l] >= 0
  {
    var byAction: seq<nat> := [readings[0], readings[1], readings[2], readings[3], readings[4]];
    Snapshot(Sum(byAction), byAction, readings[REJECTED], readings[FAILED],
             if readings[TICKS] == 0 then None else Some(readings[TICKS]))
  }

  predicate AtMost(a: Snapshot, b: Snapshot) {
    && a.decided <= b.decided && a.rejected <= b.rejected && a.failed <= b.failed
    && |a.decidedByAction| == |b.decidedByAction|
    && forall i :: 0 <= i < |a.decidedByAction| ==> a.decidedByAction[i] <= b.decidedByAction[i]
  }

  predicate CountsAtMost(a: Reads, b: Reads) {
    |a| == |b| == LOCATIONS && forall l :: 0 <= l < LOCATIONS && l != TICKS ==> 0 <= a[l] <= b[l]
  }

  lemma ReportsAreMonotone(a: Reads, b: Reads)
    requires CountsAtMost(a, b)
    ensures AtMost(Reported(a), Reported(b))
  {
    SumOfFive(Reported(a).decidedByAction);
    SumOfFive(Reported(b).decidedByAction);
  }

  function ValuesOf(c: Counters): Reads
    requires c.Valid()
  {
    seq(LOCATIONS, l requires 0 <= l < LOCATIONS => ValueAt(c, l))
  }

  lemma UndisturbedReport(c: Counters)
    requires c.Valid()
    ensures CountsAtMost(ValuesOf(c), ValuesOf(c)) && Reported(ValuesOf(c)) == SnapshotOf(c)
  {
    assert Reported(ValuesOf(c)).decidedByAction == c.decidedByAction;
  }

  /** A snapshot made of separate atomic readings, whatever runs in between, lies
      componentwise between the counters when it began and when it was complete. */
  lemma SnapshotLiesBetween(events: seq<Event>, begin: nat, end: nat, j: nat)
    requires begin <= end <= |events|
    requires j < |StateAfter(events[..begin]).snapshots| && StateAfter(events[..begin]).snapshots[j] == []
    requires Complete(events[..end], j)
    ensures CountsAtMost(ValuesOf(StateAfter(events[..begin]).counters), StateAfter(events[..end]).snapshots[j])
    ensures CountsAtMost(StateAfter(events[..end]).snapshots[j], ValuesOf(StateAfter(events[..end]).counters))
    ensures
      var reported := Reported(StateAfter(events[..end]).snapshots[j]);
      && AtMost(SnapshotOf(StateAfter(events[..begin]).counters), reported)
      && AtMost(reported, SnapshotOf(StateAfter(events[..end]).counters))
  {
    var readings := StateAfter(events[..end]).snapshots[j];
    var atBegin, atEnd := StateAfter(events[..begin]).counters, StateAfter(events[..end]).counters;
    assert events[..end][..begin] == events[..begin];
    forall l | 0 <= l < LOCATIONS && l != TICKS
      ensures 0 <= ValueAt(atBegin, l) <= readings[l] <= ValueAt(atEnd, l)
    {
      ReadsLieBetween(events[..end], begin, j, l);
    }
    ReportsAreMonotone(ValuesOf(atBegin), readings);
    ReportsAreMonotone(readings, ValuesOf(atEnd));
    UndisturbedReport(atBegin);
    UndisturbedReport(atEnd);
  }

  /** Snapshots that do not overlap are monotone: one that begins after another is
      complete reports at least as much. */
  lemma LaterSnapshotsReportNoLess(
    events: seq<Event>, first: nat, firstBegin: nat, firstEnd: nat, second: nat, secondBegin: nat)
    requires firstBegin <= firstEnd <= secondBegin <= |events|
    requires first < |StateAfter(events[..firstBegin]).snapshots|
    requires StateAfter(events[..firstBegin]).snapshots[first] == []
    requires second < |StateAfter(events[..secondBegin]).snapshots|
    requires StateAfter(events[..secondBegin]).snapshots[second] == []
    requires Complete(events[..firstEnd], first) && Complete(events, second)
    ensures CountsAtMost(StateAfter(events[..firstEnd]).snapshots[first], StateAfter(events).snapshots[second])
    ensures AtMost(Reported(StateAfter(events[..firstEnd]).snapshots[first]),
                   Reported(StateAfter(events).snapshots[second]))
  {
    assert events[..|events|] == events;
    assert events[..secondBegin][..firstEnd] == events[..firstEnd];
    SnapshotLiesBetween(events, firstBegin, firstEnd, first);
    SnapshotLiesBetween(events, secondBegin, |events|, second);
    forall l | 0 <= l < LOCATIONS && l != TICKS
      ensures ValueAt(StateAfter(events[..firstEnd]).counters, l)
           <= ValueAt(StateAfter(events[..secondBegin]).counters, l)
    {
      CountersNeverDecrease(events[..secondBegin], firstEnd, l);
    }
    ReportsAreMonotone(StateAfter(events[..firstEnd]).snapshots[first], StateAfter(events).snapshots[second]);
  }
}
