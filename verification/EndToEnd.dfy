/** The results about closed forms, restated for what the two scenario runners
    actually return. */
module EndToEnd {
  import opened Foundation
  import opened Measurements
  import opened Control
  import opened EnergyController
  import opened Plants
  import opened Scenarios
  import opened Loop
  import opened Dominance
  import opened ImportAlone
  import opened RunSafety
  import opened Dashboard
  import opened Tracking
  import opened TimeRefinement
  import Reference

  /** For any provider whose run completes, the reference run of the same scenario
      completes too, and at every step has left no more deficit and no more surplus
      to the grid. */
  lemma ReferenceDominatesEveryLoop(s: SimulationScenario, provider: DecisionProvider)
    requires s.steps != [] && RunOutcome(s, provider).Success?
    ensures Reference.ScenarioOutcome(s).Success?
    ensures DominatesThroughout(Reference.ReferenceFlows(Reference.ScenarioOutcome(s).value),
                                FlowsOf(RunOutcome(s, provider).value))
  {
    NoValidScenarioAborts(s, provider);
    Reference.ReferenceRunsExactlyValidScenarios(s);
    ValidStepsGiveValidIntervals(s.solar, s.building, s.steps);
    BatteryFirstIsOptimal(s.Plant(), s.Intervals(), Answers(provider), s.InitialSoc());
  }

  /** A comparison fails only where the controller's run does, and then with its
      error; a complete one shows the reference leaving no more to the grid. */
  lemma ComparisonsFavourTheReference(s: SimulationScenario, provider: DecisionProvider)
    requires s.steps != []
    ensures
      match (RunOutcome(s, provider), ComparisonOutcome(s, provider))
      case (Failure(error), r) => r == Failure(error)
      case (Success(steps), r) =>
        && r.Success? && r.value.controller == steps
        && DominatesThroughout(Reference.ReferenceFlows(r.value.reference), FlowsOf(steps))
  {
    if RunOutcome(s, provider).Success? {
      ReferenceDominatesEveryLoop(s, provider);
    }
  }

  /** And where the import cap cannot bind, the reference has imported no more, at any
      step, and neither run leaves demand unserved. */
  lemma ReferenceImportsNoMoreWhileUncapped(s: SimulationScenario, provider: DecisionProvider)
    requires s.steps != [] && RunOutcome(s, provider).Success? && CapNeverBinds(s.grid, s.Intervals())
    ensures Reference.ScenarioOutcome(s).Success?
    ensures
      var reference := Reference.ReferenceFlows(Reference.ScenarioOutcome(s).value);
      var loop := FlowsOf(RunOutcome(s, provider).value);
      && ImportsNoMoreThroughout(reference, loop)
      && TotalsOf(reference).unserved == 0.0 && TotalsOf(loop).unserved == 0.0
  {
    NoValidScenarioAborts(s, provider);
    Reference.ReferenceRunsExactlyValidScenarios(s);
    ValidStepsGiveValidIntervals(s.solar, s.building, s.steps);
    ImportIsDominatedWhileUncapped(s.Plant(), s.Intervals(), Answers(provider), s.InitialSoc());
  }

  function ControllerProvider(limits: Limits): DecisionProvider {
    (m: EnergyMeasurement) => Success(ControllerPolicy(limits)(m))
  }

  lemma {:induction false} SameAnswersSameRun(
    plant: Plant, xs: seq<Interval>, policy: Policy, other: Policy, initialSoc: real)
    requires forall m: EnergyMeasurement :: policy(m) == other(m)
    ensures LoopRun(plant, xs, policy, initialSoc) == LoopRun(plant, xs, other, initialSoc)
  {
    if xs == [] {
    } else {
      SameAnswersSameRun(plant, Init(xs), policy, other, initialSoc);
    }
  }

  lemma ControllerActionsAreKnown(limits: Limits, m: EnergyMeasurement)
    ensures KnownAction(ControllerPolicy(limits)(m))
  {
    if m.intervalHours > 0.0 {
      DecideClosedForm(limits, m);
    }
  }

  lemma {:induction false} ControllerAnswersUsably(plant: Plant, limits: Limits, xs: seq<Interval>, initialSoc: real)
    ensures AnswersUsably(plant, xs, ControllerProvider(limits), initialSoc)
  {
    if xs == [] {
    } else {
      ControllerAnswersUsably(plant, limits, Init(xs), initialSoc);
      var provider := ControllerProvider(limits);
      var soc := SocAfter(LoopFlows(plant, Init(xs), Answers(provider), initialSoc), initialSoc);
      ControllerActionsAreKnown(limits, Question(xs, soc));
      assert provider(Question(xs, soc)).Success? && KnownAction(provider(Question(xs, soc)).value);
    }
  }

  /** With EnergyController in the loop every valid scenario completes, and its
      flows are the limited strategy's. */
  lemma ControllerRunsEveryValidScenario(s: SimulationScenario, limits: Limits)
    requires s.Valid() && ValidLimits(limits)
    ensures
      var r := RunOutcome(s, ControllerProvider(limits));
      && r.Success?
      && r.value == LoopRun(s.Plant(), s.Intervals(), ControllerPolicy(limits), s.InitialSoc())
      && FlowsOf(r.value) == StrategyRun(s.Plant(), Limited(limits), s.Intervals(), s.InitialSoc())
  {
    NoValidScenarioAborts(s, ControllerProvider(limits));
    ControllerAnswersUsably(s.Plant(), limits, s.Intervals(), s.InitialSoc());
    SameAnswersSameRun(s.Plant(), s.Intervals(), Answers(ControllerProvider(limits)), ControllerPolicy(limits),
                       s.InitialSoc());
    ValidStepsGiveValidIntervals(s.solar, s.building, s.steps);
    ControllerLoopClosedForm(s.Plant(), limits, s.Intervals(), s.InitialSoc());
  }

  /** Relaxed limits, end to end. */
  lemma RelaxingLimitsNeverHurts(s: SimulationScenario, wide: Limits, tight: Limits)
    requires s.Valid() && ValidLimits(wide) && ValidLimits(tight) && Relaxes(wide, tight)
    ensures RunOutcome(s, ControllerProvider(wide)).Success? && RunOutcome(s, ControllerProvider(tight)).Success?
    ensures DominatesThroughout(FlowsOf(RunOutcome(s, ControllerProvider(wide)).value),
                                FlowsOf(RunOutcome(s, ControllerProvider(tight)).value))
  {
    ControllerRunsEveryValidScenario(s, wide);
    ControllerRunsEveryValidScenario(s, tight);
    ValidStepsGiveValidIntervals(s.solar, s.building, s.steps);
    RelaxedLimitsDominate(s.Plant(), wide, tight, s.Intervals(), s.InitialSoc());
  }

  /** With unrestricting limits the two runners return the same flows. */
  lemma UnrestrictedControllerIsTheReference(s: SimulationScenario, limits: Limits)
    requires s.Valid() && ValidLimits(limits) && Unrestricting(limits, s.battery.capacityKwh, s.Intervals())
    ensures RunOutcome(s, ControllerProvider(limits)).Success? && Reference.ScenarioOutcome(s).Success?
    ensures FlowsOf(RunOutcome(s, ControllerProvider(limits)).value)
         == Reference.ReferenceFlows(Reference.ScenarioOutcome(s).value)
  {
    ControllerRunsEveryValidScenario(s, limits);
    Reference.ReferenceRunsExactlyValidScenarios(s);
    ValidStepsGiveValidIntervals(s.solar, s.building, s.steps);
    ReferenceIsAnUnrestrictedController(s.Plant(), limits, s.Intervals(), s.InitialSoc());
  }

  /** A completed, fully explained run of any provider, against the run the
      controller would have made: at every point within tolerance. */
  lemma ExplainedScenariosTrackTheController(s: SimulationScenario, provider: DecisionProvider, limits: Limits)
    requires s.Valid() && ValidLimits(limits) && RunOutcome(s, provider).Success?
    requires Explained(RunOutcome(s, provider).value, limits)
    ensures RunOutcome(s, ControllerProvider(limits)).Success?
    ensures TracksThroughout(s.Intervals(), FlowsOf(RunOutcome(s, provider).value),
                             FlowsOf(RunOutcome(s, ControllerProvider(limits)).value), s.InitialSoc())
  {
    NoValidScenarioAborts(s, provider);
    ControllerRunsEveryValidScenario(s, limits);
    ValidStepsGiveValidIntervals(s.solar, s.building, s.steps);
    ExplainedRunsTrackTheController(s.Plant(), limits, s.Intervals(), Answers(provider), s.InitialSoc());
  }

  /** Every step of a controller run is explained under its own limits, by the code
      that comparing energies predicts, and truly so when the window ends within the
      battery. */
  lemma ControllerScenariosAreExplained(s: SimulationScenario, limits: Limits, k: nat)
    requires s.Valid() && ValidLimits(limits) && k < |s.steps|
    ensures RunOutcome(s, ControllerProvider(limits)).Success?
    ensures |RunOutcome(s, ControllerProvider(limits)).value| == |s.steps|
    ensures WellExplained(s.Plant(), limits, RunOutcome(s, ControllerProvider(limits)).value[k])
  {
    ControllerRunsEveryValidScenario(s, limits);
    ValidStepsGiveValidIntervals(s.solar, s.building, s.steps);
    ControllerRunIsExplained(s.Plant(), limits, s.Intervals(), s.InitialSoc(), k);
  }

  predicate PositiveCounts(ns: seq<nat>) {
    forall k :: 0 <= k < |ns| ==> ns[k] > 0
  }

  lemma {:induction false} CopiesHold<T>(p: T, k: nat)
    ensures forall i :: 0 <= i < k ==> Copies(p, k)[i] == p
  {
    if k == 0 {
    } else {
      CopiesHold(p, k - 1);
    }
  }

  lemma {:induction false} RefinedStepsAreValid(steps: seq<SimulationStep>, ns: seq<nat>)
    requires |steps| == |ns| && PositiveCounts(ns) && ValidSteps(steps)
    ensures ValidSteps(RefineSteps(steps, ns))
    ensures steps != [] ==> RefineSteps(steps, ns) != []
  {
    if steps == [] {
    } else {
      RefinedStepsAreValid(Init(steps), Init(ns));
      CopiesHold(Last(steps).(intervalHours := Last(steps).intervalHours / Last(ns) as real), Last(ns));
    }
  }

  /** Refining the steps of a valid scenario, clear of the balance threshold, keeps
      the state of charge of both runners at the end of every original step and
      never lowers what either leaves unresolved by then. */
  lemma RefinedScenariosAgree(s: SimulationScenario, ns: seq<nat>, limits: Limits)
    requires s.Valid() && ValidLimits(limits) && |ns| == |s.steps| && PositiveCounts(ns)
    requires forall k :: 0 <= k < |ns| ==> !NewlySnapped(s.Intervals()[k], ns[k])
    ensures
      var fine := s.(steps := RefineSteps(s.steps, ns));
      var loop, fineLoop := RunOutcome(s, ControllerProvider(limits)), RunOutcome(fine, ControllerProvider(limits));
      var reference, fineReference := Reference.ScenarioOutcome(s), Reference.ScenarioOutcome(fine);
      && loop.Success? && fineLoop.Success? && reference.Success? && fineReference.Success?
      && RefinesThroughout(FlowsOf(fineLoop.value), FlowsOf(loop.value), ns, s.InitialSoc())
      && RefinesThroughout(Reference.ReferenceFlows(fineReference.value), Reference.ReferenceFlows(reference.value),
                           ns, s.InitialSoc())
  {
    var fine := s.(steps := RefineSteps(s.steps, ns));
    RefinedStepsAreValid(s.steps, ns);
    RefinedStepsSplitIntervals(s.solar, s.building, s.steps, ns);
    ControllerRunsEveryValidScenario(s, limits);
    ControllerRunsEveryValidScenario(fine, limits);
    Reference.ReferenceRunsExactlyValidScenarios(s);
    Reference.ReferenceRunsExactlyValidScenarios(fine);
    ValidStepsGiveValidIntervals(s.solar, s.building, s.steps);
    RefinedRunAgreesThroughout(s.Plant(), Limited(limits), s.Intervals(), ns, s.InitialSoc());
    RefinedRunAgreesThroughout(s.Plant(), BatteryFirst, s.Intervals(), ns, s.InitialSoc());
  }

  /** Conservation, end to end: every completed run conserves energy. */
  lemma CompletedRunsConserveEnergy(s: SimulationScenario, provider: DecisionProvider)
    requires RunOutcome(s, provider).Success?
    ensures ConservesEnergy(s.Intervals(), FlowsOf(RunOutcome(s, provider).value), s.InitialSoc())
  {
    NoValidScenarioAborts(s, provider);
    ValidStepsGiveValidIntervals(s.solar, s.building, s.steps);
    EnergyIsConservedOverRuns(s.Plant(), s.Intervals(), Answers(provider), s.InitialSoc());
  }

  lemma IntervalsAt(s: SimulationScenario, k: nat)
    requires k < |s.steps|
    ensures s.Intervals()[k] == IntervalOf(s.solar, s.building, s.steps[k])
    ensures Hours(s.Intervals()[..k]) == ElapsedHours(s.steps[..k])
  {
    var upTo := s.steps[..k + 1];
    assert Init(upTo) == s.steps[..k] && Last(upTo) == s.steps[k];
    IntervalsOfPrefix(s.solar, s.building, s.steps, k + 1);
    IntervalsOfPrefix(s.solar, s.building, s.steps, k);
    assert s.Intervals()[k] == s.Intervals()[..k + 1][k];
    HoursAgree(s.solar, s.building, s.steps[..k]);
  }

  /** Over any completed run the steps are numbered from one, start where the
      earlier ones ended, and report their own conditions' energies. */
  lemma CompletedRunsAreChronological(s: SimulationScenario, provider: DecisionProvider, k: nat)
    requires RunOutcome(s, provider).Success? && k < |s.steps|
    ensures |RunOutcome(s, provider).value| == |s.steps|
    ensures
      var step := RunOutcome(s, provider).value[k];
      && step.stepNumber == k + 1
      && step.startTimeHours == ElapsedHours(s.steps[..k])
      && step.interval == IntervalOf(s.solar, s.building, s.steps[k])
      && step.netEnergyKwh == Net(step.interval)
      && step.flow.socBefore == SocLeftBy(RunOutcome(s, provider).value[..k], s.InitialSoc())
  {
    NoValidScenarioAborts(s, provider);
    LoopRunAt(s.Plant(), s.Intervals(), Answers(provider), s.InitialSoc(), k);
    IntervalsAt(s, k);
    assert Init(s.Intervals()[..k + 1]) == s.Intervals()[..k];
  }

  lemma {:induction false} UsableAt(
    plant: Plant, xs: seq<Interval>, provider: DecisionProvider, initialSoc: real, k: nat)
    requires AnswersUsably(plant, xs, provider, initialSoc) && k < |xs|
    ensures
      var soc := SocAfter(LoopFlows(plant, xs[..k], Answers(provider), initialSoc), initialSoc);
      provider(Question(xs[..k + 1], soc)).Success?
  {
    if k == |xs| - 1 {
      assert xs[..k + 1] == xs && xs[..k] == Init(xs);
    } else {
      assert Init(xs)[..k] == xs[..k] && Init(xs)[..k + 1] == xs[..k + 1];
      UsableAt(plant, Init(xs), provider, initialSoc, k);
    }
  }

  /** The k-th step of a run: the question, its answer and what the plant made of it. */
  lemma AnsweredAt(plant: Plant, xs: seq<Interval>, provider: DecisionProvider, initialSoc: real, k: nat)
    requires AnswersUsably(plant, xs, provider, initialSoc) && k < |xs|
    ensures
      var step := LoopRun(plant, xs, Answers(provider), initialSoc)[k];
      && provider(Question(xs[..k + 1], step.flow.socBefore)) == Success(step.decision)
      && step.flow == ApplyDecision(plant, xs[k], step.flow.socBefore, step.decision)
  {
    UsableAt(plant, xs, provider, initialSoc, k);
    LoopRunAt(plant, xs, Answers(provider), initialSoc, k);
    LoopRunPrefix(plant, xs, Answers(provider), initialSoc, k);
    SocLeftByFlows(LoopRun(plant, xs[..k], Answers(provider), initialSoc), initialSoc);
  }

  /** The provider was asked about this interval, its energies, the hours elapsed at
      its end and the state of charge at its start, with nothing dispatched yet; the
      step records its answer, and its flow is the answer applied to the plant. */
  predicate AskedAndApplied(
    plant: Plant, provider: DecisionProvider, number: int, start: real, x: Interval, step: LoopStep)
  {
    && provider(Measurement(
         number, start + x.hours, x.hours, x.generated, x.consumed, Net(x), step.flow.socBefore, 0.0, 0.0, 0.0))
       == Success(step.decision)
    && step.flow == ApplyDecision(plant, x, step.flow.socBefore, step.decision)
  }

  lemma AskedAt(plant: Plant, xs: seq<Interval>, provider: DecisionProvider, initialSoc: real, k: nat)
    requires AnswersUsably(plant, xs, provider, initialSoc) && k < |xs|
    ensures
      var step := LoopRun(plant, xs, Answers(provider), initialSoc)[k];
      AskedAndApplied(plant, provider, k + 1, Hours(xs[..k]), xs[k], step)
  {
    AnsweredAt(plant, xs, provider, initialSoc, k);
    assert Init(xs[..k + 1]) == xs[..k] && Last(xs[..k + 1]) == xs[k];
  }

  /** So it is for each step of every completed run. */
  lemma ProvidersAreAskedAboutEachStep(s: SimulationScenario, provider: DecisionProvider, k: nat)
    requires RunOutcome(s, provider).Success? && k < |s.steps|
    ensures |RunOutcome(s, provider).value| == |s.steps|
    ensures AskedAndApplied(s.Plant(), provider, k + 1, ElapsedHours(s.steps[..k]),
                            IntervalOf(s.solar, s.building, s.steps[k]), RunOutcome(s, provider).value[k])
  {
    NoValidScenarioAborts(s, provider);
    AskedAt(s.Plant(), s.Intervals(), provider, s.InitialSoc(), k);
    IntervalsAt(s, k);
  }
}
