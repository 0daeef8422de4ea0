# GridFlex: verified model of the control loop

GridFlex lets a C++ controller decide, interval by interval, what a battery behind
a solar array and a building should do. A Python simulation drives the controller
through whole scenarios and compares it with a battery-first reference strategy; a
C# backend calls it through a C ABI; a C hardware layer carries its commands to
actuators. This project models those parts and proves what they promise each other,
for all inputs, all runs and all interleavings.

## How it is organised

The simulation core comes first. `Batteries.Battery` is the one mutable object of the
plant; `Reference` (dispatch, management, timeline, scenario) and `Loop` (the
controller-in-the-loop runner) are methods that mutate it interval by interval. Each
method is proved equal to an *outcome* function with the same checks in the same
order and the same errors. Those outcome functions are then proved equal to *closed
forms* in `Plants`: what an interval does to the battery, the grid and the losses,
without divisions, errors or mutation. Relations between whole runs are proved over
the closed forms, and `EndToEnd` carries them back to what the two runners return.

- `Plants`, `Reference`, `Loop`: the plant, the two runners and their closed forms.
- `EnergyController`, `Measurements`, `Control`: the decision rule, both measurement
  validators, limits and commands.
- `RawDecisions`: requested powers that are infinite or not a number.
- `Dominance`: battery first is optimal against any decision provider; relaxing the
  limits never hurts; the reference is an unrestricted controller.
- `ImportAlone`: when grid import, or unserved demand, is optimal on its own.
- `RunSafety`: conservation over whole runs, and the operating window.
- `Dashboard`, `Tracking`: the decision explainer as a checker of any controller.
- `TimeRefinement`: splitting intervals into equal parts.
- `Doubles`, `NativeDecision`, `NativeApi`: the decision over doubles with overflow,
  infinities and NaN, the C ABI, and the per-thread last-error protocol.
- `Statistics`: lock-free decision counters under every interleaving.
- `Hardware`: the command executor over two actuators that can fail.

Two runs are compared through `KeepsUp`, a relation on single intervals: move at least
as much energy through the battery, or end at least as full (when charging) or as
empty (when discharging). It is enough for cumulative charge *and* discharge to
dominate at every point of the run; neither is inductive alone.

Decision providers are arbitrary. A provider is a function of the measurement; step
numbers within a run are distinct, so a provider with memory is covered run by run.

## Where a promise fails

Some natural claims are false of the code. Each comes with the exact condition under
which it holds:

- *The reference never imports more than another policy.* True of import plus unserved
  demand, always. On a grid that can import, it is true of import alone after given
  intervals, whatever comes next, exactly when in none of them the deficit exceeds what
  the grid can supply (`ImportAlone.ImportIsDominatedIff`); a scenario whose import cap
  never binds therefore imports least under the reference, at every step
  (`ImportAlone.ImportIsDominatedWhileUncapped`). Of unserved demand alone it is true
  exactly when there has been no deficit (`ImportAlone.UnservedIsDominatedIff`).
- *Splitting an interval keeps the state of charge and never lowers what is unresolved.*
  The whole account is refined exactly when the parts are not newly snapped to balanced
  (`TimeRefinement.SplittingRefinesIff`). The state of charge alone also survives when the
  battery would not have moved (`TimeRefinement.SplittingKeepsSocIff`), and unresolved
  energy is also not lowered when the whole interval leaves none
  (`TimeRefinement.UnresolvedIsNotLoweredIff`).
- *Each explanation describes what the plant did.* Exactly when the controller's
  maximum state of charge is one the battery can reach
  (`Dashboard.ExplanationsAreTrueIff`). The explanation texts assume this silently.
- *A controller never charges in a true deficit, nor discharges in a true surplus.* Each
  is compatible with an accepted report exactly above a threshold set by the validators'
  tolerance (`EnergyController.ChargingThreshold`, `EnergyController.DischargingThreshold`).
- *The conservation check never fires.* It fires exactly on a requested power that is NaN
  and reaches the battery (`RawDecisions.ConservationFailsExactlyOnNaN`); the API client
  reads powers with `float` and accepts one.
- *Every call is counted once.* Within one call, exactly when the metric of its ending
  does not throw and the logger does not throw after a recorded decision, or only into a
  metric that throws as well (`Statistics.CountedOnceIff`).

The docstring of the Python `EnergyMeasurement` calls it a snapshot after a completed
interval; the controller-in-the-loop runner builds it before dispatching anything. The
model follows the code.

## Model

The source column is relative to the repository root.

| member | source | states |
|---|---|---|
| Batteries.Battery.Create | simulation/src/gridflex_simulation/battery.py:17-31 | a battery can be created exactly with a positive capacity and a state of charge within it |
| Batteries.Battery.Charge | simulation/src/gridflex_simulation/battery.py:50-67 | the state of charge becomes the old one plus the request, cut at capacity; the answer is exactly the change; a negative request is refused and changes nothing |
| Batteries.Battery.Discharge | simulation/src/gridflex_simulation/battery.py:69-86 | the state of charge becomes the old one minus the request, cut at zero; the answer is exactly the change; a negative request is refused and changes nothing |
| Grids.GridConnection.Transfer | simulation/src/gridflex_simulation/grid.py:88-124 | transferred and remaining energy make up the request; energy remains only at import power x hours when importing and export power x hours when exporting, and nothing moves when unavailable; fails, with its reason, exactly on a negative request or a non-positive interval |
| Grids.CreateGrid | simulation/src/gridflex_simulation/grid.py:126-145 | a connection is created exactly from two powers neither of which is negative |
| Grids.LimitsAreTheOwnPowers | simulation/src/gridflex_simulation/grid.py:102-112 | each direction is limited by its own power over the interval, and asked for more moves exactly that |
| EnergyBalance.Calculate | simulation/src/gridflex_simulation/energy_balance.py:55-100 | balanced exactly when generation and consumption differ by at most 1e-9, with net energy zero; otherwise the net energy is exactly the difference and the status its sign; negative inputs are refused |
| EnergySources.CreateSolarArray | simulation/src/gridflex_simulation/solar.py:16-30 | an array is created exactly from a positive capacity and a performance ratio above zero and at most one |
| EnergySources.CreateBuilding | simulation/src/gridflex_simulation/building.py:16-34 | a load is created exactly from a base that is not negative and a positive peak not below it |
| EnergySources.GenerationIsProportional | simulation/src/gridflex_simulation/solar.py:48-75 | generated energy is proportional to the irradiance, and at full irradiance is capacity x performance ratio x hours |
| EnergySources.GenerationIsBounded | simulation/src/gridflex_simulation/solar.py:21-75 | on a valid array it is never negative, never more than at full irradiance and never more than capacity x hours |
| EnergySources.ConsumptionIsAffine | simulation/src/gridflex_simulation/building.py:52-82 | consumed energy is base x hours at rest, peak x hours at full activity, and between them as far from the one to the other as the activity factor |
| EnergySources.ConsumptionIsBounded | simulation/src/gridflex_simulation/building.py:21-82 | for a valid building it never leaves that range |
| EnergySources.OtherConditionsAreRefused | simulation/src/gridflex_simulation/solar.py:66-87 | a non-positive interval or a factor outside [0, 1] is refused with its reason |
| Scenarios.ObserveSucceedsExactlyOnValidSteps | simulation/src/gridflex_simulation/solar.py:54-75 | generation and consumption of a step succeed exactly on a positive interval with factors in [0, 1], and are never negative |
| Scenarios.ValidStepsGiveValidIntervals | simulation/src/gridflex_simulation/building.py:61-82 | every valid step list yields valid intervals and positive elapsed time |
| Measurements.PythonAcceptsExactlyTheRules | simulation/src/gridflex_simulation/energy_measurement.py:33-101 | the Python validator accepts a measurement, unchanged, exactly when every rule holds, and a rejection names a rule that is violated; for every rounding and with infinities and NaN |
| Measurements.CppAcceptsExactlyTheRules | controller/src/energy_measurement.cpp:56-147 | the same of the C++ constructor, whose checks run in another order |
| Measurements.PythonNamesTheFirstViolation | simulation/src/gridflex_simulation/energy_measurement.py:38-101 | the rule a rejection names is the first one violated in the source's order |
| Measurements.CppNamesTheFirstViolation | controller/src/energy_measurement.cpp:78-146 | the same in the C++ order, where the net energy comes before the state of charge |
| Measurements.ValidatorsAgree | simulation/src/gridflex_simulation/energy_measurement.py:89-101 | both validators accept exactly the same measurements, as the Python comment promises |
| Measurements.ExactAcceptance | controller/src/energy_measurement.cpp:131-146 | with exact arithmetic both accept exactly the measurements whose reported net is within the absolute plus relative tolerance of the true one |
| Measurements.AcceptanceInNumbers | simulation/src/gridflex_simulation/energy_measurement.py:89-101 | that tolerance is 1e-6 plus 1e-9 of the larger energy |
| Control.CppLimits | controller/src/controller_limits.cpp:9-54 | limits can be constructed exactly when finite with positive powers and a non-negative, non-empty window; a refusal names the first rule they break |
| Control.CppCommand | controller/src/control_command.cpp:9-50 | a command can be constructed exactly when well formed: a step, a finite non-negative power, and zero power exactly when idle; a refusal names a rule it breaks |
| EnergyController.DecideClosedForm | controller/src/energy_controller.cpp:22-116 | dividing by the interval and multiplying back cancels: the decision requests, as energy, the least of the imbalance, the power limit over the interval and the room in the window, in the direction of the imbalance, and idles exactly when that is nothing or the balance is within 1e-9 |
| EnergyController.DirectionAgreesWithReality | controller/src/energy_measurement.cpp:131-146 | for every accepted measurement whose true imbalance exceeds the validators' tolerance, the battery never charges in a true deficit nor discharges in a true surplus, and never moves more than the true imbalance plus the tolerance |
| EnergyController.ChargingThreshold | controller/src/energy_controller.cpp:28-39 | some accepted report of given energies makes the controller charge if and only if their true net, overstated by the whole tolerance, exceeds the balance threshold |
| EnergyController.DischargingThreshold | controller/src/energy_controller.cpp:28-39 | the mirror: some accepted report of given energies makes the controller discharge if and only if the true deficit, overstated by the whole tolerance, exceeds the balance threshold |
| Plants.SettleKeepsThePlantPhysical | simulation/src/gridflex_simulation/controller_in_the_loop.py:202-221 | after any feasible battery move the state of charge stays in [0, capacity], the grid limits hold, energy is lost only at a limit, and import and export sides are never both used |
| Plants.AnyDecisionIsFeasible | simulation/src/gridflex_simulation/controller_in_the_loop.py:184-198 | whatever a decision requests, what the plant applies is within the available surplus or deficit, the free capacity and the stored energy |
| Plants.PhysicalRunAccounts | simulation/src/gridflex_simulation/controller_in_the_loop.py:93-111 | over any physical run the state of charge is the initial one plus total charge minus total discharge, and total surplus and deficit split exactly into battery, grid and loss |
| Plants.StrategyRunIsPhysical | simulation/src/gridflex_simulation/simulation_timeline.py:98-135 | runs of the reference and of the controller are physical runs from any valid start |
| Reference.Dispatch | simulation/src/gridflex_simulation/battery_dispatch.py:58-104 | mutating the battery branch by branch gives the dispatch outcome, and leaves the battery at the state of charge it reports |
| Reference.DispatchMovesWhatFits | simulation/src/gridflex_simulation/battery_dispatch.py:71-95 | the final state of charge is the initial one plus the net energy, clamped to [0, capacity]; transferred and remaining energy make up the imbalance; the action is its direction |
| Reference.Manage | simulation/src/gridflex_simulation/energy_management.py:54-99 | the service gives the management outcome: checks, errors, battery first, grid only for what remains |
| Reference.GridIsTheLastResort | simulation/src/gridflex_simulation/energy_management.py:82-93 | energy remains after dispatch only at a full battery (surplus) or an empty one (deficit); only then is the grid asked, for all of it, in the matching direction; energy is unresolved only with the grid at its limit or unavailable |
| Reference.ManageClosedForm | simulation/src/gridflex_simulation/energy_management.py:70-99 | one managed interval has exactly the battery-first energy flows |
| Reference.FactoryMeasurementIsAccepted | simulation/src/gridflex_simulation/energy_measurement.py:150-185 | the measurement of a managed interval has every field equal to the interval's or its flow's (unresolved is curtailed plus unserved), and both validators accept it |
| Reference.ReferenceStepClosedForm | simulation/src/gridflex_simulation/dashboard.py:264-286 | the exported flows of a reference step are the battery-first closed form, and its measurement reports them for its own conditions |
| Reference.RunTimelineStep | simulation/src/gridflex_simulation/simulation_timeline.py:98-135 | one iteration on the mutable battery gives the step outcome and leaves the battery where the result says |
| Reference.RunTimeline | simulation/src/gridflex_simulation/simulation_timeline.py:81-137 | the loop gives the outcome of all steps in order, the first failure ending it; an empty timeline is refused |
| Reference.RunScenario | simulation/src/gridflex_simulation/scenario.py:175-198 | fresh components, each validated in order, then the whole timeline |
| Reference.TimelineClosedForm | simulation/src/gridflex_simulation/simulation_timeline.py:95-137 | on valid steps the run succeeds, every result measures its own step, numbered k+1 with prefix-sum elapsed time, and its flows are the battery-first run |
| Reference.MeasurementsReportTheRun | simulation/src/gridflex_simulation/simulation_timeline.py:122-135 | the k-th measurement has the k-th interval's hours, energies and net, and the k-th flow's state of charge, import, export and curtailed plus unserved energy |
| Reference.ScenarioTotalsAreReported | simulation/src/gridflex_simulation/scenario.py:141-163 | the summed import, export and unresolved energy of a scenario result are those of the battery-first run |
| Reference.TimelineSucceedsOnlyOnValidSteps | simulation/src/gridflex_simulation/simulation_timeline.py:102-110 | a run that succeeds had only valid steps |
| Reference.ReferenceRunsExactlyValidScenarios | simulation/src/gridflex_simulation/scenario.py:182-198 | the reference run succeeds on exactly the valid scenarios |
| Loop.ApplyToBattery | simulation/src/gridflex_simulation/controller_in_the_loop.py:193-200 | the battery moves by exactly what the outcome reports, and an unknown action is refused |
| Loop.ApplyToPlant | simulation/src/gridflex_simulation/controller_in_the_loop.py:184-221 | mutating surplus, deficit and battery gives the plant outcome, with the battery at the reported state of charge |
| Loop.RunStep | simulation/src/gridflex_simulation/controller_in_the_loop.py:144-242 | one iteration: observe, balance, measure, ask, apply, check conservation |
| Loop.RunSteps | simulation/src/gridflex_simulation/controller_in_the_loop.py:141-244 | the loop over a mutable battery gives the outcome of all steps in order, the first failure ending it |
| Loop.Run | simulation/src/gridflex_simulation/controller_in_the_loop.py:132-244 | fresh components, then the loop, for any decision provider |
| Loop.Compare | simulation/src/gridflex_simulation/controller_in_the_loop.py:247-255 | each run starts from a fresh battery; the reference runs only once the controller's run is complete, whose error otherwise ends the comparison |
| Loop.PlantClosedForm | simulation/src/gridflex_simulation/controller_in_the_loop.py:184-221 | for every known action the plant cannot fail and does what the closed form says |
| Loop.UnknownActionStopsTheRun | simulation/src/gridflex_simulation/controller_in_the_loop.py:199-200 | in an otherwise usable run the first unknown action ends the whole run with its name, whatever would have followed |
| Loop.AnyPolicyKeepsThePlantPhysical | simulation/src/gridflex_simulation/controller_in_the_loop.py:144-242 | under any provider the run is physical; the state of charge never leaves [0, capacity] |
| Loop.ConservationCheckNeverFires | simulation/src/gridflex_simulation/controller_in_the_loop.py:258-281 | for every finite requested power, sources minus sinks is exactly what the balance snapped away, so the check passes |
| Loop.CheckInNumbers | simulation/src/gridflex_simulation/controller_in_the_loop.py:263-281 | the check passes exactly when the four sources and the four sinks differ by at most 1e-6, and otherwise names its step |
| RawDecisions.OtherRequestsAgree | simulation/src/gridflex_simulation/controller_in_the_loop.py:184-221 | a requested power that is infinite does in every energy exactly what a finite one does |
| RawDecisions.ConservationFailsExactlyOnNaN | simulation/src/gridflex_simulation/controller_in_the_loop.py:186-281 | over every double a provider can answer, the check fires if and only if the power is NaN and the action charges or discharges |
| Loop.QuestionIsAccepted | simulation/src/gridflex_simulation/controller_in_the_loop.py:169-182 | every measurement the runner builds is accepted by both validators |
| Loop.LoopClosedForm | simulation/src/gridflex_simulation/controller_in_the_loop.py:141-244 | the run ends with the first objection to a step's conditions or answer as its error, and is the closed form when there is none |
| Loop.NoValidScenarioAborts | simulation/src/gridflex_simulation/controller_in_the_loop.py:132-244 | a run's only errors are, in order, those of its configuration, of a step's conditions, an unanswered question or an unknown action, and the first ends it; no measurement is rejected and conservation never fails |
| Loop.ControllerStepClosedForm | controller/src/energy_controller.cpp:41-107 | what the plant does with a controller decision is the limited strategy: the least of surplus or deficit, physical room, power limit and window |
| Loop.ControllerLoopClosedForm | simulation/src/gridflex_simulation/controller_in_the_loop.py:144-242 | whole runs with the controller in the loop are runs of the limited strategy |
| Loop.ControllerRequestsAreUnclipped | simulation/src/gridflex_simulation/controller_in_the_loop.py:190-198 | with the window inside the battery, the plant applies controller requests in full |
| Dominance.KeepingUpDominates | simulation/src/gridflex_simulation/controller_in_the_loop.py:93-111 | keeping up in every interval makes cumulative charge and discharge both dominate, and leaves no more deficit and no more surplus to the grid |
| Dominance.BatteryFirstDominatesEveryPhysicalRun | simulation/src/gridflex_simulation/energy_management.py:70-99 | battery first dominates every physically possible run, at every point |
| Dominance.BatteryFirstIsOptimal | simulation/src/gridflex_simulation/controller_in_the_loop.py:246-255 | at every prefix of every scenario, cumulative import plus unserved and export plus curtailed of the reference are at most those of the loop under any decision provider |
| ImportAlone.ImportIsDominatedWhileUncapped | simulation/src/gridflex_simulation/grid.py:102-117 | while no deficit exceeds what the grid can supply, neither run leaves demand unserved and the reference has imported no more than the loop under any policy, at every prefix |
| ImportAlone.ImportIsDominatedIff | simulation/src/gridflex_simulation/grid.py:102-117 | on a grid that can import, after given intervals and whatever the next interval, battery, start and policy, the reference has imported no more if and only if the import cap could bind in none of them |
| ImportAlone.UnservedIsDominatedIff | simulation/src/gridflex_simulation/energy_management.py:82-93 | and has left no more unserved if and only if none of them had a deficit |
| ImportAlone.ImportAloneIsDominatedIff | simulation/src/gridflex_simulation/grid.py:102-117 | over all scenarios at once, each alone is dominated if and only if the grid cannot import |
| ImportAlone.SavingImportsLess | simulation/src/gridflex_simulation/energy_management.py:82-93 | once a deficit has exceeded what the grid can supply, some next interval, battery and policy import strictly less than the reference |
| ImportAlone.SavingServesMore | simulation/src/gridflex_simulation/energy_management.py:82-93 | once there has been a deficit, some next interval, battery and policy leave strictly less unserved than the reference |
| Dominance.RelaxedLimitsKeepUp | controller/src/energy_controller.cpp:48-62 | in one interval, from any two states of charge, the controller with larger powers and a wider window keeps up with the tighter one |
| Dominance.RelaxedLimitsDominate | controller/src/energy_controller.cpp:41-107 | relaxing the limits never leaves more to the grid, at any prefix of any scenario |
| Dominance.ReferenceIsAnUnrestrictedController | simulation/src/gridflex_simulation/energy_balance.py:82-93 | with the whole battery as window and power limits no interval reaches, controller and reference agree on every flow of every interval, including at the shared 1e-9 threshold |
| RunSafety.EnergyIsConservedOverRuns | simulation/src/gridflex_simulation/controller_in_the_loop.py:258-281 | over n intervals, under any policy, received energy and battery gain differ by at most n x 1e-9, and not at all when nothing was snapped |
| RunSafety.SnappingAddsUp | simulation/src/gridflex_simulation/energy_balance.py:82-93 | over n intervals snapping moves the total imbalance by at most n x 1e-9 |
| RunSafety.ControllerIsDrawnToWindow | controller/src/energy_controller.cpp:48-62 | between any two points of a run with the controller, the state of charge comes no further from the window, never crosses it and never leaves it |
| Dashboard.ControllerDecisionsAreExplained | simulation/src/gridflex_simulation/dashboard.py:141-210 | every controller decision is explained under its own limits, and by exactly the code that comparing energies predicts, ties going to the first candidate |
| Dashboard.ExplainedIff | simulation/src/gridflex_simulation/dashboard.py:141-210 | the exact answer for any decision of an unbalanced step: full or at minimum when idling where the decision rule's rate is at most 1e-6 kW, the code that comparing energies predicts when the expected action is within 1e-6 kW of that rate, unexplained otherwise |
| Dashboard.WithoutLimits | simulation/src/gridflex_simulation/dashboard.py:128-139 | limits-unknown exactly without limits beyond the 1e-9 threshold, balanced exactly within it |
| Dashboard.ExplanationsAreTrue | simulation/src/gridflex_simulation/dashboard.py:141-210 | with the window inside the battery each code implies its plant effect: covers leaves nothing, max-power is exactly the limit with something left, soc ends exactly at the bound, full and at-minimum send all of the net energy to the grid |
| Dashboard.ExplanationsAreTrueIff | simulation/src/gridflex_simulation/dashboard.py:155-159 | the explanations are true for every interval and state of charge if and only if the maximum state of charge is at most the capacity |
| Dashboard.FullBatteryIsMisreported | simulation/src/gridflex_simulation/dashboard.py:155-159 | otherwise, for every interval offering a full battery more than the window would take at less than the power limit, the charge is announced as reaching the maximum while nothing is stored and the state of charge stays below it |
| Dashboard.ControllerRunIsExplained | simulation/src/gridflex_simulation/dashboard.py:141-210 | over whole runs of the controller every step is explained, and truly so with the window inside the battery |
| Dashboard.DecisionIsTheBindingCandidate | simulation/src/gridflex_simulation/dashboard.py:185-185 | the controller requests exactly the power of the first smallest candidate, or idles when that is not positive |
| Tracking.ExplainedIsClose | simulation/src/gridflex_simulation/dashboard.py:187-204 | an explained decision asks, as energy, for what the controller would within the matching tolerance, or idles where hardly anything is wanted |
| Tracking.CloseDecisionLandsClose | simulation/src/gridflex_simulation/dashboard.py:122-210 | soundness: from the same state of charge an explained decision takes the plant to within the tolerance of the controller's |
| Tracking.ControllerStepIsNonExpansive | controller/src/energy_controller.cpp:41-107 | one interval under the controller never drives two states of charge apart |
| Tracking.ExplainedRunsTrackTheController | simulation/src/gridflex_simulation/dashboard.py:115-210 | at every prefix, a fully explained run of any provider is within 1e-6 kW times the hours elapsed of the run the controller would have made |
| Tracking.ExplainedRunsStayNearTheWindow | simulation/src/gridflex_simulation/dashboard.py:115-210 | from inside the window, an explained run is at no prefix further from it than that tolerance |
| TimeRefinement.MergedFlow | simulation/src/gridflex_simulation/grid.py:102-117 | two consecutive unsnapped intervals in the same direction end where their merged interval does, and leave at least as much unresolved |
| TimeRefinement.SplittingRefines | controller/src/energy_controller.cpp:44-62 | splitting an interval into n equal parts that are not newly snapped keeps the final state of charge and energy moved, and never lowers curtailed or unserved energy, for controller and reference |
| TimeRefinement.SplittingKeepsSocIff | simulation/src/gridflex_simulation/energy_balance.py:82-93 | the state of charge survives splitting if and only if the parts are not newly snapped or the battery is already at the end it would move towards |
| TimeRefinement.SplittingRefinesIff | simulation/src/gridflex_simulation/energy_balance.py:82-93 | the whole account is refined (same energy through the battery, same offered to the grid, no less unresolved) if and only if the parts are not newly snapped |
| TimeRefinement.UnresolvedIsNotLoweredIff | simulation/src/gridflex_simulation/energy_balance.py:82-93 | unresolved energy is not lowered if and only if the parts are not newly snapped or the whole interval leaves none |
| TimeRefinement.SomeIntervalIsNewlySnapped | simulation/src/gridflex_simulation/energy_balance.py:82-93 | some interval is newly snapped by splitting into n parts if and only if n is at least two |
| TimeRefinement.RefinedRunAgreesThroughout | simulation/src/gridflex_simulation/controller_in_the_loop.py:144-242 | refining every interval of a scenario by its own count keeps the state of charge at the end of every original interval and never lowers what is unresolved by then |
| TimeRefinement.RefinedStepsSplitIntervals | simulation/src/gridflex_simulation/building.py:78-82 | generation and consumption are linear in the interval: refining scenario steps splits their intervals |
| EndToEnd.ReferenceDominatesEveryLoop | simulation/src/gridflex_simulation/controller_in_the_loop.py:246-255 | for any provider whose run completes, the reference run completes and has left no more to the grid at any step |
| EndToEnd.ComparisonsFavourTheReference | simulation/src/gridflex_simulation/controller_in_the_loop.py:246-255 | a comparison fails exactly as the controller's run does, and a complete one shows the reference leaving no more to the grid at any step |
| EndToEnd.ReferenceImportsNoMoreWhileUncapped | simulation/src/gridflex_simulation/controller_in_the_loop.py:246-255 | where the import cap cannot bind, the reference run has imported no more than the loop at any step |
| EndToEnd.ControllerRunsEveryValidScenario | simulation/src/gridflex_simulation/controller_in_the_loop.py:132-244 | with the controller in the loop every valid scenario completes, with the limited strategy's flows |
| EndToEnd.RelaxingLimitsNeverHurts | simulation/src/gridflex_simulation/controller_in_the_loop.py:132-244 | the same scenario run under relaxed limits leaves no more to the grid at any step |
| EndToEnd.UnrestrictedControllerIsTheReference | simulation/src/gridflex_simulation/simulation_timeline.py:98-137 | under unrestricting limits both runners return the same flows |
| EndToEnd.ExplainedScenariosTrackTheController | simulation/src/gridflex_simulation/dashboard.py:115-210 | a completed, fully explained scenario run is within tolerance of the controller's run at every step |
| EndToEnd.ControllerScenariosAreExplained | simulation/src/gridflex_simulation/dashboard.py:115-210 | every step of a controller's scenario run is explained by the predicted code, and truly so with the window inside the battery |
| EndToEnd.RefinedScenariosAgree | simulation/src/gridflex_simulation/solar.py:71-75 | refining the steps of a valid scenario keeps the state of charge of both runners at the end of every original step, and never lowers what either leaves unresolved |
| EndToEnd.CompletedRunsConserveEnergy | simulation/src/gridflex_simulation/controller_in_the_loop.py:241-244 | every completed run, whoever decided, conserves energy over the whole scenario |
| EndToEnd.CompletedRunsAreChronological | simulation/src/gridflex_simulation/controller_in_the_loop.py:162-164 | the steps of a completed run are numbered from one, start at the sum of earlier intervals and continue from the state of charge left |
| EndToEnd.ProvidersAreAskedAboutEachStep | simulation/src/gridflex_simulation/controller_in_the_loop.py:169-198 | at each step of a completed run the provider was asked with the step's number, prefix-sum elapsed time, interval, energies, net, state of charge at its start and zero grid and unresolved energy; its answer is recorded and is what the plant applied |
| Doubles.ComparisonsOrderTheNumbers | controller/src/energy_measurement.cpp:17-49 | comparisons order the numbers with the infinities at the ends; with NaN all are false |
| Doubles.SumsOfInfinities | controller/src/energy_measurement.cpp:131-141 | sums and differences of finite numbers are rounded, infinities absorb, opposite infinities give NaN |
| Doubles.ExtremesAmongNumbers | controller/src/energy_controller.cpp:48-62 | std::max and std::min among numbers pick an extreme of their arguments |
| NativeDecision.AllowedPowerIsBounded | controller/src/energy_controller.cpp:54-62 | however the quotients overflow, the allowed power is a number not above the finite limit |
| NativeDecision.DecideIsTotal | controller/src/energy_controller.cpp:22-116 | for every rounding, valid limits and accepted measurement, decide returns a well-formed command for the same step |
| NativeDecision.DecisionsPointTheRightWay | controller/src/energy_controller.cpp:22-116 | for every rounding: idle within 1e-9, otherwise in the direction of the net energy at the least of the offered, limiting and window powers, or idle because the first or last is not positive |
| NativeDecision.ExactDecisionsAgree | controller/src/energy_controller.cpp:22-116 | with exact arithmetic the decision over doubles is the decision over reals used everywhere else |
| NativeApi.CreateYieldsUsableHandles | controller/src/native_api.cpp:106-160 | create yields a handle exactly on valid limits and a handle pointer, with a message exactly otherwise, and INTERNAL_ERROR is unreachable |
| NativeApi.CreateReportsTheCause | controller/src/native_api.cpp:112-154 | each status if and only if its cause; rejected limits are reported with the first rule they break; the handle holds the limits given |
| NativeApi.NativeDecideIsTotal | controller/src/native_api.cpp:170-246 | each status if and only if its condition: a missing pointer, a broken rule (the message is that of the first) or an accepted measurement; output exactly on OK, with a well-formed command for the same step; INTERNAL_ERROR is unreachable |
| NativeApi.NativeDecisionsPointTheRightWay | controller/src/native_api.cpp:202-226 | for every rounding, the decision that crosses the boundary moves in the direction of the net energy, at the least of the three powers |
| NativeApi.ExactNativeDecisionsRealiseTheWish | controller/src/native_api.cpp:202-226 | with exact arithmetic it is, field by field, the decision that realises the wished energy |
| NativeApi.MessagesTellRulesApart | controller/src/energy_measurement.cpp:17-49 | different measurement rules have different messages |
| NativeApi.LimitsMessagesTellRulesApart | controller/src/controller_limits.cpp:20-53 | different limit rules have different messages |
| NativeApi.Library.Create | controller/src/native_api.cpp:106-160 | sets this thread's message and no other's, and writes the handle pointer, null on failure, whenever it is given |
| NativeApi.Library.Decide | controller/src/native_api.cpp:170-246 | sets this thread's message and no other's, and leaves the output untouched unless OK |
| NativeApi.Library.LastErrorMessage | controller/src/native_api.cpp:248-264 | returns the full length, writes a NUL-terminated prefix that fits, touches nothing else, nothing at all in an empty or null buffer |
| NativeApi.OtherThreadsDoNotInterfere | controller/src/native_api.cpp:35-54 | calls on other threads, in any number and order, leave this thread's message alone |
| NativeApi.LastErrorIsTheLatestOwnCalls | controller/src/native_api.cpp:35-54 | in every interleaving a thread's message is that of its own latest create or decide |
| NativeApi.ReadLastErrorMessage | backend/GridFlex.Api/Infrastructure/Native/Control/NativeControllerMethods.cs:74-115 | the two-stage read returns the whole message whatever its length, the 255/256 boundary included, null exactly after success, with other threads running between the two reads |
| NativeApi.GatewayDecide | backend/GridFlex.Api/Infrastructure/Native/Control/NativeControllerGateway.cs:94-124 | a failed call always surfaces that call's own message, and a rejected measurement is told apart from every other failure; a decision returned is the controller's: for the same step, in the right direction at the least power under every rounding, and exactly the decision rule's under exact arithmetic |
| Statistics.ControlDecisionStatistics.RecordDecided | backend/GridFlex.Api/Application/Control/ControlDecisionStatistics.cs:16-26 | exactly one action counter grows by one and the time is replaced |
| Statistics.LastDecisionIsTheLatestFinished | backend/GridFlex.Api/Application/Control/ControlDecisionStatistics.cs:23-25 | in every interleaving the time held is that of the decision that finished last, zero if none has |
| Statistics.ControlDecisionStatistics.GetSnapshot | backend/GridFlex.Api/Application/Control/ControlDecisionStatistics.cs:38-59 | undisturbed, the separate readings are the counters and their sum; no time exactly when it is zero |
| Statistics.InstrumentedDecide | backend/GridFlex.Api/Application/Control/InstrumentedControllerGateway.cs:70-139 | with quiet metrics and logger the inner result is passed on unchanged and exactly the matching counter is recorded; with any of them throwing, exactly the recordings and the exception that the try and catch blocks leave; a missing measurement is refused and recorded nowhere |
| Statistics.CountedOnceIff | backend/GridFlex.Api/Application/Control/InstrumentedControllerGateway.cs:78-138 | one call is recorded once, as what it was, if and only if the metric of its ending is quiet and a logger that throws after a decision meets a metric that throws too; twice exactly when that last metric is quiet |
| Statistics.CountersAreTallies | backend/GridFlex.Api/Application/Control/InstrumentedControllerGateway.cs:78-138 | in every reachable state of every interleaving each counter is the number of calls past their increment with that outcome |
| Statistics.EveryCallIsCountedOnce | backend/GridFlex.Api/Application/Control/InstrumentedControllerGateway.cs:78-138 | all counters together hold exactly the calls past their increment |
| Statistics.QuiescentCountersHoldEveryCall | backend/GridFlex.Api/Application/Control/ControlDecisionStatistics.cs:16-36 | once no call is under way, all counters together hold exactly every call ever begun |
| Statistics.CountersNeverDecrease | backend/GridFlex.Api/Application/Control/ControlDecisionStatistics.cs:16-36 | no counter ever decreases along an interleaving |
| Statistics.SnapshotLiesBetween | backend/GridFlex.Api/Application/Control/ControlDecisionStatistics.cs:38-59 | a snapshot of separate atomic reads lies componentwise, sum included, between the counters at its start and at its end |
| Statistics.LaterSnapshotsReportNoLess | backend/GridFlex.Api/Application/Control/ControlDecisionStatistics.cs:38-59 | snapshots that do not overlap are monotone |
| Hardware.WellFormedCommandsPassTheHardwareLayer | hardware/src/actuator.c:84-123 | both commands derived from any constructible command pass the type, action, support and power checks, so only a missing callback or the driver can fail; an active command that is not constructible fails on some device |
| Hardware.RefusalsAreExact | hardware/src/actuator.c:40-123 | the driver is reached exactly by an admissible command (idle at zero, or a capability of the device at a finite power above zero) with a callback, and each refusal is given exactly when due |
| Hardware.UnknownActionTouchesNothing | controller/src/hardware_command_executor.cpp:69-81 | executing throws exactly on an unknown action, and then neither device is touched |
| Hardware.DeviceShowsLatestSuccess | controller/src/hardware_command_executor.cpp:97-157 | after any history the latest execute reported successful for a device is what it does: the battery charges or discharges, the grid imports or exports, at the requested power, exactly when that command says so, and otherwise idles at zero; or it is in its initial state |
| Hardware.ReportsFollowTheToggles | hardware/src/simulated_actuator.c:21-46 | an execute of a constructible command reports failure for a device exactly when the latest toggle injected one |
| Hardware.DriverFailsAsInjected | hardware/src/simulated_actuator.c:32-45 | an admissible command is counted (wrapping at 2^32), fails exactly under injected failure and is recorded exactly when it succeeds |
| Hardware.ApplyCountsAreExecutes | controller/src/hardware_command_executor.cpp:78-86 | both apply counters equal the number of executes modulo 2^32, whatever failed |
| Hardware.BothActiveOnlyAfterFailure | controller/src/hardware_command_executor.cpp:97-157 | both devices are active together only if the latest execute that reached them reported a failure |
| Hardware.SimulatedActuator.Drive | hardware/src/simulated_actuator.c:21-46 | every call is counted; action and power are recorded only without injected failure |
| Hardware.SimulatedActuator.SetApplyFailure | hardware/src/simulated_actuator.c:92-105 | only the failure flag changes |
| Hardware.Apply | hardware/src/actuator.c:84-123 | a command refused by a check leaves the device untouched; otherwise the driver decides |
| Hardware.HardwareCommandExecutor.Execute | controller/src/hardware_command_executor.cpp:69-95 | driving the two devices one after the other gives the execution outcome on both states, and each device reported successful does what the command says |
| Hardware.HardwareCommandExecutor.Create | controller/src/hardware_command_executor.cpp:46-67 | an executor exists exactly for a battery and a grid connection, in that order |
| Hardware.SimulatedActuator.Create | hardware/src/simulated_actuator.c:48-70 | an actuator exists exactly for a known kind, and starts with no action shown, no call counted and no failure injected |

## Left out

- Rounding in the simulation: its doubles are exact reals, so its finiteness checks have nothing to reject; only the validators, the limits, commands and the native decision are modelled over doubles, with rounding as an arbitrary function that never turns a number into NaN.
- Signed zero and the bit patterns of NaN: no branch of the modelled code depends on them.
- Loop.ConservationCheckNeverFires: whole runs are over providers that answer finite powers; infinite ones do what finite ones do, and NaN, which ends the source's run with its conservation error, is modelled for one interval in RawDecisions.
- Loop.RunStep: the iteration bodies of the two runners are methods of their own, called by the loops; in the source they are inlined.
- Loop.Run: a scenario without steps, and one without a name, cannot be constructed in the source; the name is not modelled, and the loop itself has no check for an empty scenario.
- Decision providers are functions of the measurement: two runs that give a stateful provider different histories need two functions.
- Statistics.CountersAreTallies: counters are unbounded, so wrap-around of 64-bit counters is not modelled.
- Statistics.EveryCallIsCountedOnce: the interleavings are of calls whose metrics and logger do not throw; what one call does when they do is Statistics.CountedOnceIff. The content of metrics and logs and the stopwatch are not modelled, the current time is a parameter, and actions are the five of the enumeration.
- Statistics.SnapshotLiesBetween: says nothing about the time of the last decision, which a concurrent snapshot can show before or after the matching counter.
- NativeApi.Library.Decide: out-of-memory, which the source maps to INTERNAL_ERROR or an empty message, and memory corruption through invalid pointers are not modelled.
- NativeApi.ReadLastErrorMessage: bytes are characters (UTF-8 decoding is not modelled), and message lengths beyond a 32-bit int are not reached.
- NativeApi.GatewayDecide: disposal of the handle and the wording around the reason are not modelled.
- Hardware.Apply: null pointers and actions or types outside the enumerations behave like the unknown ones and are not separate; actuators in executor histories are simulated ones with a callback.
- Hardware.ApplyCountsAreExecutes: takes the C `unsigned int` counter to be 32 bits wide.
- The normalisation of actuator statuses into hardware errors beyond success and failure, and sensors.
- HTTP clients and endpoints, JSON and struct layouts, the catalogue of scenarios, irradiance curves, charts, console tables and explanation texts.
