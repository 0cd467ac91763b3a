# A verified model of FSMv2: diagnosis, supervision and log suppression

This project models three parts of `umh-core/fsmv2` in Dafny and proves what they keep over all their inputs
and runs.

**The diagnosis engine** turns snapshots into a ranked list of fired causes. Its sliding windows are proved to
hold exactly what a simple definition over the whole history of readings prescribes (`WindowHistory`); its
engine, which changes windows and latches in place, is proved to give every signal of a refinement tree, at any
depth, the state it would have alone (`Refinements`); its latches are proved timely and grounded in evidence
over whole runs (`LatchRuns`); and the six-row outcome table of its conformance suite is proved for every valid
table and every feed (`Conformance`).

**The supervisor** runs workers on a tick loop while other goroutines request shutdowns, disable, add and remove
workers. Its protocols are state machines whose steps are critical sections or single store operations, any of
which may fail, in every interleaving: the stored lifecycle flags (`LifecycleFlags`), removal against re-adding
(`Removal`), bounded collector restarts (`CollectorHealth`), the action gate (`ActionGate`), a worker's tick
(`TickWorker`), a simple worker's bounded stop (`SimpleWorker`), the panic circuit (`PanicCircuit`), the drain
budget over trees (`Drain`), reconciling children (`Children`) and the derive cache (`DeriveCache`).

**The loggers** suppress repeats; `LogSuppression` proves that they lose and double-count none.

Where the source updates objects in place, the model has a class with those fields (`SlidingWindow`, `Latch`,
`Engine`, `DesiredStore`, `Registry`, `Supervisor`, `PanicRecovery`, `Guard`, `Parent`, `Deriver`, `DedupLogger`,
`ThrottledLogger`), and where it loops, a method with that loop. Each method is proved equal to a function of the
old state, and the theorems are about runs of that function: the steps of the interleaved protocols are the
functions (`Performed`, `Entered`, `MarkedIn`, `Struck`, `Detached`) that the methods of `DesiredStore` and
`Registry` are proved equal to, and the engine drives each node's latch through a `Latch` object. Instants and durations are integers of nanoseconds,
values are reals with an explicit non-number for folds, 0 is Go's zero time. Clocks, store answers, executor
answers and readings are parameters.

## Where code and documentation disagree

- `diagnosis/suite.go:98-115` states the outcome table for tables whose spans are at least the interval `Run`
  drives at. With no interval set that is one second, nothing then checks that a minimum sample count fits its
  span, and the first row fails: `Conformance.UnsetIntervalBreaksLive` gives such a table. `Conformance.OutcomeTable`
  states the rows exactly, for any interval; the documented rows hold for a table that sets one
  (`Conformance.DocumentedTable`).
- `supervisor/lifecycle.go:300-303` says a child's shutdown is bounded by its own cascaded budget, base times
  height. Children drain one after another, so three stuck leaves already overrun their parent's budget
  (`Drain.WideTreeOverruns`); `Drain.WithinOwnBudgetExactly` says for which trees the bound holds.
- The comment at `supervisor/reconciliation.go:1297-1299` says the drain's cancel cannot skip a final observation.
  After the drain's last look it can, with no further worker added, exactly when a worker is registered that is not
  a finally observed one about to leave (`Removal.CutOffExactlyWhenExposed`). The look itself sees no worker, so
  that takes an `AddWorker` in between; it does not ask whether a shutdown has begun, and any one that completes is
  enough (`Removal.LateAddIsCutOff`).
- A removed worker's children go but not their removal marks. The same tick's reconciliation drops the marks, so
  every marked name stays resident (`Children.RunsStaySound`), unless another goroutine adds the worker again
  before that tick looks for it; `Children.ReAddLeavesAMarkExactly` says which such ticks leave a listed child
  marked, and `Children.ReAddReachesAStaleMark` gives the interleaving from an empty family.

## Model

| member | source | states |
|---|---|---|
| Sorting.SortByOutcome | umh-core/fsmv2/diagnosis/judge.go:322-337 | the sort used as reference yields a sorted permutation under any strict weak order |
| Sorting.SortedPermutationIsUnique | umh-core/fsmv2/diagnosis/engine.go:582-609 | under an order that tells all elements apart, every outcome of any sort, stable or not, of any arrangement is the same sequence |
| Measure.NearestRankMeaning | umh-core/fsmv2/diagnosis/measure.go:196-212 | a percentile is a stored value with fewer than rank values strictly below it and at least rank at or below it |
| Measure.PercentileIsMaximumExactlyBelowMinimum | umh-core/fsmv2/diagnosis/measure.go:113-144 | the stated reason for the minimums 20 and 100: the rank is the top one, and the percentile the maximum, exactly below them |
| Measure.BuiltInIsDependable | umh-core/fsmv2/diagnosis/measure.go:124-212 | on points a window may hold, as many as its minimum and with time or denominator advancing, each built-in reduction yields a finite number |
| Measure.ComputeMax | umh-core/fsmv2/diagnosis/measure.go:160-167 | the loop returns the greatest stored value |
| Measure.ComputeMean | umh-core/fsmv2/diagnosis/measure.go:169-176 | the loop returns the value whose multiple by the count is the sum |
| Windows.SlidingWindow.PruneBefore | umh-core/fsmv2/diagnosis/sliding_window.go:124-131 | the loop drops the points at the front that are older than the cutoff and no others |
| Windows.SlidingWindow.AgeTo | umh-core/fsmv2/diagnosis/sliding_window.go:104-122 | ageing freezes or empties the window as the history theorem needs, and touches nothing else |
| Windows.SlidingWindow.AppendPoint | umh-core/fsmv2/diagnosis/sliding_window.go:159-205 | appending refuses unusable readings, restarts on a counter reset, and moves the origin and stamps with it |
| Windows.SlidingWindow.Tick | umh-core/fsmv2/diagnosis/sliding_window.go:85-94 | one observation changes the object exactly as the function whose runs refine the history |
| WindowHistory.WindowRefinesHistory | umh-core/fsmv2/diagnosis/sliding_window.go:85-205 | after any non-decreasing sequence of ticks the window holds exactly the accepted readings within the span since the last demote gap or counter reset; in an outage, what it held on the first missed tick, and nothing once the demote span has passed; with the origin and the stamps to match |
| WindowHistory.KeptMeaning | umh-core/fsmv2/diagnosis/sliding_window.go:124-205 | which readings those are, by index: the accepted, recent ones with nothing starting over after them, each once and in order |
| WindowHistory.ClockedMeaning | umh-core/fsmv2/diagnosis/sliding_window.go:133-158 | the assumption on ticks is that any two instants are positive and in order |
| WindowHistory.StoredTick | umh-core/fsmv2/diagnosis/sliding_window.go:159-205 | an accepted reading takes a window that matches its history to one that matches the longer history, across outages, demotes and resets |
| WindowHistory.MissedTick | umh-core/fsmv2/diagnosis/sliding_window.go:104-122 | a refused or unknown reading does too: frozen, then emptied |
| Judge.Latch.Update | umh-core/fsmv2/diagnosis/judge.go:191-240 | the whole new state of the latch object: fire, hold, move the blame, release |
| Judge.Latch.Reset | umh-core/fsmv2/diagnosis/judge.go:244-250 | the whole new state after a reset |
| Judge.Latch.ReleaseAfter | umh-core/fsmv2/diagnosis/judge.go:253-262 | the whole new state, released only once the span has passed without a trusted update |
| Judge.FireAndClearAreDisjoint | umh-core/fsmv2/diagnosis/judge.go:144-165 | helper of EveryLatchOfAnyRun: under marks a table may carry no value is on both sides |
| Judge.SeverityOfEvidence | umh-core/fsmv2/diagnosis/judge.go:284-314 | on the firing side the severity is in [0,1] with neither the lower clamp nor the NaN arm acting, 0 exactly on an inclusive fire mark, 1 exactly from the worst value on |
| Judge.Rank | umh-core/fsmv2/diagnosis/judge.go:322-337 | a permutation ordered by tier ascending, severity descending, index ascending |
| Judge.RankIsCanonical | umh-core/fsmv2/diagnosis/judge.go:322-337 | for distinct indexes the ranking is one, whatever the input order and however ties are sorted |
| Judge.NestedOrderIsCanonical | umh-core/fsmv2/diagnosis/engine.go:582-609 | so is the order of nested refinements |
| Declare.CapableInstruments | umh-core/fsmv2/diagnosis/declare.go:119-139 | the loop returns the instruments whose requirements the environment has, in declared order |
| Declare.CheckMeasurement | umh-core/fsmv2/diagnosis/engine.go:419-441 | refuses exactly the measurements that break a rule |
| Declare.CheckSignal | umh-core/fsmv2/diagnosis/engine.go:329-410 | refuses exactly the signals that, or anything under which, breaks a rule |
| Declare.CheckTable | umh-core/fsmv2/diagnosis/engine.go:271-323 | refuses exactly the tables that break a rule |
| Declare.SiblingsOwnDisjointPaths | umh-core/fsmv2/diagnosis/engine.go:183-195 | names without the separator: one path never lies under two siblings |
| Declare.ChildIsUnderParent | umh-core/fsmv2/diagnosis/engine.go:183-195 | helper of PathsAreDistinct: a child's paths lie under its parent and are never the parent's own |
| Engines.Engine.New | umh-core/fsmv2/diagnosis/engine.go:148-181 | building opens one window object per signal and instrument of the whole tree, as the value model says |
| Engines.Engine.OpenTree | umh-core/fsmv2/diagnosis/engine.go:233-263 | the builder's effect on the window map, refinements included |
| Engines.Engine.ObserveTree | umh-core/fsmv2/diagnosis/engine.go:524-543 | each window object of the tree takes its own reading and no other changes |
| Engines.Engine.ResolvePath | umh-core/fsmv2/diagnosis/engine.go:480-518 | the loop answers with the first capable instrument that has a value, else the best lesser state |
| Engines.Engine.DriveLatch | umh-core/fsmv2/diagnosis/engine.go:549-573 | drives the node's latch object: a ready answer updates it, an unready one ages it, none resets it |
| Engines.Engine.JudgeTree | umh-core/fsmv2/diagnosis/engine.go:549-580 | every latch of the tree is judged once and the rows come out in preorder |
| Engines.Engine.Observe | umh-core/fsmv2/diagnosis/engine.go:638-663 | the object's whole tick equals the value model's, over the heap of windows |
| Refinements.PathsAreDistinct | umh-core/fsmv2/diagnosis/engine.go:189-231 | sibling-unique names without the separator give every node at every depth its own path |
| Refinements.EngineFollowsEachSignal | umh-core/fsmv2/diagnosis/engine.go:524-663 | over every run each signal's windows and latch are those its own readings give |
| Refinements.EachSignalEvolvesAlone | umh-core/fsmv2/diagnosis/engine.go:189-250 | hence exactly those of the same signal as the only one of its own table; one readiness row per signal, in preorder of the whole tree |
| Refinements.RowFollows | umh-core/fsmv2/diagnosis/engine.go:549-580 | each row carries its signal's path and its own availability |
| Refinements.ReportedExactlyUnderFired | umh-core/fsmv2/diagnosis/engine.go:582-609 | a verdict is reported at a place exactly when the signal there and all above it have fired |
| Refinements.ReportOfAnyRun | umh-core/fsmv2/diagnosis/engine.go:582-663 | so for the output of every run, whose ranking is also unique |
| Refinements.NestedOrderOfAnyNode | umh-core/fsmv2/diagnosis/engine.go:582-609 | helper: every outcome of sorting an indexed node's fired refinements is the one reported |
| Refinements.NestedOrderOfAnyRun | umh-core/fsmv2/diagnosis/engine.go:582-609 | after every run, for every node of the tree at any depth, the reported order of its fired refinements is the only outcome of any sort of any arrangement |
| LatchRuns.LatchIsTimely | umh-core/fsmv2/diagnosis/judge.go:191-262 | after every run a fired latch had a trusted update less than its demote span ago |
| LatchRuns.FiredRestsOnEvidence | umh-core/fsmv2/diagnosis/judge.go:191-240 | its value and marks are the answer of a declared instrument at some step of the run |
| LatchRuns.NewFireWaitsOutTheSpan | umh-core/fsmv2/diagnosis/judge.go:191-262 | a new fire is dated now, rests on this step's answer, and comes at least the declared span of the instrument that fired after the last release |
| LatchRuns.EpisodesFollowOneAnother | umh-core/fsmv2/diagnosis/judge.go:191-262 | the date is constant within an episode, even when the blame moves, and strictly later in a later one |
| LatchRuns.EveryLatchOfAnyRun | umh-core/fsmv2/diagnosis/engine.go:549-573 | all of this for every latch at every depth of the engine after every run, with severity in [0,1] |
| LatchRuns.NewFireOfAnyRun | umh-core/fsmv2/diagnosis/engine.go:549-573 | the same for every new fire of every signal of the engine |
| LatchRuns.EpisodesOfAnyRun | umh-core/fsmv2/diagnosis/engine.go:549-573 | and for the episodes of every signal of the engine |
| Suites.ComputeMinCapableMin | umh-core/fsmv2/diagnosis/suite.go:213-235 | the running minimum over the capable instruments |
| Conformance.MinimumFacts | umh-core/fsmv2/diagnosis/suite.go:213-235 | that minimum is at least one, is a lower bound, and is attained |
| Suites.Drive | umh-core/fsmv2/diagnosis/suite.go:184-209 | the loop over ticks on a real engine ends in the availability of the value model's run |
| Suites.RunScenario | umh-core/fsmv2/diagnosis/suite.go:127-182 | a scenario on a fresh engine over its one signal, whatever else the table holds; panics exactly when there is no such signal or it is refused on its own |
| Suites.RunSuite | umh-core/fsmv2/diagnosis/suite.go:117-124 | six outcomes per signal in the suite's order, or a panic exactly when some signal is refused on its own |
| Suites.SuiteEntry | umh-core/fsmv2/diagnosis/suite.go:53-73 | for a valid table, which outcome of which scenario stands at which position |
| Suites.AllValidRun | umh-core/fsmv2/diagnosis/suite.go:137-142 | a valid table's signals are each valid alone, so the suite does not panic |
| Suites.RowsSurviveJudging | umh-core/fsmv2/diagnosis/engine.go:549-580 | judging latches does not disturb readiness rows |
| Conformance.AvailabilityIsMaximum | umh-core/fsmv2/diagnosis/engine.go:480-518 | a signal's availability is the best state among its capable windows |
| Conformance.LiveState | umh-core/fsmv2/diagnosis/suite.go:95-105 | the state of any window after any number of readable ticks up to its minimum |
| Conformance.OutageState | umh-core/fsmv2/diagnosis/suite.go:95-105 | and after an outage of any length |
| Conformance.DipState | umh-core/fsmv2/diagnosis/suite.go:95-105 | and after a long outage and one readable tick |
| Conformance.OutcomeTable | umh-core/fsmv2/diagnosis/suite.go:86-209 | each of the six sequences ends in exactly the availability the declarations prescribe, for every valid signal, environment, feed and interval, set or not |
| Conformance.DocumentedTable | umh-core/fsmv2/diagnosis/suite.go:86-116 | the documented rows with their starred exceptions, for a set interval, spans at least it, built-in reductions and a capable instrument |
| Conformance.UnsetIntervalBreaksLive | umh-core/fsmv2/diagnosis/suite.go:111-115 | a valid table without an interval whose live case is not Ready |
| LifecycleFlags.DesiredStore.RequestShutdownOf | umh-core/fsmv2/supervisor/lifecycle.go:647-700 | the stored documents after a request, with reads and saves that may fail; success leaves the flag set |
| LifecycleFlags.DesiredStore.SetDisabledOf | umh-core/fsmv2/supervisor/lifecycle.go:1000-1046 | the same for the disable flag |
| LifecycleFlags.DesiredStore.ClearShutdownOf | umh-core/fsmv2/supervisor/lifecycle.go:1072-1106 | the same for clearing, where a missing document is an error |
| LifecycleFlags.DesiredStore.SaveDerivedOf | umh-core/fsmv2/supervisor/reconciliation.go:1078-1157 | a derive save carries both flags forward, and a failed read saves nothing |
| LifecycleFlags.RunKeepsInv | umh-core/fsmv2/supervisor/reconciliation.go:1115-1147 | in every interleaving of any number of goroutines only the lock holder is inside, what it loaded is still stored, and the store is the commits replayed one by one |
| LifecycleFlags.FlagsOfReplay | umh-core/fsmv2/supervisor/reconciliation.go:1115-1147 | a sequence of whole commits leaves each flag as its last setter made it |
| LifecycleFlags.FlagsBelongToTheirSetters | umh-core/fsmv2/supervisor/reconciliation.go:1078-1157 | hence in every interleaving, failed reads and saves included, both flags are their last committed setter's and no derive changes either |
| LifecycleFlags.DeriveKeepsFlagsExactlyWhenClean | umh-core/fsmv2/supervisor/reconciliation.go:1110-1147 | helper: the exact condition behind FlagsBelongToTheirSetters' hypothesis, that a derive brings no flag that was not set |
| LifecycleFlags.WithoutTheMutexARequestIsLost | umh-core/fsmv2/supervisor/reconciliation.go:1115-1121 | without the mutex there is an interleaving that wipes a request |
| Removal.Registry.AddWorker | umh-core/fsmv2/supervisor/api.go:55-112 | registers only with the tombstone cleared, refuses a registered id, and changes nothing on a failed write |
| Removal.Registry.BeginRemoval | umh-core/fsmv2/supervisor/reconciliation.go:1229-1264 | the tombstone is written while the id is registered |
| Removal.Registry.FinishRemoval | umh-core/fsmv2/supervisor/reconciliation.go:1297-1307 | only then does the worker leave |
| Removal.Registry.RemoveWorkerForRestart | umh-core/fsmv2/supervisor/api.go:567-588 | leaves without a tombstone, for any id; the registry stays valid exactly when that id was not being removed |
| Removal.RunKeepsInv | umh-core/fsmv2/supervisor/reconciliation.go:1192-1310 | every interleaving keeps: one removal at a time, registered, the only registered worker with a tombstone, exactly if its write succeeded; the order of the log |
| Removal.RemovalAgainstReAdd | umh-core/fsmv2/supervisor/reconciliation.go:1229-1307 | a registered worker not being removed has no tombstone; an id being removed is registered, and tombstoned if its write succeeded |
| Removal.EmptyOnlyAfterFinalObservations | umh-core/fsmv2/supervisor/lifecycle.go:383-457 | a drain sees no workers only after every removed worker's final observation, made on a live context |
| Removal.CancelOnlyAfterFinalObservations | umh-core/fsmv2/supervisor/lifecycle.go:457-467 | in every run whose log has no add since the drain saw no workers, the cancel follows every removed worker's final observation |
| Removal.CancelCutsOffExactlyTheMarked | umh-core/fsmv2/supervisor/lifecycle.go:457-467 | at any moment a cancel cuts a removal off exactly when one is begun and not observed, also after a drain that gave up |
| Removal.CutOffExactlyWhenExposed | umh-core/fsmv2/supervisor/lifecycle.go:383-467 | from every state after the drain's last look, some steps without an add end in a cancel that cuts a removal off exactly when a worker is registered that is not a finally observed one about to leave |
| Removal.LateAddIsCutOff | umh-core/fsmv2/supervisor/api.go:55-112 | from every such state without an exposed worker, adding any worker leads to one whose observation is cut off |
| CollectorHealth.CheckThresholds | umh-core/fsmv2/supervisor/supervisor.go:236-281 | accepts exactly the thresholds in order after defaults |
| CollectorHealth.VerdictOf | umh-core/fsmv2/supervisor/reconciliation.go:233-289 | with accepted thresholds a tick passes exactly on a shutdown request or data younger than the stale threshold |
| CollectorHealth.RestartsAreBounded | umh-core/fsmv2/supervisor/reconciliation.go:1463-1502 | over every run 0 <= restarts <= maximum, the k-th in a row comes at least 2k seconds after the restart before it, and counts are consecutive |
| CollectorHealth.RestartsTakeTime | umh-core/fsmv2/supervisor/reconciliation.go:1478-1502 | so the n-th restart in a row comes at least n(n+1)-2 seconds after the first |
| CollectorHealth.RestartsUntilRecovery | umh-core/fsmv2/supervisor/reconciliation.go:233-289 | without a recovery every restart counts and at most the maximum happen |
| CollectorHealth.AfterTheMaximumOnlyEscalation | umh-core/fsmv2/supervisor/reconciliation.go:233-258 | after the maximum, until a recovery, nothing restarts and every timed-out tick escalates |
| ActionGate.NotAgainBeforeNews | umh-core/fsmv2/supervisor/reconciliation.go:302-341 | after an action the state is not evaluated before an observation newer than the action's is read, in whatever order they arrive |
| ActionGate.IncreasingExactlyWhenSteady | umh-core/fsmv2/supervisor/reconciliation.go:302-417 | the observations actions were enqueued on strictly increase, whatever the state machine asks for, exactly when the observations read never fall back to an instant they had risen above |
| TickWorker.Supervisor.RestartCollector | umh-core/fsmv2/supervisor/reconciliation.go:1463-1548 | restarts exactly when the backoff has passed; its panic is its precondition, which every call meets |
| TickWorker.Supervisor.TickWorker | umh-core/fsmv2/supervisor/reconciliation.go:96-527 | the object's tick equals the value model's: freshness, restart or escalation, gate, evaluation |
| TickWorker.Supervisor.EvaluateState | umh-core/fsmv2/supervisor/reconciliation.go:343-527 | evaluating the state: invalid answers, busy and failing executors, enqueueing, transition, signal |
| TickWorker.HealthFollowsLooks | umh-core/fsmv2/supervisor/reconciliation.go:233-300 | the collector health over a run of ticks is that of its looks, so the restart theorems hold of ticks |
| TickWorker.ActionsRestOnNewObservations | umh-core/fsmv2/supervisor/reconciliation.go:302-417 | over every run of a worker without a shutdown request and with steady observations, the state is never evaluated, and no action enqueued, on one no newer than an earlier action's |
| TickWorker.ActionsRestOnNewerOnes | umh-core/fsmv2/supervisor/reconciliation.go:302-417 | in particular when observations are read in the order they were made |
| SimpleWorker.RequestStays | umh-core/fsmv2/supervisor/reconciliation.go:825-852 | a stored request survives derives, disables, failed writes and ticks on the last good config |
| SimpleWorker.TwoTicksToRemoval | umh-core/fsmv2/simple/state.go:34-108 | of two ticks that reach the worker with the request stored, and no forced reset between, the second signals removal, whatever the observation's age, verdict, disable flag or gates |
| SimpleWorker.NoRemovalWithoutRequest | umh-core/fsmv2/simple/state.go:85-108 | helper, the converse of TwoTicksToRemoval: at every tick of every run removal is signalled only with the stored request |
| SimpleWorker.SilentCollectorEndsInRemoval | umh-core/fsmv2/supervisor/reconciliation.go:233-258 | a collector silent past its last restart is escalated, and two more ticks signal removal |
| PanicCircuit.PanicRecovery.PruneExpired | umh-core/fsmv2/supervisor/panic_recovery.go:57-68 | the loop leaves exactly the instants within the window |
| PanicCircuit.PanicRecovery.RecordPanic | umh-core/fsmv2/supervisor/panic_recovery.go:45-54 | the list with the new instant, pruned, and whether the maximum is reached |
| PanicCircuit.PanicRecovery.PanicCount | umh-core/fsmv2/supervisor/panic_recovery.go:70-77 | the pruned list and its length |
| PanicCircuit.Guard.TickGuarded | umh-core/fsmv2/supervisor/reconciliation.go:558-625 | how a whole tick opens, keeps and closes the circuit, and whether its body runs |
| PanicCircuit.PanicRate | umh-core/fsmv2/supervisor/reconciliation.go:598-625 | over every run any half-open stretch of the window's length holds at most the maximum of tick panics |
| PanicCircuit.ListIsHistory | umh-core/fsmv2/supervisor/panic_recovery.go:45-77 | the list is the history of panics filtered to the window; a body runs exactly when the circuit is closed or no panic is left in the window |
| PanicCircuit.RateIsAttained | umh-core/fsmv2/supervisor/panic_recovery.go:45-54 | the bound is reached, and then the circuit is open |
| Drain.CalculateSubtreeHeight | umh-core/fsmv2/supervisor/lifecycle.go:593-614 | the running maximum is the height |
| Drain.Shutdown | umh-core/fsmv2/supervisor/lifecycle.go:223-532 | when a call returns, which phase or re-check event each level reports, whether the drain counts as clean, and until when the tick loop stays busy; for levels still started, shut down before, or being drained by the tick loop, and for callers that own the tick loop or do not |
| Drain.OwnShare | umh-core/fsmv2/supervisor/lifecycle.go:334-474 | helper of the bounds below: a level drains within the larger of its budget and its children's drains, and then waits for the tick loop; within its budget exactly when its children and the tick loop are |
| Drain.TimeoutMeansOwnWindow | umh-core/fsmv2/supervisor/lifecycle.go:325-532 | helper, the meaning of what Shutdown reports: a timeout exactly when own workers had a positive window and used it up, exhaustion exactly when the children spent the budget or the join overran |
| Drain.RecheckExactly | umh-core/fsmv2/supervisor/lifecycle.go:508-542 | the check after the joins warns exactly when no phase has and the tick loop is busy past budget and slack; a drain is clean exactly when forced, or quiet and over within budget and slack |
| Drain.RecheckNeedsWidth | umh-core/fsmv2/supervisor/lifecycle.go:508-532 | it can warn only for a shape whose weight exceeds its height |
| Drain.ReapedChildOverruns | umh-core/fsmv2/supervisor/lifecycle.go:301-309 | a tree for which it does warn: nothing to wait for but a reaped child with four stuck leaves |
| Drain.ChainWithinBudget | umh-core/fsmv2/supervisor/lifecycle.go:271-477 | a chain of height h drains within base * h, the join included |
| Drain.EndWithinWeight | umh-core/fsmv2/supervisor/lifecycle.go:271-477 | any tree drains within base times the weight of its shape, the join included |
| Drain.StuckTakesItsWeight | umh-core/fsmv2/supervisor/lifecycle.go:271-457 | which workers that never stop attain |
| Drain.AnyTreeWithinLeaves | umh-core/fsmv2/supervisor/lifecycle.go:271-477 | hence within base * height * leaves |
| Drain.WithinOwnBudgetExactly | umh-core/fsmv2/supervisor/lifecycle.go:297-311 | a shape keeps to its own budget, whatever its workers do and however the cascade finds its levels, exactly when its weight is its height |
| Drain.WideTreeOverruns | umh-core/fsmv2/supervisor/lifecycle.go:297-311 | three stuck leaves overrun their parent's budget |
| Children.Parent.ReconcileChildren | umh-core/fsmv2/supervisor/reconciliation.go:1646-1959 | the loops over specs, children and marks change the object as the value model says |
| Children.ReconciledName | umh-core/fsmv2/supervisor/reconciliation.go:1646-1959 | what a reconciliation leaves of each name, from any state, duplicate specs and failed creations included |
| Children.MarkedExactlyTheUnlisted | umh-core/fsmv2/supervisor/reconciliation.go:1646-1915 | afterwards the marked names are the resident children absent from the specs, unless exactly a child was created under a stale mark |
| Children.FromSoundStates | umh-core/fsmv2/supervisor/reconciliation.go:1646-1959 | from states whose marked names are resident that always holds, is kept, and a child leaves exactly when unlisted and without workers |
| Children.TickKeepsSound | umh-core/fsmv2/supervisor/reconciliation.go:861-956 | a whole tick, removals included, keeps every marked name resident and creates nothing under a mark, unless a removed worker is added again before the tick looks for it |
| Children.RunsStaySound | umh-core/fsmv2/supervisor/reconciliation.go:861-956 | so does every run of ticks with workers coming and going in between |
| Children.ReAddLeavesAMarkExactly | umh-core/fsmv2/supervisor/reconciliation.go:1266-1283 | exactly which ticks with such a re-add leave a mark that is not on an unlisted child |
| Children.ReAddReachesAStaleMark | umh-core/fsmv2/supervisor/reconciliation.go:861-956 | the interleaving, from an empty family, and that the next reconciliation clears the mark |
| Children.FirstRoundSettles | umh-core/fsmv2/supervisor/reconciliation.go:1646-1959 | with creations that succeed one reconciliation makes every spec resident and marks the rest |
| Children.ChildrenConverge | umh-core/fsmv2/supervisor/reconciliation.go:1646-1959 | under constant specs and draining workers the children are the specs after more rounds than workers were left, and stay so |
| DeriveCache.Deriver.DeriveDesiredStateCached | umh-core/fsmv2/supervisor/reconciliation.go:993-1071 | hit, miss, config error and other error on the cached fields, and when a config error is logged |
| DeriveCache.CacheRefinesExactly | umh-core/fsmv2/supervisor/reconciliation.go:993-1071 | over every sequence of specs each tick gets what deriving on every tick would, exactly when the hash separates specs that derive differently |
| DeriveCache.CollisionFreeCacheRefines | umh-core/fsmv2/supervisor/reconciliation.go:993-1071 | in particular with a collision-free hash |
| DeriveCache.CacheRefines | umh-core/fsmv2/supervisor/reconciliation.go:993-1071 | helper, one direction of it: each tick gets the state of the latest spec that derived |
| DeriveCache.ErrorsChangeNothing | umh-core/fsmv2/supervisor/reconciliation.go:834-852 | helper of StoredIsLastGood: an error changes neither the cached state, nor its hash, nor the store |
| DeriveCache.StoredIsLastGood | umh-core/fsmv2/supervisor/reconciliation.go:834-852 | with a store that answers, the stored state is the last good one with the flags it had |
| LogSuppression.DedupLogger.LogErrorDedup | umh-core/fsmv2/logger/dedup.go:95-142 | the new state and the lines written by one call |
| LogSuppression.DedupLogger.EndCycle | umh-core/fsmv2/logger/dedup.go:146-172 | a final summary and a cleared identity |
| LogSuppression.DedupConserves | umh-core/fsmv2/logger/dedup.go:95-172 | for every sequence of calls, resets and clocks and every format: occurrences are those written in full, those counted in summaries and those pending |
| LogSuppression.ThrottledLogger.Log | umh-core/fsmv2/logger/throttle.go:68-115 | the new entries and the lines written by one call |
| LogSuppression.ThrottleConserves | umh-core/fsmv2/logger/throttle.go:68-115 | for every sequence of calls and clocks and every key: calls are boundary lines, counts folded into them and those pending |

## Left out

- Late readings: instants are positive and do not decrease, as `sliding_window.go:133-158` asks.
- Floating point: values are reals, so rounding and overflow are not modelled; the percentile rank is the exact ceiling.
- Integer widths: counters and durations do not wrap around.
- `Engine.Select` on a refinement, which its documentation does not support.
- Reductions made with `NewReduction` take part as folds that may yield a non-number; their code is not modelled.
- Sorting in place: `Rank` and the nested sort work on sequences, for any outcome a sort may have; aliasing with the caller's slice is not modelled.
- Latches and measurement windows inside the engine are values in its tree, as Go embeds them; a latch is driven through a `Latch` object that takes its value and gives it back.
- The texts of validation errors: a check says which rule is broken and where, not in which words.
- JSON, YAML and template handling, reflection, the storage, collector and executor packages: they appear as answers a step is given.
- The clock within a tick: one tick reads it once, so two reads that straddle a threshold are not modelled.
- Gating counters and state durations, which only feed logs and metrics.
- The document's `originalUserSpec` field, which a setter's typed load and save drops.
- Lifecycle flags across `AddWorker`, which saves a freshly derived document.
- Requests on unregistered workers are refused before they reach the store (`DesiredStore`); the interleaved machine has only those that do.
- `RemoveWorkerForRestart` from any goroutine but the ticking one: in the protocol of `Removal` only that one calls it, as in the source, although the method is exported.
- A tick that panics inside a removal, which leaves the worker marked as being removed for good.
- Removal and drain of one supervisor; that a removal first shuts down the children is in `Drain`, not in `Removal`.
- A recovery handler that itself panics opens the circuit without an entry and is not modelled.
- The drain's trees do not grow or shrink during a shutdown; bookkeeping takes no time and the timer wins a tie; the tick loop leaves once the drains the cascade came across are over, and whatever else it may be doing then is not modelled, nor is a level drained by a goroutine other than the tick loop.
- A derive that returns no state and no error, which the source never finds in its cache again; in the model every successful derive has a state.
- Whether a clean drain outcome means no workers are left: a forced exit never marks the drain as timed out.
- A child listed again after its shutdown request loses its mark but keeps the stored request; that it resumes is not claimed, as it is not so.
- Validation of child specs: names are compared only among changed specs.
- The infrastructure circuit, pending re-adds and the disable mapping beyond its setter.
- Log levels and escalation, metrics, Sentry hooks, heartbeats, debug information, `cmd/`, `integration/`, registries and charts.
