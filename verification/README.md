# Mission engine and delegated access: a verified model

A Dafny model of three parts of the repository, with proofs about them.

- **The mission engine** (`src/autonomy`). A planner builds a task graph, a validator decides whether
  it may run, and the executor steps through it: a failed validation goes to a bounded repair
  controller, and a successful repair reopens the whole validation chain. Operators pause, cancel and
  retry through the same stored record behind a per-mission lock. The sequential loop is a class with
  its store (`MissionExecutor`), proved equal to a function (`MissionRun.RunFrom`) about which
  termination, freshness and stalling are proved; `RunEnds` and `AttemptEffects` say what each way out
  and each attempt writes. The same loop, entered any number of times beside any number of operator
  calls, is a step system (`MissionSystem`), with its theorems in `MissionInterleaving`,
  `SystemSteps` and `CancelledTasks`; `QuietRun` proves that its schedules without controls are the
  run of that function. The controls themselves are `MissionControl`, the repair controller over
  whole runs is `RepairRuns`, and the standalone validate-and-repair loop is `RepairLoop`.
- **The graph algorithms it relies on**: the validator's depth-first search, the impact analysis'
  breadth-first search, Kahn's ordering with its cyclic rest, and the conflict-free batch scheduler.
  Each is an imperative loop proved against a declarative notion: acyclicity, shortest distance,
  cycle-freedom of a file's imports, paths covered by two resources.
- **Delegated access and accounting** (`src/access`, `src/agent`): usage ledger, authorisation and
  single-use approvals, grant narrowing, device codes, branch patterns, IP blocks, fixed-point cost,
  and the agent loop's reservations and transcript. Classes keep the stores; their methods are proved
  equal to functions on values, and whole runs of operations are sequences folded with those functions.
  What the functions do is stated apart from them, in terms of their inputs and of what happened
  before: `AuthorizationDecisions`, `ApprovalProvenance`, `NarrowingEffect`, `LedgerEffects`,
  `DevicePolls`, `ClientMatching`, `Conversation`.

Time is a parameter, and so is every generated id. Task executors, tools, providers, validators,
repair strategies and edit sessions are oracles: functions of the call number that may return any
result or throw. One synchronous store operation is one atomic step. Each source file has its own
module or modules; `Digraph`, `DecimalStrings`, `Text` and `Options` are shared.

Where code and documentation disagree, the model follows the code:

- `src/access/microdollars.ts:25-28` speaks of canonical strings, and the code accepts leading zeros;
  `CostArithmetic.ParsedStringsPrintBack` says exactly which accepted strings print back unchanged.
- A committed cancel is said to win over the loop, and can be lost
  (`src/autonomy/persistent-mission-executor.ts:158-169,310-319`):
  `CancelledTasks.CancelBeforeMarkIsLost` and `CancelledTasks.CancelDuringResumeIsLost` are
  two such runs, and `CancelledTasks.CancelledTaskIsLostExactlyWhen` says of every step of every
  interleaving, from what can be read before the step, whether it is one that loses a cancel.
- A repair loop interrupted in the middle of an edit and resumed can complete although a command never
  passed after that edit (`src/autonomy/autonomous-repair-loop.ts:167-172,219-222,279-308`):
  `RepairLoop.CrashDuringEdit` is such a run, and `RepairLoop.EveryRunEnds` says exactly when a run
  that completes leaves every command passed after the last edit.

## Model

| member | source | states |
|---|---|---|
| `TaskGraph.ValidateAutonomousTaskGraph` | src/autonomy/task-graph.ts:7-81 | accepts a graph if and only if ids are distinct, retry policies legal, dependencies known and the dependency relation acyclic; every finding is real and none is missed |
| `TaskGraph.GraphValidator.Visit` | src/autonomy/task-graph.ts:58-76 | the visiting set is the chain of calls in progress, so every cycle finding names a task on a real cycle; the recursion ends on cyclic input; a task left without finding is visited and ranked above its dependencies |
| `TaskGraph.GraphValidator.Explore` | src/autonomy/task-graph.ts:72-75 | the visit of a task not yet seen: it ends visited, with only real cycles reported on the way |
| `TaskGraph.GraphValidator.VisitAll` | src/autonomy/task-graph.ts:73 | the same for all dependencies of the task on top of the chain |
| `TaskGraph.GraphValidator.Validate` | src/autonomy/task-graph.ts:7-81 | after the three passes: no finding exactly for a well-formed task list |
| `TaskGraph.GraphValidator.RankedIsAcyclic` | src/autonomy/task-graph.ts:55-78 | when every visited task is ranked above its dependencies, no cycle exists, so none was missed |
| `TaskGraph.AcceptedIsWellFormed` | src/autonomy/task-graph.ts:7-81 | no finding implies every clause of well-formedness |
| `TaskGraph.RejectedIsMalformed` | src/autonomy/task-graph.ts:7-81 | any finding names a clause that really fails |
| `Planner.PlanIsWellFormed` | src/autonomy/autonomous-repository-planner.ts:35-99 | for any command list, objective and affected files the planner's graph meets the validator's condition |
| `Planner.PlanIdsUnique` | src/autonomy/autonomous-repository-planner.ts:35-99 | no two planned tasks share an id, whatever the number of commands |
| `Planner.PlanIsAChain` | src/autonomy/autonomous-repository-planner.ts:35-99 | three analyses without dependencies, one edit of the affected files after all three, and per command a validation after the one before it |
| `Planner.ValidationIsNeverStale` | src/autonomy/persistent-mission-executor.ts:458-493 | in a planned run that ends with every task completed, the last pass of each validation is later than the edit, every successful repair and the pass of the validation before it; in any run a task starts only after its dependencies completed |
| `Planner.PlannedRunIsBounded` | src/autonomy/autonomous-repository-planner.ts:71-98 | a planned mission with n commands and R repairs left executes at most (R+1)(n+4) + R + (2n+4) tasks |
| `Planner.PlannedMissionCompletes` | src/autonomy/persistent-mission-executor.ts:171-234 | a planned mission is completed exactly when its run finishes or a limit ends it, with every task over then |
| `RepairRuns.EditsSpendTheAttempts` | src/autonomy/persistent-mission-repair-controller.ts:116-233 | over any sequence of validations and repairs the edit executor runs exactly once per attempt spent, so never more often than attempts were left |
| `RepairRuns.CompletedPhasesStand` | src/autonomy/persistent-mission-repair-controller.ts:76-114 | in any run the completed phases are exactly those with a recorded pass that no later failure and no later edit undid |
| `RepairRuns.CompletionIsEarned` | src/autonomy/persistent-mission-repair-controller.ts:83-96 | the controller reports completion only when such a pass of every validation command stands |
| `RepairRuns.RepairAnswers` | src/autonomy/persistent-mission-repair-controller.ts:116-233 | at any point of a run: refused without a failed result or with the attempts used up, leaving results and phases alone; otherwise the result is the edit's, or a failure with the message when it throws, and every phase is forgotten |
| `RepairRuns.ValidationIsRecorded` | src/autonomy/persistent-mission-repair-controller.ts:76-96 | after a run and one more validation the results are those told, in order; the controller repairs after a failure, is completed exactly if a pass of every phase stands, and validates on otherwise |
| `RepairRuns.PersistentMissionRepairController.RecordValidation` | src/autonomy/persistent-mission-repair-controller.ts:76-114 | the stored record, created on first use, after a pass or a failure is that of the run function |
| `RepairRuns.PersistentMissionRepairController.Repair` | src/autonomy/persistent-mission-repair-controller.ts:116-233 | record and result are those of one attempt: refused without a recorded failure or with the attempts used up |
| `MissionRun.AttemptCases` | src/autonomy/persistent-mission-executor.ts:296-433 | an attempt either settles its own task and touches no other, or is a successful repair that reopens only validation tasks |
| `MissionAttempt.AttemptLowersPotential` | src/autonomy/persistent-mission-executor.ts:296-433 | on any task list, repeated ids included, every attempt lowers a potential built from repairs left, unfinished tasks and the retries left to each id, although a repair reopens finished tasks |
| `MissionRun.CallsWithinPotential` | src/autonomy/persistent-mission-executor.ts:171-234 | on any task list the executions of a run are at most the potential it starts with |
| `MissionRun.RunIsBounded` | src/autonomy/persistent-mission-executor.ts:171-234 | with N tasks of distinct ids and R repairs left a run executes at most (R+1)N + R + the sum of the retry limits |
| `MissionRun.RunOnStored` | src/autonomy/persistent-mission-executor.ts:171-241 | entered with the record that is stored, the loop is the run function and leaves its record stored |
| `RunEnds.EveryRunEndsRightly` | src/autonomy/persistent-mission-executor.ts:171-294 | from the state in which a run takes its last decision: an abort interrupts every task that is not completed, failed, cancelled or blocked and changes nothing else (nothing at all on a completed mission or one whose tasks are all over); a limit fails all of them with its message and completes the mission; otherwise the mission is completed exactly if every task is over, and left as it is if some task is not over and each one waiting has a dependency nobody completed |
| `RunEnds.ExitTellsTheTasks` | src/autonomy/persistent-mission-executor.ts:171-234 | finished means completed with every task completed, failed, cancelled or blocked; stalled means some task is in none of these states and completion is as it was at the start; an aborted mission stays uncompleted with every other task interrupted |
| `RunEnds.EntryEndsRightly` | src/autonomy/persistent-mission-executor.ts:171-294 | a loop that stops at once, entered with any record beside any stored one, does this to the stored record, and what it did is stored exactly when it changed something |
| `RunEnds.HaltingDecision` | src/autonomy/persistent-mission-executor.ts:218-230 | in the interleaved loop a decision that halts has completed the mission with every task of its copy over, or has written nothing because some task is not over and none can start |
| `RunEnds.StoppedUnderTheLock` | src/autonomy/persistent-mission-executor.ts:178-294 | in every interleaving a loop that is stopped or gives up under the lock does so to the record stored then, whatever happened since it asked for the lock |
| `AttemptEffects.AttemptWrites` | src/autonomy/persistent-mission-executor.ts:296-433 | on any task list an attempt executes the first task with the id in the active state of its kind and writes exactly: the returned state, one attempt more, evidence, artifacts without repeats in order, diagnostics and files; for a throw another try below the retry limit and failure at it; for a failed validation with a repairing executor the two saves around the repair |
| `AttemptEffects.ReopenEffect` | src/autonomy/persistent-mission-executor.ts:458-493 | a successful repair makes every validation task ready if all its dependencies are completed tasks of other kinds and queued otherwise, records the repair with the failed one, and touches no other task |
| `AttemptEffects.ReconcilingInterruptsTheActive` | src/autonomy/persistent-mission-executor.ts:506-517 | on start and resume exactly the running, validating and repairing tasks become interrupted |
| `MissionGuarantees.StalledOnlyBehindBadEnd` | src/autonomy/persistent-mission-executor.ts:218-230 | on an accepted graph an undisturbed loop stops unfinished only when each unfinished task depends, directly or not, on a failed, blocked or cancelled one |
| `MissionGuarantees.EnteredStallsOnlyBehindBadEnd` | src/autonomy/persistent-mission-executor.ts:141-169 | the same for every run entered through start or resume, whatever states the tasks were left in |
| `MissionGuarantees.UnfinishedIsDownstream` | src/autonomy/persistent-mission-executor.ts:519-527 | in an acyclic list without active and runnable tasks, every unfinished task is downstream of a bad end |
| `MissionGuarantees.RunKeepsFresh` | src/autonomy/persistent-mission-executor.ts:171-234 | a whole run, wherever it stops, keeps: a completed task completed after its dependencies did, validations after the last repair, and nothing started too early |
| `MissionGuarantees.ReopeningKeepsFresh` | src/autonomy/persistent-mission-executor.ts:458-493 | reopening the chain after a repair leaves no completed validation older than that repair |
| `MissionExecutor.PersistentMissionExecutor.Start` | src/autonomy/persistent-mission-executor.ts:141-156 | for any graph, repeated ids included, the stored and returned record and the exit are those of the run function from the reconciled graph |
| `MissionExecutor.PersistentMissionExecutor.Resume` | src/autonomy/persistent-mission-executor.ts:158-169 | missing record refused, completed record returned untouched, any other reconciled and run |
| `MissionExecutor.PersistentMissionExecutor.Run` | src/autonomy/persistent-mission-executor.ts:171-241 | entered with any record beside any stored one, the loop terminates: it chooses from the first, writes over the second, is rejected when the chosen task is unknown there, and otherwise ends in the state, exit and store of the run function, which `RunEnds` describes |
| `MissionExecutor.PersistentMissionExecutor.ExecuteTask` | src/autonomy/persistent-mission-executor.ts:296-357 | store, repair record, call count and history after one execution are those of one attempt at the latest record; a task unknown there fails the call and changes nothing else |
| `MissionExecutor.PersistentMissionExecutor.ReconcileAfterTask` | src/autonomy/persistent-mission-executor.ts:359-379 | the outcome reaches the store only if the task is still in the state it was marked with; a missing record and an unknown task are errors that write nothing |
| `MissionExecutor.PersistentMissionExecutor.RepairFailure` | src/autonomy/persistent-mission-executor.ts:381-433 | failed validation recorded, one repair, and chain reopened or failure kept; an unknown task is an error that writes nothing |
| `MissionInterleaving.ResultAppliedOnlyIfUntouched` | src/autonomy/persistent-mission-executor.ts:359-379 | in every interleaving, whatever was queued when the loop was entered, a result is applied exactly when no control changed its task since the mark; otherwise the store stays as the control left it; no other task is altered |
| `MissionInterleaving.MarkingChangesOnlyItsTask` | src/autonomy/persistent-mission-executor.ts:310-319 | in every interleaving the mark rewrites the latest record with only that task's state changed |
| `MissionInterleaving.AlwaysInv` | src/autonomy/persistent-mission-executor.ts:141-378 | every reachable state: the loop is queued once while it waits, what it loaded under the lock is the stored record, and the task in flight is active exactly while untouched |
| `SystemSteps.ControlCommits` | src/autonomy/autonomous-mission-control.ts:42-109 | in every interleaving a control that holds the lock stores exactly its effect on what it loaded, task by task and with the completion taken back by a retry only, or is refused and stores nothing when it has none; while a task is in flight it has loaded the stored record |
| `SystemSteps.ResultWrites` | src/autonomy/persistent-mission-executor.ts:340-379 | in every interleaving the result of an untouched task is written to the stored record as it was returned or thrown |
| `SystemSteps.NextIsFirst` | src/autonomy/persistent-mission-executor.ts:519-527 | the task found is the first that waits with every dependency a completed task; none is found only if there is no such task |
| `SystemSteps.DecisionIsExact` | src/autonomy/persistent-mission-executor.ts:171-233 | an abort comes before the time limit, that before the budget, and that before work; otherwise the first waiting task whose dependencies are all completed is to be marked in the active state of its kind |
| `SystemSteps.EntryIsExact` | src/autonomy/persistent-mission-executor.ts:141-169 | entering stores the record loaded with its active tasks interrupted; a completed mission is left alone |
| `SystemSteps.CallsAreExact` | src/autonomy/persistent-mission-executor.ts:141-169 | a start or a resume is taken up when no loop runs, a start with a fresh record; the first abort reason stays; a control queues behind all others; the holder of the lock loads once |
| `SystemSteps.SettlingIsExact` | src/autonomy/persistent-mission-executor.ts:323-400 | a settled task waits for the lock, except that a failed validation is recorded at once, in the loop's own copy, when there is a repair |
| `SystemSteps.RepairEndIsExact` | src/autonomy/persistent-mission-executor.ts:402-433 | a repair that ends is written over the loop's own copy, whatever is stored |
| `CancelledTasks.CancelledTaskIsLostExactlyWhen` | src/autonomy/persistent-mission-executor.ts:141-433 | in every reachable state a step takes a task out of the cancelled state if and only if the record it writes over the stored one had the task in another state, or the loop marks or settles that very id, or the task is retried, or a repair begins on, ends on or reopens it |
| `CancelledTasks.CancelledTaskIsUntouched` | src/autonomy/autonomous-mission-control.ts:51-60 | a step that starts from the stored record and leaves the task cancelled leaves all of it as it was |
| `CancelledTasks.CancelDuringResumeIsLost` | src/autonomy/persistent-mission-executor.ts:158-169 | a concrete run in which a cancel committed while a resume prepares is overwritten by the resume's save |
| `CancelledTasks.CancelBeforeMarkIsLost` | src/autonomy/persistent-mission-executor.ts:310-319 | a concrete run in which a committed cancel is overwritten by the mark |
| `QuietRun.ScheduleFollows` | src/autonomy/persistent-mission-executor.ts:171-433 | along every schedule without controls whose answers are an environment's, the step system stays in step with the run function, at the lock, in flight and in repair |
| `QuietRun.QuietScheduleIsTheRun` | src/autonomy/persistent-mission-executor.ts:171-241 | such a schedule that halts leaves exactly the record of the run function stored |
| `QuietRun.QuietScheduleHalts` | src/autonomy/persistent-mission-executor.ts:171-241 | from every state of such a schedule there is a way to the halt, for every environment |
| `MissionControl.AutonomousMissionControl.Mutate` | src/autonomy/autonomous-mission-control.ts:76-120 | an unknown mission and a control without effect leave the store alone; otherwise only that mission's record is replaced |
| `MissionControl.AutonomousMissionControl.Pause` | src/autonomy/autonomous-mission-control.ts:42-49 | a refused pause aborts no loop; an accepted one is stored and the running loop, if any, has an abort reason |
| `MissionControl.AutonomousMissionControl.Cancel` | src/autonomy/autonomous-mission-control.ts:51-60 | the same for cancel |
| `MissionControl.AutonomousMissionControl.Retry` | src/autonomy/autonomous-mission-control.ts:62-74 | stored if and only if some task failed, was blocked or cancelled |
| `MissionControl.ControlDoesItsWork` | src/autonomy/autonomous-mission-control.ts:42-109 | a control is refused exactly if no task concerns it; accepted, it leaves none that does, every other task as it was, and the graph's shape |
| `MissionControl.RepeatedControlIsRefused` | src/autonomy/autonomous-mission-control.ts:91-102 | a control repeated at once is refused |
| `MissionControl.CancelThenRetryReopens` | src/autonomy/autonomous-mission-control.ts:51-74 | cancel then retry keeps completed tasks and makes every other one ready or queued |
| `MissionLock.MissionExecutionLock.WithLock` | src/autonomy/mission-execution-lock.ts:17-28 | the new call waits for the current tail of its key, becomes the tail, and changes no other key |
| `MissionLock.BodiesRunInCallOrder` | src/autonomy/mission-execution-lock.ts:11-29 | in every reachable state a started body has only settled bodies of its key before it |
| `MissionLock.BodiesNeverOverlap` | src/autonomy/mission-execution-lock.ts:11-29 | two bodies of one key never run at once |
| `MissionLock.FirstWaitingCanStart` | src/autonomy/mission-execution-lock.ts:17-28 | once the bodies before it have settled, well or badly, the first waiting call can start |
| `MissionLock.EveryCallCanSettle` | src/autonomy/mission-execution-lock.ts:11-29 | no call is ever stuck: from every reachable state it can be brought to run and settle by settling what was asked for before it |
| `MissionLock.CallsAreThoseAsked` | src/autonomy/mission-execution-lock.ts:17-28 | the calls are the requests, one each, in order and with their keys |
| `MissionLock.EventsMoveCalls` | src/autonomy/mission-execution-lock.ts:17-28 | a new call waits; a running body settles as it does, and then its tail |
| `MissionLock.RejectionReachesOnlyItsCaller` | src/autonomy/mission-execution-lock.ts:17-28 | how a body settles changes nothing for any other call, after any further events |
| `MissionLock.KeysAreIndependent` | src/autonomy/mission-execution-lock.ts:11-29 | an event of one key changes no call of another and does not decide whether its body can start |
| `AbortRegistry.MissionExecutionAbortRegistry.RegisterIfAbsent` | src/autonomy/mission-execution-abort-registry.ts:25-33 | at most one loop per mission: a second registration gets nothing and changes nothing |
| `AbortRegistry.MissionExecutionAbortRegistry.Release` | src/autonomy/mission-execution-abort-registry.ts:35-41 | frees exactly that mission |
| `AbortRegistry.MissionExecutionAbortRegistry.RequestAbort` | src/autonomy/mission-execution-abort-registry.ts:43-48 | reaches the running loop of that mission only, and the first reason stays |
| `RepairLoop.EveryRunEnds` | src/autonomy/autonomous-repair-loop.ts:174-326 | every run ends completed or failed for its cause; repairs at most those left, validations at most (repairs+1) times the commands; results, attempts and files are those of the history; a completed run leaves every command passed after the last edit if and only if it repaired or the phases it found completed had passed since |
| `RepairLoop.AutonomousRepairLoop.Run` | src/autonomy/autonomous-repair-loop.ts:174-207 | the loop terminates with the record, the history and the stored record of the run function, and so with all of the above |
| `RepairLoop.PassEnds` | src/autonomy/autonomous-repair-loop.ts:209-243 | a pass ends with every phase completed, or right after the failure it reports, whatever phases it found completed |
| `RepairLoopEnds.LoopEndsWell` | src/autonomy/autonomous-repair-loop.ts:174-326 | a repair that was not applied ends the loop in failure at once; a completed loop lists every phase, and carries no error of its own |
| `RepairLoopEnds.RepairIsRecorded` | src/autonomy/autonomous-repair-loop.ts:245-326 | state, attempt with its edit state, phases, files and error after an applied edit, one that ended otherwise, and a repair that threw or had nothing to edit |
| `RepairLoop.AutonomousRepairLoop.RunValidationPass` | src/autonomy/autonomous-repair-loop.ts:209-243 | record, history and failure of the loop are those of the recursive pass, completed phases skipped |
| `RepairLoop.AutonomousRepairLoop.Repair` | src/autonomy/autonomous-repair-loop.ts:245-326 | one attempt recorded whatever comes of it; an applied edit reopens every phase, anything else ends the loop with its reason |
| `RepairLoop.AutonomousRepairLoop.Resume` | src/autonomy/autonomous-repair-loop.ts:167-172 | finished records are returned untouched, others run to an end with the same guarantees |
| `RepairLoop.AutonomousRepairLoop.Create` | src/autonomy/autonomous-repair-loop.ts:130-165 | refuses no commands and limits outside 0 to 10, else stores a fresh record |
| `RepairLoop.PassedSinceIsAPassAfterTheLastEdit` | src/autonomy/autonomous-repair-loop.ts:209-243 | the recursive freshness test holds exactly if some pass of the command has no later edit and no later result |
| `RepairLoop.CrashDuringEdit` | src/autonomy/autonomous-repair-loop.ts:167-172 | a concrete crash between an applied edit and its save: the resumed loop completes while the first command never passed after the edit; uninterrupted, the same loop ends with it passed |
| `RepairLoop.CrashDuringValidation` | src/autonomy/autonomous-repair-loop.ts:219-240 | losing an unsaved validation result leaves the phases the record lists exactly as true as before |
| `Scheduler.OverlapIffSharedPath` | src/autonomy/parallel-task-scheduler.ts:67-84 | two resources overlap exactly when some path is covered by both |
| `Scheduler.Intersects` | src/autonomy/parallel-task-scheduler.ts:71-84 | finds an overlapping pair exactly when there is one |
| `Scheduler.TasksConflict` | src/autonomy/parallel-task-scheduler.ts:54-65 | conflict exactly when a path covered by one task's writes is covered by the other's reads or writes |
| `Scheduler.SelectRunnableTaskBatch` | src/autonomy/parallel-task-scheduler.ts:9-52 | the batch is within the limit, runnable and free of interference; every candidate is selected or deferred in order; nothing is deferred without a conflict or a full batch; bad limits and graphs are refused |
| `Scheduler.CandidatesMayRun` | src/autonomy/parallel-task-scheduler.ts:24-32 | the candidates are exactly the tasks that wait, have all dependencies completed and a try left, in the order of the graph |
| `Scheduler.NormalizeIsExact` | src/autonomy/parallel-task-scheduler.ts:67-69 | backslashes are slashes, one dot and slash in front and one slash at the end are dropped, nothing else |
| `Scheduler.NonInterferingCommute` | src/autonomy/parallel-task-scheduler.ts:54-65 | two tasks that do not interfere give the same files in either order |
| `Scheduler.BatchIsSerialisable` | src/autonomy/parallel-task-scheduler.ts:24-52 | any permutation of a batch without interference gives the same files |
| `ImpactAnalysis.BuildReverseDependencies` | src/autonomy/repository-impact-analysis.ts:130-144 | the table holds exactly the reversed resolved imports |
| `ImpactAnalysis.TraverseImporters` | src/autonomy/repository-impact-analysis.ts:172-194 | adds exactly the files at shortest distance 2..maxDepth from the changed file that are not direct, on cyclic graphs too |
| `ImpactAnalysis.AnalyzeRepositoryImpact` | src/autonomy/repository-impact-analysis.ts:36-65 | direct files are the unchanged importers of changed files; transitive ones are those at shortest distance 2..maxDepth from some changed file, minus direct and changed ones |
| `DependencyOrder.InsertSorted` | src/autonomy/semantic-edit-orchestrator.ts:322-327 | no effect on a present value, otherwise inserted before the first entry that comes after it |
| `DependencyOrder.KahnOrder` | src/autonomy/semantic-edit-orchestrator.ts:228-247 | the ordered prefix is topological, and every file left over imports another file left over |
| `DependencyOrder.DependencyOrder` | src/autonomy/semantic-edit-orchestrator.ts:213-250 | a permutation of the candidates; files free of import cycles come first, each after its imports; an acyclic plan is fully ordered |
| `DependencyOrder.OrderIsExact` | src/autonomy/semantic-edit-orchestrator.ts:213-250 | the prefix holds exactly the files with no cycle among themselves and their transitive imports |
| `GovernanceStore.GovernanceStore.ReserveUsage` | src/access/governance-store.ts:221-261 | the store and answer are those of the ledger function, retried requests included |
| `GovernanceStore.GovernanceStore.SettleReservation` | src/access/governance-store.ts:263-293 | the store after settling is that of the ledger function, which `LedgerEffects.SettlingCharges` describes |
| `GovernanceStore.GovernanceStore.ReleaseReservation` | src/access/governance-store.ts:295-303 | only an open reservation is released, and no total changes |
| `GovernanceStore.GovernanceStore.SettleExpiredReservations` | src/access/governance-store.ts:305-315 | all overdue reservations are settled in full, and counted |
| `LedgerEffects.SettlingCharges` | src/access/governance-store.ts:263-293 | at any point of any run: settling an open reservation charges the reported amount, or all that was reserved when none is reported; that row is settled at it, the totals of its mission and of its grant on its day rise by it, and nothing else changes; a missing or closed reservation changes nothing |
| `LedgerEffects.ReleasingChargesNobody` | src/access/governance-store.ts:295-298 | an open reservation becomes released and no total and no other row changes; anything else changes nothing |
| `LedgerEffects.ReservingAddsOneOpenRow` | src/access/governance-store.ts:221-254 | a new request with a free id adds one open row for the amount asked, on the day of the clock, with five minutes to live unless told otherwise; any other adds none, and no total changes |
| `LedgerEffects.ReservingAnswers` | src/access/governance-store.ts:221-254 | the answer is the new reservation, or the one the request already had; a taken id is refused |
| `LedgerEffects.SweepChargesInFull` | src/access/governance-store.ts:299-315 | the sweep settles exactly the open reservations whose time ran out before now, each in full |
| `GovernanceStore.GovernanceStore.ConsumeRateLimitWindow` | src/access/governance-store.ts:333-341 | allowed if and only if fewer than the limit of the key's latest calls were made in the same window, whatever other keys did; the count includes this call; no other key's window changes |
| `GovernanceStore.LedgerIsAlwaysBalanced` | src/access/governance-store.ts:221-315 | after any operations each mission total and each (grant, day) total is the sum of its settled reservations |
| `GovernanceStore.ClosedReservationsStayClosed` | src/access/governance-store.ts:263-303 | settled and released are absorbing, and day, amount and owner of a reservation never change |
| `GovernanceStore.RetriedRequestReservesOnce` | src/access/governance-store.ts:221-261 | a retried request id, however much later, reserves nothing and gets the first reservation back |
| `GovernanceStore.ExpirySettlesExactlyTheOverdue` | src/access/governance-store.ts:305-315 | overdue reservations are settled at their full amount, no other row changes, and none stays overdue |
| `GovernanceStore.WindowCountsItsCalls` | src/access/governance-store.ts:333-341 | a key's counter is the number of its calls since its window last rolled over, whatever other keys do |
| `GovernanceStore.WindowAllowsItsFirstCalls` | src/access/governance-store.ts:328-341 | under a clock that never runs backwards exactly the first calls of a window, up to the limit, are allowed |
| `BranchGlob.MatchSegmentsIffBlocks` | src/access/access-branch-match.ts:11-27 | matches if and only if the branch splits into consecutive blocks, one matching segment per ordinary pattern segment and any number per `**` |
| `BranchGlob.BranchMatchesIffBlocks` | src/access/access-branch-match.ts:5-27 | a branch matches a pattern exactly if its segments, the pieces between slashes that are not empty, split into blocks along the pattern's |
| `BranchGlob.MatchSegmentIffBlocks` | src/access/access-branch-match.ts:29-34 | a segment matches if and only if it splits along its pattern, a star standing for any text |
| `BranchGlob.JoinSplit` | src/access/access-branch-match.ts:5-9 | splitting at the separator and joining again gives the name back |
| `BranchGlob.SplitIsExact` | src/access/access-branch-match.ts:5-9 | the pieces are the only texts without the separator that join to the whole |
| `BranchGlob.MatchesAnyBranchPattern` | src/access/access-branch-match.ts:36-41 | the first pattern that matches, and none only if no pattern does |
| `ClientConstraints.Ipv4ToInt` | src/access/client-constraints-match.ts:8-19 | four octets of at most 255 give their 32-bit address, anything else nothing |
| `ClientConstraints.CidrIsABlock` | src/access/client-constraints-match.ts:21-35 | a CIDR pattern admits exactly the addresses of its block, and every address when its length is zero |
| `ClientConstraints.SignedZeroAdmitsAll` | src/access/client-constraints-match.ts:26-32 | a length written as minus zero is length zero, which admits every address |
| `ClientMatching.AddressIsExact` | src/access/client-constraints-match.ts:8-19 | a text is read as an address exactly if it is four parts of one to three digits, each at most 255, with points between; the address is their number |
| `ClientMatching.PrefixIsExact` | src/access/client-constraints-match.ts:25-31 | a text is read as a length exactly if it is white space, at most one sign, digits for 0 to 32 and anything after; a minus sign only before zero |
| `ClientMatching.PatternIsExact` | src/access/client-constraints-match.ts:21-35 | a pattern without a slash admits its own text only; one with a slash exactly the addresses that agree with its base in the first bits |
| `ClientMatching.RefusedClients` | src/access/client-constraints-match.ts:46-69 | a client is refused exactly if a list that is not empty does not admit it, or it has no address or id to be found there |
| `GrantNarrowing.CapCheckIsExact` | src/access/grant-narrowing.ts:22-28 | the cap check accepts exactly the patches whose merged cap admits nothing new |
| `GrantNarrowing.FlagChecksAreExact` | src/access/grant-narrowing.ts:30-48 | the flag checks accept exactly the patches that neither allow more nor require less |
| `GrantNarrowing.AllowlistCheckIsExact` | src/access/grant-narrowing.ts:50-62 | the list check accepts exactly the patches whose merged list admits nothing new |
| `AccessGrantService.AccessGrantService.NarrowGrant` | src/access/access-grant-service.ts:407-495 | the store changes only by an accepted patch, and the stored grant then refines the one it replaces and enforces every field of the patch |
| `NarrowingEffect.AcceptanceIsExact` | src/access/access-grant-service.ts:421-454 | a patch is accepted exactly if its expiry is absent or an earlier date and none of its fields admits anything the grant does not |
| `NarrowingEffect.AcceptedPatchTakesEffect` | src/access/access-grant-service.ts:456-484 | after an accepted patch every field it names enforces what the patch says, the added capabilities are denied and no longer held, and every other field, denial and held capability is as it was |
| `NarrowingEffect.NarrowingIntersects` | src/access/access-grant-service.ts:407-495 | the narrowed grant permits a request of a client at a time exactly if the grant did and the patch does |
| `NarrowingEffect.ChainsIntersect` | src/access/access-grant-service.ts:407-495 | after any chain of patches exactly what the first grant and every accepted patch permit is permitted |
| `NarrowingEffect.DenialsAndEndsAreEnforced` | src/access/access-grant-service.ts:456-464 | an added denial refuses every name of its capability, and an earlier end every request from then on |
| `NarrowingRefinement.NarrowingRefinesAuthority` | src/access/access-grant-service.ts:407-495 | whatever request and client pass on the narrowed grant pass on the original at the same time, and no checked cap is looser |
| `NarrowingRefinement.ChainsOfPatchesRefine` | src/access/access-grant-service.ts:407-495 | the same after any chain of patches, and the version has risen by exactly the number of accepted ones |
| `Authorization.AuthorizationService.EvaluateRequest` | src/access/authorization-service.ts:245-352 | decision and store after it are those of the evaluation function, which `AuthorizationDecisions` describes |
| `Authorization.AuthorizationService.Decide` | src/access/authorization-service.ts:197-239 | only a pending, unexpired approval of this grant is decided; every refusal has its own answer |
| `AuthorizationDecisions.RefusalsAreExact` | src/access/authorization-service.ts:285-628 | fourteen reasons to refuse in their order of precedence, each spelled out over grant, request and time: the checks refuse for the first that holds, and pass exactly if none does |
| `AuthorizationDecisions.TheTableRefuses` | src/access/authorization-service.ts:245-352 | unknown capability, unknown grant, then that table: this is exactly when and why a request is refused before the policy |
| `AuthorizationDecisions.TheApplyingRuleDecides` | src/access/authorization-service.ts:156-172 | the first rule for the capability or its other name decides, whatever the other rules say; without one the first rule for high risk if the capability is of high risk; without that the first rule for all; and with none an approval is needed |
| `AuthorizationDecisions.ApprovalIsTaken` | src/access/authorization-service.ts:669-764 | where an approval is needed the first approved one for the very operation is consumed; without one the request waits for the first pending one, or for a new one that runs a day; nothing else is written |
| `AuthorizationDecisions.RefusedRequestsChangeNothing` | src/access/authorization-service.ts:245-352 | only a grant found past its end is rewritten, as expired |
| `ApprovalProvenance.OperatorDecides` | src/access/authorization-service.ts:197-239 | which approval a decision reaches, and that it is approved or denied as the operator said only while it waits and has not run out |
| `ApprovalProvenance.EveryApprovalHasAHistory` | src/access/authorization-service.ts:197-239 | in every run each approval was asked for by one request, and an approved or used one was then approved by the operator before its end |
| `ApprovalProvenance.AuthorisedOperationWasApproved` | src/access/authorization-service.ts:160-239 | whatever an approval authorises was asked for earlier in the run as the same operation under the same grant version, less than a day ago, and approved in between |
| `ApprovalRuns.ApprovalsAreConserved` | src/access/authorization-service.ts:630-722 | per operation key and in any run: operator approvals equal authorisations through approval plus approvals unused |
| `ApprovalRuns.ApprovalsAreSingleUse` | src/access/authorization-service.ts:630-722 | no key is authorised through approval more often than it was approved |
| `ApprovalRuns.ApprovalsOnlyMoveForward` | src/access/authorization-service.ts:197-239 | denied, expired and consumed are absorbing between any two points of a run |
| `ApprovalRuns.ApprovalNeverOutlivesItsAuthority` | src/access/authorization-service.ts:103-122 | an approval authorises only unexpired, for its own operation, under the grant and policy versions it was asked for, and is consumed by it |
| `ApprovalRuns.OneLivePendingApproval` | src/access/authorization-service.ts:724-764 | at most one live pending approval per operation key and grant version |
| `DeviceAuthorization.DeviceAuthorizationService.RequestDeviceAuthorization` | src/access/device-authorization-service.ts:55-88 | adds one pending code and changes nothing else |
| `DeviceAuthorization.DeviceAuthorizationService.ApproveDevice` | src/access/device-authorization-service.ts:97-140 | store, handoffs and answer are those of the approval function |
| `DeviceAuthorization.DeviceAuthorizationService.DenyDevice` | src/access/device-authorization-service.ts:142-161 | store and answer are those of the denial function |
| `DeviceAuthorization.DeviceAuthorizationService.PollDevice` | src/access/device-authorization-service.ts:163-195 | all three stores and the answer are those of the polling function |
| `DeviceAuthorization.StatusTellsHistory` | src/access/device-authorization-service.ts:97-195 | in every run the decisions, approvals and `ok` answers of a code are determined by its status |
| `DeviceAuthorization.AtMostOneOk` | src/access/device-authorization-service.ts:163-195 | at most one `ok` per code, never without an approval, never after a deny or an expiry; a code is decided at most once |
| `DeviceAuthorization.ClosedCodesStayClosed` | src/access/device-authorization-service.ts:163-211 | denied, expired and consumed codes never change again |
| `DeviceAuthorization.OkCarriesTheIssuedToken` | src/access/device-authorization-service.ts:97-195 | an `ok` hands over the token and grant of the approval of that very code |
| `DeviceAuthorization.PollsKeepTheInterval` | src/access/device-authorization-service.ts:163-195 | two polls of a waiting code not told to slow down are at least the interval apart (section 3.5 of RFC 8628) |
| `DevicePolls.PollAnswers` | src/access/device-authorization-service.ts:163-195 | the answer at the end of any run, from the history of the code: unknown, denied, expired and used codes are refused; a pending one expires ten minutes after its request and waits before; an approved one hands over its approval's token and grant for five minutes and nothing afterwards; five seconds between polls |
| `DevicePolls.RequestIsExact` | src/access/device-authorization-service.ts:55-88 | a request adds one device, pending for ten minutes, and changes nothing else |
| `DevicePolls.RequestedCodesAreKnown` | src/access/device-authorization-service.ts:55-88 | in every run the known codes are exactly the requested ones |
| `DevicePolls.ApprovalIsExact` | src/access/device-authorization-service.ts:97-140 | which device an approval reaches and why it is refused; it gets its grant, and the token waits five minutes |
| `DevicePolls.DenialIsExact` | src/access/device-authorization-service.ts:142-161 | which device a denial reaches and why it is refused; nothing else changes |
| `AgentLoop.CollectStreamEvents` | src/agent/agent-loop.ts:49-94 | texts, calls and usage are those of the stream: in order, and the usage of the last stop message |
| `AgentLoop.RunAgentLoop` | src/agent/agent-loop.ts:172-330 | on every exit: recorded turns are the provider's answers on the conversation so far, messages and total usage are theirs, the events are the grants, calls and settlements in that order, each status has its own cause, and an answered conversation stays answered; `Conversation` says what the messages tell the provider |
| `AgentLoop.CallProvider` | src/agent/agent-loop.ts:233-264 | with the reservation granted before and still open, the provider is called inside it and both ways out settle it |
| `AgentLoop.EveryReservationIsSettledOnce` | src/agent/agent-loop.ts:214-264 | whichever status ends the loop, each grant is settled exactly once, with nothing but a provider call between, before the next is asked for; nothing else is settled; under a governor no provider call is made without an open grant |
| `AgentLoop.DisciplineSettles` | src/agent/agent-loop.ts:214-264 | any history that keeps at most one reservation open settles each grant or still has it open |
| `AgentLoop.ConversationStaysAnswered` | src/agent/agent-loop.ts:140-169 | each tool-use message is followed at once by exactly its results, same ids, same order |
| `Conversation.ProviderIsToldTheResults` | src/agent/agent-loop.ts:96-169 | on every exit the final messages are the opening and then, turn by turn, what the turn's provider streamed on the messages before it: the text deltas joined in order, exactly its calls, and after them one answer per call in order |
| `Conversation.EachCallIsAnswered` | src/agent/agent-loop.ts:96-152 | the answer to a call carries what the tool returned, without an error mark; it is an error exactly if the tool is unknown or threw |
| `Conversation.TurnsRecordTruly` | src/agent/agent-loop.ts:172-330 | the recorded turns hold the texts, calls and last usage of their streams and the results of their calls, and a completed loop answers with its last turn's text |
| `CostArithmetic.ChargeIsNeverBelowCost` | src/access/fixed-cost-rates.ts:44-91 | the charge is never below the exact rational cost and less than 4 microdollars above it; an unknown model is refused |
| `CostArithmetic.ChargeRoundsEachComponent` | src/access/fixed-cost-rates.ts:44-91 | the charge is the sum of four components, each rounded up by itself, and zero without tokens or without a rate |
| `CostArithmetic.ChargeIsSubadditive` | src/access/fixed-cost-rates.ts:57-91 | splitting usage in two never lowers the bill and adds at most 4 microdollars |
| `CostArithmetic.RunIsNeverUndercharged` | src/access/fixed-cost-rates.ts:57-91 | charging an agent run turn by turn is never below charging its total, and at most 4 microdollars per further turn above |
| `CostArithmetic.CodecRoundTrips` | src/access/microdollars.ts:18-38 | written and read back unchanged exactly for amounts from 0 to 2^63-1 |
| `CostArithmetic.ParsedStringsPrintBack` | src/access/microdollars.ts:27-38 | an accepted string is written back unchanged exactly if it has no leading zero |
| `CostArithmetic.LeadingZerosAreAccepted` | src/access/microdollars.ts:27-38 | a string with a leading zero that is accepted and written back differently |
| `CostArithmetic.DisplayDeterminesAmount` | src/access/microdollars.ts:54-59 | two amounts of either sign with the same display are equal |
| `CostArithmetic.DisplayHasSixDecimals` | src/access/microdollars.ts:54-59 | a non-negative amount shows digits, a point and exactly six digits |
| `CostArithmetic.DisplayReadsBack` | src/access/microdollars.ts:54-59 | the digits of a non-negative amount read back to it |
| `CostArithmetic.NegativeReadsBack` | src/access/microdollars.ts:54-59 | a negative amount reads back behind its sign exactly if it is a whole number of dollars |

## Left out

Not modelled:

- Files, SQLite, git, HTTP, the command line, reports, release gates and doctor checks; a store is a
  field or a map, and a crash inside one store operation does not occur.
- `src/autonomy/multi-agent-mission-runtime.ts`, whose conflict check looks only at running tasks.
- Timestamps other than those a decision reads, the revision counter, message texts of findings and
  errors, checkpoint ids, audit events, progress events, durations and display fields.
- Import path resolution, symbol extraction, risk scores and package lists: the impact analysis and
  the dependency order start from resolved imports. Sort orders are arbitrary comparators.
- Symbol matching of the planner: the affected files are given.
- The relation between a pending approval's listing order and its creation time: the model takes the
  order in which approvals were first written.
- `usdToMicrodollars`, which rounds a floating-point number.
- The 64-bit range of SQLite totals: amounts are unbounded integers.
- `maxDailyEstimatedCostUsd`, which the narrowing checks do not cover, and `pauseGrant`, which has no
  status guard; nothing is claimed about either.
- A store, a governor or a lock that itself throws.

Assumptions under which the members hold:

- MissionRun.RunIsBounded: ids in the graph are distinct, as in every accepted graph, for the bound in
  numbers of tasks; so they are for freshness and stalling. Termination and the potential need no such
  thing.
- MissionExecutor.PersistentMissionExecutor.Run: one caller; other writers are the subject of
  `MissionInterleaving`.
- MissionInterleaving.ResultAppliedOnlyIfUntouched: for results settled under the lock; the repair
  path, the completion, a start and a resume save without it
  (`src/autonomy/persistent-mission-executor.ts:154,167,228,397,417,430`), and what these saves do to a
  cancelled task is in `CancelledTasks.CancelledTaskIsLostExactlyWhen`. A start over a stored
  mission keeps its ids; one loop runs at a time, as the abort registry sees to.
- QuietRun.QuietScheduleHalts: the loop is given the steps it waits for.
- MissionExecutor.PersistentMissionExecutor.RepairFailure: the controller's record passes or fails
  with the repair result; project memory and evidence are not kept.
- MissionControl.AutonomousMissionControl.Mutate: one call at a time; the mission service's own
  lookup and its event log are not kept.
- RepairLoop.AutonomousRepairLoop.Run: the validation runner labels each result with the phase it was
  asked for.
- Scheduler.BatchIsSerialisable: resources are concrete paths, not wildcards, and a task's effect
  changes only what its writes cover and depends only on what its reads and writes cover.
- BranchGlob.MatchSegmentIffBlocks: patterns without `?` and values without line breaks, for which the
  program's regular expression is read.
- ClientConstraints.CidrIsABlock: IPv4 only, as in the program; a pattern without a slash is compared
  as text.
- ApprovalRuns.ApprovalsAreSingleUse: the hashed operation key is the tuple of the hashed values, so
  the hash is taken as injective; lower-casing is that of ASCII.
- ApprovalRuns.OneLivePendingApproval: the clock never runs backwards.
- DeviceAuthorization.AtMostOneOk: each request generates a new device code.
- DeviceAuthorization.PollsKeepTheInterval: the clock never runs backwards.
- NarrowingRefinement.NarrowingRefinesAuthority: patch fields are absent or present, not present with
  an undefined value.
- CostArithmetic.ChargeIsNeverBelowCost: token counts and rates are non-negative integers.
