/** The persisted mission execution and the pure record rebuilds of
    src/autonomy/persistent-mission-executor.ts and autonomous-mission-control.ts.
    Timestamps and the revision counter are not part of the record; `completed` says whether
    `completedAt` is set, and `modifiedFiles` (kept sorted and duplicate-free) is a set. */
module MissionRecord {
  import opened Options
  import opened TaskGraph

  datatype AbortReason = Operator | Shutdown | Budget | Duration | SystemStop

  datatype Execution = Execution(
    graph: Graph,
    modifiedFiles: set<string>,
    completed: bool,
    cancellationReason: Option<AbortReason>)

  datatype ResultState = ResultCompleted | ResultFailed | ResultBlocked

  datatype TaskResult = TaskResult(
    state: ResultState,
    evidence: seq<Evidence>,
    artifacts: seq<string>,
    modifiedFiles: set<string>,
    diagnostics: seq<string>)

  /** What an oracle (a task executor or an edit executor) does: it returns any result or throws. */
  datatype Outcome = Returned(result: TaskResult) | Threw(message: string)

  // ----- task states

  predicate IsTerminal(s: TaskState) {
    s == Completed || s == Failed || s == Cancelled || s == Blocked
  }

  predicate EndedBadly(s: TaskState) {
    s == Failed || s == Blocked || s == Cancelled
  }

  predicate IsActive(s: TaskState) {
    s == Running || s == Validating || s == Repairing
  }

  predicate IsPending(s: TaskState) {
    s == Queued || s == Ready || s == Interrupted
  }

  function ActiveStateFor(kind: TaskKind): TaskState {
    match kind
    case Validation => Validating
    case Repair => Repairing
    case _ => Running
  }

  function StateOf(r: ResultState): TaskState {
    match r
    case ResultCompleted => Completed
    case ResultFailed => Failed
    case ResultBlocked => Blocked
  }

  // ----- looking tasks up

  function CompletedIds(tasks: seq<Task>): set<string> {
    set t | t in tasks && t.state == Completed :: t.id
  }

  predicate Runnable(t: Task, completed: set<string>) {
    IsPending(t.state) && forall d :: d in t.dependencies ==> d in completed
  }

  /** `findNextTask`: the first runnable task at or after position `i`. */
  function NextFrom(tasks: seq<Task>, completed: set<string>, i: nat): (r: Option<nat>)
    requires i <= |tasks|
    ensures r.Some? ==> i <= r.value < |tasks| && Runnable(tasks[r.value], completed)
    ensures r.Some? ==> forall k :: i <= k < r.value ==> !Runnable(tasks[k], completed)
    ensures r.None? ==> forall k :: i <= k < |tasks| ==> !Runnable(tasks[k], completed)
    decreases |tasks| - i
  {
    if i == |tasks| then None
    else if Runnable(tasks[i], completed) then Some(i)
    else NextFrom(tasks, completed, i + 1)
  }

  function FindNextTask(tasks: seq<Task>): (r: Option<nat>)
    ensures r.Some? ==> r.value < |tasks| && Runnable(tasks[r.value], CompletedIds(tasks))
    ensures r.None? ==> forall t :: t in tasks ==> !Runnable(t, CompletedIds(tasks))
  {
    NextFrom(tasks, CompletedIds(tasks), 0)
  }

  /** The task can start: it waits, and every dependency is a completed task. */
  ghost predicate CanStart(tasks: seq<Task>, t: Task) {
    && t.state in {Queued, Ready, Interrupted}
    && forall d :: d in t.dependencies ==> exists u :: u in tasks && u.id == d && u.state == Completed
  }

  lemma RunnableCanStart(tasks: seq<Task>, t: Task)
    ensures Runnable(t, CompletedIds(tasks)) <==> CanStart(tasks, t)
  {
    forall d
      ensures d in CompletedIds(tasks) <==> exists u :: u in tasks && u.id == d && u.state == Completed
    {}
  }

  predicate Unfinished(tasks: seq<Task>) {
    exists t :: t in tasks && !IsTerminal(t.state)
  }

  /** `findTask`: the first task with the id (the id is always present where this is called). */
  function FindTask(tasks: seq<Task>, id: string): (t: Task)
    requires id in Ids(tasks)
    ensures t in tasks && t.id == id
  {
    if tasks[0].id == id then tasks[0]
    else
      assert tasks == [tasks[0]] + tasks[1..];
      FindTask(tasks[1..], id)
  }

  lemma {:induction false} FindTaskAt(tasks: seq<Task>, k: nat)
    requires k < |tasks| && UniqueIds(tasks)
    ensures tasks[k].id in Ids(tasks) && FindTask(tasks, tasks[k].id) == tasks[k]
    decreases k
  {
    assert tasks[k] in tasks;
    if k > 0 {
      assert tasks[0].id != tasks[k].id;
      FindTaskAt(tasks[1..], k - 1);
    }
  }

  // ----- rebuilding the task list

  function PatchTasks(tasks: seq<Task>, id: string, patch: Task -> Task): seq<Task> {
    seq(|tasks|, i requires 0 <= i < |tasks| => if tasks[i].id == id then patch(tasks[i]) else tasks[i])
  }

  lemma {:induction false} FindPatched(tasks: seq<Task>, id: string, patch: Task -> Task)
    requires id in Ids(tasks)
    requires forall t: Task :: patch(t).id == t.id
    ensures id in Ids(PatchTasks(tasks, id, patch))
    ensures FindTask(PatchTasks(tasks, id, patch), id) == patch(FindTask(tasks, id))
  {
    var b := PatchTasks(tasks, id, patch);
    assert b[0] in b && tasks[0] in tasks;
    if tasks[0].id != id {
      assert tasks == [tasks[0]] + tasks[1..];
      FindPatched(tasks[1..], id, patch);
      assert b[1..] == PatchTasks(tasks[1..], id, patch);
      assert b == [b[0]] + b[1..];
    }
  }

  function WithTasks(e: Execution, tasks: seq<Task>): Execution {
    e.(graph := e.graph.(tasks := tasks))
  }

  function UpdateTask(e: Execution, id: string, patch: Task -> Task): Execution {
    WithTasks(e, PatchTasks(e.graph.tasks, id, patch))
  }

  /** The order-preserving removal of duplicates done by `[...new Set(xs)]`. */
  function Dedup(xs: seq<string>): (r: seq<string>)
    ensures forall x :: x in r <==> x in xs
    ensures forall i, j :: 0 <= i < j < |r| ==> r[i] != r[j]
  {
    if xs == [] then []
    else
      var front := Dedup(xs[..|xs| - 1]);
      var last := xs[|xs| - 1];
      assert xs == xs[..|xs| - 1] + [last];
      if last in front then front else front + [last]
  }

  function MarkActive(e: Execution, id: string, active: TaskState): Execution {
    UpdateTask(e, id, (t: Task) => t.(state := active))
  }

  function WithResult(t: Task, existing: Task, r: TaskResult, state: TaskState): Task {
    t.(state := state,
       retry := existing.retry.(attempts := existing.retry.attempts + 1),
       evidence := existing.evidence + r.evidence,
       artifacts := Dedup(existing.artifacts + r.artifacts),
       failureDiagnostics := existing.failureDiagnostics + r.diagnostics)
  }

  function MergeModifiedFiles(e: Execution, files: set<string>): Execution {
    e.(modifiedFiles := e.modifiedFiles + files)
  }

  function ApplyTaskResult(e: Execution, id: string, r: TaskResult): Execution
    requires id in Ids(e.graph.tasks)
  {
    var existing := FindTask(e.graph.tasks, id);
    MergeModifiedFiles(UpdateTask(e, id, (t: Task) => WithResult(t, existing, r, StateOf(r.state))), r.modifiedFiles)
  }

  function AfterThrow(t: Task, existing: Task, message: string): Task {
    var attempts := existing.retry.attempts + 1;
    t.(state := if attempts < existing.retry.maxAttempts then Ready else Failed,
       retry := existing.retry.(attempts := attempts),
       failureDiagnostics := existing.failureDiagnostics + [message])
  }

  function ApplyThrow(e: Execution, id: string, message: string): Execution
    requires id in Ids(e.graph.tasks)
  {
    var existing := FindTask(e.graph.tasks, id);
    UpdateTask(e, id, (t: Task) => AfterThrow(t, existing, message))
  }

  function ApplyOutcome(e: Execution, id: string, outcome: Outcome): Execution
    requires id in Ids(e.graph.tasks)
  {
    match outcome
    case Returned(r) => ApplyTaskResult(e, id, r)
    case Threw(message) => ApplyThrow(e, id, message)
  }

  /** First save of the repair path: the failed validation is recorded as being repaired. */
  function BeginRepair(e: Execution, id: string, failure: TaskResult): Execution
    requires id in Ids(e.graph.tasks)
  {
    var existing := FindTask(e.graph.tasks, id);
    MergeModifiedFiles(UpdateTask(e, id, (t: Task) => WithResult(t, existing, failure, Repairing)), failure.modifiedFiles)
  }

  function ResetTask(t: Task, id: string, repair: TaskResult, done: set<string>): Task {
    if t.kind != Validation then t
    else
      var reset := t.(state := if forall d :: d in t.dependencies ==> d in done then Ready else Queued);
      if t.id == id then
        reset.(evidence := t.evidence + repair.evidence,
               artifacts := Dedup(t.artifacts + repair.artifacts),
               failureDiagnostics := t.failureDiagnostics + repair.diagnostics)
      else reset
  }

  /** Every validation task is reopened; its state depends on the completed other tasks only. */
  function ResetValidationChain(e: Execution, id: string, repair: TaskResult): Execution {
    var tasks := e.graph.tasks;
    var done := set t | t in tasks && t.kind != Validation && t.state == Completed :: t.id;
    WithTasks(e, seq(|tasks|, i requires 0 <= i < |tasks| => ResetTask(tasks[i], id, repair, done)))
  }

  /** The failed end of the repair path. */
  function EndRepair(e: Execution, id: string, repair: TaskResult): Execution
    requires id in Ids(e.graph.tasks)
  {
    var existing := FindTask(e.graph.tasks, id);
    UpdateTask(e, id, (t: Task) =>
      t.(state := StateOf(repair.state),
         evidence := existing.evidence + repair.evidence,
         artifacts := Dedup(existing.artifacts + repair.artifacts),
         failureDiagnostics := existing.failureDiagnostics + repair.diagnostics))
  }

  /** Second save of the repair path. */
  function FinishRepair(e: Execution, id: string, repair: TaskResult): Execution
    requires id in Ids(e.graph.tasks)
  {
    var merged := MergeModifiedFiles(e, repair.modifiedFiles);
    if repair.state == ResultCompleted then ResetValidationChain(merged, id, repair)
    else EndRepair(merged, id, repair)
  }

  /** `reconcileGraph`: on start or resume, tasks left active by an earlier process are interrupted. */
  function ReconcileGraph(e: Execution): Execution {
    var tasks := e.graph.tasks;
    WithTasks(e, seq(|tasks|, i requires 0 <= i < |tasks| =>
      if IsActive(tasks[i].state) then tasks[i].(state := Interrupted) else tasks[i]))
  }

  /** A stop is written only to a mission that is neither completed nor finished. */
  predicate StopSaves(e: Execution) {
    !e.completed && Unfinished(e.graph.tasks)
  }

  function StopForAbort(e: Execution, reason: AbortReason): Execution {
    var tasks := e.graph.tasks;
    if !StopSaves(e) then e
    else
      WithTasks(e, seq(|tasks|, i requires 0 <= i < |tasks| =>
        if IsTerminal(tasks[i].state) then tasks[i] else tasks[i].(state := Interrupted)))
        .(cancellationReason := Some(reason))
  }

  function FailRemainingTasks(e: Execution, why: string, reason: AbortReason): Execution {
    var tasks := e.graph.tasks;
    WithTasks(e, seq(|tasks|, i requires 0 <= i < |tasks| =>
      if IsTerminal(tasks[i].state) then tasks[i]
      else tasks[i].(state := Failed, failureDiagnostics := tasks[i].failureDiagnostics + [why])))
      .(completed := true, cancellationReason := Some(reason))
  }

  const DURATION_MESSAGE := "Mission exceeded its configured duration limit."
  const BUDGET_MESSAGE := "Mission exceeded the owning grant's configured cost budget."

  function CompleteMission(e: Execution): Execution {
    e.(completed := true)
  }

  // ----- operator control

  datatype ControlAction = Pause | Cancel | RetryFailed

  function ControlTask(action: ControlAction, t: Task): Task {
    match action
    case Pause => if IsActive(t.state) then t.(state := Interrupted) else t
    case Cancel => if IsPending(t.state) || IsActive(t.state) then t.(state := Cancelled) else t
    case RetryFailed =>
      if t.state != Failed && t.state != Blocked && t.state != Cancelled then t
      else t.(state := if |t.dependencies| == 0 then Ready else Queued, failureDiagnostics := [])
  }

  /** `#mutate`: None when no task changes, in which case the request is refused. */
  function Control(action: ControlAction, e: Execution): Option<Execution> {
    var tasks := e.graph.tasks;
    var changed := seq(|tasks|, i requires 0 <= i < |tasks| => ControlTask(action, tasks[i]));
    if exists i :: 0 <= i < |tasks| && ControlTask(action, tasks[i]).state != tasks[i].state
    then Some(WithTasks(e, changed).(completed := if action == RetryFailed then false else e.completed))
    else None
  }

  // ----- what never changes: ids, kinds and dependencies

  ghost predicate SameShape(a: seq<Task>, b: seq<Task>) {
    && |a| == |b|
    && forall i :: 0 <= i < |a| ==>
         a[i].id == b[i].id && a[i].kind == b[i].kind && a[i].dependencies == b[i].dependencies
  }

  lemma ShapeKeepsGraph(a: seq<Task>, b: seq<Task>)
    requires SameShape(a, b)
    ensures Edges(a) == Edges(b) && Ids(a) == Ids(b)
    ensures UniqueIds(a) ==> UniqueIds(b)
    ensures DependenciesExist(a) ==> DependenciesExist(b)
  {
    ShapeIncludes(a, b);
    ShapeIncludes(b, a);
    if DependenciesExist(a) {
      forall t, d | t in b && d in t.dependencies
        ensures d in Ids(b)
      {
        assert (t.id, d) in Edges(a);
      }
    }
  }

  lemma ShapeIncludes(a: seq<Task>, b: seq<Task>)
    requires SameShape(a, b)
    ensures Edges(a) <= Edges(b) && Ids(a) <= Ids(b)
  {
    forall t | t in a
      ensures t.id in Ids(b) && forall d :: d in t.dependencies ==> (t.id, d) in Edges(b)
    {
      var i :| 0 <= i < |a| && a[i] == t;
      assert b[i] in b;
    }
  }
}
