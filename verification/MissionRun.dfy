/** One undisturbed run of the mission loop, `run` of src/autonomy/persistent-mission-executor.ts,
    as a function of what its oracles do. It terminates on any task list; with distinct ids this
    module proves how many task executions it takes. */
module MissionRun {
  import opened Options
  import opened TaskGraph
  import opened MissionRecord
  import opened RepairController
  import opened MissionAttempt

  // ----- each record rebuild replaces one task, when ids are distinct

  /** `u` may replace `t` in a task list. */
  predicate SameIdentity(t: Task, u: Task) {
    u.id == t.id && u.kind == t.kind && u.dependencies == t.dependencies
  }

  lemma ReplaceKeeps(tasks: seq<Task>, k: nat, u: Task)
    requires k < |tasks| && UniqueIds(tasks) && SameIdentity(tasks[k], u)
    ensures SameShape(tasks, tasks[k := u]) && UniqueIds(tasks[k := u])
    ensures u.id in Ids(tasks[k := u]) && FindTask(tasks[k := u], u.id) == u
  {
    ShapeKeepsGraph(tasks, tasks[k := u]);
    FindTaskAt(tasks[k := u], k);
  }

  lemma MarkOne(e: Execution, k: nat, active: TaskState)
    requires k < |e.graph.tasks| && UniqueIds(e.graph.tasks)
    ensures var t := e.graph.tasks[k];
            var u := t.(state := active);
            && MarkActive(e, t.id, active) == WithTasks(e, e.graph.tasks[k := u])
            && UniqueIds(e.graph.tasks[k := u])
            && u.id in Ids(e.graph.tasks[k := u]) && FindTask(e.graph.tasks[k := u], u.id) == u
  {
    ReplaceKeeps(e.graph.tasks, k, e.graph.tasks[k].(state := active));
    assert MarkActive(e, e.graph.tasks[k].id, active).graph.tasks == e.graph.tasks[k := e.graph.tasks[k].(state := active)];
  }

  lemma BeginOne(e: Execution, k: nat, failure: TaskResult)
    requires k < |e.graph.tasks| && UniqueIds(e.graph.tasks)
    ensures var t := e.graph.tasks[k];
            var u := WithResult(t, t, failure, Repairing);
            && t.id in Ids(e.graph.tasks)
            && BeginRepair(e, t.id, failure) == MergeModifiedFiles(WithTasks(e, e.graph.tasks[k := u]), failure.modifiedFiles)
            && UniqueIds(e.graph.tasks[k := u])
            && u.id in Ids(e.graph.tasks[k := u]) && FindTask(e.graph.tasks[k := u], u.id) == u
  {
    var t := e.graph.tasks[k];
    FindTaskAt(e.graph.tasks, k);
    ReplaceKeeps(e.graph.tasks, k, WithResult(t, t, failure, Repairing));
    assert BeginRepair(e, t.id, failure).graph.tasks == e.graph.tasks[k := WithResult(t, t, failure, Repairing)];
  }

  function Settled(t: Task, outcome: Outcome): Task {
    match outcome
    case Returned(r) => WithResult(t, t, r, StateOf(r.state))
    case Threw(message) => AfterThrow(t, t, message)
  }

  lemma ApplyOne(e: Execution, k: nat, outcome: Outcome)
    requires k < |e.graph.tasks| && UniqueIds(e.graph.tasks)
    ensures var t := e.graph.tasks[k];
            && t.id in Ids(e.graph.tasks)
            && ApplyOutcome(e, t.id, outcome).graph.tasks == e.graph.tasks[k := Settled(t, outcome)]
  {
    FindTaskAt(e.graph.tasks, k);
  }

  lemma EndOne(e: Execution, k: nat, repair: TaskResult) returns (u: Task)
    requires k < |e.graph.tasks| && UniqueIds(e.graph.tasks)
    ensures var t := e.graph.tasks[k];
            && t.id in Ids(e.graph.tasks)
            && SameIdentity(t, u) && u.state == StateOf(repair.state) && u.retry == t.retry
            && EndRepair(e, t.id, repair).graph.tasks == e.graph.tasks[k := u]
  {
    FindTaskAt(e.graph.tasks, k);
    var t := e.graph.tasks[k];
    u := EndRepair(e, t.id, repair).graph.tasks[k];
  }

  // ----- the two shapes of an attempt

  /** The attempt replaced the task at `k` by `u`, which is finished or has spent a retry. */
  ghost predicate Settles(a: RunState, b: RunState, k: nat, u: Task)
    requires k < |Tasks(a)|
  {
    var t := Tasks(a)[k];
    && Tasks(b) == Tasks(a)[k := u]
    && SameIdentity(t, u)
    && RetriesLeft(u) <= RetriesLeft(t)
    && (IsTerminal(u.state) || (u.state == Ready && RetriesLeft(u) < RetriesLeft(t)))
    && RepairsLeft(b.repair) <= RepairsLeft(a.repair)
    && b.log == a.log + if u.state == Completed then [Started(t.id), Done(t.id)] else [Started(t.id)]
  }

  ghost predicate ReopenedTasks(a: seq<Task>, b: seq<Task>) {
    && SameShape(a, b)
    && (forall i :: 0 <= i < |a| && a[i].kind != Validation ==> b[i] == a[i])
    && (forall i :: 0 <= i < |a| && a[i].kind == Validation ==>
          IsPending(b[i].state) && RetriesLeft(b[i]) <= RetriesLeft(a[i]))
  }

  /** The attempt was a validation whose repair succeeded: every validation task is reopened
      and no other task is touched. */
  ghost predicate Reopens(a: RunState, b: RunState, k: nat)
    requires k < |Tasks(a)|
  {
    && ReopenedTasks(Tasks(a), Tasks(b))
    && RepairsLeft(b.repair) + 1 == RepairsLeft(a.repair)
    && b.log == a.log + [Started(Tasks(a)[k].id), Repaired]
  }

  lemma AttemptCases(env: Environment, s: RunState, k: nat) returns (u: Task)
    requires k < |Tasks(s)| && UniqueIds(Tasks(s)) && IsPending(Tasks(s)[k].state)
    ensures var s' := Attempt(env, s, k);
            && s'.calls == s.calls + 1 && s'.record.completed == s.record.completed
            && (Settles(s, s', k, u) || Reopens(s, s', k))
  {
    var t := Tasks(s)[k];
    var active := ActiveStateFor(t.kind);
    var marked := MarkActive(s.record, t.id, active);
    MarkOne(s.record, k, active);
    var running := t.(state := active);
    var outcome := env.execute(s.calls, running);
    var repair := Recorded(s.repair, running, outcome);
    if EntersRepair(env, t.kind, outcome) {
      var s1 := RunState(marked, repair, s.calls, s.log + [Started(t.id)]);
      u := RepairCases(s1, k, outcome.result, env.repairEdit(s.calls));
      RepairCasesLift(s, s1, RepairValidationFailure(s1, t.id, outcome.result, env.repairEdit(s.calls)), k, running, u);
    } else {
      ApplyOne(marked, k, outcome);
      u := Settled(running, outcome);
      assert Tasks(s)[k := running][k := u] == Tasks(s)[k := u];
    }
  }

  /** What happened to the marked task list, seen from the list before marking. */
  lemma RepairCasesLift(s: RunState, s1: RunState, s': RunState, k: nat, running: Task, u: Task)
    requires k < |Tasks(s)| && Tasks(s1) == Tasks(s)[k := running]
    requires SameIdentity(Tasks(s)[k], running) && running.retry == Tasks(s)[k].retry && running.kind == Validation
    requires RepairsLeft(s1.repair) == RepairsLeft(s.repair) && s1.log == s.log + [Started(running.id)]
    ensures (&& ReopenedTasks(Tasks(s1), Tasks(s'))
             && RepairsLeft(s'.repair) + 1 == RepairsLeft(s1.repair)
             && s'.log == s1.log + [Repaired]) ==> Reopens(s, s', k)
    ensures (&& Tasks(s') == Tasks(s1)[k := u] && SameIdentity(running, u) && RetriesLeft(u) <= RetriesLeft(running)
             && (u.state == Failed || u.state == Blocked)
             && RepairsLeft(s'.repair) <= RepairsLeft(s1.repair)
             && s'.log == s1.log) ==> Settles(s, s', k, u)
  {
    assert Tasks(s)[k := running][k := u] == Tasks(s)[k := u];
    assert s.log + [Started(running.id)] + [Repaired] == s.log + [Started(running.id), Repaired];
  }

  lemma RepairCases(s: RunState, k: nat, failure: TaskResult, edit: Outcome) returns (u: Task)
    requires k < |Tasks(s)| && UniqueIds(Tasks(s)) && Tasks(s)[k].kind == Validation
    ensures Tasks(s)[k].id in Ids(Tasks(s))
    ensures var s' := RepairValidationFailure(s, Tasks(s)[k].id, failure, edit);
            var repaired := AttemptRepair(s.repair, edit).1.state == ResultCompleted;
            && s'.calls == s.calls + 1 && s'.record.completed == s.record.completed
            && (repaired ==> ReopenedTasks(Tasks(s), Tasks(s')) && RepairsLeft(s'.repair) + 1 == RepairsLeft(s.repair)
                             && s'.log == s.log + [Repaired])
            && (!repaired ==> Tasks(s') == Tasks(s)[k := u] && SameIdentity(Tasks(s)[k], u) && RetriesLeft(u) <= RetriesLeft(Tasks(s)[k])
                              && (u.state == Failed || u.state == Blocked)
                              && RepairsLeft(s'.repair) <= RepairsLeft(s.repair) && s'.log == s.log)
  {
    var t := Tasks(s)[k];
    BeginOne(s.record, k, failure);
    var begun := BeginRepair(s.record, t.id, failure);
    var (_, result) := AttemptRepair(s.repair, edit);
    var merged := MergeModifiedFiles(begun, result.modifiedFiles);
    var v := WithResult(t, t, failure, Repairing);
    if result.state == ResultCompleted {
      u := t;
      ReopenAfter(Tasks(s), k, v, merged, t.id, result);
    } else {
      u := EndOne(merged, k, result);
      assert begun.graph.tasks[k := u] == Tasks(s)[k := u];
    }
  }

  lemma ReopenAfter(a: seq<Task>, k: nat, v: Task, e: Execution, id: string, result: TaskResult)
    requires k < |a| && e.graph.tasks == a[k := v]
    requires SameIdentity(a[k], v) && v.kind == Validation && RetriesLeft(v) <= RetriesLeft(a[k])
    ensures ReopenedTasks(a, ResetValidationChain(e, id, result).graph.tasks)
  {}

  // ----- the bound

  /** The sum of the retry limits. */
  function TotalAttempts(tasks: seq<Task>): int {
    if tasks == [] then 0 else TotalAttempts(tasks[..|tasks| - 1]) + tasks[|tasks| - 1].retry.maxAttempts
  }

  lemma AttemptKeepsShape(env: Environment, s: RunState, k: nat)
    requires k < |Tasks(s)| && UniqueIds(Tasks(s)) && IsPending(Tasks(s)[k].state)
    ensures SameShape(Tasks(s), Tasks(Attempt(env, s, k))) && UniqueIds(Tasks(Attempt(env, s, k)))
  {
    var u := AttemptCases(env, s, k);
    CasesKeepShape(s, Attempt(env, s, k), k, u);
  }

  lemma CasesKeepShape(a: RunState, b: RunState, k: nat, u: Task)
    requires k < |Tasks(a)|
    requires Settles(a, b, k, u) || Reopens(a, b, k)
    ensures SameShape(Tasks(a), Tasks(b))
    ensures UniqueIds(Tasks(a)) ==> UniqueIds(Tasks(b))
  {
    ShapeKeepsGraph(Tasks(a), Tasks(b));
  }

  // ----- the run

  /** `run`: stop checks, then the next runnable task, until there is none. */
  function RunFrom(env: Environment, s: RunState): RunResult
    decreases Potential(s)
  {
    match env.stop(s.calls)
    case Abort(reason) => RunResult(s.(record := StopForAbort(s.record, reason)), Aborted)
    case DurationExceeded => RunResult(s.(record := FailRemainingTasks(s.record, DURATION_MESSAGE, Duration)), OutOfTime)
    case BudgetExceeded => RunResult(s.(record := FailRemainingTasks(s.record, BUDGET_MESSAGE, Budget)), OverBudget)
    case Continue =>
      match FindNextTask(Tasks(s))
      case None =>
        if Unfinished(Tasks(s)) then RunResult(s, Stalled)
        else RunResult(s.(record := CompleteMission(s.record)), Finished)
      case Some(k) =>
        AttemptLowersPotential(env, s, k);
        RunFrom(env, Attempt(env, s, k))
  }

  // ----- the loop entered beside any stored record

  datatype LoopEnd = Resolved(result: RunResult) | Rejected

  /** The stored record, or the local copy if nothing is stored. */
  function LatestOf(store: Option<Execution>, fallback: Execution): Execution {
    if store.Some? then store.value else fallback
  }

  /** `run` entered with the record of `s`, whatever is stored: how it ends, and what is stored then.
      The first task is chosen from the record handed over; every write starts from the stored one. */
  function RunOn(env: Environment, store: Option<Execution>, s: RunState): (LoopEnd, Option<Execution>) {
    var latest := LatestOf(store, s.record);
    match env.stop(s.calls)
    case Abort(reason) =>
      var stopped := StopForAbort(latest, reason);
      (Resolved(RunResult(s.(record := stopped), Aborted)), if StopSaves(latest) then Some(stopped) else store)
    case DurationExceeded => EndWith(s, FailRemainingTasks(latest, DURATION_MESSAGE, Duration), OutOfTime)
    case BudgetExceeded => EndWith(s, FailRemainingTasks(latest, BUDGET_MESSAGE, Budget), OverBudget)
    case Continue =>
      match FindNextTask(Tasks(s))
      case None =>
        if Unfinished(Tasks(s)) then (Resolved(RunResult(s, Stalled)), store)
        else EndWith(s, CompleteMission(s.record), Finished)
      case Some(k) =>
        var t := Tasks(s)[k];
        if t.id !in Ids(latest.graph.tasks) then (Rejected, Some(latest))
        else
          var r := RunFrom(env, AttemptTask(env, s.(record := latest), t.id, t.kind));
          (Resolved(r), Some(r.state.record))
  }

  function EndWith(s: RunState, record: Execution, exit: Exit): (LoopEnd, Option<Execution>) {
    (Resolved(RunResult(s.(record := record), exit)), Some(record))
  }

  /** Entered with the stored record, the loop is the run function and leaves its record stored. */
  lemma RunOnStored(env: Environment, s: RunState)
    ensures RunOn(env, Some(s.record), s) == (Resolved(RunFrom(env, s)), Some(RunFrom(env, s).state.record))
  {
    var next := FindNextTask(Tasks(s));
    if env.stop(s.calls) == Continue && next.Some? {
      var t := Tasks(s)[next.value];
      assert t in Tasks(s);
      assert s.(record := s.record) == s;
    }
  }

  /** With distinct ids and legal retry policies the weights are at most one and the retry limit per
      task. */
  lemma WeightsWithinLimits(tasks: seq<Task>)
    requires UniqueIds(tasks) && forall t :: t in tasks ==> LegalRetry(t)
    ensures Sum(SharedWeights(tasks)) <= |tasks| + TotalAttempts(tasks)
  {
    forall i: nat | i < |tasks|
      ensures SharedWeights(tasks)[i] <= 1 + tasks[i].retry.maxAttempts
    {
      WeightWithinLimit(tasks, i);
    }
    SumWithinLimits(SharedWeights(tasks), tasks);
  }

  lemma WeightWithinLimit(tasks: seq<Task>, i: nat)
    requires i < |tasks| && UniqueIds(tasks) && LegalRetry(tasks[i])
    ensures SharedWeight(tasks, i) <= 1 + tasks[i].retry.maxAttempts
  {
    FindTaskAt(tasks, i);
  }

  lemma {:induction false} SumWithinLimits(xs: seq<nat>, tasks: seq<Task>)
    requires |xs| == |tasks| && forall i: nat :: i < |xs| ==> xs[i] <= 1 + tasks[i].retry.maxAttempts
    ensures Sum(xs) <= |tasks| + TotalAttempts(tasks)
  {
    if xs != [] {
      var n := |xs| - 1;
      SumWithinLimits(xs[..n], tasks[..n]);
    }
  }

  /** A run of N tasks with R repairs left executes at most (R+1)*N + R + (sum of retry limits)
      tasks, whatever the oracles do. */
  lemma RunIsBounded(env: Environment, s: RunState)
    requires UniqueIds(Tasks(s)) && forall t :: t in Tasks(s) ==> LegalRetry(t)
    ensures RunFrom(env, s).state.calls - s.calls
              <= (RepairsLeft(s.repair) + 1) * |Tasks(s)| + RepairsLeft(s.repair) + TotalAttempts(Tasks(s))
  {
    CallsWithinPotential(env, s);
    WeightsWithinLimits(Tasks(s));
    RepairRounds(RunFrom(env, s).state.calls - s.calls, RepairsLeft(s.repair), |Tasks(s)|, Sum(SharedWeights(Tasks(s))),
                 TotalAttempts(Tasks(s)));
  }

  lemma RepairRounds(calls: int, r: nat, n: nat, weights: nat, attempts: int)
    requires calls <= r * (n + 1) + weights && weights <= n + attempts
    ensures calls <= (r + 1) * n + r + attempts
  {
    assert r * (n + 1) + n == (r + 1) * n + r;
  }

  /** On any task list, the executions of a run are at most the potential it starts with. */
  lemma {:induction false} CallsWithinPotential(env: Environment, s: RunState)
    ensures s.calls <= RunFrom(env, s).state.calls <= s.calls + Potential(s)
    decreases Potential(s)
  {
    var next := FindNextTask(Tasks(s));
    if env.stop(s.calls) == Continue && next.Some? {
      AttemptLowersPotential(env, s, next.value);
      CallsWithinPotential(env, Attempt(env, s, next.value));
    }
  }
}
