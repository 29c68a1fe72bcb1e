/** What an attempt at a task writes (src/autonomy/persistent-mission-executor.ts): the state, the retry
    count, evidence, artifacts and diagnostics of the task, the files of the mission, and the states a
    repair leaves the validation tasks in. Updates go to every task with the id and start from the
    first one. */
module AttemptEffects {
  import opened TaskGraph
  import opened MissionRecord
  import opened RepairController
  import opened MissionAttempt

  // ----- the vocabulary of the effects

  ghost predicate FirstWith(tasks: seq<Task>, id: string, p: nat) {
    p < |tasks| && tasks[p].id == id && forall q :: 0 <= q < p ==> tasks[q].id != id
  }

  ghost predicate FirstAt<T(!new)>(xs: seq<T>, x: T, p: nat) {
    p < |xs| && xs[p] == x && x !in xs[..p]
  }

  /** `joined` holds the entries of both lists, each once, in the order of their first occurrence. */
  ghost predicate Joined(a: seq<string>, b: seq<string>, joined: seq<string>) {
    && (forall x :: x in joined <==> x in a || x in b)
    && (forall i, j :: 0 <= i < j < |joined| ==> FirstBefore(a + b, joined[i], joined[j]))
  }

  ghost predicate FirstBefore(xs: seq<string>, x: string, y: string) {
    exists p: nat, q: nat :: FirstAt(xs, x, p) && FirstAt(xs, y, q) && p < q
  }

  /** Every task with the id goes into the state, with the evidence, artifacts and diagnostics of the
      result added to those of the first one; the other tasks stay. */
  ghost predicate Adds(a: seq<Task>, b: seq<Task>, id: string, p: nat, r: TaskResult, state: TaskState) {
    && FirstWith(a, id, p) && |b| == |a|
    && Joined(a[p].artifacts, r.artifacts, b[p].artifacts)
    && forall i :: 0 <= i < |a| ==>
         b[i] == if a[i].id != id then a[i]
                 else Task(id, a[i].objective, a[i].kind, a[i].dependencies, a[i].resources, state, b[i].retry,
                           a[p].evidence + r.evidence, b[p].artifacts, a[p].failureDiagnostics + r.diagnostics)
  }

  /** One attempt more is counted for the id. */
  ghost predicate Counted(a: seq<Task>, b: seq<Task>, id: string, p: nat)
    requires p < |a| == |b|
  {
    forall i :: 0 <= i < |a| && a[i].id == id ==> b[i].retry == Retry(a[p].retry.maxAttempts, a[p].retry.attempts + 1)
  }

  ghost predicate SameRetries(a: seq<Task>, b: seq<Task>)
    requires |a| == |b|
  {
    forall i :: 0 <= i < |a| ==> b[i].retry == a[i].retry
  }

  /** A thrown error: one attempt more, and another try while the limit is not reached. */
  ghost predicate Throws(a: seq<Task>, b: seq<Task>, id: string, p: nat, message: string) {
    && FirstWith(a, id, p) && |b| == |a|
    && forall i :: 0 <= i < |a| ==>
         b[i] == if a[i].id != id then a[i]
                 else a[i].(state := if a[p].retry.attempts + 1 < a[p].retry.maxAttempts then Ready else Failed,
                            retry := Retry(a[p].retry.maxAttempts, a[p].retry.attempts + 1),
                            failureDiagnostics := a[p].failureDiagnostics + [message])
  }

  ghost predicate DoneBeforeValidation(tasks: seq<Task>, id: string) {
    exists t :: t in tasks && t.id == id && t.kind != Validation && t.state == Completed
  }

  /** A successful repair reopens the validation tasks: ready when each dependency is a completed task
      of another kind, queued otherwise; those with the id also record what the repair found. */
  ghost predicate Reopened(a: seq<Task>, b: seq<Task>, id: string, repair: TaskResult) {
    && |b| == |a|
    && forall i :: 0 <= i < |a| ==>
         if a[i].kind != Validation then b[i] == a[i]
         else
           && b[i] == a[i].(state := b[i].state, evidence := b[i].evidence, artifacts := b[i].artifacts,
                            failureDiagnostics := b[i].failureDiagnostics)
           && b[i].state == (if forall d :: d in a[i].dependencies ==> DoneBeforeValidation(a, d) then Ready else Queued)
           && b[i].evidence == (if a[i].id == id then a[i].evidence + repair.evidence else a[i].evidence)
           && (if a[i].id == id then Joined(a[i].artifacts, repair.artifacts, b[i].artifacts) else b[i].artifacts == a[i].artifacts)
           && b[i].failureDiagnostics
                == (if a[i].id == id then a[i].failureDiagnostics + repair.diagnostics else a[i].failureDiagnostics)
  }

  /** The record differs in its tasks and in the files added. */
  ghost predicate Writes(a: Execution, b: Execution, files: set<string>) {
    b == Execution(Graph(a.graph.missionId, a.graph.objective, b.graph.tasks), a.modifiedFiles + files, a.completed,
                   a.cancellationReason)
  }

  ghost predicate Becomes(r: ResultState, state: TaskState) {
    match r
    case ResultCompleted => state == Completed
    case ResultFailed => state == Failed
    case ResultBlocked => state == Blocked
  }

  ghost predicate IsActiveFor(kind: TaskKind, state: TaskState) {
    if kind == Validation then state == Validating else if kind == TaskKind.Repair then state == Repairing else state == Running
  }

  // ----- the rebuilds have these effects

  lemma {:induction false} FindIsFirst(tasks: seq<Task>, id: string) returns (p: nat)
    requires id in Ids(tasks)
    ensures FirstWith(tasks, id, p) && FindTask(tasks, id) == tasks[p]
  {
    if tasks[0].id == id {
      p := 0;
    } else {
      assert tasks == [tasks[0]] + tasks[1..];
      var q := FindIsFirst(tasks[1..], id);
      p := q + 1;
    }
  }

  lemma {:induction false} DedupJoins(xs: seq<string>)
    ensures forall i, j :: 0 <= i < j < |Dedup(xs)| ==> FirstBefore(xs, Dedup(xs)[i], Dedup(xs)[j])
  {
    if xs != [] {
      var n := |xs| - 1;
      var front := Dedup(xs[..n]);
      DedupJoins(xs[..n]);
      forall i, j | 0 <= i < j < |Dedup(xs)|
        ensures FirstBefore(xs, Dedup(xs)[i], Dedup(xs)[j])
      {
        if j < |front| {
          var p: nat, q: nat :| FirstAt(xs[..n], front[i], p) && FirstAt(xs[..n], front[j], q) && p < q;
          FirstAtExtends(xs, front[i], p);
          FirstAtExtends(xs, front[j], q);
        } else {
          var p := FirstOf(xs[..n], front[i]);
          FirstAtExtends(xs, front[i], p);
          assert FirstAt(xs, xs[n], n);
        }
      }
    }
  }

  lemma FirstAtExtends(xs: seq<string>, x: string, p: nat)
    requires xs != [] && FirstAt(xs[..|xs| - 1], x, p)
    ensures FirstAt(xs, x, p)
  {
    assert xs[..|xs| - 1][..p] == xs[..p];
  }

  lemma {:induction false} FirstOf(xs: seq<string>, x: string) returns (p: nat)
    requires x in xs
    ensures FirstAt(xs, x, p)
  {
    var front := xs[..|xs| - 1];
    assert xs == front + [xs[|xs| - 1]];
    if x in front {
      p := FirstOf(front, x);
      FirstAtExtends(xs, x, p);
    } else {
      p := |xs| - 1;
    }
  }

  lemma DedupIsJoined(a: seq<string>, b: seq<string>)
    ensures Joined(a, b, Dedup(a + b))
  {
    DedupJoins(a + b);
  }

  lemma ResultEffect(e: Execution, id: string, r: TaskResult) returns (p: nat, state: TaskState)
    requires id in Ids(e.graph.tasks)
    ensures var e' := ApplyTaskResult(e, id, r);
            && Adds(e.graph.tasks, e'.graph.tasks, id, p, r, state) && Counted(e.graph.tasks, e'.graph.tasks, id, p)
            && Becomes(r.state, state) && Writes(e, e', r.modifiedFiles)
  {
    p := FindIsFirst(e.graph.tasks, id);
    state := StateOf(r.state);
    DedupIsJoined(e.graph.tasks[p].artifacts, r.artifacts);
  }

  lemma ThrowEffect(e: Execution, id: string, message: string) returns (p: nat)
    requires id in Ids(e.graph.tasks)
    ensures var e' := ApplyThrow(e, id, message);
            Throws(e.graph.tasks, e'.graph.tasks, id, p, message) && Writes(e, e', {})
  {
    p := FindIsFirst(e.graph.tasks, id);
  }

  lemma BeginEffect(e: Execution, id: string, failure: TaskResult) returns (p: nat)
    requires id in Ids(e.graph.tasks)
    ensures var e' := BeginRepair(e, id, failure);
            && Adds(e.graph.tasks, e'.graph.tasks, id, p, failure, Repairing) && Counted(e.graph.tasks, e'.graph.tasks, id, p)
            && Writes(e, e', failure.modifiedFiles)
  {
    p := FindIsFirst(e.graph.tasks, id);
    DedupIsJoined(e.graph.tasks[p].artifacts, failure.artifacts);
  }

  /** The second save of the repair path, after a successful repair and after any other. */
  ghost predicate Finishes(a: Execution, b: Execution, id: string, p: nat, repair: TaskResult, state: TaskState) {
    && Writes(a, b, repair.modifiedFiles)
    && if repair.state == ResultCompleted then Reopened(a.graph.tasks, b.graph.tasks, id, repair)
       else
         && Adds(a.graph.tasks, b.graph.tasks, id, p, repair, state) && SameRetries(a.graph.tasks, b.graph.tasks)
         && Becomes(repair.state, state)
  }

  lemma FinishEffect(e: Execution, id: string, repair: TaskResult) returns (p: nat, state: TaskState)
    requires id in Ids(e.graph.tasks)
    ensures Finishes(e, FinishRepair(e, id, repair), id, p, repair, state)
  {
    p := FindIsFirst(e.graph.tasks, id);
    state := StateOf(repair.state);
    if repair.state == ResultCompleted {
      ReopenEffect(MergeModifiedFiles(e, repair.modifiedFiles), id, repair);
    } else {
      DedupIsJoined(e.graph.tasks[p].artifacts, repair.artifacts);
    }
  }

  lemma ReopenEffect(e: Execution, id: string, repair: TaskResult)
    ensures Reopened(e.graph.tasks, ResetValidationChain(e, id, repair).graph.tasks, id, repair)
  {
    var a := e.graph.tasks;
    forall i | 0 <= i < |a| && a[i].id == id
      ensures Joined(a[i].artifacts, repair.artifacts, Dedup(a[i].artifacts + repair.artifacts))
    {
      DedupIsJoined(a[i].artifacts, repair.artifacts);
    }
  }

  lemma MarkEffect(e: Execution, id: string, active: TaskState, p: nat)
    requires FirstWith(e.graph.tasks, id, p)
    ensures var e' := MarkActive(e, id, active);
            && FirstWith(e'.graph.tasks, id, p) && id in Ids(e'.graph.tasks) && Writes(e, e', {})
            && |e'.graph.tasks| == |e.graph.tasks|
            && forall i :: 0 <= i < |e.graph.tasks| ==>
                 e'.graph.tasks[i] == if e.graph.tasks[i].id == id then e.graph.tasks[i].(state := active) else e.graph.tasks[i]
  {
    assert MarkActive(e, id, active).graph.tasks[p] in MarkActive(e, id, active).graph.tasks;
  }

  /** On start and on resume every task left running, validating or repairing is interrupted, and
      nothing else changes. */
  lemma ReconcilingInterruptsTheActive(e: Execution)
    ensures var a, b := e.graph.tasks, ReconcileGraph(e).graph.tasks;
            && Writes(e, ReconcileGraph(e), {}) && |b| == |a|
            && forall i :: 0 <= i < |a| ==>
                 b[i] == if a[i].state in {Running, Validating, Repairing} then a[i].(state := Interrupted) else a[i]
  {}

  // ----- a whole attempt

  /** An attempt without a repair: what the executor returned or threw is written to the task. */
  ghost predicate SettlesWith(a: Execution, b: Execution, id: string, p: nat, outcome: Outcome, state: TaskState) {
    match outcome
    case Threw(message) => Throws(a.graph.tasks, b.graph.tasks, id, p, message) && Writes(a, b, {})
    case Returned(r) =>
      && Adds(a.graph.tasks, b.graph.tasks, id, p, r, state) && Counted(a.graph.tasks, b.graph.tasks, id, p)
      && Becomes(r.state, state) && Writes(a, b, r.modifiedFiles)
  }

  /** An attempt with a repair: the failed validation is recorded, then what came of the repair. */
  ghost predicate RepairsWith(a: Execution, mid: Execution, b: Execution, id: string, p: nat, failure: TaskResult,
                              repair: TaskResult, state: TaskState) {
    && Adds(a.graph.tasks, mid.graph.tasks, id, p, failure, Repairing) && Counted(a.graph.tasks, mid.graph.tasks, id, p)
    && Writes(a, mid, failure.modifiedFiles)
    && Finishes(mid, b, id, p, repair, state)
  }

  /** The repair controller is told of every validation that returned, whether it passed, and of nothing
      else. */
  ghost predicate Learns(a: RepairRecord, b: RepairRecord, t: Task, outcome: Outcome) {
    match outcome
    case Threw(_) => b == a
    case Returned(r) =>
      if t.kind != Validation then b == a
      else b == RecordValidation(a, t.id, r.state == ResultCompleted)
  }

  /** The first task with the id is executed in the active state of its kind. A failed validation is
      repaired if the executor can repair; anything else is written as it was returned or thrown. */
  ghost predicate Attempts(env: Environment, s: RunState, s': RunState, id: string, kind: TaskKind,
                           p: nat, active: TaskState, state: TaskState, mid: Execution, learned: RepairRecord) {
    && FirstWith(Tasks(s), id, p) && IsActiveFor(kind, active)
    && var running := Tasks(s)[p].(state := active);
    var outcome := env.execute(s.calls, running);
    && s'.calls == s.calls + 1 && Learns(s.repair, learned, running, outcome)
    && if kind == Validation && outcome.Returned? && outcome.result.state == ResultFailed && env.canRepair then
         var (repaired, repair) := AttemptRepair(learned, env.repairEdit(s.calls));
         s'.repair == repaired && RepairsWith(s.record, mid, s'.record, id, p, outcome.result, repair, state)
       else
         s'.repair == learned && SettlesWith(s.record, s'.record, id, p, outcome, state)
  }

  lemma AttemptWrites(env: Environment, s: RunState, id: string, kind: TaskKind)
      returns (p: nat, active: TaskState, state: TaskState, mid: Execution, learned: RepairRecord)
    requires id in Ids(Tasks(s))
    ensures Attempts(env, s, AttemptTask(env, s, id, kind), id, kind, p, active, state, mid, learned)
  {
    active := ActiveStateFor(kind);
    p := FindIsFirst(Tasks(s), id);
    MarkEffect(s.record, id, active, p);
    var marked := MarkActive(s.record, id, active);
    MarkedTaskRuns(s.record, marked, id, p, active);
    var running := Tasks(s)[p].(state := active);
    var outcome := env.execute(s.calls, running);
    learned := Recorded(s.repair, running, outcome);
    if EntersRepair(env, kind, outcome) {
      mid, state := RepairWrites(s.record, marked, id, p, outcome.result, AttemptRepair(learned, env.repairEdit(s.calls)).1);
    } else {
      mid := marked;
      state := OutcomeWrites(s.record, marked, id, p, outcome);
    }
    AttemptIs(env, s, AttemptTask(env, s, id, kind), id, kind, p, active, state, mid, learned);
  }

  lemma AttemptIs(env: Environment, s: RunState, s': RunState, id: string, kind: TaskKind,
                  p: nat, active: TaskState, state: TaskState, mid: Execution, learned: RepairRecord)
    requires FirstWith(Tasks(s), id, p) && active == ActiveStateFor(kind) && s'.calls == s.calls + 1
    requires var running := Tasks(s)[p].(state := active);
             var outcome := env.execute(s.calls, running);
             && learned == Recorded(s.repair, running, outcome)
             && if EntersRepair(env, kind, outcome) then
                  var (repaired, repair) := AttemptRepair(learned, env.repairEdit(s.calls));
                  s'.repair == repaired && RepairsWith(s.record, mid, s'.record, id, p, outcome.result, repair, state)
                else s'.repair == learned && SettlesWith(s.record, s'.record, id, p, outcome, state)
    ensures Attempts(env, s, s', id, kind, p, active, state, mid, learned)
  {}

  /** Only the state of the tasks with the id has changed. */
  ghost predicate Marked(a: Execution, m: Execution, id: string) {
    && Writes(a, m, {}) && |m.graph.tasks| == |a.graph.tasks|
    && forall i :: 0 <= i < |a.graph.tasks| ==>
         m.graph.tasks[i] == if a.graph.tasks[i].id == id then a.graph.tasks[i].(state := m.graph.tasks[i].state) else a.graph.tasks[i]
  }

  lemma MarkedTaskRuns(e: Execution, marked: Execution, id: string, p: nat, active: TaskState)
    requires FirstWith(e.graph.tasks, id, p) && Marked(e, marked, id) && marked.graph.tasks[p].state == active
    requires id in Ids(marked.graph.tasks)
    ensures FindTask(marked.graph.tasks, id) == e.graph.tasks[p].(state := active)
  {
    var q := FindIsFirst(marked.graph.tasks, id);
    assert q == p;
  }

  /** Adding to the marked tasks is adding to the tasks as they were. */
  lemma AddsFromMarked(e: Execution, marked: Execution, b: seq<Task>, id: string, p: nat, q: nat, r: TaskResult, state: TaskState)
    requires FirstWith(e.graph.tasks, id, p) && Marked(e, marked, id)
    requires Adds(marked.graph.tasks, b, id, q, r, state) && Counted(marked.graph.tasks, b, id, q)
    ensures Adds(e.graph.tasks, b, id, p, r, state) && Counted(e.graph.tasks, b, id, p)
  {
    assert q == p;
  }

  lemma ThrowsFromMarked(e: Execution, marked: Execution, b: seq<Task>, id: string, p: nat, q: nat, message: string)
    requires FirstWith(e.graph.tasks, id, p) && Marked(e, marked, id) && Throws(marked.graph.tasks, b, id, q, message)
    ensures Throws(e.graph.tasks, b, id, p, message)
  {
    assert q == p;
  }

  lemma OutcomeWrites(e: Execution, marked: Execution, id: string, p: nat, outcome: Outcome) returns (state: TaskState)
    requires FirstWith(e.graph.tasks, id, p) && Marked(e, marked, id) && id in Ids(marked.graph.tasks)
    ensures SettlesWith(e, ApplyOutcome(marked, id, outcome), id, p, outcome, state)
  {
    match outcome {
      case Threw(message) =>
        var q := ThrowEffect(marked, id, message);
        ThrowsFromMarked(e, marked, ApplyThrow(marked, id, message).graph.tasks, id, p, q, message);
        state := Failed;
      case Returned(r) =>
        var q;
        q, state := ResultEffect(marked, id, r);
        AddsFromMarked(e, marked, ApplyTaskResult(marked, id, r).graph.tasks, id, p, q, r, state);
    }
  }

  lemma RepairWrites(e: Execution, marked: Execution, id: string, p: nat, failure: TaskResult, repair: TaskResult)
      returns (mid: Execution, state: TaskState)
    requires FirstWith(e.graph.tasks, id, p) && Marked(e, marked, id) && id in Ids(marked.graph.tasks)
    ensures mid == BeginRepair(marked, id, failure) && id in Ids(mid.graph.tasks)
    ensures RepairsWith(e, mid, FinishRepair(mid, id, repair), id, p, failure, repair, state)
  {
    mid := BeginRepair(marked, id, failure);
    BeginKeepsIdSet(marked, id, failure);
    var q := BeginEffect(marked, id, failure);
    AddsFromMarked(e, marked, mid.graph.tasks, id, p, q, failure, Repairing);
    q, state := FinishEffect(mid, id, repair);
    FinishesAt(mid, FinishRepair(mid, id, repair), id, p, q, repair, state);
  }

  lemma FinishesAt(a: Execution, b: Execution, id: string, p: nat, q: nat, repair: TaskResult, state: TaskState)
    requires FirstWith(a.graph.tasks, id, p) && Finishes(a, b, id, q, repair, state)
    ensures Finishes(a, b, id, p, repair, state)
  {
    if repair.state != ResultCompleted { assert q == p; }
  }
}
