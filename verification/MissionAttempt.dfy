/** One pass of the mission loop of src/autonomy/persistent-mission-executor.ts: a task is marked,
    executed and settled. Every pass lowers a potential, on any task list, also one in which ids are
    repeated: updates go to every task with the id, and reads to the first one. */
module MissionAttempt {
  import opened TaskGraph
  import opened MissionRecord
  import opened RepairController

  datatype StopSignal = Continue | Abort(reason: AbortReason) | DurationExceeded | BudgetExceeded

  /** The outside world: what the n-th execution and the n-th repair edit do, whether the task
      executor can repair at all, and what the stop checks before the n-th execution say. */
  datatype Environment = Environment(
    execute: (nat, Task) -> Outcome,
    repairEdit: nat -> Outcome,
    canRepair: bool,
    stop: nat -> StopSignal)

  datatype Event = Started(id: string) | Done(id: string) | Repaired

  datatype RunState = RunState(record: Execution, repair: RepairRecord, calls: nat, log: seq<Event>)

  datatype Exit = Aborted | OutOfTime | OverBudget | Stalled | Finished

  datatype RunResult = RunResult(state: RunState, exit: Exit)

  function Tasks(s: RunState): seq<Task> { s.record.graph.tasks }

  /** What the repair record learns from an executed task (runtime-mission-task-executor.ts). */
  function Recorded(r: RepairRecord, t: Task, outcome: Outcome): RepairRecord {
    if t.kind == Validation && outcome.Returned?
    then RecordValidation(r, t.id, outcome.result.state == ResultCompleted) else r
  }

  predicate EntersRepair(env: Environment, kind: TaskKind, outcome: Outcome) {
    kind == Validation && outcome.Returned? && outcome.result.state == ResultFailed && env.canRepair
  }

  /** `#executeTask` on the task chosen with this id and kind, without interference. */
  function AttemptTask(env: Environment, s: RunState, id: string, kind: TaskKind): RunState
    requires id in Ids(Tasks(s))
  {
    MarkKeepsIdSet(s.record, id, ActiveStateFor(kind));
    var marked := MarkActive(s.record, id, ActiveStateFor(kind));
    var running := FindTask(marked.graph.tasks, id);
    var outcome := env.execute(s.calls, running);
    var repair := Recorded(s.repair, running, outcome);
    var log := s.log + [Started(id)];
    if EntersRepair(env, kind, outcome) then
      RepairValidationFailure(RunState(marked, repair, s.calls, log), id, outcome.result, env.repairEdit(s.calls))
    else
      RunState(ApplyOutcome(marked, id, outcome), repair, s.calls + 1,
               if outcome.Returned? && outcome.result.state == ResultCompleted then log + [Done(id)] else log)
  }

  /** The attempt at the task at position `k`. */
  function Attempt(env: Environment, s: RunState, k: nat): RunState
    requires k < |Tasks(s)|
  {
    assert Tasks(s)[k] in Tasks(s);
    AttemptTask(env, s, Tasks(s)[k].id, Tasks(s)[k].kind)
  }

  /** `#repairValidationFailure`: the failed validation is handed to the repair controller. */
  function RepairValidationFailure(s: RunState, id: string, failure: TaskResult, edit: Outcome): RunState
    requires id in Ids(Tasks(s))
  {
    BeginKeepsIdSet(s.record, id, failure);
    var begun := BeginRepair(s.record, id, failure);
    var (repair, result) := AttemptRepair(s.repair, edit);
    RunState(FinishRepair(begun, id, result), repair, s.calls + 1,
             if result.state == ResultCompleted then s.log + [Repaired] else s.log)
  }

  lemma MarkKeepsIdSet(e: Execution, id: string, active: TaskState)
    ensures Ids(MarkActive(e, id, active).graph.tasks) == Ids(e.graph.tasks)
  {
    SameIdsSameSet(e.graph.tasks, MarkActive(e, id, active).graph.tasks);
  }

  lemma BeginKeepsIdSet(e: Execution, id: string, failure: TaskResult)
    requires id in Ids(e.graph.tasks)
    ensures Ids(BeginRepair(e, id, failure).graph.tasks) == Ids(e.graph.tasks)
  {
    SameIdsSameSet(e.graph.tasks, BeginRepair(e, id, failure).graph.tasks);
  }

  ghost predicate SameIdAt(a: seq<Task>, b: seq<Task>, i: nat)
    requires i < |a| && i < |b|
  {
    a[i].id == b[i].id
  }

  lemma SameIdsSameSet(a: seq<Task>, b: seq<Task>)
    requires |a| == |b| && forall i: nat :: i < |a| ==> SameIdAt(a, b, i)
    ensures Ids(a) == Ids(b)
  {
    forall id
      ensures id in Ids(a) <==> id in Ids(b)
    {
      if t :| t in a && t.id == id {
        var i: nat :| i < |a| && a[i] == t;
        assert SameIdAt(a, b, i) && b[i] in b;
      }
      if t :| t in b && t.id == id {
        var i: nat :| i < |b| && b[i] == t;
        assert SameIdAt(a, b, i) && a[i] in a;
      }
    }
  }

  // ----- the potential

  function RetriesOf(retry: Retry): nat {
    if retry.attempts < retry.maxAttempts then retry.maxAttempts - retry.attempts else 0
  }

  function RetriesLeft(t: Task): nat {
    RetriesOf(t.retry)
  }

  /** The retries left to an id are those of its first task. */
  function SharedRetries(tasks: seq<Task>, i: nat): nat
    requires i < |tasks|
  {
    assert tasks[i] in tasks;
    RetriesLeft(FindTask(tasks, tasks[i].id))
  }

  function SharedWeight(tasks: seq<Task>, i: nat): nat
    requires i < |tasks|
  {
    SharedRetries(tasks, i) + if IsTerminal(tasks[i].state) then 0 else 1
  }

  function SharedWeights(tasks: seq<Task>): seq<nat> {
    seq(|tasks|, i requires 0 <= i < |tasks| => SharedWeight(tasks, i))
  }

  function Sum(xs: seq<nat>): nat {
    if xs == [] then 0 else Sum(xs[..|xs| - 1]) + xs[|xs| - 1]
  }

  /** Every repair left may reopen the whole list once. */
  function Potential(s: RunState): nat {
    RepairsLeft(s.repair) * (|Tasks(s)| + 1) + Sum(SharedWeights(Tasks(s)))
  }

  lemma {:induction false} SumWithin(xs: seq<nat>, ys: seq<nat>)
    requires |xs| == |ys| && forall i :: 0 <= i < |xs| ==> ys[i] <= xs[i] + 1
    ensures Sum(ys) <= Sum(xs) + |xs|
  {
    if xs != [] { SumWithin(xs[..|xs| - 1], ys[..|ys| - 1]); }
  }

  lemma {:induction false} SumAtMost(xs: seq<nat>, ys: seq<nat>)
    requires |xs| == |ys| && forall i :: 0 <= i < |xs| ==> ys[i] <= xs[i]
    ensures Sum(ys) <= Sum(xs)
  {
    if xs != [] { SumAtMost(xs[..|xs| - 1], ys[..|ys| - 1]); }
  }

  lemma {:induction false} SumBelow(xs: seq<nat>, ys: seq<nat>, k: nat)
    requires |xs| == |ys| && forall i :: 0 <= i < |xs| ==> ys[i] <= xs[i]
    requires k < |xs| && ys[k] < xs[k]
    ensures Sum(ys) < Sum(xs)
  {
    var n := |xs| - 1;
    if k == n { SumAtMost(xs[..n], ys[..n]); } else { SumBelow(xs[..n], ys[..n], k); }
  }

  lemma LexicographicDrop(r: nat, r': nat, n: nat, w: nat, w': nat)
    requires (r' <= r && w' < w) || (r' + 1 == r && w' <= w + n)
    ensures r' * (n + 1) + w' < r * (n + 1) + w
  {
    if r' <= r && w' < w {
      assert r * (n + 1) == r' * (n + 1) + (r - r') * (n + 1);
    } else {
      assert r * (n + 1) == r' * (n + 1) + (n + 1);
    }
  }

  // ----- what an attempt does to the tasks of its id

  /** Task by task: the tasks with the id got this retry policy and every other one kept its own. */
  ghost predicate RetryAt(a: seq<Task>, b: seq<Task>, id: string, retry: Retry, i: nat)
    requires i < |a| && i < |b|
  {
    b[i].id == a[i].id && b[i].retry == if a[i].id == id then retry else a[i].retry
  }

  ghost predicate SharesRetry(a: seq<Task>, b: seq<Task>, id: string, retry: Retry) {
    |a| == |b| && forall i: nat :: i < |a| ==> RetryAt(a, b, id, retry, i)
  }

  ghost predicate StateAt(a: seq<Task>, b: seq<Task>, id: string, state: TaskState, i: nat)
    requires i < |a| && i < |b|
  {
    b[i].state == if a[i].id == id then state else a[i].state
  }

  ghost predicate SharesState(a: seq<Task>, b: seq<Task>, id: string, state: TaskState) {
    |a| == |b| && forall i: nat :: i < |a| ==> StateAt(a, b, id, state, i)
  }

  lemma {:induction false} FirstShares(a: seq<Task>, b: seq<Task>, id: string, retry: Retry, x: string)
    requires SharesRetry(a, b, id, retry) && x in Ids(a)
    ensures x in Ids(b) && FindTask(b, x).retry == if x == id then retry else FindTask(a, x).retry
  {
    assert RetryAt(a, b, id, retry, 0);
    if a[0].id == x {
      assert b[0] in b;
    } else {
      forall i: nat | i < |a[1..]|
        ensures RetryAt(a[1..], b[1..], id, retry, i)
      {
        assert RetryAt(a, b, id, retry, i + 1);
      }
      assert a == [a[0]] + a[1..] && b == [b[0]] + b[1..];
      FirstShares(a[1..], b[1..], id, retry, x);
    }
  }

  /** Settling an id lowers the weight of the task chosen and raises that of none. */
  lemma SettlingLowersWeights(a: seq<Task>, b: seq<Task>, k: nat, retry: Retry, state: TaskState)
    requires k < |a| && !IsTerminal(a[k].state) && a[k].id in Ids(a)
    requires SharesRetry(a, b, a[k].id, retry) && SharesState(a, b, a[k].id, state)
    requires var before := RetriesLeft(FindTask(a, a[k].id)); var after := RetriesOf(retry);
             after <= before && (IsTerminal(state) || after < before)
    ensures Sum(SharedWeights(b)) < Sum(SharedWeights(a))
  {
    forall i: nat | i < |a|
      ensures SharedWeight(b, i) <= SharedWeight(a, i) && (i == k ==> SharedWeight(b, i) < SharedWeight(a, i))
    {
      assert a[i] in a && RetryAt(a, b, a[k].id, retry, i) && StateAt(a, b, a[k].id, state, i);
      FirstShares(a, b, a[k].id, retry, a[i].id);
    }
    SumBelow(SharedWeights(a), SharedWeights(b), k);
  }

  /** Whatever states a reset gives, no weight rises by more than one. */
  lemma ResettingRaisesWeights(a: seq<Task>, b: seq<Task>, id: string, retry: Retry)
    requires id in Ids(a) && SharesRetry(a, b, id, retry) && RetriesOf(retry) <= RetriesLeft(FindTask(a, id))
    ensures Sum(SharedWeights(b)) <= Sum(SharedWeights(a)) + |a|
  {
    forall i: nat | i < |a|
      ensures SharedWeight(b, i) <= SharedWeight(a, i) + 1
    {
      assert a[i] in a && RetryAt(a, b, id, retry, i);
      FirstShares(a, b, id, retry, a[i].id);
    }
    SumWithin(SharedWeights(a), SharedWeights(b));
  }

  // ----- every attempt lowers the potential

  function NextRetry(tasks: seq<Task>, id: string): Retry
    requires id in Ids(tasks)
  {
    var retry := FindTask(tasks, id).retry;
    retry.(attempts := retry.attempts + 1)
  }

  function OutcomeState(tasks: seq<Task>, id: string, outcome: Outcome): TaskState
    requires id in Ids(tasks)
  {
    match outcome
    case Returned(r) => StateOf(r.state)
    case Threw(_) => if NextRetry(tasks, id).attempts < NextRetry(tasks, id).maxAttempts then Ready else Failed
  }

  lemma MarkedFirst(e: Execution, id: string, active: TaskState)
    requires id in Ids(e.graph.tasks)
    ensures id in Ids(MarkActive(e, id, active).graph.tasks)
    ensures FindTask(MarkActive(e, id, active).graph.tasks, id).retry == FindTask(e.graph.tasks, id).retry
  {
    FindPatched(e.graph.tasks, id, (t: Task) => t.(state := active));
    assert MarkActive(e, id, active).graph.tasks == PatchTasks(e.graph.tasks, id, (t: Task) => t.(state := active));
  }

  lemma OutcomeShares(e: Execution, id: string, active: TaskState, outcome: Outcome)
    requires id in Ids(e.graph.tasks) && id in Ids(MarkActive(e, id, active).graph.tasks)
    ensures var a, b := e.graph.tasks, ApplyOutcome(MarkActive(e, id, active), id, outcome).graph.tasks;
            SharesRetry(a, b, id, NextRetry(a, id)) && SharesState(a, b, id, OutcomeState(a, id, outcome))
  {
    MarkedFirst(e, id, active);
    match outcome { case Returned(_) => case Threw(_) => }
  }

  lemma BegunShares(e: Execution, id: string, active: TaskState, failure: TaskResult)
    requires id in Ids(e.graph.tasks) && id in Ids(MarkActive(e, id, active).graph.tasks)
    ensures var a, b := e.graph.tasks, BeginRepair(MarkActive(e, id, active), id, failure).graph.tasks;
            SharesRetry(a, b, id, NextRetry(a, id)) && SharesState(a, b, id, Repairing)
  {
    MarkedFirst(e, id, active);
  }

  lemma EndedShares(a: seq<Task>, e: Execution, id: string, retry: Retry, repair: TaskResult)
    requires SharesRetry(a, e.graph.tasks, id, retry) && SharesState(a, e.graph.tasks, id, Repairing)
    requires id in Ids(e.graph.tasks) && repair.state != ResultCompleted
    ensures var b := FinishRepair(e, id, repair).graph.tasks;
            SharesRetry(a, b, id, retry) && SharesState(a, b, id, StateOf(repair.state))
  {
    var b := FinishRepair(e, id, repair).graph.tasks;
    forall i: nat | i < |a|
      ensures RetryAt(a, b, id, retry, i) && StateAt(a, b, id, StateOf(repair.state), i)
    {
      assert RetryAt(a, e.graph.tasks, id, retry, i) && StateAt(a, e.graph.tasks, id, Repairing, i);
    }
  }

  lemma ResetShares(a: seq<Task>, e: Execution, id: string, retry: Retry, repair: TaskResult)
    requires SharesRetry(a, e.graph.tasks, id, retry)
    requires id in Ids(e.graph.tasks) && repair.state == ResultCompleted
    ensures SharesRetry(a, FinishRepair(e, id, repair).graph.tasks, id, retry)
  {
    var b := FinishRepair(e, id, repair).graph.tasks;
    forall i: nat | i < |a|
      ensures RetryAt(a, b, id, retry, i)
    {
      assert RetryAt(a, e.graph.tasks, id, retry, i);
    }
  }

  /** The task list after the repair of a begun one, against the list before the attempt. */
  lemma FinishLowersWeights(a: seq<Task>, begun: Execution, k: nat, retry: Retry, result: TaskResult)
    requires k < |a| && IsPending(a[k].state) && a[k].id in Ids(a) && a[k].id in Ids(begun.graph.tasks)
    requires SharesRetry(a, begun.graph.tasks, a[k].id, retry) && SharesState(a, begun.graph.tasks, a[k].id, Repairing)
    requires RetriesOf(retry) <= RetriesLeft(FindTask(a, a[k].id))
    ensures var b := FinishRepair(begun, a[k].id, result).graph.tasks;
            && |b| == |a|
            && Sum(SharedWeights(b)) <= Sum(SharedWeights(a)) + |a|
            && (result.state != ResultCompleted ==> Sum(SharedWeights(b)) < Sum(SharedWeights(a)))
  {
    var b := FinishRepair(begun, a[k].id, result).graph.tasks;
    if result.state == ResultCompleted {
      ResetShares(a, begun, a[k].id, retry, result);
      ResettingRaisesWeights(a, b, a[k].id, retry);
    } else {
      EndedShares(a, begun, a[k].id, retry, result);
      SettlingLowersWeights(a, b, k, retry, StateOf(result.state));
    }
  }

  lemma RepairLowersShared(s: RunState, marked: RunState, k: nat, retry: Retry, failure: TaskResult, edit: Outcome)
    requires k < |Tasks(s)| && IsPending(Tasks(s)[k].state) && Tasks(s)[k].id in Ids(Tasks(s))
    requires var id := Tasks(s)[k].id;
             && id in Ids(Tasks(marked)) && RetriesOf(retry) <= RetriesLeft(FindTask(Tasks(s), id))
             && id in Ids(BeginRepair(marked.record, id, failure).graph.tasks)
             && SharesRetry(Tasks(s), BeginRepair(marked.record, id, failure).graph.tasks, id, retry)
             && SharesState(Tasks(s), BeginRepair(marked.record, id, failure).graph.tasks, id, Repairing)
    requires RepairsLeft(marked.repair) == RepairsLeft(s.repair)
    ensures Potential(RepairValidationFailure(marked, Tasks(s)[k].id, failure, edit)) < Potential(s)
  {
    var a, id := Tasks(s), Tasks(s)[k].id;
    var begun := BeginRepair(marked.record, id, failure);
    var (after, result) := AttemptRepair(marked.repair, edit);
    FinishLowersWeights(a, begun, k, retry, result);
    var finished := RepairValidationFailure(marked, id, failure, edit);
    assert finished.record == FinishRepair(begun, id, result) && finished.repair == after;
    PotentialDrops(s, finished);
  }

  lemma PotentialDrops(a: RunState, b: RunState)
    requires |Tasks(a)| == |Tasks(b)|
    requires var w, w' := Sum(SharedWeights(Tasks(a))), Sum(SharedWeights(Tasks(b)));
             || (RepairsLeft(b.repair) <= RepairsLeft(a.repair) && w' < w)
             || (RepairsLeft(b.repair) + 1 == RepairsLeft(a.repair) && w' <= w + |Tasks(a)|)
    ensures Potential(b) < Potential(a)
  {
    LexicographicDrop(RepairsLeft(a.repair), RepairsLeft(b.repair), |Tasks(a)|, Sum(SharedWeights(Tasks(a))), Sum(SharedWeights(Tasks(b))));
  }

  /** Every attempt at an unfinished task strictly lowers the potential, although a repair reopens
      finished tasks and ids may be repeated. */
  lemma AttemptLowersPotential(env: Environment, s: RunState, k: nat)
    requires k < |Tasks(s)| && IsPending(Tasks(s)[k].state)
    ensures Potential(Attempt(env, s, k)) < Potential(s)
  {
    var t := Tasks(s)[k];
    assert t in Tasks(s);
    var active := ActiveStateFor(t.kind);
    MarkKeepsIdSet(s.record, t.id, active);
    var marked := MarkActive(s.record, t.id, active);
    var running := FindTask(marked.graph.tasks, t.id);
    var outcome := env.execute(s.calls, running);
    var repair := Recorded(s.repair, running, outcome);
    if EntersRepair(env, t.kind, outcome) {
      BegunShares(s.record, t.id, active, outcome.result);
      BeginKeepsIdSet(marked, t.id, outcome.result);
      RepairLowersShared(s, RunState(marked, repair, s.calls, s.log + [Started(t.id)]), k, NextRetry(Tasks(s), t.id),
                         outcome.result, env.repairEdit(s.calls));
    } else {
      OutcomeShares(s.record, t.id, active, outcome);
      var b := ApplyOutcome(marked, t.id, outcome).graph.tasks;
      SettlingLowersWeights(Tasks(s), b, k, NextRetry(Tasks(s), t.id), OutcomeState(Tasks(s), t.id, outcome));
      PotentialDrops(s, Attempt(env, s, k));
    }
  }
}
