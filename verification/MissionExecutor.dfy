/** `PersistentMissionExecutor` (src/autonomy/persistent-mission-executor.ts) with its store, run
    by one caller: the loop of MissionRun in the form the program has it. What other writers may
    do between its locked sections is the subject of MissionInterleaving. */
module MissionExecutor {
  import opened Options
  import opened TaskGraph
  import opened MissionRecord
  import opened RepairController
  import opened MissionAttempt
  import opened MissionRun

  class PersistentMissionExecutor {
    const env: Environment
    var store: Option<Execution>     // the persisted record of the mission
    var repair: RepairRecord         // the persisted record of its repair controller
    var calls: nat                   // task executions so far
    ghost var log: seq<Event>

    constructor (env: Environment, repair: RepairRecord)
      ensures this.env == env && store == None && this.repair == repair && calls == 0 && log == []
    {
      this.env := env;
      this.repair := repair;
      store := None;
      calls := 0;
      log := [];
    }

    ghost function State(current: Execution): RunState
      reads this
    {
      RunState(current, repair, calls, log)
    }

    /** The record is stored and the run takes it from there. */
    method Start(graph: Graph) returns (final: Execution, exit: Exit)
      modifies this
      ensures RunResult(State(final), exit) == RunFrom(env, old(State(ReconcileGraph(Execution(graph, {}, false, None)))))
      ensures store == Some(final)
    {
      var execution := ReconcileGraph(Execution(graph, {}, false, None));
      store := Some(execution);
      RunOnStored(env, State(execution));
      var result, how := Run(execution);
      final, exit := result.value, how;
    }

    /** A missing record is an error, a completed one is returned untouched, any other one is
        reconciled and run. */
    method Resume() returns (final: Option<Execution>)
      modifies this
      ensures old(store).None? ==> final == None && store == None
      ensures old(store).Some? && old(store).value.completed ==> final == store == old(store) && log == old(log)
      ensures old(store).Some? && !old(store).value.completed ==>
                && final.Some? && store == final
                && State(final.value) == RunFrom(env, old(State(ReconcileGraph(store.value)))).state
    {
      if store.None? { return None; }
      var persisted := store.value;
      if persisted.completed { return Some(persisted); }
      var resumed := ReconcileGraph(persisted);
      store := Some(resumed);
      RunOnStored(env, State(resumed));
      var last, _ := Run(resumed);
      final := last;
    }

    /** The loop, entered with any record beside any stored one: it ends as the run function says,
        rejected when the task it chose is not in the stored record. */
    method Run(initial: Execution) returns (final: Option<Execution>, exit: Exit)
      modifies this
      ensures var (end, stored) := RunOn(env, old(store), old(State(initial)));
              && store == stored
              && match end
                 case Resolved(r) => final == Some(r.state.record) && RunResult(State(final.value), exit) == r
                 case Rejected => final == None && (repair, calls, log) == old((repair, calls, log))
    {
      var current := initial;
      while true
        invariant RunOn(env, store, State(current)) == RunOn(env, old(store), old(State(initial)))
        invariant store == Some(current) || (store, current, repair, calls, log) == (old(store), initial, old(repair), old(calls), old(log))
        decreases store != Some(current), Potential(State(current))
      {
        var latest := if store.Some? then store.value else current;
        match env.stop(calls) {
          case Abort(reason) =>
            current := StopForAbort(latest, reason);
            if StopSaves(latest) { store := Some(current); }
            return Some(current), Aborted;
          case DurationExceeded =>
            current := FailRemainingTasks(latest, DURATION_MESSAGE, Duration);
            store := Some(current);
            return Some(current), OutOfTime;
          case BudgetExceeded =>
            current := FailRemainingTasks(latest, BUDGET_MESSAGE, Budget);
            store := Some(current);
            return Some(current), OverBudget;
          case Continue =>
            var next := FindNextTask(current.graph.tasks);
            if next.None? {
              if Unfinished(current.graph.tasks) { return Some(current), Stalled; }
              current := CompleteMission(current);
              store := Some(current);
              return Some(current), Finished;
            }
            var task := current.graph.tasks[next.value];
            AttemptLowersPotential(env, State(current), next.value);
            var settled := ExecuteTask(current, task);
            if settled.None? { return None, Stalled; }
            current := settled.value;
            RunOnStored(env, State(current));
        }
      }
    }

    /** Marks the task active in the latest record, executes it, and writes what came of it. A task
        that record does not have makes the call fail after the mark. */
    method ExecuteTask(execution: Execution, task: Task) returns (current: Option<Execution>)
      modifies this
      ensures var latest := LatestOf(old(store), execution);
              if task.id in Ids(latest.graph.tasks) then
                && current.Some? && store == current
                && State(current.value) == AttemptTask(env, old(State(latest)), task.id, task.kind)
              else current == None && store == Some(latest) && (repair, calls, log) == old((repair, calls, log))
    {
      var latest := LatestOf(store, execution);
      var active := ActiveStateFor(task.kind);
      var marked := MarkActive(latest, task.id, active);
      MarkKeepsIdSet(latest, task.id, active);
      store := Some(marked);
      if task.id !in Ids(marked.graph.tasks) {
        MarkOfUnknown(latest, task.id, active);
        return None;
      }
      log := log + [Started(task.id)];

      var running := FindTask(marked.graph.tasks, task.id);
      var outcome := env.execute(calls, running);
      repair := Recorded(repair, running, outcome);
      if EntersRepair(env, task.kind, outcome) {
        current := RepairFailure(marked, task.id, outcome.result);
        return;
      }
      calls := calls + 1;
      MarkedState(latest, task.id, active);
      current := ReconcileAfterTask(task.id, active, outcome);
      log := log + if outcome.Returned? && outcome.result.state == ResultCompleted then [Done(task.id)] else [];
    }

    /** `#reconcileAfterTask`: the outcome is applied to the stored record, provided the task is
        still in the state it was marked with; otherwise it is discarded. A missing record and an
        unknown task are errors. */
    method ReconcileAfterTask(id: string, expected: TaskState, outcome: Outcome) returns (current: Option<Execution>)
      modifies this`store
      ensures current.None? <==> old(store).None? || id !in Ids(old(store).value.graph.tasks)
      ensures current.None? ==> store == old(store)
      ensures current.Some? ==>
                var latest := old(store).value;
                && store == current
                && current.value == if FindTask(latest.graph.tasks, id).state == expected then ApplyOutcome(latest, id, outcome) else latest
    {
      if store.None? { return None; }
      var latest := store.value;
      if id !in Ids(latest.graph.tasks) { return None; }
      if FindTask(latest.graph.tasks, id).state != expected { return Some(latest); }
      current := Some(ApplyOutcome(latest, id, outcome));
      store := current;
    }

    /** `#repairValidationFailure`: two saves around one repair; an unknown task is an error. */
    method RepairFailure(execution: Execution, id: string, failure: TaskResult) returns (current: Option<Execution>)
      modifies this
      ensures current.None? <==> id !in Ids(execution.graph.tasks)
      ensures current.None? ==> (store, repair, calls, log) == old((store, repair, calls, log))
      ensures current.Some? ==>
                && State(current.value) == RepairValidationFailure(old(State(execution)), id, failure, env.repairEdit(old(calls)))
                && store == current
    {
      if id !in Ids(execution.graph.tasks) { return None; }
      BeginKeepsIdSet(execution, id, failure);
      var begun := BeginRepair(execution, id, failure);
      store := Some(begun);

      var (record, result) := AttemptRepair(repair, env.repairEdit(calls));
      repair := record;
      calls := calls + 1;
      current := Some(FinishRepair(begun, id, result));
      store := current;
      log := log + if result.state == ResultCompleted then [Repaired] else [];
    }
  }

  lemma MarkOfUnknown(e: Execution, id: string, active: TaskState)
    requires id !in Ids(e.graph.tasks)
    ensures MarkActive(e, id, active) == e
  {
    assert forall i :: 0 <= i < |e.graph.tasks| ==> e.graph.tasks[i] in e.graph.tasks;
    assert MarkActive(e, id, active).graph.tasks == e.graph.tasks;
  }

  lemma MarkedState(e: Execution, id: string, active: TaskState)
    requires id in Ids(e.graph.tasks) && id in Ids(MarkActive(e, id, active).graph.tasks)
    ensures FindTask(MarkActive(e, id, active).graph.tasks, id).state == active
  {
    FindPatched(e.graph.tasks, id, (t: Task) => t.(state := active));
    assert MarkActive(e, id, active).graph.tasks == PatchTasks(e.graph.tasks, id, (t: Task) => t.(state := active));
  }
}
