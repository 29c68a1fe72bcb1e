/** Operator control of a stored mission (src/autonomy/autonomous-mission-control.ts), one call at a
    time; MissionInterleaving puts the calls beside a running loop. A mission the store does not know
    stands for an unknown mission of either kind. */
module MissionControl {
  import opened Options
  import opened TaskGraph
  import opened MissionRecord
  import opened AbortRegistry

  datatype ControlResult = Updated(execution: Execution) | NotFound | NothingToDo

  class AutonomousMissionControl {
    var executions: map<string, Execution>
    const aborts: MissionExecutionAbortRegistry

    constructor (aborts: MissionExecutionAbortRegistry)
      ensures executions == map[] && this.aborts == aborts
    {
      executions := map[];
      this.aborts := aborts;
    }

    /** Reads the record, rebuilds every task, and writes only if some task changed. */
    method Mutate(missionId: string, action: ControlAction) returns (result: ControlResult)
      modifies this`executions
      ensures missionId !in old(executions) ==> result == NotFound && executions == old(executions)
      ensures missionId in old(executions) ==>
                match Control(action, old(executions)[missionId])
                case None => result == NothingToDo && executions == old(executions)
                case Some(e) => result == Updated(e) && executions == old(executions)[missionId := e]
    {
      if missionId !in executions { return NotFound; }
      var execution := executions[missionId];
      var before := execution.graph.tasks;
      var tasks, changed := [], false;
      for i := 0 to |before|
        invariant |tasks| == i && forall k :: 0 <= k < i ==> tasks[k] == ControlTask(action, before[k])
        invariant changed <==> exists k :: 0 <= k < i && ControlTask(action, before[k]).state != before[k].state
      {
        var task := ControlTask(action, before[i]);
        tasks := tasks + [task];
        changed := changed || task.state != before[i].state;
      }
      if !changed { return NothingToDo; }
      assert tasks == seq(|before|, i requires 0 <= i < |before| => ControlTask(action, before[i]));
      var updated := WithTasks(execution, tasks);
      if action == RetryFailed { updated := updated.(completed := false); }
      executions := executions[missionId := updated];
      result := Updated(updated);
    }

    /** A refused pause aborts nothing; an accepted one stops the running loop, if there is one. */
    method Pause(missionId: string) returns (result: ControlResult)
      requires aborts.Valid()
      modifies this`executions, aborts`created
      ensures aborts.Valid()
      ensures executions == if result.Updated? then old(executions)[missionId := result.execution] else old(executions)
      ensures result.Updated? ==>
                && missionId in old(executions) && Some(result.execution) == Control(ControlAction.Pause, old(executions)[missionId])
                && (missionId in aborts.controllers ==> aborts.created[aborts.controllers[missionId]].reason.Some?)
      ensures !result.Updated? ==>
                && aborts.created == old(aborts.created)
                && (missionId in old(executions) ==> Control(ControlAction.Pause, old(executions)[missionId]) == None)
    {
      result := Mutate(missionId, ControlAction.Pause);
      if result.Updated? { var _ := aborts.RequestAbort(missionId, Operator); }
    }

    method Cancel(missionId: string) returns (result: ControlResult)
      requires aborts.Valid()
      modifies this`executions, aborts`created
      ensures aborts.Valid()
      ensures executions == if result.Updated? then old(executions)[missionId := result.execution] else old(executions)
      ensures result.Updated? ==>
                && missionId in old(executions) && Some(result.execution) == Control(ControlAction.Cancel, old(executions)[missionId])
                && (missionId in aborts.controllers ==> aborts.created[aborts.controllers[missionId]].reason.Some?)
      ensures !result.Updated? ==>
                && aborts.created == old(aborts.created)
                && (missionId in old(executions) ==> Control(ControlAction.Cancel, old(executions)[missionId]) == None)
    {
      result := Mutate(missionId, ControlAction.Cancel);
      if result.Updated? { var _ := aborts.RequestAbort(missionId, Operator); }
    }

    /** A retry never touches a running loop. */
    method Retry(missionId: string) returns (result: ControlResult)
      modifies this`executions
      ensures executions == if result.Updated? then old(executions)[missionId := result.execution] else old(executions)
      ensures result.Updated? <==>
                missionId in old(executions) && Control(RetryFailed, old(executions)[missionId]).Some?
      ensures result.Updated? ==> Some(result.execution) == Control(RetryFailed, old(executions)[missionId])
    {
      result := Mutate(missionId, RetryFailed);
    }
  }

  // ----- what a control achieves

  /** The tasks the action is about. */
  predicate Concerns(action: ControlAction, s: TaskState) {
    match action
    case Pause => IsActive(s)
    case Cancel => !IsTerminal(s)
    case RetryFailed => EndedBadly(s)
  }

  /** A control is refused exactly when no task concerns it. Accepted, it leaves no such task, every
      other task as it was, and the graph's ids, kinds and dependencies untouched; a paused task can
      be run again, a retried one too, and only a retry reopens a completed mission. */
  lemma ControlDoesItsWork(action: ControlAction, e: Execution)
    ensures Control(action, e).Some? <==> exists t :: t in e.graph.tasks && Concerns(action, t.state)
    ensures Control(action, e).Some? ==>
              var e' := Control(action, e).value;
              && SameShape(e.graph.tasks, e'.graph.tasks)
              && (forall i :: 0 <= i < |e.graph.tasks| ==>
                    if !Concerns(action, e.graph.tasks[i].state) then e'.graph.tasks[i] == e.graph.tasks[i]
                    else if action == Cancel then e'.graph.tasks[i].state == Cancelled
                    else IsPending(e'.graph.tasks[i].state))
              && e'.completed == (e.completed && action != RetryFailed)
              && e'.modifiedFiles == e.modifiedFiles
  {
    var tasks := e.graph.tasks;
    forall i | 0 <= i < |tasks|
      ensures Concerns(action, tasks[i].state) <==> ControlTask(action, tasks[i]).state != tasks[i].state
    {
      ControlChangesWhatItConcerns(action, tasks[i]);
    }
  }

  lemma ControlChangesWhatItConcerns(action: ControlAction, t: Task)
    ensures Concerns(action, t.state) <==> ControlTask(action, t).state != t.state
    ensures !Concerns(action, t.state) ==> ControlTask(action, t) == t
    ensures !Concerns(action, ControlTask(action, t).state)
  {}

  /** A control repeated at once is refused. */
  lemma RepeatedControlIsRefused(action: ControlAction, e: Execution)
    requires Control(action, e).Some?
    ensures Control(action, Control(action, e).value) == None
  {
    var e' := Control(action, e).value;
    ControlDoesItsWork(action, e');
    forall t | t in e'.graph.tasks
      ensures !Concerns(action, t.state)
    {
      var i :| 0 <= i < |e'.graph.tasks| && e'.graph.tasks[i] == t;
      ControlChangesWhatItConcerns(action, e.graph.tasks[i]);
    }
  }

  predicate Reopened(before: Task, after: Task) {
    if before.state == Completed then after == before
    else after.state == if before.dependencies == [] then Ready else Queued
  }

  /** Cancelling and then retrying leaves exactly the completed tasks completed and every other one
      ready to be taken up again. */
  lemma CancelThenRetryReopens(e: Execution)
    requires Control(Cancel, e).Some?
    ensures Control(RetryFailed, Control(Cancel, e).value).Some?
    ensures var e' := Control(RetryFailed, Control(Cancel, e).value).value;
            && |e'.graph.tasks| == |e.graph.tasks|
            && forall i :: 0 <= i < |e.graph.tasks| ==> Reopened(e.graph.tasks[i], e'.graph.tasks[i])
  {
    CancelledCanBeRetried(e);
    var mid := Control(Cancel, e).value;
    var e' := Control(RetryFailed, mid).value;
    forall k | 0 <= k < |e.graph.tasks|
      ensures Reopened(e.graph.tasks[k], e'.graph.tasks[k])
    {
      assert mid.graph.tasks[k] == ControlTask(Cancel, e.graph.tasks[k]);
      assert e'.graph.tasks[k] == ControlTask(RetryFailed, mid.graph.tasks[k]);
    }
  }

  lemma CancelledCanBeRetried(e: Execution)
    requires Control(Cancel, e).Some?
    ensures Control(RetryFailed, Control(Cancel, e).value).Some?
  {
    var mid := Control(Cancel, e).value;
    var i :| 0 <= i < |e.graph.tasks| && ControlTask(Cancel, e.graph.tasks[i]).state != e.graph.tasks[i].state;
    assert mid.graph.tasks[i].state == Cancelled;
    ControlChangesWhatItConcerns(RetryFailed, mid.graph.tasks[i]);
  }
}
