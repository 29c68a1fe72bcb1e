/** When and how the mission loop ends (src/autonomy/persistent-mission-executor.ts), and what its end
    writes: a mission is completed only with every task completed, failed, cancelled or blocked. */
module RunEnds {
  import opened Options
  import opened TaskGraph
  import opened MissionRecord
  import opened MissionAttempt
  import opened MissionRun
  import opened MissionSystem
  import opened MissionInterleaving

  // ----- the ends, with every state spelled out

  ghost predicate Over(t: Task) {
    t.state in {Completed, Failed, Cancelled, Blocked}
  }

  ghost predicate AllOver(tasks: seq<Task>) {
    forall t :: t in tasks ==> Over(t)
  }

  /** The mission is completed, and nothing else about it changes. */
  ghost predicate Completes(a: Execution, b: Execution) {
    AllOver(a.graph.tasks) && b == Execution(a.graph, a.modifiedFiles, true, a.cancellationReason)
  }

  /** Some task is not over, and no task can start: each one queued, ready or interrupted waits for a
      dependency that no task has completed. */
  ghost predicate Stuck(e: Execution) {
    && (exists t :: t in e.graph.tasks && !Over(t))
    && forall t :: t in e.graph.tasks && t.state in {Queued, Ready, Interrupted} ==>
         exists d :: d in t.dependencies && forall u :: u in e.graph.tasks && u.id == d ==> u.state != Completed
  }

  /** Tasks that are over stay as they are, every other one changes as `after` says. */
  ghost predicate OthersBecome(a: seq<Task>, b: seq<Task>, after: Task -> Task) {
    |b| == |a| && forall i :: 0 <= i < |a| ==> b[i] == if Over(a[i]) then a[i] else after(a[i])
  }

  /** Nothing happens to a completed mission and to one whose tasks are over; otherwise every task that
      is not over is interrupted and the reason is noted. */
  ghost predicate Stops(a: Execution, b: Execution, reason: AbortReason) {
    if a.completed || AllOver(a.graph.tasks) then b == a
    else
      && OthersBecome(a.graph.tasks, b.graph.tasks, (t: Task) => t.(state := Interrupted))
      && b == Execution(a.graph.(tasks := b.graph.tasks), a.modifiedFiles, false, Some(reason))
  }

  /** Every task that is not over fails for the reason given, and the mission is completed. */
  ghost predicate GivesUp(a: Execution, b: Execution, why: string, reason: AbortReason) {
    && OthersBecome(a.graph.tasks, b.graph.tasks,
                    (t: Task) => t.(state := Failed, failureDiagnostics := t.failureDiagnostics + [why]))
    && b == Execution(a.graph.(tasks := b.graph.tasks), a.modifiedFiles, true, Some(reason))
  }

  lemma UnfinishedIsNotAllOver(tasks: seq<Task>)
    ensures Unfinished(tasks) <==> !AllOver(tasks)
  {}

  lemma NothingNextIsStuck(e: Execution)
    requires FindNextTask(e.graph.tasks).None?
    ensures !AllOver(e.graph.tasks) ==> Stuck(e)
  {
    var tasks := e.graph.tasks;
    forall t | t in tasks && t.state in {Queued, Ready, Interrupted}
      ensures exists d :: d in t.dependencies && forall u :: u in tasks && u.id == d ==> u.state != Completed
    {
      assert !Runnable(t, CompletedIds(tasks));
      var d :| d in t.dependencies && d !in CompletedIds(tasks);
    }
  }

  lemma StopStops(e: Execution, reason: AbortReason)
    ensures Stops(e, StopForAbort(e, reason), reason)
    ensures StopSaves(e) <==> !e.completed && !AllOver(e.graph.tasks)
  {
    UnfinishedIsNotAllOver(e.graph.tasks);
  }

  lemma FailingGivesUp(e: Execution, why: string, reason: AbortReason)
    ensures GivesUp(e, FailRemainingTasks(e, why, reason), why, reason)
  {}

  // ----- the ends of a run

  /** The state in which a run takes its last decision: tasks are attempted until a check stops the
      loop or no task can start. */
  function BeforeEnd(env: Environment, s: RunState): RunState
    decreases Potential(s)
  {
    var next := FindNextTask(Tasks(s));
    if env.stop(s.calls) != Continue || next.None? then s
    else
      AttemptLowersPotential(env, s, next.value);
      BeforeEnd(env, Attempt(env, s, next.value))
  }

  /** The end that follows from a state, for each way out of the loop. */
  ghost predicate EndsFrom(env: Environment, last: RunState, r: RunResult) {
    var a, b := last.record, r.state.record;
    && r.state == RunState(b, last.repair, last.calls, last.log)
    && match env.stop(last.calls)
       case Abort(reason) => r.exit == Aborted && Stops(a, b, reason)
       case DurationExceeded => r.exit == OutOfTime && GivesUp(a, b, DURATION_MESSAGE, Duration)
       case BudgetExceeded => r.exit == OverBudget && GivesUp(a, b, BUDGET_MESSAGE, Budget)
       case Continue => (r.exit == Finished && Completes(a, b)) || (r.exit == Stalled && Stuck(a) && b == a)
  }

  lemma {:induction false} EveryRunEndsRightly(env: Environment, s: RunState)
    ensures EndsFrom(env, BeforeEnd(env, s), RunFrom(env, s))
    decreases Potential(s)
  {
    var next := FindNextTask(Tasks(s));
    match env.stop(s.calls) {
      case Abort(reason) => StopStops(s.record, reason);
      case DurationExceeded => FailingGivesUp(s.record, DURATION_MESSAGE, Duration);
      case BudgetExceeded => FailingGivesUp(s.record, BUDGET_MESSAGE, Budget);
      case Continue =>
        if next.None? {
          UnfinishedIsNotAllOver(Tasks(s));
          NothingNextIsStuck(s.record);
        } else {
          AttemptLowersPotential(env, s, next.value);
          EveryRunEndsRightly(env, Attempt(env, s, next.value));
        }
    }
  }

  lemma {:induction false} AttemptsLeaveCompletedAlone(env: Environment, s: RunState)
    ensures BeforeEnd(env, s).record.completed == s.record.completed
    decreases Potential(s)
  {
    var next := FindNextTask(Tasks(s));
    if env.stop(s.calls) == Continue && next.Some? {
      AttemptLowersPotential(env, s, next.value);
      AttemptsLeaveCompletedAlone(env, Attempt(env, s, next.value));
    }
  }

  /** Every run: finished means completed with every task over; stalled means that some task is not
      over and completion is as it was; after an abort of a mission not completed no task is left
      active, queued or ready, and it is still not completed. */
  lemma ExitTellsTheTasks(env: Environment, s: RunState)
    ensures var r := RunFrom(env, s);
            && (r.exit == Finished ==> r.state.record.completed && AllOver(Tasks(r.state)))
            && (r.exit == Stalled ==> !AllOver(Tasks(r.state)) && r.state.record.completed == s.record.completed)
            && (r.exit == Aborted && !s.record.completed ==>
                  !r.state.record.completed
                  && forall t :: t in Tasks(r.state) ==> Over(t) || t.state == Interrupted)
            && (r.exit == OutOfTime || r.exit == OverBudget ==> r.state.record.completed && AllOver(Tasks(r.state)))
  {
    EveryRunEndsRightly(env, s);
    AttemptsLeaveCompletedAlone(env, s);
    var last, r := BeforeEnd(env, s), RunFrom(env, s);
    if r.exit == Aborted && !s.record.completed {
      StoppedTasks(last.record, r.state.record, env.stop(last.calls).reason);
    }
    if r.exit == OutOfTime {
      GivenUpTasks(last.record, r.state.record, DURATION_MESSAGE, Duration);
    } else if r.exit == OverBudget {
      GivenUpTasks(last.record, r.state.record, BUDGET_MESSAGE, Budget);
    }
  }

  lemma StoppedTasks(a: Execution, b: Execution, reason: AbortReason)
    requires Stops(a, b, reason) && !a.completed
    ensures forall t :: t in b.graph.tasks ==> Over(t) || t.state == Interrupted
  {
    forall t | t in b.graph.tasks
      ensures Over(t) || t.state == Interrupted
    {
      var i :| 0 <= i < |b.graph.tasks| && b.graph.tasks[i] == t;
    }
  }

  lemma GivenUpTasks(a: Execution, b: Execution, why: string, reason: AbortReason)
    requires GivesUp(a, b, why, reason)
    ensures AllOver(b.graph.tasks)
  {
    forall t | t in b.graph.tasks
      ensures Over(t)
    {
      var i :| 0 <= i < |b.graph.tasks| && b.graph.tasks[i] == t;
    }
  }

  /** Entered beside any stored record, a loop that stops at once acts on the stored record, and leaves
      it stored. */
  lemma EntryEndsRightly(env: Environment, store: Option<Execution>, s: RunState)
    requires env.stop(s.calls) != Continue || FindNextTask(Tasks(s)).None?
    ensures var (end, stored) := RunOn(env, store, s);
            var latest := if store.Some? then store.value else s.record;
            && end.Resolved?
            && EndsFrom(env, if env.stop(s.calls) == Continue then s else s.(record := latest), end.result)
            && stored == match end.result.exit
                         case Stalled => store
                         case Aborted =>
                           if latest.completed || AllOver(latest.graph.tasks) then store else Some(end.result.state.record)
                         case _ => Some(end.result.state.record)
  {
    var latest := LatestOf(store, s.record);
    match env.stop(s.calls) {
      case Abort(reason) => StopStops(latest, reason);
      case DurationExceeded => FailingGivesUp(latest, DURATION_MESSAGE, Duration);
      case BudgetExceeded => FailingGivesUp(latest, BUDGET_MESSAGE, Budget);
      case Continue =>
        UnfinishedIsNotAllOver(Tasks(s));
        NothingNextIsStuck(s.record);
    }
  }

  // ----- the ends of an interleaved loop

  /** A loop that halts by deciding so has either completed the mission, with every task of its copy
      over, or found some task not over and none that can start, and written nothing. */
  lemma HaltingDecision(s: System, limit: Limit)
    requires s.pc == Top && Step(s, LoopDecides(limit)).pc == Halted
    ensures s.abort.None? && limit == NoLimit
    ensures var s' := Step(s, LoopDecides(limit));
            || (s'.store == s'.current && Completes(s.current, s'.store))
            || (s' == s.(pc := Halted) && Stuck(s.current))
  {
    UnfinishedIsNotAllOver(s.current.graph.tasks);
    NothingNextIsStuck(s.current);
  }

  /** The loop is stopped, or gives up, as it was waiting to do, and that is stored. */
  ghost predicate EndsUnderTheLock(s: System, s': System) {
    && s'.pc == Halted && s'.current == s'.store
    && (s.pc.Stopping? ==> Stops(s.store, s'.store, s.pc.reason))
    && (s.pc.Failing? ==> GivesUp(s.store, s'.store, s.pc.why, s.pc.reason))
  }

  lemma LockStepEnds(s: System)
    requires (s.pc.Stopping? || s.pc.Failing?) && s.queue != [] && s.queue[0] == LoopActor && s.loaded == Some(s.store)
    ensures EndsUnderTheLock(s, Step(s, HeadSaves))
  {
    if s.pc.Stopping? {
      StopStops(s.store, s.pc.reason);
    } else {
      FailingGivesUp(s.store, s.pc.why, s.pc.reason);
    }
  }

  /** In every interleaving, a loop that is stopped or gives up under the lock does so to the stored
      record, whatever happened since it asked for the lock. */
  lemma StoppedUnderTheLock(s0: System, events: seq<MissionSystem.Event>)
    requires Initial(s0)
    requires var s := After(s0, events);
             (s.pc.Stopping? || s.pc.Failing?) && s.queue != [] && s.queue[0] == LoopActor && s.loaded.Some?
    ensures EndsUnderTheLock(After(s0, events), After(s0, events + [HeadSaves]))
  {
    AlwaysInv(s0, events);
    AfterOne(s0, events, HeadSaves);
    LockStepEnds(After(s0, events));
  }
}
