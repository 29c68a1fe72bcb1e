/** What the steps of the interleaved mission system write and decide: entering the loop, deciding what to
    do next, a control under the lock, and the two saves around a repair, which take no lock. */
module SystemSteps {
  import opened Options
  import opened TaskGraph
  import opened MissionRecord
  import opened MissionSystem
  import opened MissionInterleaving
  import opened AttemptEffects

  // ----- controls

  /** What a control makes of one task. */
  ghost predicate Controlled(action: ControlAction, a: Task, b: Task) {
    match action
    case Pause => b == if a.state in {Running, Validating, Repairing} then a.(state := Interrupted) else a
    case Cancel => b == if a.state in {Completed, Failed, Cancelled, Blocked} then a else a.(state := Cancelled)
    case RetryFailed =>
      b == if a.state in {Failed, Cancelled, Blocked}
           then a.(state := if |a.dependencies| == 0 then Ready else Queued, failureDiagnostics := []) else a
  }

  /** The control changes some task, and `b` is the record with every task controlled; only a retry
      takes the completion back. */
  ghost predicate ControlWrites(action: ControlAction, a: Execution, b: Execution) {
    && |b.graph.tasks| == |a.graph.tasks| && b.graph.tasks != a.graph.tasks
    && (forall i :: 0 <= i < |a.graph.tasks| ==> Controlled(action, a.graph.tasks[i], b.graph.tasks[i]))
    && b == Execution(Graph(a.graph.missionId, a.graph.objective, b.graph.tasks), a.modifiedFiles,
                      a.completed && action != RetryFailed, a.cancellationReason)
  }

  lemma ControlIsExact(action: ControlAction, e: Execution)
    ensures match Control(action, e)
            case Some(b) => ControlWrites(action, e, b)
            case None => forall i :: 0 <= i < |e.graph.tasks| ==> Controlled(action, e.graph.tasks[i], e.graph.tasks[i])
  {
    var tasks := e.graph.tasks;
    forall i | 0 <= i < |tasks|
      ensures Controlled(action, tasks[i], ControlTask(action, tasks[i]))
      ensures ControlTask(action, tasks[i]).state == tasks[i].state ==> ControlTask(action, tasks[i]) == tasks[i]
    {}
  }

  /** What a control that holds the lock does: its effect on the record it has loaded is stored, or it is
      refused and nothing is stored when it has none; it moves no loop. */
  ghost predicate Commits(s: System, s': System, action: ControlAction)
    requires s.loaded.Some? && s.queue != []
  {
    var loaded := s.loaded.value;
    && s'.pc == s.pc && s'.current == s.current && s'.queue == s.queue[1..] && s'.loaded == None
    && if forall i :: 0 <= i < |loaded.graph.tasks| ==> Controlled(action, loaded.graph.tasks[i], loaded.graph.tasks[i])
       then s'.store == s.store
       else ControlWrites(action, loaded, s'.store)
  }

  lemma WrittenIsNotRefused(action: ControlAction, a: Execution, b: Execution)
    requires ControlWrites(action, a, b)
    ensures exists i :: 0 <= i < |a.graph.tasks| && !Controlled(action, a.graph.tasks[i], a.graph.tasks[i])
  {
    var i :| 0 <= i < |a.graph.tasks| && b.graph.tasks[i] != a.graph.tasks[i];
    assert Controlled(action, a.graph.tasks[i], b.graph.tasks[i]);
  }

  lemma ControlStepCommits(s: System, action: ControlAction)
    requires s.queue != [] && s.queue[0] == ControlActor(action) && s.loaded.Some?
    ensures Commits(s, Step(s, HeadSaves), action)
  {
    ControlIsExact(action, s.loaded.value);
    var effect := Control(action, s.loaded.value);
    if effect.Some? { WrittenIsNotRefused(action, s.loaded.value, effect.value); }
  }

  /** In every interleaving every control commits so; while a task is in flight, what it has loaded is the
      stored record. */
  lemma ControlCommits(s0: System, events: seq<Event>, action: ControlAction)
    requires Initial(s0)
    requires var s := After(s0, events); s.queue != [] && s.queue[0] == ControlActor(action) && s.loaded.Some?
    ensures var s := After(s0, events);
            && Commits(s, After(s0, events + [HeadSaves]), action)
            && (s.pc.Executing? || s.pc.Reconciling? ==> s.loaded.value == s.store)
  {
    AlwaysInv(s0, events);
    AfterOne(s0, events, HeadSaves);
    ControlStepCommits(After(s0, events), action);
  }

  // ----- entering the loop

  /** A resumed mission that is completed is left alone; any other one is stored, and taken up, with its
      active tasks interrupted and nothing else changed, as it was when it was loaded. */
  lemma EntryIsExact(s: System)
    ensures s.pc == Resuming ==>
              Step(s, ResumeLoads) == s.(pc := if s.store.completed then Halted else Preparing(s.store))
    ensures s.pc.Preparing? ==>
              var s', a := Step(s, EntrySaves), s.pc.persisted;
              && s'.pc == Top && s'.current == s'.store && Writes(a, s'.store, {})
              && |s'.store.graph.tasks| == |a.graph.tasks|
              && forall i :: 0 <= i < |a.graph.tasks| ==>
                   s'.store.graph.tasks[i]
                     == if a.graph.tasks[i].state in {Running, Validating, Repairing} then a.graph.tasks[i].(state := Interrupted)
                        else a.graph.tasks[i]
  {
    if s.pc.Preparing? { ReconcilingInterruptsTheActive(s.pc.persisted); }
  }

  /** What comes from outside: a start of a fresh mission or a resume is taken up only when no loop runs,
      with no abort pending; the first abort reason stays; a control queues behind all others; and whoever
      holds the lock loads the stored record once. */
  lemma CallsAreExact(s: System, graph: Graph, action: ControlAction, reason: AbortReason)
    requires IdList(graph.tasks) == IdList(s.store.graph.tasks)
    ensures Step(s, StartCalled(graph))
              == if s.pc == Halted then s.(pc := Preparing(Execution(graph, {}, false, None)), abort := None) else s
    ensures Step(s, ResumeCalled) == if s.pc == Halted then s.(pc := Resuming, abort := None) else s
    ensures Step(s, AbortSignalled(reason)) == s.(abort := Some(if s.abort.None? then reason else s.abort.value))
    ensures Step(s, ControlCalled(action)) == s.(queue := s.queue + [ControlActor(action)])
    ensures Step(s, HeadLoads) == if |s.queue| > 0 && s.loaded == None then s.(loaded := Some(s.store)) else s
  {}

  // ----- deciding

  ghost predicate FirstToStart(tasks: seq<Task>, k: nat) {
    k < |tasks| && CanStart(tasks, tasks[k]) && forall j :: 0 <= j < k ==> !CanStart(tasks, tasks[j])
  }

  lemma NextIsFirst(tasks: seq<Task>)
    ensures match FindNextTask(tasks)
            case Some(k) => FirstToStart(tasks, k)
            case None => forall k: nat :: !FirstToStart(tasks, k)
  {
    forall t
      ensures Runnable(t, CompletedIds(tasks)) <==> CanStart(tasks, t)
    {
      RunnableCanStart(tasks, t);
    }
  }

  /** A decision writes nothing unless it completes the mission. An abort comes first, then the time
      limit, then the budget: each asks for the lock to end the loop. Otherwise the first task that
      can start is to be marked in the active state of its kind. */
  lemma DecisionIsExact(s: System, limit: Limit)
    requires s.pc == Top
    ensures var s' := Step(s, LoopDecides(limit));
            if s.abort.Some? then s' == s.(queue := s.queue + [LoopActor], pc := Stopping(s.abort.value))
            else if limit == DurationLimit then
              s' == s.(queue := s.queue + [LoopActor], pc := Failing(DURATION_MESSAGE, Duration))
            else if limit == BudgetLimit then
              s' == s.(queue := s.queue + [LoopActor], pc := Failing(BUDGET_MESSAGE, Budget))
            else
              && (forall k: nat :: FirstToStart(s.current.graph.tasks, k) ==>
                    var t := s.current.graph.tasks[k];
                    && s'.pc.Marking? && s'.pc.id == t.id && s'.pc.kind == t.kind && IsActiveFor(t.kind, s'.pc.active)
                    && s' == s.(queue := s.queue + [LoopActor], pc := s'.pc))
              && ((forall k: nat :: !FirstToStart(s.current.graph.tasks, k)) ==> s'.pc == Halted)
  {
    NextIsFirst(s.current.graph.tasks);
  }

  // ----- results

  /** A settled task waits for the lock with what came of it, except that a failed validation is handed to
      the repair at once if there is one: its failure is recorded in the loop's own copy and stored. */
  lemma SettlingIsExact(s: System, outcome: Outcome) returns (p: nat)
    requires s.pc.Executing?
    ensures var s' := Step(s, TaskSettles(outcome));
            if s.pc.kind == Validation && outcome.Returned? && outcome.result.state == ResultFailed && s.canRepair then
              if s.pc.id !in Ids(s.current.graph.tasks) then s' == s.(pc := Halted)
              else
                && s' == s.(store := s'.store, current := s'.store, pc := RepairRunning(s.pc.id))
                && Adds(s.current.graph.tasks, s'.store.graph.tasks, s.pc.id, p, outcome.result, Repairing)
                && Counted(s.current.graph.tasks, s'.store.graph.tasks, s.pc.id, p)
                && Writes(s.current, s'.store, outcome.result.modifiedFiles)
            else s' == s.(queue := s.queue + [LoopActor], pc := Reconciling(s.pc.id, s.pc.active, outcome))
  {
    p := 0;
    if s.pc.id in Ids(s.current.graph.tasks) && outcome.Returned? {
      p := BeginEffect(s.current, s.pc.id, outcome.result);
    }
  }

  /** A repair that ends writes its result over the loop's own copy, whatever is stored. */
  lemma RepairEndIsExact(s: System, result: TaskResult) returns (p: nat, state: TaskState)
    requires s.pc.RepairRunning? && s.pc.id in Ids(s.current.graph.tasks)
    ensures var s' := Step(s, RepairSettles(result));
            && s' == s.(store := s'.store, current := s'.store, pc := Top)
            && Finishes(s.current, s'.store, s.pc.id, p, result, state)
  {
    p, state := FinishEffect(s.current, s.pc.id, result);
  }

  lemma OutcomeEffect(e: Execution, id: string, outcome: Outcome) returns (p: nat, state: TaskState)
    requires id in Ids(e.graph.tasks)
    ensures SettlesWith(e, ApplyOutcome(e, id, outcome), id, p, outcome, state)
  {
    match outcome {
      case Threw(message) =>
        p := ThrowEffect(e, id, message);
        state := Failed;
      case Returned(r) => p, state := ResultEffect(e, id, r);
    }
  }

  /** In every interleaving the result of an untouched task is written to the stored record as it was
      returned or thrown. */
  lemma ResultWrites(s0: System, events: seq<Event>) returns (p: nat, state: TaskState)
    requires Initial(s0)
    requires var s := After(s0, events);
             s.pc.Reconciling? && s.queue != [] && s.queue[0] == LoopActor && s.loaded.Some? && !s.touched
    ensures var s, s' := After(s0, events), After(s0, events + [HeadSaves]);
            SettlesWith(s.store, s'.store, s.pc.id, p, s.pc.outcome, state)
  {
    ResultAppliedOnlyIfUntouched(s0, events);
    var s := After(s0, events);
    p, state := OutcomeEffect(s.store, s.pc.id, s.pc.outcome);
  }
}
