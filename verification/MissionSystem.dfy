/** Every interleaving of a mission loop (src/autonomy/persistent-mission-executor.ts), entered any
    number of times, with any number of pause, cancel and retry calls
    (src/autonomy/autonomous-mission-control.ts). The steps are the points at which another party may
    run: the load of a resume, the save of a start or a resume, queueing for the mission lock, the load and the save of a
    locked section, the settling of a task or a repair, and the loop's other saves that do not take
    the lock. Bodies queued on the lock run one at a time in call order (see MissionLock). */
module MissionSystem {
  import opened Options
  import opened TaskGraph
  import opened MissionRecord

  datatype Actor = LoopActor | ControlActor(action: ControlAction)

  /** Where the loop is. Resuming has not loaded the record yet, Preparing has not saved its own yet;
      Marking, Reconciling, Stopping and Failing wait for the lock; Halted is no loop at all. */
  datatype LoopPc =
    | Resuming
    | Preparing(persisted: Execution)
    | Top
    | Marking(id: string, active: TaskState, kind: TaskKind)
    | Executing(id: string, active: TaskState, kind: TaskKind)
    | Reconciling(id: string, active: TaskState, outcome: Outcome)
    | RepairRunning(id: string)
    | Stopping(reason: AbortReason)
    | Failing(why: string, reason: AbortReason)
    | Halted

  datatype System = System(
    store: Execution,             // the persisted record
    queue: seq<Actor>,            // callers of the lock, the first one holding it
    loaded: Option<Execution>,    // what the lock holder has loaded
    pc: LoopPc,
    current: Execution,           // the loop's local copy
    abort: Option<AbortReason>,
    canRepair: bool,
    touched: bool)                // history: has a control changed the marked task since it was marked?

  /** What the checks before a task say, besides the abort signal. */
  datatype Limit = NoLimit | DurationLimit | BudgetLimit

  datatype Event =
    | StartCalled(graph: Graph)
    | ResumeCalled
    | ResumeLoads
    | EntrySaves
    | LoopDecides(limit: Limit)
    | HeadLoads
    | HeadSaves
    | TaskSettles(outcome: Outcome)
    | RepairSettles(result: TaskResult)
    | ControlCalled(action: ControlAction)
    | AbortSignalled(reason: AbortReason)

  function Lookup(e: Execution, id: string): Option<Task> {
    if id in Ids(e.graph.tasks) then Some(FindTask(e.graph.tasks, id)) else None
  }

  // ----- the steps; an event that is not enabled changes nothing

  function Enqueue(s: System, pc: LoopPc): System {
    s.(queue := s.queue + [LoopActor], pc := pc)
  }

  function Decide(s: System, limit: Limit): System {
    if s.abort.Some? then Enqueue(s, Stopping(s.abort.value))
    else if limit == DurationLimit then Enqueue(s, Failing(DURATION_MESSAGE, Duration))
    else if limit == BudgetLimit then Enqueue(s, Failing(BUDGET_MESSAGE, Budget))
    else match FindNextTask(s.current.graph.tasks)
      case None =>
        if Unfinished(s.current.graph.tasks) then s.(pc := Halted)
        else
          var done := CompleteMission(s.current);
          s.(store := done, current := done, pc := Halted)
      case Some(k) =>
        var t := s.current.graph.tasks[k];
        Enqueue(s, Marking(t.id, ActiveStateFor(t.kind), t.kind))
  }

  /** The rest of a locked section of the loop, given the record it loaded. */
  function LoopSaves(s: System, latest: Execution): System {
    match s.pc
    case Marking(id, active, kind) =>
      var marked := MarkActive(latest, id, active);
      s.(store := marked, current := marked, pc := Executing(id, active, kind), touched := false)
    case Reconciling(id, active, outcome) =>
      if id !in Ids(latest.graph.tasks) then s.(pc := Halted)
      else if FindTask(latest.graph.tasks, id).state != active then s.(current := latest, pc := Top)
      else
        var applied := ApplyOutcome(latest, id, outcome);
        s.(store := applied, current := applied, pc := Top)
    case Stopping(reason) =>
      var stopped := StopForAbort(latest, reason);
      s.(store := if StopSaves(latest) then stopped else s.store, current := stopped, pc := Halted)
    case Failing(why, reason) =>
      var failed := FailRemainingTasks(latest, why, reason);
      s.(store := failed, current := failed, pc := Halted)
    case _ => s
  }

  predicate InFlight(pc: LoopPc) {
    pc.Executing? || pc.Reconciling?
  }

  function ControlSaves(s: System, action: ControlAction, latest: Execution): System {
    match Control(action, latest)
    case None => s
    case Some(e) =>
      s.(store := e,
         touched := s.touched || (InFlight(s.pc) && Lookup(e, s.pc.id) != Lookup(s.store, s.pc.id)))
  }

  predicate Waiting(pc: LoopPc) {
    pc.Marking? || pc.Reconciling? || pc.Stopping? || pc.Failing?
  }

  /** The settled task is a failed validation and the executor can repair. */
  predicate BeginsRepair(s: System, outcome: Outcome)
    requires s.pc.Executing?
  {
    s.pc.kind == Validation && outcome.Returned? && outcome.result.state == ResultFailed && s.canRepair
  }

  function Step(s: System, e: Event): System {
    match e
    case StartCalled(graph) =>
      if s.pc == Halted && IdList(graph.tasks) == IdList(s.store.graph.tasks)
      then s.(pc := Preparing(Execution(graph, {}, false, None)), abort := None) else s
    case ResumeCalled => if s.pc == Halted then s.(pc := Resuming, abort := None) else s
    case ResumeLoads =>
      if s.pc != Resuming then s else s.(pc := if s.store.completed then Halted else Preparing(s.store))
    case EntrySaves =>
      if !s.pc.Preparing? then s
      else
        var resumed := ReconcileGraph(s.pc.persisted);
        s.(store := resumed, current := resumed, pc := Top)
    case LoopDecides(limit) => if s.pc == Top then Decide(s, limit) else s
    case HeadLoads => if s.queue != [] && s.loaded.None? then s.(loaded := Some(s.store)) else s
    case HeadSaves =>
      if s.queue == [] || s.loaded.None? then s
      else
        var released := s.(queue := s.queue[1..], loaded := None);
        (match s.queue[0]
         case LoopActor => LoopSaves(released, s.loaded.value)
         case ControlActor(action) => ControlSaves(released, action, s.loaded.value))
    case TaskSettles(outcome) =>
      if !s.pc.Executing? then s
      else if BeginsRepair(s, outcome) then
        (if s.pc.id !in Ids(s.current.graph.tasks) then s.(pc := Halted)
         else
           var begun := BeginRepair(s.current, s.pc.id, outcome.result);
           s.(store := begun, current := begun, pc := RepairRunning(s.pc.id)))
      else Enqueue(s, Reconciling(s.pc.id, s.pc.active, outcome))
    case RepairSettles(result) =>
      if !s.pc.RepairRunning? then s
      else if s.pc.id !in Ids(s.current.graph.tasks) then s.(pc := Halted)
      else
        var finished := FinishRepair(s.current, s.pc.id, result);
        s.(store := finished, current := finished, pc := Top)
    case ControlCalled(action) => s.(queue := s.queue + [ControlActor(action)])
    case AbortSignalled(reason) => if s.abort.Some? then s else s.(abort := Some(reason))
  }

  /** The state after any sequence of events. */
  function After(s: System, events: seq<Event>): System {
    if events == [] then s else Step(After(s, events[..|events| - 1]), events[|events| - 1])
  }

  // ----- the invariant

  /** The task in flight is in its active state exactly while no control has changed it. */
  ghost predicate MarkHolds(s: System) {
    InFlight(s.pc) ==>
      && IsActive(s.pc.active)
      && Lookup(s.store, s.pc.id).Some?
      && (s.touched ==> !IsActive(Lookup(s.store, s.pc.id).value.state))
      && (!s.touched ==> Lookup(s.store, s.pc.id).value.state == s.pc.active)
  }

  /** The loop is queued once while it waits and never otherwise. */
  ghost predicate QueuedOnce(s: System) {
    multiset(s.queue)[LoopActor] == if Waiting(s.pc) then 1 else 0
  }

  /** What the lock holder loaded is still the stored record, when the holder is the loop or the
      loop has a task in flight. */
  ghost predicate LoadedIsLatest(s: System) {
    s.loaded.Some? ==>
      && s.queue != []
      && (InFlight(s.pc) || s.queue[0] == LoopActor ==> s.loaded.value == s.store)
  }

  /** The tasks of the record carry these ids, in this order. */
  ghost predicate HasIds(e: Execution, ids: seq<string>) {
    |e.graph.tasks| == |ids| && forall i :: 0 <= i < |ids| ==> e.graph.tasks[i].id == ids[i]
  }

  ghost predicate SameIds(s: System, ids: seq<string>) {
    && HasIds(s.store, ids)
    && HasIds(s.current, ids)
    && (s.loaded.Some? ==> HasIds(s.loaded.value, ids))
    && (s.pc.Preparing? ==> HasIds(s.pc.persisted, ids))
    && (s.pc.Marking? ==> s.pc.id in ids && IsActive(s.pc.active))
    && (s.pc.Executing? || s.pc.Reconciling? || s.pc.RepairRunning? ==> s.pc.id in ids)
  }

  /** Where the theorems begin: no loop runs, or one has just been entered with some record of the
      mission. Any controls may be queued for the lock, and the first of them may hold it. */
  ghost predicate Initial(s: System) {
    var ids := IdList(s.store.graph.tasks);
    && (s.pc == Halted || s.pc == Top)
    && HasIds(s.current, ids)
    && LoopActor !in s.queue
    && (s.loaded.Some? ==> s.queue != [] && HasIds(s.loaded.value, ids))
  }

  ghost predicate Inv(s: System, ids: seq<string>) {
    SameIds(s, ids) && QueuedOnce(s) && LoadedIsLatest(s) && MarkHolds(s)
  }
}
