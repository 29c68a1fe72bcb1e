/** When a committed cancel is lost: exactly which steps of which interleavings take a task out of the
    cancelled state, and two runs in which that happens. */
module CancelledTasks {
  import opened Options
  import opened TaskGraph
  import opened MissionRecord
  import opened MissionControl
  import opened MissionSystem
  import opened SystemInvariant
  import opened MissionInterleaving

  /** What a step must find to take the cancelled task at `i` out of that state, read off the state
      before it: which record is written over the stored one, and what that record says of the task. */
  predicate Uncancels(s: System, e: Event, i: nat)
    requires i < |s.store.graph.tasks| && i < |s.current.graph.tasks|
    requires s.loaded.Some? ==> i < |s.loaded.value.graph.tasks|
    requires s.pc.Preparing? ==> i < |s.pc.persisted.graph.tasks|
  {
    var id, here := s.store.graph.tasks[i].id, s.current.graph.tasks[i];
    match e
    case EntrySaves => s.pc.Preparing? && s.pc.persisted.graph.tasks[i].state != Cancelled
    case LoopDecides(limit) => Completes(s, limit) && here.state != Cancelled
    case HeadSaves => s.queue != [] && s.loaded.Some? && HeadUncancels(s, i)
    case TaskSettles(outcome) =>
      s.pc.Executing? && BeginsRepair(s, outcome) && (s.pc.id == id || here.state != Cancelled)
    case RepairSettles(result) =>
      s.pc.RepairRunning?
      && (here.state != Cancelled || if result.state == ResultCompleted then here.kind == Validation else s.pc.id == id)
    case _ => false
  }

  /** The loop finds nothing left to do and saves the mission as completed. */
  predicate Completes(s: System, limit: Limit) {
    && s.pc == Top && s.abort.None? && limit == NoLimit
    && FindNextTask(s.current.graph.tasks).None? && !Unfinished(s.current.graph.tasks)
  }

  /** The holder of the lock is the loop, marking this id or applying a result to it, or a control
      that has something to do and leaves the task as it loaded it, not cancelled, or retries it. */
  predicate HeadUncancels(s: System, i: nat)
    requires s.queue != [] && s.loaded.Some? && i < |s.store.graph.tasks| && i < |s.loaded.value.graph.tasks|
  {
    var id, tasks := s.store.graph.tasks[i].id, s.loaded.value.graph.tasks;
    match s.queue[0]
    case LoopActor =>
      || (s.pc.Marking? && s.pc.id == id)
      || (s.pc.Reconciling? && s.pc.id == id && id in Ids(tasks) && FindTask(tasks, id).state == s.pc.active)
    case ControlActor(action) =>
      && (exists t :: t in tasks && Concerns(action, t.state))
      && match action
         case Pause => tasks[i].state != Cancelled
         case Cancel => tasks[i].state == Completed || tasks[i].state == Failed || tasks[i].state == Blocked
         case RetryFailed => true
  }

  /** The cancelled task at `i` is still there after the step, and still cancelled. */
  ghost predicate StillCancelled(s: System, i: nat) {
    i < |s.store.graph.tasks| && s.store.graph.tasks[i].state == Cancelled
  }

  /** In every reachable state, whatever was queued or loaded when the loop was entered, a step takes
      a task out of the cancelled state exactly when it finds what `Uncancels` says. */
  lemma CancelledTaskIsLostExactlyWhen(s0: System, events: seq<Event>, e: Event, i: nat)
    requires Initial(s0) && StillCancelled(After(s0, events), i)
    ensures var s := After(s0, events);
            && |Step(s, e).store.graph.tasks| == |s.store.graph.tasks| == |s.current.graph.tasks|
            && (s.loaded.Some? ==> |s.loaded.value.graph.tasks| == |s.store.graph.tasks|)
            && (s.pc.Preparing? ==> |s.pc.persisted.graph.tasks| == |s.store.graph.tasks|)
            && (!StillCancelled(Step(s, e), i) <==> Uncancels(s, e, i))
  {
    AlwaysInv(s0, events);
    var s, ids := After(s0, events), IdList(s0.store.graph.tasks);
    StepKeepsInv(s, e, ids);
    match e {
      case HeadSaves =>
        if s.queue != [] && s.loaded.Some? {
          match s.queue[0] {
            case LoopActor => LoopHeadUncancels(s, ids, i);
            case ControlActor(action) => ControlHeadUncancels(s, action, ids, i);
          }
        }
      case TaskSettles(outcome) => if s.pc.Executing? { BeginUncancels(s, outcome, ids, i); }
      case RepairSettles(result) => if s.pc.RepairRunning? { FinishUncancels(s, result, ids, i); }
      case _ => UnlockedUncancels(s, e, ids, i);
    }
  }

  lemma UnlockedUncancels(s: System, e: Event, ids: seq<string>, i: nat)
    requires Inv(s, ids) && StillCancelled(s, i)
    requires !e.HeadSaves? && !e.TaskSettles? && !e.RepairSettles?
    ensures !StillCancelled(Step(s, e), i) <==> Uncancels(s, e, i)
  {
    match e {
      case EntrySaves => if s.pc.Preparing? { ReconciledState(s.pc.persisted, i); }
      case LoopDecides(limit) => if s.pc == Top { DecidedStore(s, limit); }
      case _ =>
    }
  }

  lemma ReconciledState(e: Execution, i: nat)
    requires i < |e.graph.tasks|
    ensures |ReconcileGraph(e).graph.tasks| == |e.graph.tasks|
    ensures ReconcileGraph(e).graph.tasks[i].state == Cancelled <==> e.graph.tasks[i].state == Cancelled
  {}

  lemma DecidedStore(s: System, limit: Limit)
    requires s.pc == Top
    ensures Step(s, LoopDecides(limit)).store == if Completes(s, limit) then CompleteMission(s.current) else s.store
  {}

  lemma LoopHeadUncancels(s: System, ids: seq<string>, i: nat)
    requires Inv(s, ids) && StillCancelled(s, i)
    requires s.queue != [] && s.loaded.Some? && s.queue[0] == LoopActor && HasIds(Step(s, HeadSaves).store, ids)
    ensures !StillCancelled(Step(s, HeadSaves), i) <==> HeadUncancels(s, i)
  {
    var s1 := s.(queue := s.queue[1..], loaded := None);
    assert Step(s, HeadSaves) == LoopSaves(s1, s.store);
    if s.pc.Reconciling? && s.pc.id in Ids(s.store.graph.tasks) {
      AppliedState(s.store, s.pc.id, s.pc.outcome, i);
    }
  }

  /** Applying an outcome leaves the tasks of its id in another state than cancelled and every other
      task alone. */
  lemma AppliedState(e: Execution, id: string, outcome: Outcome, i: nat)
    requires id in Ids(e.graph.tasks) && i < |e.graph.tasks|
    ensures var t := ApplyOutcome(e, id, outcome).graph.tasks;
            && |t| == |e.graph.tasks|
            && (if e.graph.tasks[i].id == id then t[i].state != Cancelled else t[i] == e.graph.tasks[i])
  {
    match outcome { case Returned(_) => case Threw(_) => }
  }

  lemma ControlHeadUncancels(s: System, action: ControlAction, ids: seq<string>, i: nat)
    requires Inv(s, ids) && StillCancelled(s, i)
    requires s.queue != [] && s.loaded.Some? && s.queue[0] == ControlActor(action)
    ensures !StillCancelled(Step(s, HeadSaves), i) <==> HeadUncancels(s, i)
  {
    ControlledState(action, s.loaded.value, i);
    assert Step(s, HeadSaves).store == if Control(action, s.loaded.value).Some? then Control(action, s.loaded.value).value else s.store;
  }

  lemma ControlledState(action: ControlAction, e: Execution, i: nat)
    requires i < |e.graph.tasks|
    ensures Control(action, e).Some? <==> exists t :: t in e.graph.tasks && Concerns(action, t.state)
    ensures Control(action, e).Some? ==>
              var t := Control(action, e).value.graph.tasks;
              && |t| == |e.graph.tasks|
              && (t[i].state == Cancelled <==>
                    match action
                    case Pause => e.graph.tasks[i].state == Cancelled
                    case Cancel => e.graph.tasks[i].state == Cancelled || !IsTerminal(e.graph.tasks[i].state)
                    case RetryFailed => false)
  {
    ControlDoesItsWork(action, e);
  }

  lemma BeginUncancels(s: System, outcome: Outcome, ids: seq<string>, i: nat)
    requires Inv(s, ids) && StillCancelled(s, i) && s.pc.Executing?
    ensures !StillCancelled(Step(s, TaskSettles(outcome)), i) <==> Uncancels(s, TaskSettles(outcome), i)
  {
    KnownIds(s.current, ids);
  }

  lemma FinishUncancels(s: System, result: TaskResult, ids: seq<string>, i: nat)
    requires Inv(s, ids) && StillCancelled(s, i) && s.pc.RepairRunning?
    ensures !StillCancelled(Step(s, RepairSettles(result)), i) <==> Uncancels(s, RepairSettles(result), i)
  {
    KnownIds(s.current, ids);
  }

  /** The step writes a record other than the stored one: a save without the lock, or a control over
      a record that such a save has replaced. */
  predicate WritesOther(s: System, e: Event) {
    match e
    case EntrySaves => s.pc.Preparing?
    case LoopDecides(limit) => Completes(s, limit)
    case HeadSaves => s.loaded.Some? && s.loaded.value != s.store
    case TaskSettles(outcome) => s.pc.Executing? && BeginsRepair(s, outcome)
    case RepairSettles(_) => s.pc.RepairRunning?
    case _ => false
  }

  /** Otherwise a cancelled task that stays cancelled is not changed at all. */
  lemma CancelledTaskIsUntouched(s0: System, events: seq<Event>, e: Event, i: nat)
    requires Initial(s0) && StillCancelled(After(s0, events), i) && StillCancelled(Step(After(s0, events), e), i)
    requires !WritesOther(After(s0, events), e)
    ensures Step(After(s0, events), e).store.graph.tasks[i] == After(s0, events).store.graph.tasks[i]
  {
    AlwaysInv(s0, events);
    var s := After(s0, events);
    if e == HeadSaves && s.queue != [] && s.loaded.Some? {
      match s.queue[0] {
        case LoopActor => LoopHeadSpares(s, i);
        case ControlActor(action) => ControlHeadSpares(s, action, i);
      }
    } else {
      OthersKeepStore(s, e);
    }
  }

  lemma OthersKeepStore(s: System, e: Event)
    requires !WritesOther(s, e) && (e == HeadSaves ==> s.queue == [] || s.loaded.None?)
    ensures Step(s, e).store == s.store
  {
    if e.LoopDecides? && s.pc == Top { DecidedStore(s, e.limit); }
  }

  lemma LoopHeadSpares(s: System, i: nat)
    requires s.queue != [] && s.loaded == Some(s.store) && s.queue[0] == LoopActor
    requires StillCancelled(s, i) && StillCancelled(Step(s, HeadSaves), i)
    requires s.pc.Marking? ==> IsActive(s.pc.active)
    ensures Step(s, HeadSaves).store.graph.tasks[i] == s.store.graph.tasks[i]
  {
    var s1 := s.(queue := s.queue[1..], loaded := None);
    assert Step(s, HeadSaves) == LoopSaves(s1, s.store);
    if s.pc.Reconciling? && s.pc.id in Ids(s.store.graph.tasks) {
      AppliedState(s.store, s.pc.id, s.pc.outcome, i);
    }
  }

  lemma ControlHeadSpares(s: System, action: ControlAction, i: nat)
    requires s.queue != [] && s.loaded == Some(s.store) && s.queue[0] == ControlActor(action)
    requires StillCancelled(s, i) && StillCancelled(Step(s, HeadSaves), i)
    ensures Step(s, HeadSaves).store.graph.tasks[i] == s.store.graph.tasks[i]
  {
    ControlDoesItsWork(action, s.store);
  }

  // ----- a run in which a committed cancel is lost

  function OneTask(state: TaskState): Execution {
    var t := Task("v", "Run tests", Validation, [], Resources([], []), state, Retry(2, 0), [], [], []);
    Execution(Graph("m", "objective", [t]), {}, false, None)
  }

  function StartOf(e: Execution): System {
    System(e, [], None, Top, e, None, true, false)
  }

  lemma AfterFour(s: System, a: Event, b: Event, c: Event, d: Event)
    ensures After(s, [a, b, c, d]) == Step(Step(Step(Step(s, a), b), c), d)
  {
    AfterTwo(s, [], a, b);
    AfterTwo(s, [a, b], c, d);
    assert [] + [a, b] == [a, b] && [a, b] + [c, d] == [a, b, c, d];
  }

  lemma AfterTwo(s: System, events: seq<Event>, a: Event, b: Event)
    ensures After(s, events + [a, b]) == Step(Step(After(s, events), a), b)
  {
    AfterOne(s, events, a);
    AfterOne(s, events + [a], b);
    OneByOne(events, a, b);
  }

  lemma OneByOne<T>(xs: seq<T>, a: T, b: T)
    ensures xs + [a] + [b] == xs + [a, b]
  {}

  /** The cancel commits between the loop's choice of the task and its mark: the task runs. */
  lemma CancelBeforeMarkIsLost()
    ensures var s0 := StartOf(OneTask(Ready));
            var before := [ControlCalled(Cancel), LoopDecides(NoLimit), HeadLoads, HeadSaves];
            && Initial(s0)
            && After(s0, before).store == OneTask(Cancelled)
            && After(s0, before + [HeadLoads] + [HeadSaves]).store == OneTask(Validating)
  {
    var s0 := StartOf(OneTask(Ready));
    var before := [ControlCalled(Cancel), LoopDecides(NoLimit), HeadLoads, HeadSaves];
    AfterFour(s0, ControlCalled(Cancel), LoopDecides(NoLimit), HeadLoads, HeadSaves);
    ReadyIsChosen();
    CancelCommits(Step(Step(s0, ControlCalled(Cancel)), LoopDecides(NoLimit)), [LoopActor]);
    AfterOne(s0, before, HeadLoads);
    AfterOne(s0, before + [HeadLoads], HeadSaves);
    MarkOverwrites(After(s0, before));
  }

  lemma ReadyIsChosen()
    ensures var s := Step(Step(StartOf(OneTask(Ready)), ControlCalled(Cancel)), LoopDecides(NoLimit));
            && s.store == OneTask(Ready) && s.pc == Marking("v", Validating, Validation)
            && s.queue == [ControlActor(Cancel)] + [LoopActor] && s.loaded == None
  {
    ReadyIsNext();
  }

  /** The cancel commits while a resume prepares: the resume saves the record it had loaded, and the
      task is ready again. */
  lemma CancelDuringResumeIsLost()
    ensures var s0 := StartOf(OneTask(Ready)).(pc := Halted);
            var before := [ResumeCalled, ResumeLoads, ControlCalled(Cancel), HeadLoads];
            && Initial(s0)
            && After(s0, before + [HeadSaves]).store == OneTask(Cancelled)
            && After(s0, before + [HeadSaves] + [EntrySaves]).store == OneTask(Ready)
  {
    var s0 := StartOf(OneTask(Ready)).(pc := Halted);
    var before := [ResumeCalled, ResumeLoads, ControlCalled(Cancel), HeadLoads];
    AfterFour(s0, ResumeCalled, ResumeLoads, ControlCalled(Cancel), HeadLoads);
    CancelCommits(Step(Step(Step(s0, ResumeCalled), ResumeLoads), ControlCalled(Cancel)), []);
    AfterOne(s0, before, HeadSaves);
    AfterOne(s0, before + [HeadSaves], EntrySaves);
    ResumeOverwrites(After(s0, before + [HeadSaves]));
  }

  lemma ResumeOverwrites(s: System)
    requires s.pc == Preparing(OneTask(Ready))
    ensures Step(s, EntrySaves).store == OneTask(Ready)
  {
    assert ReconcileGraph(OneTask(Ready)).graph.tasks == OneTask(Ready).graph.tasks;
  }

  lemma CancelCommits(s: System, rest: seq<Actor>)
    requires s.store == OneTask(Ready) && s.queue == [ControlActor(Cancel)] + rest && s.loaded == None
    ensures var s' := Step(Step(s, HeadLoads), HeadSaves);
            s'.store == OneTask(Cancelled) && s'.queue == rest && s'.loaded == None && s'.pc == s.pc
  {
    CancelReady();
  }

  lemma MarkOverwrites(s: System)
    requires s.store == OneTask(Cancelled) && s.pc == Marking("v", Validating, Validation)
    requires s.queue == [LoopActor] && s.loaded == None
    ensures Step(Step(s, HeadLoads), HeadSaves).store == OneTask(Validating)
  {
    assert MarkActive(OneTask(Cancelled), "v", Validating).graph.tasks == OneTask(Validating).graph.tasks;
  }

  lemma ReadyIsNext()
    ensures FindNextTask(OneTask(Ready).graph.tasks) == Some(0)
  {
    var tasks := OneTask(Ready).graph.tasks;
    assert Runnable(tasks[0], CompletedIds(tasks));
  }

  lemma CancelReady()
    ensures Control(Cancel, OneTask(Ready)) == Some(OneTask(Cancelled))
  {
    var e := OneTask(Ready);
    assert ControlTask(Cancel, e.graph.tasks[0]).state != e.graph.tasks[0].state;
    assert Control(Cancel, e).value.graph.tasks == OneTask(Cancelled).graph.tasks;
  }
}
