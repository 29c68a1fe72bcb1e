/** Every step of the mission system keeps its invariant. */
module SystemInvariant {
  import opened Options
  import opened TaskGraph
  import opened MissionRecord
  import opened MissionSystem

  lemma KnownIds(e: Execution, ids: seq<string>)
    requires HasIds(e, ids)
    ensures forall id :: id in ids <==> id in Ids(e.graph.tasks)
  {
    forall id | id in ids
      ensures id in Ids(e.graph.tasks)
    {
      var i :| 0 <= i < |ids| && ids[i] == id;
      assert e.graph.tasks[i] in e.graph.tasks;
    }
  }

  // ----- how rebuilds act on one id

  lemma {:induction false} LookupMapped(a: seq<Task>, b: seq<Task>, f: Task -> Task, id: string)
    requires id in Ids(a) && |b| == |a| && forall i :: 0 <= i < |a| ==> b[i] == f(a[i])
    requires forall t: Task :: f(t).id == t.id
    ensures id in Ids(b) && FindTask(b, id) == f(FindTask(a, id))
  {
    assert b[0] in b && a[0] in a;
    if a[0].id != id {
      assert a == [a[0]] + a[1..] && b == [b[0]] + b[1..];
      LookupMapped(a[1..], b[1..], f, id);
    }
  }

  // No rebuild adds, removes or renames a task.

  lemma StopKeepsIds(e: Execution, ids: seq<string>, reason: AbortReason)
    requires HasIds(e, ids)
    ensures HasIds(StopForAbort(e, reason), ids)
  {}

  lemma FailKeepsIds(e: Execution, ids: seq<string>, why: string, reason: AbortReason)
    requires HasIds(e, ids)
    ensures HasIds(FailRemainingTasks(e, why, reason), ids)
  {}

  lemma ApplyKeepsIds(e: Execution, ids: seq<string>, id: string, outcome: Outcome)
    requires HasIds(e, ids) && id in Ids(e.graph.tasks)
    ensures HasIds(ApplyOutcome(e, id, outcome), ids)
  {
    match outcome { case Returned(_) => case Threw(_) => }
  }

  lemma BeginKeepsIds(e: Execution, ids: seq<string>, id: string, result: TaskResult)
    requires HasIds(e, ids) && id in Ids(e.graph.tasks)
    ensures HasIds(BeginRepair(e, id, result), ids)
  {}

  lemma FinishKeepsIds(e: Execution, ids: seq<string>, id: string, result: TaskResult)
    requires HasIds(e, ids) && id in Ids(e.graph.tasks)
    ensures HasIds(FinishRepair(e, id, result), ids)
  {}

  lemma ControlKeepsIds(e: Execution, ids: seq<string>, action: ControlAction)
    requires HasIds(e, ids) && Control(action, e).Some?
    ensures HasIds(Control(action, e).value, ids)
  {}

  lemma MarkLookup(e: Execution, id: string, active: TaskState)
    requires id in Ids(e.graph.tasks)
    ensures Lookup(MarkActive(e, id, active), id) == Some(FindTask(e.graph.tasks, id).(state := active))
  {
    FindPatched(e.graph.tasks, id, (t: Task) => t.(state := active));
    assert MarkActive(e, id, active).graph.tasks == PatchTasks(e.graph.tasks, id, (t: Task) => t.(state := active));
  }

  lemma ControlLookup(action: ControlAction, e: Execution, id: string)
    requires id in Ids(e.graph.tasks) && Control(action, e).Some?
    ensures Lookup(Control(action, e).value, id) == Some(ControlTask(action, FindTask(e.graph.tasks, id)))
  {
    LookupMapped(e.graph.tasks, Control(action, e).value.graph.tasks, (t: Task) => ControlTask(action, t), id);
  }

  // ----- every step keeps the invariant

  lemma QueueShrinks(queue: seq<Actor>)
    requires queue != []
    ensures multiset(queue[1..])[LoopActor] == multiset(queue)[LoopActor] - if queue[0] == LoopActor then 1 else 0
  {
    assert queue == [queue[0]] + queue[1..];
  }

  /** A loop that does not wait for the lock does not hold it. */
  lemma NotWaitingNotHead(s: System)
    requires QueuedOnce(s) && !Waiting(s.pc)
    ensures s.queue != [] ==> s.queue[0] != LoopActor
  {
    if s.queue != [] { QueueShrinks(s.queue); }
  }

  lemma EnqueueKeepsInv(s: System, pc: LoopPc, ids: seq<string>)
    requires Inv(s, ids) && !Waiting(s.pc) && Waiting(pc)
    requires SameIds(s.(pc := pc), ids) && MarkHolds(s.(pc := pc)) && (InFlight(pc) ==> InFlight(s.pc))
    ensures Inv(Enqueue(s, pc), ids)
  {
    NotWaitingNotHead(s);
  }

  lemma UnlockedSaveKeepsInv(s: System, s': System, ids: seq<string>)
    requires Inv(s, ids) && !Waiting(s.pc)
    requires s'.queue == s.queue && s'.loaded == s.loaded && !Waiting(s'.pc) && !InFlight(s'.pc)
    requires SameIds(s', ids)
    ensures Inv(s', ids)
  {
    NotWaitingNotHead(s);
  }

  lemma MarkingKeepsIds(s: System, t: Task, ids: seq<string>, k: nat)
    requires Inv(s, ids) && k < |s.current.graph.tasks| && t == s.current.graph.tasks[k]
    ensures SameIds(s.(pc := Marking(t.id, ActiveStateFor(t.kind), t.kind)), ids)
  {
    assert t.id == ids[k];
  }

  lemma ChoosingKeepsInv(s: System, k: nat, ids: seq<string>)
    requires Inv(s, ids) && s.pc == Top && k < |s.current.graph.tasks|
    ensures var t := s.current.graph.tasks[k]; Inv(Enqueue(s, Marking(t.id, ActiveStateFor(t.kind), t.kind)), ids)
  {
    var t := s.current.graph.tasks[k];
    MarkingKeepsIds(s, t, ids, k);
    EnqueueKeepsInv(s, Marking(t.id, ActiveStateFor(t.kind), t.kind), ids);
  }

  lemma CompletionKeepsInv(s: System, ids: seq<string>)
    requires Inv(s, ids) && s.pc == Top
    ensures Inv(s.(pc := Halted), ids)
    ensures var done := CompleteMission(s.current); Inv(s.(store := done, current := done, pc := Halted), ids)
  {
    var done := CompleteMission(s.current);
    UnlockedSaveKeepsInv(s, s.(pc := Halted), ids);
    UnlockedSaveKeepsInv(s, s.(store := done, current := done, pc := Halted), ids);
  }

  lemma DecideKeepsInv(s: System, limit: Limit, ids: seq<string>)
    requires Inv(s, ids) && s.pc == Top
    ensures Inv(Decide(s, limit), ids)
  {
    if s.abort.Some? {
      EnqueueKeepsInv(s, Stopping(s.abort.value), ids);
    } else if limit == DurationLimit {
      EnqueueKeepsInv(s, Failing(DURATION_MESSAGE, Duration), ids);
    } else if limit == BudgetLimit {
      EnqueueKeepsInv(s, Failing(BUDGET_MESSAGE, Budget), ids);
    } else {
      var next := FindNextTask(s.current.graph.tasks);
      if next.Some? { ChoosingKeepsInv(s, next.value, ids); } else { CompletionKeepsInv(s, ids); }
    }
  }

  lemma ResumingKeepsInv(s: System, e: Event, ids: seq<string>)
    requires Inv(s, ids) && (e.StartCalled? || e.ResumeCalled? || e.ResumeLoads? || e.EntrySaves?)
    ensures Inv(Step(s, e), ids)
  {
    if e.EntrySaves? && s.pc.Preparing? {
      UnlockedSaveKeepsInv(s, Step(s, e), ids);
    } else if Step(s, e) != s {
      if e.StartCalled? { StartHasIds(s, e.graph, ids); }
      UnlockedSaveKeepsInv(s, Step(s, e), ids);
    }
  }

  lemma StartHasIds(s: System, graph: Graph, ids: seq<string>)
    requires HasIds(s.store, ids) && IdList(graph.tasks) == IdList(s.store.graph.tasks)
    ensures HasIds(Execution(graph, {}, false, None), ids)
  {
    assert |graph.tasks| == |IdList(graph.tasks)| == |ids|;
    forall i | 0 <= i < |ids|
      ensures graph.tasks[i].id == ids[i]
    {
      assert IdList(graph.tasks)[i] == IdList(s.store.graph.tasks)[i];
    }
  }

  lemma ReleaseKeepsInv(s: System, s': System, ids: seq<string>)
    requires Inv(s, ids) && s.queue != []
    requires s'.queue == s.queue[1..] && s'.loaded == None
    requires if s.queue[0] == LoopActor then !Waiting(s'.pc) else s'.pc == s.pc
    requires SameIds(s', ids) && MarkHolds(s')
    ensures Inv(s', ids)
  {
    QueueShrinks(s.queue);
  }

  lemma LoopSavesKeepsInv(s: System, ids: seq<string>)
    requires Inv(s, ids) && s.queue != [] && s.loaded.Some? && s.queue[0] == LoopActor
    ensures Inv(Step(s, HeadSaves), ids)
  {
    QueueShrinks(s.queue);
    assert Waiting(s.pc);
    LoopSavesKeepsRecord(s, s.queue[1..], ids);
    ReleaseKeepsInv(s, Step(s, HeadSaves), ids);
  }

  lemma LoopSavesKeepsRecord(s: System, rest: seq<Actor>, ids: seq<string>)
    requires SameIds(s, ids) && s.loaded.Some? && s.loaded.value == s.store && Waiting(s.pc)
    ensures var s' := LoopSaves(s.(queue := rest, loaded := None), s.loaded.value);
            SameIds(s', ids) && MarkHolds(s') && !Waiting(s'.pc) && s'.queue == rest && s'.loaded == None
  {
    var s1 := s.(queue := rest, loaded := None);
    match s.pc {
      case Marking(_, _, _) => MarkingSaves(s1, ids);
      case Reconciling(_, _, _) => ReconcilingSaves(s1, ids);
      case Stopping(reason) => StopKeepsIds(s.store, ids, reason);
      case Failing(why, reason) => FailKeepsIds(s.store, ids, why, reason);
    }
  }

  lemma MarkingSaves(s: System, ids: seq<string>)
    requires SameIds(s, ids) && s.pc.Marking? && s.loaded == None
    ensures var s' := LoopSaves(s, s.store);
            SameIds(s', ids) && MarkHolds(s') && s'.pc.Executing? && s'.queue == s.queue && s'.loaded == None
  {
    KnownIds(s.store, ids);
    MarkLookup(s.store, s.pc.id, s.pc.active);
  }

  lemma ReconcilingSaves(s: System, ids: seq<string>)
    requires SameIds(s, ids) && s.pc.Reconciling? && s.loaded == None
    ensures var s' := LoopSaves(s, s.store);
            SameIds(s', ids) && s'.pc == Top && s'.queue == s.queue && s'.loaded == None
  {
    KnownIds(s.store, ids);
    if FindTask(s.store.graph.tasks, s.pc.id).state == s.pc.active {
      var applied := ApplyOutcome(s.store, s.pc.id, s.pc.outcome);
      ApplyKeepsIds(s.store, ids, s.pc.id, s.pc.outcome);
      assert LoopSaves(s, s.store) == s.(store := applied, current := applied, pc := Top);
    } else {
      assert LoopSaves(s, s.store) == s.(current := s.store, pc := Top);
    }
  }

  lemma ControlSavesKeepsInv(s: System, ids: seq<string>)
    requires Inv(s, ids) && s.queue != [] && s.loaded.Some? && s.queue[0].ControlActor?
    ensures Inv(Step(s, HeadSaves), ids)
  {
    ControlSavesKeepsRecord(s, s.queue[1..], s.queue[0].action, ids);
    ReleaseKeepsInv(s, Step(s, HeadSaves), ids);
  }

  lemma ControlSavesKeepsRecord(s: System, rest: seq<Actor>, action: ControlAction, ids: seq<string>)
    requires SameIds(s, ids) && MarkHolds(s) && s.loaded.Some? && (InFlight(s.pc) ==> s.loaded.value == s.store)
    ensures var s' := ControlSaves(s.(queue := rest, loaded := None), action, s.loaded.value);
            SameIds(s', ids) && MarkHolds(s') && s'.pc == s.pc && s'.queue == rest && s'.loaded == None
  {
    var latest := s.loaded.value;
    if Control(action, latest).Some? {
      ControlKeepsIds(latest, ids, action);
      if InFlight(s.pc) { ControlKeepsMark(s.(queue := rest, loaded := None), action, ids); }
    }
  }

  lemma ControlKeepsMark(s: System, action: ControlAction, ids: seq<string>)
    requires MarkHolds(s) && InFlight(s.pc) && Control(action, s.store).Some? && HasIds(s.store, ids) && s.pc.id in ids
    ensures MarkHolds(ControlSaves(s, action, s.store))
  {
    KnownIds(s.store, ids);
    ControlLookup(action, s.store, s.pc.id);
  }

  lemma SettlingKeepsInv(s: System, e: Event, ids: seq<string>)
    requires Inv(s, ids) && (e.TaskSettles? || e.RepairSettles?)
    ensures Inv(Step(s, e), ids)
  {
    if s.pc.Executing? && e.TaskSettles? { TaskSettlesKeepsInv(s, e.outcome, ids); }
    if s.pc.RepairRunning? && e.RepairSettles? { RepairSettlesKeepsInv(s, e.result, ids); }
  }

  lemma TaskSettlesKeepsInv(s: System, outcome: Outcome, ids: seq<string>)
    requires Inv(s, ids) && s.pc.Executing?
    ensures Inv(Step(s, TaskSettles(outcome)), ids)
  {
    KnownIds(s.current, ids);
    if BeginsRepair(s, outcome) {
      RepairBeginsKeepsInv(s, outcome.result, ids);
    } else {
      EnqueueKeepsInv(s, Reconciling(s.pc.id, s.pc.active, outcome), ids);
    }
  }

  lemma RepairBeginsKeepsInv(s: System, failure: TaskResult, ids: seq<string>)
    requires Inv(s, ids) && s.pc.Executing? && s.pc.id in Ids(s.current.graph.tasks)
    ensures var begun := BeginRepair(s.current, s.pc.id, failure);
            Inv(s.(store := begun, current := begun, pc := RepairRunning(s.pc.id)), ids)
  {
    var begun := BeginRepair(s.current, s.pc.id, failure);
    BeginKeepsIds(s.current, ids, s.pc.id, failure);
    UnlockedSaveKeepsInv(s, s.(store := begun, current := begun, pc := RepairRunning(s.pc.id)), ids);
  }

  lemma RepairSettlesKeepsInv(s: System, result: TaskResult, ids: seq<string>)
    requires Inv(s, ids) && s.pc.RepairRunning?
    ensures Inv(Step(s, RepairSettles(result)), ids)
  {
    KnownIds(s.current, ids);
    FinishKeepsIds(s.current, ids, s.pc.id, result);
    UnlockedSaveKeepsInv(s, Step(s, RepairSettles(result)), ids);
  }

  lemma StepKeepsInv(s: System, e: Event, ids: seq<string>)
    requires Inv(s, ids)
    ensures Inv(Step(s, e), ids)
  {
    match e {
      case StartCalled(_) => ResumingKeepsInv(s, e, ids);
      case ResumeCalled => ResumingKeepsInv(s, e, ids);
      case ResumeLoads => ResumingKeepsInv(s, e, ids);
      case EntrySaves => ResumingKeepsInv(s, e, ids);
      case LoopDecides(limit) => if s.pc == Top { DecideKeepsInv(s, limit, ids); }
      case HeadSaves =>
        if s.queue != [] && s.loaded.Some? {
          if s.queue[0] == LoopActor { LoopSavesKeepsInv(s, ids); } else { ControlSavesKeepsInv(s, ids); }
        }
      case TaskSettles(_) => SettlingKeepsInv(s, e, ids);
      case RepairSettles(_) => SettlingKeepsInv(s, e, ids);
      case _ =>
    }
  }
}
