/** The two models of the mission loop meet: a schedule of the step system MissionSystem in
    which no control is called, and whose answers are those of an environment, is the run of MissionRun
    in that environment. So what is proved there of termination, freshness and stalling holds of every
    such schedule. */
module QuietRun {
  import opened Options
  import opened TaskGraph
  import opened MissionRecord
  import opened RepairController
  import opened MissionAttempt
  import opened MissionRun
  import opened MissionSystem

  /** The steps of the schedule; the events of a run are its history. */
  type Move = MissionSystem.Event

  function LimitOf(stop: StopSignal): Limit {
    match stop
    case DurationExceeded => DurationLimit
    case BudgetExceeded => BudgetLimit
    case _ => NoLimit
  }

  /** The task the run chooses next. */
  function Chosen(r: RunState): Option<Task> {
    var next := FindNextTask(Tasks(r));
    if next.None? then None else Some(Tasks(r)[next.value])
  }

  function Marked(r: RunState, t: Task): Execution {
    MarkActive(r.record, t.id, ActiveStateFor(t.kind))
  }

  /** What executing the chosen task of the run gives. */
  function OutcomeOf(env: Environment, r: RunState, t: Task): Outcome
    requires t.id in Ids(Marked(r, t).graph.tasks)
  {
    env.execute(r.calls, FindTask(Marked(r, t).graph.tasks, t.id))
  }

  /** What the repair controller answers to the failure of the chosen task. */
  function RepairOf(env: Environment, r: RunState, t: Task): TaskResult
    requires t.id in Ids(Marked(r, t).graph.tasks)
  {
    AttemptRepair(Recorded(r.repair, FindTask(Marked(r, t).graph.tasks, t.id), OutcomeOf(env, r, t)), env.repairEdit(r.calls)).1
  }

  /** The event is one the environment allows, the run having reached `r` when the loop last chose:
      no control, no second entry, and every answer the environment's. */
  ghost predicate Follows(env: Environment, s: System, r: RunState, e: Move) {
    match e
    case LoopDecides(limit) =>
      s.pc == Top ==> limit == LimitOf(env.stop(r.calls)) && (env.stop(r.calls).Abort? ==> s.abort == Some(env.stop(r.calls).reason))
    case AbortSignalled(reason) => s.pc == Top && env.stop(r.calls) == Abort(reason)
    case TaskSettles(outcome) =>
      s.pc.Executing? ==> Chosen(r).Some? && Knows(r) && outcome == OutcomeOf(env, r, Chosen(r).value)
    case RepairSettles(result) =>
      s.pc.RepairRunning? ==> Chosen(r).Some? && Knows(r) && result == RepairOf(env, r, Chosen(r).value)
    case StartCalled(_) => false
    case ResumeCalled => false
    case ControlCalled(_) => false
    case _ => true
  }

  ghost predicate Knows(r: RunState) {
    Chosen(r).Some? ==> Chosen(r).value.id in Ids(Marked(r, Chosen(r).value).graph.tasks)
  }

  lemma ChosenIsKnown(r: RunState)
    ensures Knows(r)
    ensures Chosen(r).Some? ==> Chosen(r).value.id in Ids(Tasks(r)) && IsPending(Chosen(r).value.state)
  {
    if Chosen(r).Some? {
      var t := Chosen(r).value;
      assert t in Tasks(r);
      MarkKeepsIdSet(r.record, t.id, ActiveStateFor(t.kind));
    }
  }

  /** Where the run stands after the event: an attempt further when the loop is back where it chooses. */
  function Track(env: Environment, s: System, r: RunState, e: Move): RunState {
    if (s.pc.Reconciling? || s.pc.RepairRunning?) && Step(s, e).pc == Top && FindNextTask(Tasks(r)).Some?
    then Attempt(env, r, FindNextTask(Tasks(r)).value) else r
  }

  // ----- the simulation

  predicate Free(s: System) {
    s.queue == [] && s.loaded == None
  }

  predicate Locked(s: System) {
    s.queue == [LoopActor] && (s.loaded == None || s.loaded == Some(s.store))
  }

  ghost predicate Sim(env: Environment, s: System, r: RunState) {
    && s.canRepair == env.canRepair && Knows(r)
    && match s.pc
       case Top =>
         Free(s) && s.store == r.record && s.current == r.record
         && (s.abort.Some? ==> env.stop(r.calls) == Abort(s.abort.value))
       case Halted => Free(s) && s.store == RunFrom(env, r).state.record
       case Stopping(reason) => Locked(s) && s.store == r.record && env.stop(r.calls) == Abort(reason)
       case Failing(why, reason) =>
         Locked(s) && s.store == r.record
         && ((env.stop(r.calls) == DurationExceeded && why == DURATION_MESSAGE && reason == Duration)
             || (env.stop(r.calls) == BudgetExceeded && why == BUDGET_MESSAGE && reason == Budget))
       case Marking(id, active, kind) => Locked(s) && s.store == r.record && Working(env, s, r, id, active, kind)
       case Executing(id, active, kind) =>
         Free(s) && Working(env, s, r, id, active, kind)
         && s.store == Marked(r, Chosen(r).value) && s.current == Marked(r, Chosen(r).value)
       case Reconciling(id, active, outcome) =>
         Locked(s) && Chosen(r).Some? && Working(env, s, r, id, active, Chosen(r).value.kind) && s.store == Marked(r, Chosen(r).value)
         && outcome == OutcomeOf(env, r, Chosen(r).value) && !EntersRepair(env, Chosen(r).value.kind, outcome)
       case RepairRunning(id) =>
         Free(s) && Chosen(r).Some? && id == Chosen(r).value.id && env.stop(r.calls) == Continue && s.abort.None?
         && EntersRepair(env, Chosen(r).value.kind, OutcomeOf(env, r, Chosen(r).value))
         && s.store == BeginRepair(Marked(r, Chosen(r).value), id, OutcomeOf(env, r, Chosen(r).value).result)
         && s.current == s.store
       case _ => false
  }

  /** The loop works on the task the run has chosen. */
  ghost predicate Working(env: Environment, s: System, r: RunState, id: string, active: TaskState, kind: TaskKind) {
    && Chosen(r).Some? && env.stop(r.calls) == Continue && s.abort.None?
    && id == Chosen(r).value.id && kind == Chosen(r).value.kind && active == ActiveStateFor(kind)
  }

  /** The run has made the attempt it had chosen. */
  ghost predicate Attempted(env: Environment, r: RunState, r': RunState) {
    FindNextTask(Tasks(r)).Some? && env.stop(r.calls) == Continue && r' == Attempt(env, r, FindNextTask(Tasks(r)).value)
  }

  /** The state between two attempts, seen by the run. */
  ghost predicate Advances(env: Environment, r: RunState, r': RunState) {
    r' == r || Attempted(env, r, r')
  }

  lemma DecideFollows(env: Environment, s: System, r: RunState, limit: Limit)
    requires Sim(env, s, r) && s.pc == Top && Follows(env, s, r, LoopDecides(limit))
    ensures Sim(env, Decide(s, limit), r)
  {
    ChosenIsKnown(r);
    if s.abort.None? && limit == NoLimit {
      assert env.stop(r.calls) == Continue;
      var next := FindNextTask(s.current.graph.tasks);
      if next.Some? {
        assert Chosen(r) == Some(s.current.graph.tasks[next.value]);
      }
    }
  }

  lemma MarkFollows(env: Environment, s: System, r: RunState)
    requires Sim(env, s, r) && s.pc.Marking? && s.loaded.Some?
    ensures Sim(env, Step(s, HeadSaves), r)
  {
    assert s.queue[1..] == [];
  }

  lemma StopFollows(env: Environment, s: System, r: RunState)
    requires Sim(env, s, r) && (s.pc.Stopping? || s.pc.Failing?) && s.loaded.Some?
    ensures Sim(env, Step(s, HeadSaves), r)
  {
    assert s.queue[1..] == [];
  }

  lemma ReconcileFollows(env: Environment, s: System, r: RunState)
    requires Sim(env, s, r) && s.pc.Reconciling? && s.loaded.Some?
    ensures Sim(env, Step(s, HeadSaves), Track(env, s, r, HeadSaves)) && Attempted(env, r, Track(env, s, r, HeadSaves))
  {
    assert s.queue[1..] == [];
    ChosenIsKnown(r);
    var t := Chosen(r).value;
    MarkedFirstState(r.record, t.id, ActiveStateFor(t.kind));
    var s' := Step(s, HeadSaves);
    var r' := Attempt(env, r, FindNextTask(Tasks(r)).value);
    assert s'.pc == Top && s'.store == ApplyOutcome(Marked(r, t), t.id, OutcomeOf(env, r, t));
    assert r'.record == s'.store;
    ChosenIsKnown(r');
  }

  lemma MarkedFirstState(e: Execution, id: string, active: TaskState)
    requires id in Ids(e.graph.tasks)
    ensures id in Ids(MarkActive(e, id, active).graph.tasks)
    ensures FindTask(MarkActive(e, id, active).graph.tasks, id).state == active
  {
    FindPatched(e.graph.tasks, id, (t: Task) => t.(state := active));
    assert MarkActive(e, id, active).graph.tasks == PatchTasks(e.graph.tasks, id, (t: Task) => t.(state := active));
  }

  lemma SettleFollows(env: Environment, s: System, r: RunState, outcome: Outcome)
    requires Sim(env, s, r) && s.pc.Executing? && Follows(env, s, r, TaskSettles(outcome))
    ensures Sim(env, Step(s, TaskSettles(outcome)), r)
  {}

  lemma RepairFollows(env: Environment, s: System, r: RunState, result: TaskResult)
    requires Sim(env, s, r) && s.pc.RepairRunning? && Follows(env, s, r, RepairSettles(result))
    ensures Sim(env, Step(s, RepairSettles(result)), Track(env, s, r, RepairSettles(result)))
    ensures Attempted(env, r, Track(env, s, r, RepairSettles(result)))
  {
    ChosenIsKnown(r);
    var t := Chosen(r).value;
    var marked := Marked(r, t);
    BeginKeepsIdSet(marked, t.id, OutcomeOf(env, r, t).result);
    var s' := Step(s, RepairSettles(result));
    var r' := Attempt(env, r, FindNextTask(Tasks(r)).value);
    assert s'.pc == Top && s'.store == FinishRepair(s.current, t.id, result);
    assert r'.record == s'.store;
    ChosenIsKnown(r');
  }

  /** One step of the schedule keeps the two in step. */
  lemma StepFollows(env: Environment, s: System, r: RunState, e: Move)
    requires Sim(env, s, r) && Follows(env, s, r, e)
    ensures Sim(env, Step(s, e), Track(env, s, r, e)) && Advances(env, r, Track(env, s, r, e))
  {
    match e {
      case LoopDecides(limit) => if s.pc == Top { DecideFollows(env, s, r, limit); }
      case HeadSaves =>
        if s.queue != [] && s.loaded.Some? {
          match s.pc {
            case Marking(_, _, _) => MarkFollows(env, s, r);
            case Reconciling(_, _, _) => ReconcileFollows(env, s, r);
            case _ => StopFollows(env, s, r);
          }
        }
      case TaskSettles(outcome) => if s.pc.Executing? { SettleFollows(env, s, r, outcome); }
      case RepairSettles(result) => if s.pc.RepairRunning? { RepairFollows(env, s, r, result); }
      case _ =>
    }
  }

  // ----- whole schedules

  ghost predicate FollowsAll(env: Environment, s: System, r: RunState, events: seq<Move>)
    decreases |events|
  {
    events == []
    || (Follows(env, s, r, events[0]) && FollowsAll(env, Step(s, events[0]), Track(env, s, r, events[0]), events[1..]))
  }

  function TrackAll(env: Environment, s: System, r: RunState, events: seq<Move>): RunState
    decreases |events|
  {
    if events == [] then r else TrackAll(env, Step(s, events[0]), Track(env, s, r, events[0]), events[1..])
  }

  lemma {:induction false} AfterFirst(s: System, events: seq<Move>)
    requires events != []
    ensures After(s, events) == After(Step(s, events[0]), events[1..])
    decreases |events|
  {
    var n := |events| - 1;
    if n > 0 {
      AfterFirst(s, events[..n]);
      assert events[..n][1..] == events[1..][..n - 1];
    }
  }

  lemma {:induction false} ScheduleFollows(env: Environment, s: System, r: RunState, events: seq<Move>)
    requires Sim(env, s, r) && FollowsAll(env, s, r, events)
    ensures Sim(env, After(s, events), TrackAll(env, s, r, events))
    ensures RunFrom(env, TrackAll(env, s, r, events)) == RunFrom(env, r)
    decreases |events|
  {
    if events != [] {
      var r' := Track(env, s, r, events[0]);
      StepFollows(env, s, r, events[0]);
      ScheduleFollows(env, Step(s, events[0]), r', events[1..]);
      AfterFirst(s, events);
    }
  }

  /** The loop entered with the stored record of the run, alone and with no abort signalled. */
  function Entered(env: Environment, r: RunState): System {
    System(r.record, [], None, Top, r.record, None, env.canRepair, false)
  }

  /** A schedule without controls that comes to a halt leaves the record of the run. */
  lemma QuietScheduleIsTheRun(env: Environment, r: RunState, events: seq<Move>)
    requires FollowsAll(env, Entered(env, r), r, events)
    requires After(Entered(env, r), events).pc == Halted
    ensures After(Entered(env, r), events).store == RunFrom(env, r).state.record
  {
    ChosenIsKnown(r);
    ScheduleFollows(env, Entered(env, r), r, events);
  }

  /** How many steps are left at most before the loop chooses again or halts. */
  function Rank(s: System): nat {
    match s.pc
    case Top => if s.abort.None? then 7 else 6
    case Marking(_, _, _) => if s.loaded.None? then 5 else 4
    case Executing(_, _, _) => 3
    case Reconciling(_, _, _) => if s.loaded.None? then 2 else 1
    case RepairRunning(_) => 1
    case Stopping(_) => if s.loaded.None? then 2 else 1
    case Failing(_, _) => if s.loaded.None? then 2 else 1
    case _ => 0
  }

  /** The event the loop is waiting for. */
  function NextEvent(env: Environment, s: System, r: RunState): Move
    requires Knows(r)
  {
    match s.pc
    case Top =>
      if env.stop(r.calls).Abort? && s.abort.None? then AbortSignalled(env.stop(r.calls).reason)
      else LoopDecides(LimitOf(env.stop(r.calls)))
    case Executing(_, _, _) => if Chosen(r).None? then HeadLoads else TaskSettles(OutcomeOf(env, r, Chosen(r).value))
    case RepairRunning(_) => if Chosen(r).None? then HeadLoads else RepairSettles(RepairOf(env, r, Chosen(r).value))
    case _ => if s.loaded.None? then HeadLoads else HeadSaves
  }

  /** The loop is about to end its attempt. */
  predicate Ending(s: System) {
    s.pc.RepairRunning? || (s.pc.Reconciling? && s.loaded.Some?)
  }

  lemma AttemptedLowers(env: Environment, r: RunState, r': RunState)
    requires Attempted(env, r, r')
    ensures Potential(r') < Potential(r)
  {
    AttemptLowersPotential(env, r, FindNextTask(Tasks(r)).value);
  }

  lemma EndsAttempt(env: Environment, s: System, r: RunState)
    requires Sim(env, s, r) && Ending(s)
    ensures var e := NextEvent(env, s, r); Follows(env, s, r, e) && Attempted(env, r, Track(env, s, r, e))
  {
    if s.pc.Reconciling? { ReconcileFollows(env, s, r); } else { RepairFollows(env, s, r, RepairOf(env, r, Chosen(r).value)); }
  }

  /** The environment allows the event, and it brings the loop nearer to its next choice. */
  ghost predicate Nearer(env: Environment, s: System, r: RunState, e: Move) {
    Follows(env, s, r, e) && Track(env, s, r, e) == r && Rank(Step(s, e)) < Rank(s)
  }

  lemma ChoosesOrStops(env: Environment, s: System, r: RunState)
    requires Sim(env, s, r) && s.pc == Top
    ensures Nearer(env, s, r, NextEvent(env, s, r))
  {}

  lemma WaitsForLock(env: Environment, s: System, r: RunState)
    requires Sim(env, s, r) && Locked(s) && !Ending(s)
    ensures Nearer(env, s, r, NextEvent(env, s, r))
  {}

  lemma ExecutesTask(env: Environment, s: System, r: RunState)
    requires Sim(env, s, r) && s.pc.Executing?
    ensures Nearer(env, s, r, NextEvent(env, s, r))
  {}

  lemma ComesNearer(env: Environment, s: System, r: RunState)
    requires Sim(env, s, r) && s.pc != Halted && !Ending(s)
    ensures Nearer(env, s, r, NextEvent(env, s, r))
  {
    if s.pc == Top {
      ChoosesOrStops(env, s, r);
    } else if s.pc.Executing? {
      ExecutesTask(env, s, r);
    } else {
      WaitsForLock(env, s, r);
    }
  }

  /** Every environment has a schedule without controls that halts, whatever the run is entered with:
      until it halts the loop can go on, and each step brings it nearer to its next choice or the run
      to its end. */
  lemma {:induction false} QuietScheduleHalts(env: Environment, s: System, r: RunState) returns (events: seq<Move>)
    requires Sim(env, s, r)
    ensures FollowsAll(env, s, r, events) && After(s, events).pc == Halted
    decreases Potential(r), Rank(s)
  {
    if s.pc == Halted {
      events := [];
    } else {
      var e := NextEvent(env, s, r);
      if Ending(s) {
        EndsAttempt(env, s, r);
        AttemptedLowers(env, r, Track(env, s, r, e));
      } else {
        ComesNearer(env, s, r);
      }
      StepFollows(env, s, r, e);
      var rest := QuietScheduleHalts(env, Step(s, e), Track(env, s, r, e));
      events := [e] + rest;
      assert events[1..] == rest;
      AfterFirst(s, events);
    }
  }
}
