/** What an undisturbed mission run guarantees about the graph it leaves behind: it stalls only
    behind a task that ended badly, it starts no task early, and no validation it counts as
    passed predates an edit or a repair. */
module MissionGuarantees {
  import opened Digraph
  import opened TaskGraph
  import opened MissionRecord
  import opened MissionAttempt
  import opened MissionRun

  // ----- stalling

  ghost predicate NoActive(tasks: seq<Task>) {
    forall i :: 0 <= i < |tasks| ==> !IsActive(tasks[i].state)
  }

  /** Some task that ended badly is a direct or transitive dependency of `id`. */
  ghost predicate Downstream(tasks: seq<Task>, id: string) {
    exists b :: b in tasks && EndedBadly(b.state) && Reaches(Edges(tasks), id, b.id)
  }

  ghost function StuckIds(tasks: seq<Task>): set<string> {
    set t | t in tasks && !IsTerminal(t.state) && !Downstream(tasks, t.id) :: t.id
  }

  lemma StuckHasStuckDependency(tasks: seq<Task>, id: string)
    requires DependenciesExist(tasks) && NoActive(tasks)
    requires forall t :: t in tasks ==> !Runnable(t, CompletedIds(tasks))
    requires id in StuckIds(tasks)
    ensures HasSuccessorIn(Edges(tasks), StuckIds(tasks), id)
  {
    var t :| t in tasks && !IsTerminal(t.state) && !Downstream(tasks, t.id) && t.id == id;
    assert IsPending(t.state);
    var d :| d in t.dependencies && d !in CompletedIds(tasks);
    assert d in Ids(tasks);
    var u :| u in tasks && u.id == d;
    assert (id, d) in Edges(tasks);
    ReachesEdge(Edges(tasks), id, d);
    assert !EndedBadly(u.state);
    if Downstream(tasks, d) {
      var b :| b in tasks && EndedBadly(b.state) && Reaches(Edges(tasks), d, b.id);
      ReachesTrans(Edges(tasks), id, d, b.id);
      assert false;
    }
    assert d in StuckIds(tasks);
  }

  lemma UnfinishedIsDownstream(tasks: seq<Task>)
    requires DependenciesExist(tasks) && Acyclic(Edges(tasks)) && NoActive(tasks)
    requires forall t :: t in tasks ==> !Runnable(t, CompletedIds(tasks))
    ensures forall t :: t in tasks && !IsTerminal(t.state) ==> Downstream(tasks, t.id)
  {
    forall t | t in tasks && !IsTerminal(t.state)
      ensures Downstream(tasks, t.id)
    {
      if !Downstream(tasks, t.id) {
        assert t.id in StuckIds(tasks);
        forall id | id in StuckIds(tasks) {
          StuckHasStuckDependency(tasks, id);
        }
        TrappedReachesCycle(Edges(tasks), StuckIds(tasks), t.id);
        assert false;
      }
    }
  }

  lemma ReconcileLeavesNoActive(e: Execution)
    ensures NoActive(ReconcileGraph(e).graph.tasks) && SameShape(e.graph.tasks, ReconcileGraph(e).graph.tasks)
    ensures forall i :: 0 <= i < |e.graph.tasks| && e.graph.tasks[i].state == Completed ==>
              ReconcileGraph(e).graph.tasks[i] == e.graph.tasks[i]
  {}

  lemma AttemptLeavesNoActive(env: Environment, s: RunState, k: nat)
    requires k < |Tasks(s)| && UniqueIds(Tasks(s)) && IsPending(Tasks(s)[k].state) && NoActive(Tasks(s))
    ensures NoActive(Tasks(Attempt(env, s, k)))
  {
    var s' := Attempt(env, s, k);
    var u := AttemptCases(env, s, k);
    if Settles(s, s', k, u) { SettlingLeavesNoActive(s, s', k, u); } else { ReopeningLeavesNoActive(s, s', k); }
  }

  lemma SettlingLeavesNoActive(a: RunState, b: RunState, k: nat, u: Task)
    requires k < |Tasks(a)| && NoActive(Tasks(a)) && Settles(a, b, k, u)
    ensures NoActive(Tasks(b))
  {}

  lemma ReopeningLeavesNoActive(a: RunState, b: RunState, k: nat)
    requires k < |Tasks(a)| && NoActive(Tasks(a)) && Reopens(a, b, k)
    ensures NoActive(Tasks(b))
  {}

  /** On an accepted graph entered through start or resume, an undisturbed loop stops without
      completing only when every unfinished task waits, directly or not, for a task that
      failed, was blocked or was cancelled. */
  lemma {:induction false} StalledOnlyBehindBadEnd(env: Environment, s: RunState)
    requires UniqueIds(Tasks(s)) && DependenciesExist(Tasks(s)) && Acyclic(Edges(Tasks(s))) && NoActive(Tasks(s))
    ensures var r := RunFrom(env, s);
            r.exit == Stalled ==>
              forall t :: t in Tasks(r.state) && !IsTerminal(t.state) ==> Downstream(Tasks(r.state), t.id)
    decreases Potential(s)
  {
    if env.stop(s.calls) == Continue {
      var next := FindNextTask(Tasks(s));
      if next.Some? {
        var s' := Attempt(env, s, next.value);
        AttemptLowersPotential(env, s, next.value);
        AttemptKeepsShape(env, s, next.value);
        AttemptLeavesNoActive(env, s, next.value);
        ShapeKeepsGraph(Tasks(s), Tasks(s'));
        StalledOnlyBehindBadEnd(env, s');
      } else {
        UnfinishedIsDownstream(Tasks(s));
      }
    }
  }

  /** So does every run entered through start or resume, whatever states the graph was left in. */
  lemma EnteredStallsOnlyBehindBadEnd(env: Environment, s: RunState)
    requires UniqueIds(Tasks(s)) && DependenciesExist(Tasks(s)) && Acyclic(Edges(Tasks(s)))
    ensures var r := RunFrom(env, s.(record := ReconcileGraph(s.record)));
            r.exit == Stalled ==>
              forall t :: t in Tasks(r.state) && !IsTerminal(t.state) ==> Downstream(Tasks(r.state), t.id)
  {
    var entered := s.(record := ReconcileGraph(s.record));
    ReconcileLeavesNoActive(s.record);
    ShapeKeepsGraph(Tasks(s), Tasks(entered));
    StalledOnlyBehindBadEnd(env, entered);
  }

  // ----- the log of a run

  /** Position of the last completion of `id`, or -1. */
  function LastDone(log: seq<Event>, id: string): int {
    if log == [] then -1
    else if log[|log| - 1] == Done(id) then |log| - 1
    else LastDone(log[..|log| - 1], id)
  }

  /** Position of the last successful repair, or -1. */
  function LastRepair(log: seq<Event>): int {
    if log == [] then -1
    else if log[|log| - 1] == Repaired then |log| - 1
    else LastRepair(log[..|log| - 1])
  }

  lemma {:induction false} LastDoneIsLast(log: seq<Event>, id: string)
    ensures -1 <= LastDone(log, id) < |log|
    ensures LastDone(log, id) >= 0 ==> log[LastDone(log, id)] == Done(id)
    ensures forall i :: LastDone(log, id) < i < |log| ==> log[i] != Done(id)
  {
    if log != [] && log[|log| - 1] != Done(id) {
      LastDoneIsLast(log[..|log| - 1], id);
    }
  }

  lemma {:induction false} LastRepairIsLast(log: seq<Event>)
    ensures -1 <= LastRepair(log) < |log|
    ensures LastRepair(log) >= 0 ==> log[LastRepair(log)] == Repaired
    ensures forall i :: LastRepair(log) < i < |log| ==> log[i] != Repaired
  {
    if log != [] && log[|log| - 1] != Repaired {
      LastRepairIsLast(log[..|log| - 1]);
    }
  }

  lemma LogGrows(log: seq<Event>, e: Event)
    ensures forall id :: LastDone(log + [e], id) == if e == Done(id) then |log| else LastDone(log, id)
    ensures LastRepair(log + [e]) == if e == Repaired then |log| else LastRepair(log)
  {
    assert (log + [e])[..|log|] == log;
  }

  // ----- freshness

  /** A completed task has a logged completion; a completed validation completed after the last
      repair, and after the last completion of each of its dependencies, all still completed. */
  ghost predicate FreshTask(t: Task, completed: set<string>, log: seq<Event>) {
    t.state == Completed ==>
      && LastDone(log, t.id) >= 0
      && (t.kind == Validation ==>
            && LastRepair(log) < LastDone(log, t.id)
            && forall d :: d in t.dependencies ==>
                 d in completed && 0 <= LastDone(log, d) < LastDone(log, t.id))
  }

  ghost predicate Fresh(tasks: seq<Task>, log: seq<Event>) {
    forall i :: 0 <= i < |tasks| ==> FreshTask(tasks[i], CompletedIds(tasks), log)
  }

  /** At position `i` of the log the task starts, each dependency having completed before, and
      each validation dependency after the last repair. */
  ghost predicate StartsInOrder(tasks: seq<Task>, log: seq<Event>, i: nat, t: Task)
    requires i < |log|
  {
    log[i] == Started(t.id) ==>
      forall u :: u in tasks && u.id in t.dependencies ==>
        0 <= LastDone(log[..i], u.id) && (u.kind == Validation ==> LastRepair(log[..i]) < LastDone(log[..i], u.id))
  }

  ghost predicate InOrder(tasks: seq<Task>, log: seq<Event>) {
    forall i: nat, t :: i < |log| && t in tasks ==> StartsInOrder(tasks, log, i, t)
  }

  lemma CompletedAt(tasks: seq<Task>, id: string) returns (i: nat)
    requires id in CompletedIds(tasks)
    ensures i < |tasks| && tasks[i].id == id && tasks[i].state == Completed
  {
    var t :| t in tasks && t.state == Completed && t.id == id;
    i :| 0 <= i < |tasks| && tasks[i] == t;
  }

  lemma ReplaceCompletedIds(tasks: seq<Task>, k: nat, u: Task)
    requires k < |tasks| && tasks[k].state != Completed && u.id == tasks[k].id
    ensures CompletedIds(tasks[k := u]) == CompletedIds(tasks) + if u.state == Completed then {u.id} else {}
  {
    var b := tasks[k := u];
    forall id | id in CompletedIds(tasks)
      ensures id in CompletedIds(b)
    {
      var i := CompletedAt(tasks, id);
      assert b[i] == tasks[i] && b[i] in b;
    }
    forall id | id in CompletedIds(b)
      ensures id in CompletedIds(tasks) || (u.state == Completed && id == u.id)
    {
      var i := CompletedAt(b, id);
      if i != k { assert tasks[i] in tasks; }
    }
    assert b[k] in b;
  }

  lemma SettlingKeepsFresh(a: RunState, b: RunState, k: nat, u: Task)
    requires k < |Tasks(a)| && UniqueIds(Tasks(a)) && Settles(a, b, k, u)
    requires Runnable(Tasks(a)[k], CompletedIds(Tasks(a)))
    requires Fresh(Tasks(a), a.log)
    ensures Fresh(Tasks(b), b.log)
  {
    var tasks, t := Tasks(a), Tasks(a)[k];
    ReplaceCompletedIds(tasks, k, u);
    var log1 := a.log + [Started(t.id)];
    LogGrows(a.log, Started(t.id));
    LogGrows(log1, Done(t.id));
    assert u.state == Completed ==> b.log == log1 + [Done(t.id)];
    assert t.id !in CompletedIds(tasks) by {
      if t.id in CompletedIds(tasks) {
        var i := CompletedAt(tasks, t.id);
        assert false;
      }
    }
    forall i | 0 <= i < |tasks|
      ensures FreshTask(Tasks(b)[i], CompletedIds(Tasks(b)), b.log)
    {
      assert FreshTask(tasks[i], CompletedIds(tasks), a.log);
      LastDoneIsLast(a.log, tasks[i].id);
      if i == k && u.state == Completed {
        LastRepairIsLast(a.log);
        forall d | d in t.dependencies
          ensures d in CompletedIds(tasks) && 0 <= LastDone(a.log, d) < |a.log|
        {
          var j := CompletedAt(tasks, d);
          assert FreshTask(tasks[j], CompletedIds(tasks), a.log);
          LastDoneIsLast(a.log, d);
        }
      }
    }
  }

  lemma ReopeningKeepsFresh(a: RunState, b: RunState, k: nat)
    requires k < |Tasks(a)| && Reopens(a, b, k)
    requires Fresh(Tasks(a), a.log)
    ensures Fresh(Tasks(b), b.log)
  {
    var id := Tasks(a)[k].id;
    LogGrows(a.log, Started(id));
    LogGrows(a.log + [Started(id)], Repaired);
    assert b.log == a.log + [Started(id)] + [Repaired];
    forall i | 0 <= i < |Tasks(b)|
      ensures FreshTask(Tasks(b)[i], CompletedIds(Tasks(b)), b.log)
    {
      assert FreshTask(Tasks(a)[i], CompletedIds(Tasks(a)), a.log);
    }
  }

  /** The log of an attempt: one start, and at most one event after it that starts nothing. */
  ghost predicate LogExtends(a: RunState, b: RunState, id: string) {
    || b.log == a.log + [Started(id)]
    || (exists e: Event :: !e.Started? && b.log == a.log + [Started(id), e])
  }

  lemma AttemptKeepsOrder(a: RunState, b: RunState, k: nat)
    requires k < |Tasks(a)| && UniqueIds(Tasks(a)) && SameShape(Tasks(a), Tasks(b))
    requires Runnable(Tasks(a)[k], CompletedIds(Tasks(a))) && Fresh(Tasks(a), a.log)
    requires LogExtends(a, b, Tasks(a)[k].id)
    requires InOrder(Tasks(a), a.log)
    ensures InOrder(Tasks(b), b.log)
  {
    forall i: nat, t | i < |b.log| && t in Tasks(b)
      ensures StartsInOrder(Tasks(b), b.log, i, t)
    {
      var j :| 0 <= j < |Tasks(b)| && Tasks(b)[j] == t;
      if i < |a.log| {
        assert b.log[..i] == a.log[..i] && b.log[i] == a.log[i];
        assert StartsInOrder(Tasks(a), a.log, i, Tasks(a)[j]);
        SameStarts(Tasks(a), Tasks(b), a.log, b.log, i, j);
      } else if b.log[i] == Started(t.id) {
        assert i == |a.log| && b.log[..i] == a.log;
        assert t.id == Tasks(a)[k].id;
        assert j == k;
        FreshStart(Tasks(a), Tasks(b), a.log, k);
      }
    }
  }

  lemma SameStarts(a: seq<Task>, b: seq<Task>, log: seq<Event>, log': seq<Event>, i: nat, j: nat)
    requires SameShape(a, b) && j < |a| && i < |log| && i < |log'| && log[..i] == log'[..i] && log[i] == log'[i]
    requires StartsInOrder(a, log, i, a[j])
    ensures StartsInOrder(b, log', i, b[j])
  {
    forall u | u in b && u.id in b[j].dependencies && log[i] == Started(b[j].id)
      ensures 0 <= LastDone(log[..i], u.id) && (u.kind == Validation ==> LastRepair(log[..i]) < LastDone(log[..i], u.id))
    {
      var m :| 0 <= m < |b| && b[m] == u;
      assert a[m] in a;
    }
  }

  lemma FreshStart(a: seq<Task>, b: seq<Task>, log: seq<Event>, k: nat)
    requires SameShape(a, b) && k < |a| && UniqueIds(a)
    requires Runnable(a[k], CompletedIds(a)) && Fresh(a, log)
    ensures forall u :: u in b && u.id in b[k].dependencies ==>
              0 <= LastDone(log, u.id) && (u.kind == Validation ==> LastRepair(log) < LastDone(log, u.id))
  {
    forall u | u in b && u.id in b[k].dependencies
      ensures 0 <= LastDone(log, u.id) && (u.kind == Validation ==> LastRepair(log) < LastDone(log, u.id))
    {
      var m :| 0 <= m < |b| && b[m] == u;
      var j := CompletedAt(a, u.id);
      assert a[m].id == a[j].id;
      assert m == j;
      assert FreshTask(a[j], CompletedIds(a), log);
    }
  }

  /** Freshness and start order are kept by a whole run, wherever it stops. */
  lemma {:induction false} RunKeepsFresh(env: Environment, s: RunState)
    requires UniqueIds(Tasks(s)) && Fresh(Tasks(s), s.log) && InOrder(Tasks(s), s.log)
    ensures var r := RunFrom(env, s).state;
            Fresh(Tasks(r), r.log) && InOrder(Tasks(r), r.log) && SameShape(Tasks(s), Tasks(r))
    decreases Potential(s)
  {
    var next := FindNextTask(Tasks(s));
    if env.stop(s.calls) == Continue && next.Some? {
      var k := next.value;
      var s' := Attempt(env, s, k);
      AttemptLowersPotential(env, s, k);
      AttemptKeepsShape(env, s, k);
      var u := AttemptCases(env, s, k);
      if Settles(s, s', k, u) {
        SettlingKeepsFresh(s, s', k, u);
      } else {
        ReopeningKeepsFresh(s, s', k);
      }
      AttemptKeepsOrder(s, s', k);
      RunKeepsFresh(env, s');
    } else {
      StoppingKeepsFresh(env, s);
    }
  }

  /** Stopping changes no completed task, completes none and logs nothing. */
  ghost predicate SameCompleted(a: seq<Task>, b: seq<Task>) {
    && SameShape(a, b)
    && forall i :: 0 <= i < |a| ==> (a[i].state == Completed <==> b[i].state == Completed)
  }

  lemma StoppingKeepsFresh(env: Environment, s: RunState)
    requires UniqueIds(Tasks(s)) && Fresh(Tasks(s), s.log) && InOrder(Tasks(s), s.log)
    requires env.stop(s.calls) != Continue || FindNextTask(Tasks(s)).None?
    ensures var r := RunFrom(env, s).state;
            Fresh(Tasks(r), r.log) && InOrder(Tasks(r), r.log) && SameShape(Tasks(s), Tasks(r))
  {
    var r := RunFrom(env, s).state;
    assert r.log == s.log && SameCompleted(Tasks(s), Tasks(r));
    SameCompletedKeepsFresh(Tasks(s), Tasks(r), s.log);
  }

  lemma SameCompletedKeepsFresh(a: seq<Task>, b: seq<Task>, log: seq<Event>)
    requires SameCompleted(a, b) && Fresh(a, log) && InOrder(a, log)
    ensures Fresh(b, log) && InOrder(b, log)
  {
    forall id | id in CompletedIds(a)
      ensures id in CompletedIds(b)
    {
      var i := CompletedAt(a, id);
      assert b[i] in b;
    }
    forall i | 0 <= i < |b|
      ensures FreshTask(b[i], CompletedIds(b), log)
    {
      assert FreshTask(a[i], CompletedIds(a), log);
    }
    forall i: nat, t | i < |log| && t in b
      ensures StartsInOrder(b, log, i, t)
    {
      var j :| 0 <= j < |b| && b[j] == t;
      assert a[j] in a;
      assert StartsInOrder(a, log, i, a[j]);
      SameStarts(a, b, log, log, i, j);
    }
  }
}
