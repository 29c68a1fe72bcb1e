/** The repository mission planner (src/autonomy/autonomous-repository-planner.ts): three
    independent analyses, one edit session after them, and a chain of validations. */
module Planner {
  import opened Options
  import opened DecimalStrings
  import opened Digraph
  import opened TaskGraph
  import opened MissionRecord
  import opened RepairController
  import opened MissionAttempt
  import opened MissionRun
  import opened MissionGuarantees
  import opened RunEnds

  const EDIT_ID := "execute-edit-session"

  function NewTask(id: string, objective: string, kind: TaskKind, dependencies: seq<string>,
                   resources: Resources, maxAttempts: int): Task {
    Task(id, objective, kind, dependencies, resources, if |dependencies| == 0 then Ready else Queued,
         Retry(maxAttempts, 0), [], [], [])
  }

  function ValidateId(n: nat): string {
    "validate-" + NatToString(n)
  }

  function AnalysisTasks(): seq<Task> {
    [NewTask("analyze-architecture", "Inspect repository architecture and package boundaries",
             RepositoryAnalysis, [], Resources(["**/*"], []), 1),
     NewTask("resolve-symbol-impact", "Resolve affected symbols, definitions, and references",
             SemanticIndex, [], Resources([".symbolwright/repository-indexes/*"], []), 1),
     NewTask("discover-validation", "Discover repository validation commands and conventions",
             RepositoryAnalysis, [], Resources(["package.json", ".github/workflows/**", "tsconfig*.json"], []), 1)]
  }

  function EditTask(objective: string, affectedFiles: seq<string>): Task {
    NewTask(EDIT_ID, objective, EditSession,
            ["analyze-architecture", "resolve-symbol-impact", "discover-validation"],
            Resources(affectedFiles, affectedFiles), 1)
  }

  function ValidationTask(commands: seq<string>, i: nat): Task
    requires i < |commands|
  {
    NewTask(ValidateId(i + 1), "Run " + commands[i], Validation,
            if i == 0 then [EDIT_ID] else [ValidateId(i)], Resources(["**/*"], []), 2)
  }

  function ValidationTasks(commands: seq<string>): seq<Task> {
    seq(|commands|, i requires 0 <= i < |commands| => ValidationTask(commands, i))
  }

  function PlanTasks(objective: string, affectedFiles: seq<string>, commands: seq<string>): seq<Task> {
    AnalysisTasks() + [EditTask(objective, affectedFiles)] + ValidationTasks(commands)
  }

  function Plan(missionId: string, objective: string, affectedFiles: seq<string>, commands: seq<string>): Graph {
    Graph(missionId, objective, PlanTasks(objective, affectedFiles, commands))
  }

  // ----- the plan is accepted

  ghost predicate DependsOnEarlier(tasks: seq<Task>, i: nat)
    requires i < |tasks|
  {
    forall d :: d in tasks[i].dependencies ==> exists j :: 0 <= j < i && tasks[j].id == d
  }

  lemma EarlierDependenciesAreSound(tasks: seq<Task>)
    requires UniqueIds(tasks)
    requires forall i: nat :: i < |tasks| ==> DependsOnEarlier(tasks, i)
    ensures DependenciesExist(tasks) && Acyclic(Edges(tasks))
  {
    forall t, d | t in tasks && d in t.dependencies
      ensures d in Ids(tasks)
    {
      var i :| 0 <= i < |tasks| && tasks[i] == t;
      assert DependsOnEarlier(tasks, i);
      var j :| 0 <= j < i && tasks[j].id == d;
      assert tasks[j] in tasks;
    }
    var ids := IdList(tasks);
    var rank := Positions(ids);
    forall e | e in Edges(tasks)
      ensures e.0 in rank && e.1 in rank && rank[e.1] < rank[e.0]
    {
      var t, d :| t in tasks && d in t.dependencies && e == (t.id, d);
      var i :| 0 <= i < |tasks| && tasks[i] == t;
      assert DependsOnEarlier(tasks, i);
      var j :| 0 <= j < i && tasks[j].id == d;
      PositionOf(ids, i);
      PositionOf(ids, j);
    }
    forall v
      ensures !OnCycle(Edges(tasks), v)
    {
      if OnCycle(Edges(tasks), v) {
        var p :| Walk(Edges(tasks), v, v, p) && |p| >= 2;
        assert Hop(Edges(tasks), p, 0);
        RankedReachesNoCycle(Edges(tasks), rank, v);
        ReachesRefl(Edges(tasks), v);
        assert false;
      }
    }
  }

  lemma ValidateIdsDiffer(m: nat, n: nat)
    requires ValidateId(m) == ValidateId(n)
    ensures m == n
  {
    assert ValidateId(m)[9..] == NatToString(m);
    assert ValidateId(n)[9..] == NatToString(n);
    PrintInjective(m, n);
  }

  lemma FixedIdsDiffer(objective: string, affectedFiles: seq<string>, commands: seq<string>, i: nat, j: nat)
    requires i < j < 4
    ensures PlanTasks(objective, affectedFiles, commands)[i].id != PlanTasks(objective, affectedFiles, commands)[j].id
  {
    var tasks := PlanTasks(objective, affectedFiles, commands);
    assert |tasks[i].id| != |tasks[j].id| || tasks[i].id[0] != tasks[j].id[0];
  }

  lemma ValidationIdAt(objective: string, affectedFiles: seq<string>, commands: seq<string>, j: nat)
    requires 4 <= j < |PlanTasks(objective, affectedFiles, commands)|
    ensures PlanTasks(objective, affectedFiles, commands)[j].id == ValidateId(j - 3)
  {}

  lemma FixedIdIsNoValidation(objective: string, affectedFiles: seq<string>, commands: seq<string>, i: nat, n: nat)
    requires i < 4
    ensures PlanTasks(objective, affectedFiles, commands)[i].id != ValidateId(n)
  {
    var tasks := PlanTasks(objective, affectedFiles, commands);
    assert ValidateId(n)[0] == 'v' && tasks[i].id[0] != 'v';
  }

  lemma PlanIdsUnique(objective: string, affectedFiles: seq<string>, commands: seq<string>)
    ensures UniqueIds(PlanTasks(objective, affectedFiles, commands))
  {
    var tasks := PlanTasks(objective, affectedFiles, commands);
    forall i, j | 0 <= i < j < |tasks|
      ensures tasks[i].id != tasks[j].id
    {
      if j < 4 {
        FixedIdsDiffer(objective, affectedFiles, commands, i, j);
      } else {
        ValidationIdAt(objective, affectedFiles, commands, j);
        if i < 4 {
          FixedIdIsNoValidation(objective, affectedFiles, commands, i, j - 3);
        } else {
          ValidationIdAt(objective, affectedFiles, commands, i);
          if tasks[i].id == tasks[j].id { ValidateIdsDiffer(i - 3, j - 3); }
        }
      }
    }
  }

  lemma PlanDependsOnEarlier(objective: string, affectedFiles: seq<string>, commands: seq<string>, i: nat)
    requires i < |PlanTasks(objective, affectedFiles, commands)|
    ensures DependsOnEarlier(PlanTasks(objective, affectedFiles, commands), i)
  {
    var tasks := PlanTasks(objective, affectedFiles, commands);
    if i == 3 {
      assert tasks[0].id == "analyze-architecture" && tasks[1].id == "resolve-symbol-impact" && tasks[2].id == "discover-validation";
    } else if i >= 4 {
      assert tasks[i - 1].id in tasks[i].dependencies && |tasks[i].dependencies| == 1;
    }
  }

  /** Every graph the planner builds, for any command list, is accepted by the validator. */
  lemma PlanIsWellFormed(objective: string, affectedFiles: seq<string>, commands: seq<string>)
    ensures WellFormed(PlanTasks(objective, affectedFiles, commands))
  {
    var tasks := PlanTasks(objective, affectedFiles, commands);
    PlanIdsUnique(objective, affectedFiles, commands);
    forall i: nat | i < |tasks| {
      PlanDependsOnEarlier(objective, affectedFiles, commands, i);
    }
    EarlierDependenciesAreSound(tasks);
  }

  /** The plan: three analyses that can start at once, one edit of the affected files after all of them,
      and for each command a validation of its own, after the one before it or after the edit. */
  lemma PlanIsAChain(missionId: string, objective: string, affectedFiles: seq<string>, commands: seq<string>)
    ensures var plan := Plan(missionId, objective, affectedFiles, commands);
            var tasks := plan.tasks;
            && plan.missionId == missionId && plan.objective == objective && |tasks| == |commands| + 4
            && (forall i :: 0 <= i < 3 ==> tasks[i].dependencies == [] && tasks[i].state == Ready && tasks[i].resources.writePaths == [])
            && tasks[3].kind == EditSession && tasks[3].dependencies == [tasks[0].id, tasks[1].id, tasks[2].id]
            && tasks[3].resources == Resources(affectedFiles, affectedFiles) && tasks[3].objective == objective
            && forall i: nat :: i < |commands| ==> ValidatesNext(tasks, 4 + i, commands[i])
  {}

  ghost predicate ValidatesNext(tasks: seq<Task>, k: nat, command: string)
    requires 0 < k < |tasks|
  {
    && tasks[k].kind == Validation && tasks[k].objective == "Run " + command && tasks[k].state == Queued
    && tasks[k].dependencies == [tasks[k - 1].id] && tasks[k].resources.writePaths == []
    && tasks[k].retry == Retry(2, 0)
  }

  // ----- a run of the plan

  function StartState(plan: Graph, repair: RepairRecord): RunState {
    RunState(ReconcileGraph(Execution(plan, {}, false, None)), repair, 0, [])
  }

  lemma PlanStartsFresh(missionId: string, objective: string, affectedFiles: seq<string>, commands: seq<string>, repair: RepairRecord)
    ensures var plan := Plan(missionId, objective, affectedFiles, commands);
            var s := StartState(plan, repair);
            Tasks(s) == plan.tasks && UniqueIds(Tasks(s)) && Fresh(Tasks(s), []) && InOrder(Tasks(s), [])
  {
    var plan := Plan(missionId, objective, affectedFiles, commands);
    PlanIdsUnique(objective, affectedFiles, commands);
    assert forall i :: 0 <= i < |plan.tasks| ==> IsPending(plan.tasks[i].state);
    assert ReconcileGraph(Execution(plan, {}, false, None)).graph.tasks == plan.tasks;
  }

  /** In a fresh, fully completed chain each validation is later than the edit. */
  lemma {:induction false} ChainIsLaterThanEdit(plan: seq<Task>, commands: seq<string>, objective: string,
                                                affectedFiles: seq<string>, tasks: seq<Task>, log: seq<Event>, i: nat)
    requires plan == PlanTasks(objective, affectedFiles, commands) && SameShape(plan, tasks) && i < |commands|
    requires Fresh(tasks, log) && forall t :: t in tasks ==> t.state == Completed
    ensures LastRepair(log) < LastDone(log, ValidateId(i + 1))
    ensures 0 <= LastDone(log, EDIT_ID) < LastDone(log, ValidateId(i + 1))
    ensures i > 0 ==> LastDone(log, ValidateId(i)) < LastDone(log, ValidateId(i + 1))
  {
    var t := tasks[4 + i];
    assert plan[4 + i] == ValidationTask(commands, i);
    assert t in tasks;
    assert FreshTask(t, CompletedIds(tasks), log);
    if i > 0 {
      ChainIsLaterThanEdit(plan, commands, objective, affectedFiles, tasks, log, i - 1);
      assert ValidateId(i) in t.dependencies;
    } else {
      assert EDIT_ID in t.dependencies;
    }
  }

  function RunPlan(env: Environment, missionId: string, objective: string, affectedFiles: seq<string>,
                   commands: seq<string>, repair: RepairRecord): RunResult {
    PlanStartsFresh(missionId, objective, affectedFiles, commands, repair);
    RunFrom(env, StartState(Plan(missionId, objective, affectedFiles, commands), repair))
  }

  /** The n-th validation last passed after every repair, after the edit and after the one before it. */
  ghost predicate LaterThanEditAndRepairs(log: seq<Event>, n: nat) {
    && LastRepair(log) < LastDone(log, ValidateId(n)) && 0 <= LastDone(log, EDIT_ID) < LastDone(log, ValidateId(n))
    && (n > 1 ==> LastDone(log, ValidateId(n - 1)) < LastDone(log, ValidateId(n)))
  }

  /** Validation is never stale: when a run of a planned mission ends with every task completed,
      the last pass of each validation is later than the edit, than every successful repair and than
      that of the validation before it; and in any run, no task was started before its dependencies were completed. */
  lemma ValidationIsNeverStale(env: Environment, missionId: string, objective: string, affectedFiles: seq<string>,
                               commands: seq<string>, repair: RepairRecord)
    ensures var r := RunPlan(env, missionId, objective, affectedFiles, commands, repair).state;
            && InOrder(Tasks(r), r.log)
            && ((forall t :: t in Tasks(r) ==> t.state == Completed) ==>
                  forall n :: 1 <= n <= |commands| ==> LaterThanEditAndRepairs(r.log, n))
  {
    var plan := Plan(missionId, objective, affectedFiles, commands);
    var s := StartState(plan, repair);
    PlanStartsFresh(missionId, objective, affectedFiles, commands, repair);
    RunKeepsFresh(env, s);
    FreshPlanIsLate(objective, affectedFiles, commands, RunFrom(env, s).state);
  }

  lemma FreshPlanIsLate(objective: string, affectedFiles: seq<string>, commands: seq<string>, r: RunState)
    requires SameShape(PlanTasks(objective, affectedFiles, commands), Tasks(r)) && Fresh(Tasks(r), r.log)
    ensures (forall t :: t in Tasks(r) ==> t.state == Completed) ==>
              forall n :: 1 <= n <= |commands| ==> LaterThanEditAndRepairs(r.log, n)
  {
    if forall t :: t in Tasks(r) ==> t.state == Completed {
      forall n | 1 <= n <= |commands|
        ensures LaterThanEditAndRepairs(r.log, n)
      {
        ChainIsLaterThanEdit(PlanTasks(objective, affectedFiles, commands), commands, objective, affectedFiles,
                             Tasks(r), r.log, n - 1);
      }
    }
  }

  /** A planned mission is completed exactly when its run finishes, with every task over, or when a limit
      ends it; a stalled or aborted one can be resumed. */
  lemma PlannedMissionCompletes(env: Environment, missionId: string, objective: string, affectedFiles: seq<string>,
                                commands: seq<string>, repair: RepairRecord)
    ensures var r := RunPlan(env, missionId, objective, affectedFiles, commands, repair);
            && (r.state.record.completed <==> r.exit in {Finished, OutOfTime, OverBudget})
            && (r.state.record.completed ==> AllOver(Tasks(r.state)))
  {
    PlanStartsFresh(missionId, objective, affectedFiles, commands, repair);
    ExitTellsTheTasks(env, StartState(Plan(missionId, objective, affectedFiles, commands), repair));
  }

  /** A planned mission takes a bounded number of task executions: with n commands and R repairs
      left, at most (R+1)*(n+4) + R + (2n + 4). */
  lemma PlannedRunIsBounded(env: Environment, missionId: string, objective: string, affectedFiles: seq<string>,
                            commands: seq<string>, repair: RepairRecord)
    ensures RunPlan(env, missionId, objective, affectedFiles, commands, repair).state.calls
              <= (RepairsLeft(repair) + 1) * (|commands| + 4) + RepairsLeft(repair) + 2 * |commands| + 4
  {
    var plan := Plan(missionId, objective, affectedFiles, commands);
    PlanStartsFresh(missionId, objective, affectedFiles, commands, repair);
    PlanIsWellFormed(objective, affectedFiles, commands);
    PlanAttempts(objective, affectedFiles, commands, |commands|);
    assert plan.tasks[..4 + |commands|] == plan.tasks;
    StartIsBounded(env, plan, repair, |commands|);
  }

  lemma StartIsBounded(env: Environment, plan: Graph, repair: RepairRecord, n: nat)
    requires var s := StartState(plan, repair); Tasks(s) == plan.tasks && UniqueIds(Tasks(s))
    requires forall t :: t in plan.tasks ==> LegalRetry(t)
    requires |plan.tasks| == n + 4 && TotalAttempts(plan.tasks) == 2 * n + 4
    ensures RunFrom(env, StartState(plan, repair)).state.calls
              <= (RepairsLeft(repair) + 1) * (n + 4) + RepairsLeft(repair) + 2 * n + 4
  {
    RunIsBounded(env, StartState(plan, repair));
  }

  lemma {:induction false} PlanAttempts(objective: string, affectedFiles: seq<string>, commands: seq<string>, n: nat)
    requires n <= |commands|
    ensures TotalAttempts(PlanTasks(objective, affectedFiles, commands)[..4 + n]) == 4 + 2 * n
  {
    var tasks := PlanTasks(objective, affectedFiles, commands);
    if n == 0 {
      assert tasks[..4][..3] == tasks[..3] && tasks[..3][..2] == tasks[..2] && tasks[..2][..1] == tasks[..1] && tasks[..1][..0] == [];
      assert TotalAttempts(tasks[..1]) == 1;
      assert TotalAttempts(tasks[..2]) == 2;
      assert TotalAttempts(tasks[..3]) == 3;
    } else {
      PlanAttempts(objective, affectedFiles, commands, n - 1);
      assert tasks[..4 + n][..3 + n] == tasks[..3 + n];
    }
  }
}
