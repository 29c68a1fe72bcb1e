/** The autonomous task graph and its validator (src/autonomy/task-graph.ts).
    Timestamps and finding messages are not part of the records. */
module TaskGraph {
  import opened Digraph

  datatype TaskState =
    | Queued | Blocked | Ready | Running | Validating | Repairing
    | Completed | Failed | Cancelled | Interrupted

  datatype TaskKind =
    | RepositoryAnalysis | SemanticIndex | EditSession | Validation | Repair | Documentation | Checkpoint

  datatype Resources = Resources(readPaths: seq<string>, writePaths: seq<string>)

  datatype Retry = Retry(maxAttempts: int, attempts: int)

  datatype Evidence = Evidence(kind: string, id: string)

  datatype Task = Task(
    id: string,
    objective: string,
    kind: TaskKind,
    dependencies: seq<string>,
    resources: Resources,
    state: TaskState,
    retry: Retry,
    evidence: seq<Evidence>,
    artifacts: seq<string>,
    failureDiagnostics: seq<string>)

  datatype Graph = Graph(missionId: string, objective: string, tasks: seq<Task>)

  datatype FindingCode = DuplicateTaskId | MissingDependency | SelfDependency | DependencyCycle | InvalidRetryPolicy

  datatype Finding = Finding(code: FindingCode, taskId: string)

  datatype ValidationReport = ValidationReport(valid: bool, findings: seq<Finding>)

  // ----- what a well-formed graph is

  ghost predicate UniqueIds(tasks: seq<Task>) {
    forall i, j :: 0 <= i < j < |tasks| ==> tasks[i].id != tasks[j].id
  }

  function IdList(tasks: seq<Task>): seq<string> {
    seq(|tasks|, i requires 0 <= i < |tasks| => tasks[i].id)
  }

  function Ids(tasks: seq<Task>): set<string> {
    set t | t in tasks :: t.id
  }

  predicate LegalRetry(t: Task) {
    t.retry.maxAttempts >= 1 && t.retry.attempts >= 0
  }

  ghost predicate DependenciesExist(tasks: seq<Task>) {
    forall t, d :: t in tasks && d in t.dependencies ==> d in Ids(tasks)
  }

  /** The dependency relation: a task points at each task it waits for. */
  ghost function Edges(tasks: seq<Task>): set<(string, string)> {
    set t, d | t in tasks && d in t.dependencies :: (t.id, d)
  }

  ghost predicate WellFormed(tasks: seq<Task>) {
    && UniqueIds(tasks)
    && (forall t :: t in tasks ==> LegalRetry(t))
    && DependenciesExist(tasks)
    && Acyclic(Edges(tasks))
  }

  // ----- what each finding means

  /** Task number `k` is a reason to report `f` (codes other than a cycle). */
  ghost predicate Raises(tasks: seq<Task>, k: nat, f: Finding)
    requires k < |tasks|
  {
    && f.taskId == tasks[k].id
    && match f.code {
         case DuplicateTaskId => tasks[k].id in Ids(tasks[..k])
         case InvalidRetryPolicy => !LegalRetry(tasks[k])
         case SelfDependency => tasks[k].id in tasks[k].dependencies
         case MissingDependency => exists d :: d in tasks[k].dependencies && d !in Ids(tasks)
         case DependencyCycle => false
       }
  }

  ghost predicate RaisedBefore(tasks: seq<Task>, n: nat, f: Finding)
    requires n <= |tasks|
  {
    exists k: nat :: k < n && Raises(tasks, k, f)
  }

  lemma RaisedStep(tasks: seq<Task>, n: nat, f: Finding)
    requires n < |tasks|
    ensures RaisedBefore(tasks, n + 1, f) <==> RaisedBefore(tasks, n, f) || Raises(tasks, n, f)
  {
    if RaisedBefore(tasks, n + 1, f) {
      var k: nat :| k < n + 1 && Raises(tasks, k, f);
      assert k < n || k == n;
    }
    if Raises(tasks, n, f) {
      assert n < n + 1;
    }
  }

  /** The validator's lookup table: the first task under each id. */
  function ById(tasks: seq<Task>): (m: map<string, Task>)
    ensures m.Keys == Ids(tasks)
  {
    if tasks == [] then map[]
    else
      var last := tasks[|tasks| - 1];
      assert tasks == tasks[..|tasks| - 1] + [last];
      var m := ById(tasks[..|tasks| - 1]);
      if last.id in m then m else m[last.id := last]
  }

  lemma ByIdStep(tasks: seq<Task>, i: nat)
    requires i < |tasks|
    ensures var m := ById(tasks[..i]);
            ById(tasks[..i + 1]) == if tasks[i].id in m then m else m[tasks[i].id := tasks[i]]
  {
    assert tasks[..i + 1][..i] == tasks[..i];
  }

  lemma {:induction false} ByIdFinds(tasks: seq<Task>, id: string)
    requires id in ById(tasks)
    ensures ById(tasks)[id] in tasks && ById(tasks)[id].id == id
  {
    if id in ById(tasks[..|tasks| - 1]) { ByIdFinds(tasks[..|tasks| - 1], id); }
  }

  /** The dependencies the validator follows. */
  ghost function FirstEdges(tasks: seq<Task>): set<(string, string)> {
    set id, d | id in ById(tasks) && d in ById(tasks)[id].dependencies :: (id, d)
  }

  lemma UniqueFirstEdges(tasks: seq<Task>)
    requires UniqueIds(tasks)
    ensures FirstEdges(tasks) == Edges(tasks)
  {
    forall t, d | t in tasks && d in t.dependencies
      ensures (t.id, d) in FirstEdges(tasks)
    {
      ByIdFinds(tasks, t.id);
    }
    forall id, d | id in ById(tasks) && d in ById(tasks)[id].dependencies
      ensures (id, d) in Edges(tasks)
    {
      ByIdFinds(tasks, id);
    }
  }

  ghost predicate RankedAbove(byId: map<string, Task>, rank: map<string, nat>, x: string)
    requires x in byId && x in rank
  {
    forall d :: d in byId[x].dependencies && d in byId ==> d in rank && rank[d] < rank[x]
  }

  /** Every known dependency of a finished task was finished before it. */
  ghost predicate Ranked(byId: map<string, Task>, rank: map<string, nat>) {
    forall x :: x in rank && x in byId ==> RankedAbove(byId, rank, x)
  }

  /** Finishing `x` last keeps the ranking, when its known dependencies are all finished. */
  lemma RankLast(byId: map<string, Task>, rank: map<string, nat>, x: string)
    requires Ranked(byId, rank)
    requires forall y :: y in rank ==> rank[y] < |rank|
    requires x in byId && x !in rank
    requires Finished(byId[x].dependencies, byId, rank.Keys)
    ensures Ranked(byId, rank[x := |rank|])
  {
    forall y | y in rank[x := |rank|] && y in byId
      ensures RankedAbove(byId, rank[x := |rank|], y)
    {
      if y != x { assert RankedAbove(byId, rank, y); }
    }
  }

  /** `b` is `a` followed by cycle findings, each naming a task on a real cycle. */
  ghost predicate OnlyCyclesAdded(edges: set<(string, string)>, a: seq<Finding>, b: seq<Finding>) {
    && a <= b
    && forall k :: |a| <= k < |b| ==> b[k].code == DependencyCycle && OnCycle(edges, b[k].taskId)
  }

  /** The dependencies listed for `x` are edges of the graph. */
  ghost predicate Follows(edges: set<(string, string)>, x: string, dependencies: seq<string>) {
    forall d :: d in dependencies ==> (x, d) in edges
  }

  ghost predicate Finished(ids: seq<string>, byId: map<string, Task>, visited: set<string>) {
    forall d :: d in ids && d in byId ==> d in visited
  }

  /** `path` is a walk of dependencies that an edge to `next` extends. */
  ghost predicate PathTo(edges: set<(string, string)>, path: seq<string>, next: string) {
    path != [] ==>
      && Walk(edges, path[0], path[|path| - 1], path)
      && (path[|path| - 1], next) in edges
  }

  lemma CloseCycle(edges: set<(string, string)>, path: seq<string>, next: string)
    requires PathTo(edges, path, next) && next in path
    ensures OnCycle(edges, next)
  {
    var i :| 0 <= i < |path| && path[i] == next;
    WalkSlice(edges, path, i, |path|);
    WalkAppend(edges, next, path[|path| - 1], path[i..|path|], next);
  }

  lemma ExtendPath(edges: set<(string, string)>, path: seq<string>, next: string)
    requires PathTo(edges, path, next)
    ensures forall d :: (next, d) in edges ==> PathTo(edges, path + [next], d)
  {
    if path != [] {
      WalkAppend(edges, path[0], path[|path| - 1], path, next);
    }
  }

  ghost predicate AllVisited(tasks: seq<Task>, n: nat, visited: set<string>)
    requires n <= |tasks|
  {
    forall k :: 0 <= k < n ==> tasks[k].id in visited
  }

  /** The working state of one validation: the closure variables of the source. */
  class GraphValidator {
    const tasks: seq<Task>
    var findings: seq<Finding>
    var tasksById: map<string, Task>
    var visiting: set<string>
    var visited: set<string>
    ghost var rank: map<string, nat>   // finishing number of each visited task

    constructor (tasks: seq<Task>)
      ensures this.tasks == tasks
      ensures findings == [] && tasksById == map[] && visiting == {} && visited == {} && rank == map[]
    {
      this.tasks := tasks;
      findings := [];
      tasksById := map[];
      visiting := {};
      visited := {};
      rank := map[];
    }

    /** First loop body: duplicate id, retry policy and self dependency of task `i`. */
    method CheckTask(i: nat)
      requires i < |tasks|
      requires tasks[i].id in tasksById <==> tasks[i].id in Ids(tasks[..i])
      modifies this`findings, this`tasksById
      ensures tasksById == if tasks[i].id in old(tasksById) then old(tasksById) else old(tasksById)[tasks[i].id := tasks[i]]
      ensures forall f: Finding :: f in findings <==>
                f in old(findings) || (f.code != MissingDependency && Raises(tasks, i, f))
    {
      var task := tasks[i];
      if task.id in tasksById {
        findings := findings + [Finding(DuplicateTaskId, task.id)];
      } else {
        tasksById := tasksById[task.id := task];
      }
      if task.retry.maxAttempts < 1 || task.retry.attempts < 0 {
        findings := findings + [Finding(InvalidRetryPolicy, task.id)];
      }
      ghost var before := findings;
      ghost var table := tasksById;
      for j := 0 to |task.dependencies|
        invariant tasksById == table
        invariant forall f: Finding :: f in findings <==>
                    f in before || (f == Finding(SelfDependency, task.id) && task.id in task.dependencies[..j])
      {
        if task.dependencies[j] == task.id {
          findings := findings + [Finding(SelfDependency, task.id)];
        }
      }
    }

    /** Second loop body: dependencies of task `i` that name no task. */
    method CheckDependencies(i: nat)
      requires i < |tasks|
      requires tasksById == ById(tasks)
      modifies this`findings
      ensures forall f: Finding :: f in findings <==>
                f in old(findings) || (f.code == MissingDependency && Raises(tasks, i, f))
    {
      var task := tasks[i];
      for j := 0 to |task.dependencies|
        invariant forall f: Finding :: f in findings <==>
                    || f in old(findings)
                    || (f == Finding(MissingDependency, task.id)
                        && exists d :: d in task.dependencies[..j] && d !in Ids(tasks))
      {
        assert task.dependencies[..j + 1] == task.dependencies[..j] + [task.dependencies[j]];
        if task.dependencies[j] !in tasksById {
          findings := findings + [Finding(MissingDependency, task.id)];
        }
      }
    }

    /** The visiting set is exactly the current path, a walk that may be extended by `next`. */
    ghost predicate OnPath(edges: set<(string, string)>, path: seq<string>, next: string)
      reads this
    {
      && visiting == (set x | x in path)
      && PathTo(edges, path, next)
    }

    ghost predicate Consistent()
      reads this
    {
      && visited == rank.Keys
      && visited <= tasksById.Keys
      && visiting <= tasksById.Keys
      && visiting !! visited
      && (forall x :: x in rank ==> rank[x] < |rank|)
    }

    /** Depth-first visit. `path` is the chain of calls in progress, which the visiting set mirrors;
        the ids outside that set bound the recursion even on cyclic input. */
    method Visit(taskId: string, ghost path: seq<string>, ghost edges: set<(string, string)>)
      requires Consistent() && OnPath(edges, path, taskId)
      requires forall x :: x in tasksById ==> Follows(edges, x, tasksById[x].dependencies)
      modifies this`findings, this`visiting, this`visited, this`rank
      ensures Consistent() && visiting == old(visiting)
      ensures old(visited) <= visited
      ensures OnlyCyclesAdded(edges, old(findings), findings)
      ensures |findings| == |old(findings)| && old(Ranked(tasksById, rank)) ==> Ranked(tasksById, rank)
      ensures |findings| == |old(findings)| && taskId in tasksById ==> taskId in visited
      decreases tasksById.Keys - visiting, 1
    {
      if taskId in visiting {
        CloseCycle(edges, path, taskId);
        findings := findings + [Finding(DependencyCycle, taskId)];
        return;
      }
      if taskId in visited { return; }
      if taskId !in tasksById { return; }
      Explore(taskId, path, edges);
    }

    /** The visit of a known task that is neither on the path nor finished. */
    method Explore(taskId: string, ghost path: seq<string>, ghost edges: set<(string, string)>)
      requires Consistent() && OnPath(edges, path, taskId)
      requires taskId in tasksById && taskId !in visiting && taskId !in visited
      requires forall x :: x in tasksById ==> Follows(edges, x, tasksById[x].dependencies)
      modifies this`findings, this`visiting, this`visited, this`rank
      ensures Consistent() && visiting == old(visiting)
      ensures old(visited) <= visited && taskId in visited
      ensures OnlyCyclesAdded(edges, old(findings), findings)
      ensures |findings| == |old(findings)| && old(Ranked(tasksById, rank)) ==> Ranked(tasksById, rank)
      decreases tasksById.Keys - visiting, 0
    {
      visiting := visiting + {taskId};
      ExtendPath(edges, path, taskId);
      VisitAll(tasksById[taskId].dependencies, path + [taskId], edges);
      visiting := visiting - {taskId};
      Finish(taskId, |findings| == |old(findings)| && old(Ranked(tasksById, rank)));
    }

    /** The loop of the visit, over the dependencies of the last task on the path. */
    method VisitAll(dependencies: seq<string>, ghost path: seq<string>, ghost edges: set<(string, string)>)
      requires Consistent() && visiting == (set x | x in path)
      requires forall d :: d in dependencies ==> PathTo(edges, path, d)
      requires forall x :: x in tasksById ==> Follows(edges, x, tasksById[x].dependencies)
      modifies this`findings, this`visiting, this`visited, this`rank
      ensures Consistent() && visiting == old(visiting)
      ensures old(visited) <= visited
      ensures OnlyCyclesAdded(edges, old(findings), findings)
      ensures |findings| == |old(findings)| && old(Ranked(tasksById, rank)) ==> Ranked(tasksById, rank)
      ensures |findings| == |old(findings)| ==> Finished(dependencies, tasksById, visited)
      decreases tasksById.Keys - visiting, 2
    {
      for j := 0 to |dependencies|
        invariant Consistent() && visiting == old(visiting)
        invariant old(visited) <= visited
        invariant OnlyCyclesAdded(edges, old(findings), findings)
        invariant |findings| == |old(findings)| && old(Ranked(tasksById, rank)) ==> Ranked(tasksById, rank)
        invariant |findings| == |old(findings)| ==> Finished(dependencies[..j], tasksById, visited)
      {
        assert dependencies[..j + 1] == dependencies[..j] + [dependencies[j]];
        ghost var before := findings;
        Visit(dependencies[j], path, edges);
      }
      assert dependencies[..|dependencies|] == dependencies;
    }

    method Finish(taskId: string, ghost clean: bool)
      requires Consistent() && taskId in tasksById && taskId !in visiting && taskId !in visited
      requires clean ==> Ranked(tasksById, rank) && Finished(tasksById[taskId].dependencies, tasksById, visited)
      modifies this`visited, this`rank
      ensures Consistent() && visited == old(visited) + {taskId}
      ensures clean ==> Ranked(tasksById, rank)
    {
      visited := visited + {taskId};
      if clean {
        RankLast(tasksById, rank, taskId);
      }
      rank := rank[taskId := |rank|];
    }

    method LocalPass()
      requires findings == [] && tasksById == map[]
      modifies this`findings, this`tasksById
      ensures tasksById == ById(tasks)
      ensures forall f: Finding :: f in findings <==> f.code != MissingDependency && RaisedBefore(tasks, |tasks|, f)
    {
      for i := 0 to |tasks|
        invariant tasksById == ById(tasks[..i])
        invariant forall f: Finding :: f in findings <==> f.code != MissingDependency && RaisedBefore(tasks, i, f)
      {
        ByIdStep(tasks, i);
        CheckTask(i);
        forall f: Finding { RaisedStep(tasks, i, f); }
      }
      assert tasks[..|tasks|] == tasks;
    }

    method DependencyPass()
      requires tasksById == ById(tasks)
      modifies this`findings
      ensures forall f: Finding :: f in findings <==>
                f in old(findings) || (f.code == MissingDependency && RaisedBefore(tasks, |tasks|, f))
    {
      for i := 0 to |tasks|
        invariant forall f: Finding :: f in findings <==>
                    f in old(findings) || (f.code == MissingDependency && RaisedBefore(tasks, i, f))
      {
        CheckDependencies(i);
        forall f: Finding { RaisedStep(tasks, i, f); }
      }
    }

    method CyclePass(ghost edges: set<(string, string)>)
      requires visiting == {} && visited == {} && rank == map[]
      requires forall x :: x in tasksById ==> Follows(edges, x, tasksById[x].dependencies)
      requires forall k :: 0 <= k < |tasks| ==> tasks[k].id in tasksById
      modifies this`findings, this`visiting, this`visited, this`rank
      ensures Consistent()
      ensures OnlyCyclesAdded(edges, old(findings), findings)
      ensures |findings| == |old(findings)| ==> Ranked(tasksById, rank) && AllVisited(tasks, |tasks|, visited)
    {
      var ids := seq(|tasks|, i requires 0 <= i < |tasks| => tasks[i].id);
      VisitAll(ids, [], edges);
      if |findings| == |old(findings)| {
        forall k | 0 <= k < |tasks|
          ensures tasks[k].id in visited
        {
          assert ids[k] in ids;
        }
      }
    }

    /** Runs the three passes over every task. */
    method Validate() returns (report: ValidationReport)
      requires findings == [] && tasksById == map[] && visiting == {} && visited == {} && rank == map[]
      modifies this
      ensures report.valid == (report.findings == [])
      ensures forall f: Finding :: f.code != DependencyCycle ==>
                (f in report.findings <==> RaisedBefore(tasks, |tasks|, f))
      ensures forall f: Finding :: f.code == DependencyCycle && f in report.findings ==> OnCycle(FirstEdges(tasks), f.taskId)
      ensures (forall f: Finding :: f in report.findings ==> f.code != DependencyCycle) ==> Acyclic(FirstEdges(tasks))
    {
      LocalPass();
      DependencyPass();
      ghost var base := findings;
      CyclePass(FirstEdges(tasks));
      report := ValidationReport(|findings| == 0, findings);
      assert findings == base + findings[|base|..];
      if |findings| > |base| {
        assert findings[|base|] in findings;
      } else {
        RankedIsAcyclic();
      }
    }

    lemma RankedIsAcyclic()
      requires tasksById == ById(tasks) && Consistent() && Ranked(tasksById, rank)
      requires AllVisited(tasks, |tasks|, visited)
      ensures Acyclic(FirstEdges(tasks))
    {
      var edges := FirstEdges(tasks);
      forall v
        ensures !OnCycle(edges, v)
      {
        if OnCycle(edges, v) {
          var p :| Walk(edges, v, v, p) && |p| >= 2;
          var inner := set e | e in edges && e.1 in tasksById;
          CycleStaysInside(edges, tasksById.Keys, p);
          forall k | 0 <= k < |p| - 1
            ensures Hop(inner, p, k)
          {
            assert Hop(edges, p, k);
          }
          forall e | e in inner && e.0 in rank
            ensures e.1 in rank && rank[e.1] < rank[e.0]
          {
            assert RankedAbove(tasksById, rank, e.0);
          }
          assert v in rank;
          RankedReachesNoCycle(inner, rank, v);
          assert Walk(inner, v, v, p);
          ReachesRefl(inner, v);
          assert false;
        }
      }
    }

    /** Every node of a closed walk is the source of an edge, hence a known id. */
    lemma CycleStaysInside(edges: set<(string, string)>, ids: set<string>, p: seq<string>)
      requires tasksById == ById(tasks) && edges == FirstEdges(tasks) && ids == tasksById.Keys
      requires IsWalk(edges, p) && |p| >= 2 && p[0] == p[|p| - 1]
      ensures forall k :: 0 <= k < |p| ==> p[k] in ids
    {
      forall k | 0 <= k < |p|
        ensures p[k] in ids
      {
        var i := if k == |p| - 1 then 0 else k;
        assert Hop(edges, p, i);
      }
    }
  }

  /** A graph is accepted exactly when it is well formed; every reported problem is real and
      no problem of any kind goes unreported. */
  method ValidateAutonomousTaskGraph(graph: Graph) returns (report: ValidationReport)
    ensures report.valid == (report.findings == [])
    ensures report.valid <==> WellFormed(graph.tasks)
    ensures forall f: Finding :: f.code != DependencyCycle ==>
              (f in report.findings <==> RaisedBefore(graph.tasks, |graph.tasks|, f))
    ensures forall f: Finding :: f.code == DependencyCycle && f in report.findings ==> OnCycle(FirstEdges(graph.tasks), f.taskId)
    ensures (forall f: Finding :: f in report.findings ==> f.code != DependencyCycle) <==> Acyclic(FirstEdges(graph.tasks))
  {
    var v := new GraphValidator(graph.tasks);
    report := v.Validate();
    if report.valid {
      AcceptedIsWellFormed(graph.tasks);
    } else {
      assert report.findings[0] in report.findings;
      RejectedIsMalformed(graph.tasks, report.findings[0]);
    }
  }

  lemma AcceptedIsWellFormed(tasks: seq<Task>)
    requires forall f, k: nat :: k < |tasks| ==> !Raises(tasks, k, f)
    requires Acyclic(FirstEdges(tasks))
    ensures WellFormed(tasks)
  {
    forall i, j | 0 <= i < j < |tasks|
      ensures tasks[i].id != tasks[j].id
    {
      assert !Raises(tasks, j, Finding(DuplicateTaskId, tasks[j].id));
    }
    forall t | t in tasks
      ensures LegalRetry(t) && forall d :: d in t.dependencies ==> d in Ids(tasks)
    {
      var k :| 0 <= k < |tasks| && tasks[k] == t;
      assert !Raises(tasks, k, Finding(InvalidRetryPolicy, t.id));
      assert !Raises(tasks, k, Finding(MissingDependency, t.id));
    }
    UniqueFirstEdges(tasks);
  }

  lemma RejectedIsMalformed(tasks: seq<Task>, f: Finding)
    requires (f.code == DependencyCycle && OnCycle(FirstEdges(tasks), f.taskId))
          || RaisedBefore(tasks, |tasks|, f)
    ensures !WellFormed(tasks)
  {
    if f.code == DependencyCycle {
      if UniqueIds(tasks) {
        UniqueFirstEdges(tasks);
        assert OnCycle(Edges(tasks), f.taskId);
      }
    } else {
      var k: nat :| k < |tasks| && Raises(tasks, k, f);
      assert tasks[k] in tasks;
      match f.code {
        case DuplicateTaskId =>
          var t :| t in tasks[..k] && t.id == tasks[k].id;
          var j :| 0 <= j < k && tasks[..k][j] == t;
          assert tasks[j].id == tasks[k].id;
        case SelfDependency =>
          var id := tasks[k].id;
          assert (id, id) in Edges(tasks);
          assert Hop(Edges(tasks), [id, id], 0);
          assert Walk(Edges(tasks), id, id, [id, id]) && |[id, id]| >= 2;
          assert OnCycle(Edges(tasks), id);
        case MissingDependency =>
          assert !DependenciesExist(tasks);
        case InvalidRetryPolicy =>
          assert !LegalRetry(tasks[k]);
      }
    }
  }
}
