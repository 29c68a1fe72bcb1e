/** The conflict-free batch scheduler (src/autonomy/parallel-task-scheduler.ts). */
module Scheduler {
  import opened TaskGraph
  import opened MissionRecord

  // ----- resources

  function ForwardSlashes(s: string): (r: string)
    ensures |r| == |s|
    ensures forall i :: 0 <= i < |s| ==> r[i] == if s[i] == '\\' then '/' else s[i]
  {
    seq(|s|, i requires 0 <= i < |s| => if s[i] == '\\' then '/' else s[i])
  }

  /** `normalizeResource`: forward slashes, one leading `./` and one trailing `/` removed. */
  function NormalizeResource(resource: string): string {
    var a := ForwardSlashes(resource);
    var b := if "./" <= a then a[2..] else a;
    if b != "" && b[|b| - 1] == '/' then b[..|b| - 1] else b
  }

  predicate Dotted(s: string) {
    |s| >= 2 && s[0] == '.' && s[1] == '/'
  }

  predicate Slashed(s: string) {
    |s| >= 1 && s[|s| - 1] == '/'
  }

  /** What is removed is a `./` in front, when the resource begins so, and a slash at the end, when what
      remains ends so; backslashes count as slashes. */
  lemma NormalizeIsExact(resource: string)
    ensures var path := ForwardSlashes(resource);
            var rest := if Dotted(path) then path[2..] else path;
            NormalizeResource(resource) == if Slashed(rest) then rest[..|rest| - 1] else rest
  {
    DottedPrefix(ForwardSlashes(resource));
  }

  lemma DottedPrefix(s: string)
    ensures "./" <= s <==> Dotted(s)
  {
    if Dotted(s) { assert s[..2] == "./"; }
  }

  /** A resource covers its own path and every path below it. */
  predicate Covers(resource: string, path: string) {
    path == resource || resource + "/" <= path
  }

  predicate Overlap(a: string, b: string) {
    a == b || b + "/" <= a || a + "/" <= b
  }

  /** Two resources overlap exactly when some path is covered by both. */
  lemma OverlapIffSharedPath(a: string, b: string)
    ensures Overlap(a, b) <==> exists p :: Covers(a, p) && Covers(b, p)
  {
    if Overlap(a, b) {
      var p := if b + "/" <= a then a else b;
      assert Covers(a, p) && Covers(b, p);
    }
    if p :| Covers(a, p) && Covers(b, p) {
      SharedPathOverlaps(a, b, p);
    }
  }

  lemma SharedPathOverlaps(a: string, b: string, p: string)
    requires Covers(a, p) && Covers(b, p)
    ensures Overlap(a, b)
  {
    if a + "/" <= p && b + "/" <= p {
      assert (a + "/")[..|a|] == a && (b + "/")[..|b|] == b;
      assert p[..|a|] == a && p[..|b|] == b && p[|a|] == '/' && p[|b|] == '/';
      if |a| < |b| {
        assert b[..|a|] == a && b[|a|] == '/';
        assert b[..|a| + 1] == a + "/";
      } else if |b| < |a| {
        assert a[..|b|] == b && a[|b|] == '/';
        assert a[..|b| + 1] == b + "/";
      }
    }
  }

  function Normalized(resources: seq<string>): set<string> {
    set r | r in resources :: NormalizeResource(r)
  }

  /** `intersects`: two nested searches. */
  method Intersects(left: set<string>, right: set<string>) returns (found: bool)
    ensures found <==> exists a, b :: a in left && b in right && Overlap(a, b)
  {
    var rest := left;
    while rest != {}
      invariant rest <= left
      invariant forall a, b :: a in left - rest && b in right ==> !Overlap(a, b)
      decreases |rest|
    {
      var a :| a in rest;
      var others := right;
      while others != {}
        invariant others <= right
        invariant forall b :: b in right - others ==> !Overlap(a, b)
        decreases |others|
      {
        var b :| b in others;
        if Overlap(a, b) { return true; }
        others := others - {b};
      }
      rest := rest - {a};
    }
    found := false;
  }

  ghost function Covered(resources: set<string>): iset<string> {
    iset p, r | r in resources && Covers(r, p) :: p
  }

  ghost function WritesOf(t: Task): iset<string> {
    Covered(Normalized(t.resources.writePaths))
  }

  ghost function ReadsOf(t: Task): iset<string> {
    Covered(Normalized(t.resources.readPaths))
  }

  /** Some path is covered by one task's writes and by the other's reads or writes. */
  ghost predicate Interfere(left: Task, right: Task) {
    || !(WritesOf(left) !! WritesOf(right))
    || !(WritesOf(left) !! ReadsOf(right))
    || !(WritesOf(right) !! ReadsOf(left))
  }

  lemma CoveredMeet(left: set<string>, right: set<string>)
    ensures (exists a, b :: a in left && b in right && Overlap(a, b)) <==> !(Covered(left) !! Covered(right))
  {
    if a, b :| a in left && b in right && Overlap(a, b) {
      OverlapIffSharedPath(a, b);
      var p :| Covers(a, p) && Covers(b, p);
      assert p in Covered(left) && p in Covered(right);
    }
    if !(Covered(left) !! Covered(right)) {
      var p :| p in Covered(left) && p in Covered(right);
      var a :| a in left && Covers(a, p);
      var b :| b in right && Covers(b, p);
      OverlapIffSharedPath(a, b);
    }
  }

  method TasksConflict(left: Task, right: Task) returns (conflict: bool)
    ensures conflict <==> Interfere(left, right)
  {
    var leftWrites, rightWrites := Normalized(left.resources.writePaths), Normalized(right.resources.writePaths);
    var leftReads, rightReads := Normalized(left.resources.readPaths), Normalized(right.resources.readPaths);
    CoveredMeet(leftWrites, rightWrites);
    CoveredMeet(leftWrites, rightReads);
    CoveredMeet(rightWrites, leftReads);
    conflict := Intersects(leftWrites, rightWrites);
    if !conflict { conflict := Intersects(leftWrites, rightReads); }
    if !conflict { conflict := Intersects(rightWrites, leftReads); }
  }

  // ----- the batch

  predicate Schedulable(t: Task, completed: set<string>) {
    Runnable(t, completed) && t.retry.attempts < t.retry.maxAttempts
  }

  function Candidates(tasks: seq<Task>, completed: set<string>): (r: seq<Task>)
    ensures forall t :: t in r <==> t in tasks && Schedulable(t, completed)
  {
    if tasks == [] then []
    else
      var front := Candidates(tasks[..|tasks| - 1], completed);
      var last := tasks[|tasks| - 1];
      assert tasks == tasks[..|tasks| - 1] + [last];
      if Schedulable(last, completed) then front + [last] else front
  }

  /** The task can start and has a try left. */
  ghost predicate MayRun(tasks: seq<Task>, t: Task) {
    CanStart(tasks, t) && t.retry.attempts < t.retry.maxAttempts
  }

  /** The candidates stand at these positions, in the order of the graph. */
  ghost predicate StandAt(tasks: seq<Task>, completed: set<string>, candidates: seq<Task>, at: seq<nat>) {
    && |at| == |candidates| && (forall i, j :: 0 <= i < j < |at| ==> at[i] < at[j])
    && (forall j :: 0 <= j < |at| ==> at[j] < |tasks| && tasks[at[j]] == candidates[j] && Schedulable(tasks[at[j]], completed))
    && (forall i: nat :: i < |tasks| && Schedulable(tasks[i], completed) ==> i in at)
  }

  lemma {:induction false} CandidatesStandAt(tasks: seq<Task>, completed: set<string>) returns (at: seq<nat>)
    ensures StandAt(tasks, completed, Candidates(tasks, completed), at)
  {
    at := [];
    if tasks != [] {
      var n := |tasks| - 1;
      at := CandidatesStandAt(tasks[..n], completed);
      assert tasks == tasks[..n] + [tasks[n]];
      StandAtNext(tasks[..n], tasks[n], completed, Candidates(tasks[..n], completed), at);
      if Schedulable(tasks[n], completed) { at := at + [n]; }
    }
  }

  lemma StandAtNext(tasks: seq<Task>, t: Task, completed: set<string>, candidates: seq<Task>, at: seq<nat>)
    requires StandAt(tasks, completed, candidates, at)
    ensures if Schedulable(t, completed) then StandAt(tasks + [t], completed, candidates + [t], at + [|tasks|])
            else StandAt(tasks + [t], completed, candidates, at)
  {
    var n := |tasks|;
    if Schedulable(t, completed) {
      assert (at + [n])[|at|] == n;
    }
  }

  /** The candidates are exactly the tasks that may run, in the order of the graph. */
  lemma CandidatesMayRun(tasks: seq<Task>) returns (at: seq<nat>)
    ensures var candidates := Candidates(tasks, CompletedIds(tasks));
            && |at| == |candidates| && (forall i, j :: 0 <= i < j < |at| ==> at[i] < at[j])
            && (forall j :: 0 <= j < |at| ==> at[j] < |tasks| && tasks[at[j]] == candidates[j])
            && forall i: nat :: i < |tasks| ==> (i in at <==> MayRun(tasks, tasks[i]))
  {
    at := CandidatesStandAt(tasks, CompletedIds(tasks));
    forall i: nat | i < |tasks|
      ensures i in at <==> MayRun(tasks, tasks[i])
    {
      RunnableCanStart(tasks, tasks[i]);
    }
  }

  datatype Batch = Batch(selected: seq<Task>, deferred: seq<Task>)

  datatype Schedule = InvalidLimit | InvalidGraph(findings: seq<Finding>) | Scheduled(batch: Batch)

  ghost predicate ConflictFree(tasks: seq<Task>) {
    forall i, j :: 0 <= i < j < |tasks| ==> !Interfere(tasks[i], tasks[j])
  }

  /** Why a candidate was put off: the batch was full, or it interferes with a selected task. */
  ghost predicate Deferrable(t: Task, selected: seq<Task>, limit: int) {
    |selected| == limit || exists u :: u in selected && Interfere(u, t)
  }

  /** The batch chosen front to back: a candidate is taken when there is room and it interferes
      with nothing taken before it. */
  ghost function Greedy(candidates: seq<Task>, limit: nat): Batch {
    if candidates == [] then Batch([], [])
    else
      var front := Greedy(candidates[..|candidates| - 1], limit);
      var last := candidates[|candidates| - 1];
      if |front.selected| < limit && forall u :: u in front.selected ==> !Interfere(u, last)
      then front.(selected := front.selected + [last])
      else front.(deferred := front.deferred + [last])
  }

  /** `seq` merges `a` and `b`, keeping the order of each. */
  ghost predicate Merges(s: seq<Task>, a: seq<Task>, b: seq<Task>) {
    if s == [] then a == [] && b == []
    else
      var last := s[|s| - 1];
      || (a != [] && a[|a| - 1] == last && Merges(s[..|s| - 1], a[..|a| - 1], b))
      || (b != [] && b[|b| - 1] == last && Merges(s[..|s| - 1], a, b[..|b| - 1]))
  }

  /** The selected tasks are candidates within the limit that do not interfere; every candidate is
      selected or deferred, in order; and nothing is deferred without a reason. */
  method SelectRunnableTaskBatch(graph: Graph, concurrencyLimit: int) returns (result: Schedule)
    ensures result.InvalidLimit? <==> concurrencyLimit < 1
    ensures result.InvalidGraph? <==> concurrencyLimit >= 1 && !WellFormed(graph.tasks)
    ensures result.Scheduled? ==>
              var candidates := Candidates(graph.tasks, CompletedIds(graph.tasks));
              var batch := result.batch;
              && batch == Greedy(candidates, concurrencyLimit)
              && |batch.selected| <= concurrencyLimit
              && ConflictFree(batch.selected)
              && Merges(candidates, batch.selected, batch.deferred)
              && (forall t :: t in batch.selected ==> t in graph.tasks && Schedulable(t, CompletedIds(graph.tasks)))
              && (forall t :: t in batch.deferred ==> Deferrable(t, batch.selected, concurrencyLimit))
              && (candidates != [] ==> batch.selected != [])
  {
    if concurrencyLimit < 1 { return InvalidLimit; }
    var validation := ValidateAutonomousTaskGraph(graph);
    if !validation.valid { return InvalidGraph(validation.findings); }

    var candidates := Candidates(graph.tasks, CompletedIds(graph.tasks));
    var selected: seq<Task>, deferred: seq<Task> := [], [];
    for i := 0 to |candidates|
      invariant Batch(selected, deferred) == Greedy(candidates[..i], concurrencyLimit)
    {
      assert candidates[..i + 1][..i] == candidates[..i];
      var blocked := |selected| >= concurrencyLimit;
      if !blocked {
        blocked := ConflictsWithAny(selected, candidates[i]);
      }
      if blocked {
        deferred := deferred + [candidates[i]];
      } else {
        selected := selected + [candidates[i]];
      }
    }
    assert candidates[..|candidates|] == candidates;
    GreedyIsSound(candidates, concurrencyLimit);
    result := Scheduled(Batch(selected, deferred));
  }

  lemma GreedyIsSound(candidates: seq<Task>, limit: nat)
    requires limit >= 1
    ensures var batch := Greedy(candidates, limit);
            && |batch.selected| <= limit
            && ConflictFree(batch.selected)
            && Merges(candidates, batch.selected, batch.deferred)
            && (forall t :: t in batch.selected ==> t in candidates)
            && (forall t :: t in batch.deferred ==> Deferrable(t, batch.selected, limit))
            && (candidates != [] ==> batch.selected != [])
  {
    GreedyPartitions(candidates, limit);
    GreedySelects(candidates, limit);
    GreedyDefers(candidates, limit);
  }

  lemma {:induction false} GreedyPartitions(candidates: seq<Task>, limit: nat)
    ensures var batch := Greedy(candidates, limit);
            Merges(candidates, batch.selected, batch.deferred)
  {
    if candidates != [] {
      var before := candidates[..|candidates| - 1];
      GreedyPartitions(before, limit);
      var front, batch := Greedy(before, limit), Greedy(candidates, limit);
      if batch.deferred == front.deferred {
        assert batch.selected[..|front.selected|] == front.selected;
      } else {
        assert batch.deferred[..|front.deferred|] == front.deferred;
      }
    }
  }

  lemma {:induction false} GreedySelects(candidates: seq<Task>, limit: nat)
    requires limit >= 1
    ensures var selected := Greedy(candidates, limit).selected;
            && |selected| <= limit
            && ConflictFree(selected)
            && (forall t :: t in selected ==> t in candidates)
            && (candidates != [] ==> selected != [])
  {
    if candidates != [] {
      GreedySelects(candidates[..|candidates| - 1], limit);
    }
  }

  lemma {:induction false} GreedyDefers(candidates: seq<Task>, limit: nat)
    ensures var batch := Greedy(candidates, limit);
            |batch.selected| <= limit && forall t :: t in batch.deferred ==> Deferrable(t, batch.selected, limit)
  {
    if candidates != [] {
      var before, last := candidates[..|candidates| - 1], candidates[|candidates| - 1];
      GreedyDefers(before, limit);
      var front := Greedy(before, limit);
      if Greedy(candidates, limit).deferred == front.deferred {
        StillDeferrable(front.selected, last, front.deferred, limit);
      }
    }
  }

  method ConflictsWithAny(selected: seq<Task>, candidate: Task) returns (found: bool)
    ensures found <==> exists u :: u in selected && Interfere(u, candidate)
  {
    for i := 0 to |selected|
      invariant forall k :: 0 <= k < i ==> !Interfere(selected[k], candidate)
    {
      var conflict := TasksConflict(selected[i], candidate);
      if conflict { return true; }
    }
    found := false;
  }

  lemma StillDeferrable(selected: seq<Task>, candidate: Task, deferred: seq<Task>, limit: int)
    requires |selected| < limit
    requires forall t :: t in deferred ==> Deferrable(t, selected, limit)
    ensures forall t :: t in deferred ==> Deferrable(t, selected + [candidate], limit)
  {
    forall t | t in deferred
      ensures Deferrable(t, selected + [candidate], limit)
    {
      var u :| u in selected && Interfere(u, t);
      assert u in selected + [candidate];
    }
  }

  // ----- a batch is serialisable

  type Content = int

  /** The files of the repository: a path that is absent holds no file. */
  type Files = map<string, Content>

  /** Both hold the same file, or none, at the path. */
  ghost predicate SameAt(a: Files, b: Files, p: string) {
    (p in a <==> p in b) && (p in a ==> a[p] == b[p])
  }

  /** The effect changes covered writes only, and what it leaves there depends on nothing but the
      task's covered reads and writes. */
  ghost predicate Respects(effect: Files -> Files, t: Task) {
    && (forall f: Files, p :: p !in WritesOf(t) ==> SameAt(effect(f), f, p))
    && (forall f: Files, g: Files, p ::
          p in WritesOf(t) && AgreeOn(f, g, ReadsOf(t) + WritesOf(t)) ==> SameAt(effect(f), effect(g), p))
  }

  ghost predicate AgreeOn(f: Files, g: Files, paths: iset<string>) {
    forall p :: p in paths ==> SameAt(f, g, p)
  }

  /** Two tasks that do not interfere commute. */
  lemma NonInterferingCommute(a: Task, b: Task, ea: Files -> Files, eb: Files -> Files, f: Files)
    requires Respects(ea, a) && Respects(eb, b) && !Interfere(a, b)
    ensures ea(eb(f)) == eb(ea(f))
  {
    forall p
      ensures SameAt(ea(eb(f)), eb(ea(f)), p)
    {
      if p in WritesOf(a) {
        UntouchedInputs(a, b, eb, f);
        assert SameAt(ea(eb(f)), ea(f), p);
      } else if p in WritesOf(b) {
        UntouchedInputs(b, a, ea, f);
        assert SameAt(eb(ea(f)), eb(f), p);
      } else {
        assert SameAt(ea(eb(f)), eb(f), p) && SameAt(eb(f), f, p) && SameAt(eb(ea(f)), ea(f), p) && SameAt(ea(f), f, p);
      }
    }
    assert forall p :: SameAt(ea(eb(f)), eb(ea(f)), p);
    SameEverywhere(ea(eb(f)), eb(ea(f)));
  }

  lemma UntouchedInputs(a: Task, b: Task, eb: Files -> Files, f: Files)
    requires Respects(eb, b) && !Interfere(a, b)
    ensures AgreeOn(eb(f), f, ReadsOf(a) + WritesOf(a))
  {
    forall p | p in ReadsOf(a) + WritesOf(a)
      ensures SameAt(eb(f), f, p)
    {
      assert p !in WritesOf(b);
    }
  }

  lemma SameEverywhere(a: Files, b: Files)
    requires forall p :: SameAt(a, b, p)
    ensures a == b
  {
    forall p | p in a
      ensures p in b && a[p] == b[p]
    {
      assert SameAt(a, b, p);
    }
    forall p | p in b
      ensures p in a
    {
      assert SameAt(a, b, p);
    }
  }

  /** Runs tasks one after the other, the first one first. */
  function RunAll(effect: Task -> (Files -> Files), tasks: seq<Task>, f: Files): Files {
    if tasks == [] then f else effect(tasks[|tasks| - 1])(RunAll(effect, tasks[..|tasks| - 1], f))
  }

  ghost predicate Commute(effect: Task -> (Files -> Files), a: Task, b: Task) {
    forall f: Files :: effect(a)(effect(b)(f)) == effect(b)(effect(a)(f))
  }

  ghost predicate PairwiseCommuting(effect: Task -> (Files -> Files), tasks: seq<Task>) {
    forall a, b {:trigger Commute(effect, a, b)} :: a in tasks && b in tasks && a != b ==> Commute(effect, a, b)
  }

  lemma RunAllThen(effect: Task -> (Files -> Files), tasks: seq<Task>, t: Task, f: Files)
    ensures RunAll(effect, tasks + [t], f) == effect(t)(RunAll(effect, tasks, f))
  {
    assert (tasks + [t])[..|tasks|] == tasks;
  }

  lemma CommuteAt(effect: Task -> (Files -> Files), tasks: seq<Task>, a: Task, b: Task, f: Files)
    requires PairwiseCommuting(effect, tasks) && a in tasks && b in tasks
    ensures effect(a)(effect(b)(f)) == effect(b)(effect(a)(f))
  {
    if a != b { assert Commute(effect, a, b); }
  }

  lemma RemovedFromFront<T>(xs: seq<T>, k: nat)
    requires k < |xs| - 1
    ensures var front := xs[..|xs| - 1];
            xs[..k] + xs[k + 1..] == front[..k] + front[k + 1..] + [xs[|xs| - 1]] && front[k] == xs[k]
  {}

  /** A task may be moved to the end of a pairwise commuting list. */
  lemma {:induction false} MoveToEnd(effect: Task -> (Files -> Files), tasks: seq<Task>, k: nat, f: Files)
    requires k < |tasks| && PairwiseCommuting(effect, tasks)
    ensures RunAll(effect, tasks, f) == effect(tasks[k])(RunAll(effect, tasks[..k] + tasks[k + 1..], f))
    decreases |tasks|
  {
    var n := |tasks| - 1;
    var front, last := tasks[..n], tasks[n];
    assert tasks == front + [last];
    RunAllThen(effect, front, last, f);
    if k == n {
      assert tasks[..k] + tasks[k + 1..] == front;
    } else {
      assert forall t :: t in front ==> t in tasks;
      MoveToEnd(effect, front, k, f);
      RemovedFromFront(tasks, k);
      var rest := front[..k] + front[k + 1..];
      RunAllThen(effect, rest, last, f);
      CommuteAt(effect, tasks, last, tasks[k], RunAll(effect, rest, f));
    }
  }

  /** Taking the last of one listing out of another one leaves the same tasks. */
  lemma WithoutLast(xs: seq<Task>, ys: seq<Task>, k: nat)
    requires xs != [] && multiset(xs) == multiset(ys) && k < |ys| && ys[k] == xs[|xs| - 1]
    ensures multiset(xs[..|xs| - 1]) == multiset(ys[..k] + ys[k + 1..])
  {
    var n := |xs| - 1;
    assert xs == xs[..n] + [xs[n]];
    assert ys == ys[..k] + [ys[k]] + ys[k + 1..];
    assert multiset(xs[..n]) == multiset(xs) - multiset([xs[n]]);
    assert multiset(ys[..k] + ys[k + 1..]) == multiset(ys) - multiset([xs[n]]);
  }

  lemma {:induction false} OrderDoesNotMatter(effect: Task -> (Files -> Files), xs: seq<Task>, ys: seq<Task>, f: Files)
    requires multiset(xs) == multiset(ys) && PairwiseCommuting(effect, xs)
    ensures RunAll(effect, xs, f) == RunAll(effect, ys, f)
    decreases |xs|
  {
    if xs == [] {
      assert |ys| == |multiset(ys)| == |multiset(xs)| == 0;
    } else {
      var n := |xs| - 1;
      assert xs[n] in multiset(ys);
      var k :| 0 <= k < |ys| && ys[k] == xs[n];
      WithoutLast(xs, ys, k);
      assert forall t :: t in ys ==> t in multiset(xs);
      assert forall t :: t in multiset(xs) ==> t in xs;
      assert forall t :: t in xs[..n] ==> t in xs;
      MoveToEnd(effect, ys, k, f);
      OrderDoesNotMatter(effect, xs[..n], ys[..k] + ys[k + 1..], f);
    }
  }

  /** A batch without interference gives the same files in whatever order its tasks run. */
  lemma BatchIsSerialisable(effect: Task -> (Files -> Files), batch: seq<Task>, order: seq<Task>, f: Files)
    requires ConflictFree(batch) && multiset(order) == multiset(batch)
    requires forall t :: t in batch ==> Respects(effect(t), t)
    ensures RunAll(effect, order, f) == RunAll(effect, batch, f)
  {
    forall a, b | a in batch && b in batch && a != b
      ensures Commute(effect, a, b)
    {
      var i :| 0 <= i < |batch| && batch[i] == a;
      var j :| 0 <= j < |batch| && batch[j] == b;
      forall g: Files
        ensures effect(a)(effect(b)(g)) == effect(b)(effect(a)(g))
      {
        if i < j {
          NonInterferingCommute(a, b, effect(a), effect(b), g);
        } else {
          NonInterferingCommute(b, a, effect(b), effect(a), g);
        }
      }
    }
    OrderDoesNotMatter(effect, batch, order, f);
  }
}
