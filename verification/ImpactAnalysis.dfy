/** The set part of `analyzeRepositoryImpact` (src/autonomy/repository-impact-analysis.ts): which
    files import the changed ones, directly and at a bounded distance. Import resolution is taken
    as done: the input is the list of resolved (importer, imported) pairs. */
module ImpactAnalysis {
  import opened Digraph

  datatype ImportEdge = ImportEdge(importer: string, imported: string)

  type Reverse = map<string, seq<string>>

  /** The reverse import relation: from an imported file to each of its importers. */
  function ReverseEdges(imports: seq<ImportEdge>): set<(string, string)> {
    set e | e in imports :: (e.imported, e.importer)
  }

  function Importers(reverse: Reverse, file: string): seq<string> {
    if file in reverse then reverse[file] else []
  }

  ghost predicate Represents(reverse: Reverse, edges: set<(string, string)>) {
    forall f, g :: g in Importers(reverse, f) <==> (f, g) in edges
  }

  /** `buildReverseDependencies` over the resolved imports. */
  method BuildReverseDependencies(imports: seq<ImportEdge>) returns (reverse: Reverse)
    ensures Represents(reverse, ReverseEdges(imports))
  {
    reverse := map[];
    for i := 0 to |imports|
      invariant Represents(reverse, ReverseEdges(imports[..i]))
    {
      var e := imports[i];
      assert imports[..i + 1] == imports[..i] + [e];
      assert ReverseEdges(imports[..i + 1]) == ReverseEdges(imports[..i]) + {(e.imported, e.importer)};
      var importers := Importers(reverse, e.imported);
      if e.importer !in importers { importers := importers + [e.importer]; }
      reverse := reverse[e.imported := importers];
    }
    assert imports[..|imports|] == imports;
  }

  // ----- distance

  /** The files of `s` and their importers. */
  ghost function Next(edges: set<(string, string)>, s: set<string>): set<string> {
    s + set e | e in edges && e.0 in s :: e.1
  }

  /** The files reached from `c` in at most `k` steps. */
  ghost function Within(edges: set<(string, string)>, c: string, k: nat): set<string> {
    if k == 0 then {c} else Next(edges, Within(edges, c, k - 1))
  }

  /** `k` is the length of a shortest walk from `c` to `f`. */
  ghost predicate Distance(edges: set<(string, string)>, c: string, f: string, k: nat) {
    && (exists p :: Walk(edges, c, f, p) && |p| == k + 1)
    && (forall p :: Walk(edges, c, f, p) ==> |p| >= k + 1)
  }

  lemma {:induction false} WithinGrows(edges: set<(string, string)>, c: string, j: nat, k: nat)
    requires j <= k
    ensures Within(edges, c, j) <= Within(edges, c, k)
    decreases k
  {
    if j < k { WithinGrows(edges, c, j, k - 1); }
  }

  lemma {:induction false} WithinHasWalk(edges: set<(string, string)>, c: string, f: string, k: nat) returns (p: seq<string>)
    requires f in Within(edges, c, k)
    ensures Walk(edges, c, f, p) && |p| <= k + 1
    decreases k
  {
    if k == 0 {
      p := [c];
    } else if f in Within(edges, c, k - 1) {
      p := WithinHasWalk(edges, c, f, k - 1);
    } else {
      var e :| e in edges && e.0 in Within(edges, c, k - 1) && e.1 == f;
      var q := WithinHasWalk(edges, c, e.0, k - 1);
      WalkAppend(edges, c, e.0, q, f);
      p := q + [f];
    }
  }

  lemma {:induction false} WalkIsWithin(edges: set<(string, string)>, c: string, f: string, p: seq<string>)
    requires Walk(edges, c, f, p)
    ensures f in Within(edges, c, |p| - 1)
    decreases |p|
  {
    var n := |p| - 1;
    if n > 0 {
      WalkSlice(edges, p, 0, n);
      assert p[0..n] == p[..n];
      WalkIsWithin(edges, c, p[n - 1], p[..n]);
      assert Hop(edges, p, n - 1);
    }
  }

  lemma DistanceIsBetween(edges: set<(string, string)>, c: string, f: string, j: nat, m: nat, k: nat)
    requires j < k <= m && Distance(edges, c, f, k)
    ensures f in Within(edges, c, m) && f !in Within(edges, c, j)
  {
    var p :| Walk(edges, c, f, p) && |p| == k + 1;
    WalkIsWithin(edges, c, f, p);
    WithinGrows(edges, c, k, m);
    if f in Within(edges, c, j) {
      var q := WithinHasWalk(edges, c, f, j);
      assert false;
    }
  }

  lemma FirstWithinIsDistance(edges: set<(string, string)>, c: string, f: string, m: nat)
    requires m > 0 && f in Within(edges, c, m) && f !in Within(edges, c, m - 1)
    ensures Distance(edges, c, f, m)
  {
    var p := WithinHasWalk(edges, c, f, m);
    forall q | Walk(edges, c, f, q)
      ensures |q| >= m + 1
    {
      WalkIsWithin(edges, c, f, q);
      if |q| < m + 1 { WithinGrows(edges, c, |q| - 1, m - 1); }
    }
    assert |p| >= m + 1;
  }

  lemma {:induction false} NewWithinIsDistance(edges: set<(string, string)>, c: string, f: string, j: nat, m: nat) returns (k: nat)
    requires f in Within(edges, c, m) && f !in Within(edges, c, j)
    ensures j < k <= m && Distance(edges, c, f, k)
    decreases m
  {
    if m <= j { WithinGrows(edges, c, m, j); }
    if f in Within(edges, c, m - 1) {
      k := NewWithinIsDistance(edges, c, f, j, m - 1);
    } else {
      k := m;
      FirstWithinIsDistance(edges, c, f, m);
    }
  }

  /** A file within `m` steps but not within `j` has its distance in between, and conversely. */
  lemma DistanceBetween(edges: set<(string, string)>, c: string, f: string, j: nat, m: nat)
    ensures f in Within(edges, c, m) && f !in Within(edges, c, j) <==> exists k: nat :: j < k <= m && Distance(edges, c, f, k)
  {
    if f in Within(edges, c, m) && f !in Within(edges, c, j) {
      var k := NewWithinIsDistance(edges, c, f, j, m);
    }
    if k: nat :| j < k <= m && Distance(edges, c, f, k) {
      DistanceIsBetween(edges, c, f, j, m, k);
    }
  }

  // ----- the breadth-first traversal

  datatype Item = Item(file: string, depth: int)

  ghost function Files(queue: seq<Item>): set<string> {
    set i | i in queue :: i.file
  }

  /** First-in first-out order keeps the queue in two blocks: `n` items at the level `h` being
      visited, the rest one level deeper. */
  ghost predicate TwoBlocks(edges: set<(string, string)>, level: set<string>, queue: seq<Item>, h: nat, n: nat) {
    && n <= |queue|
    && (forall i :: 0 <= i < n ==> queue[i].depth == h && queue[i].file in level)
    && (forall i :: n <= i < |queue| ==> queue[i].depth == h + 1 && queue[i].file in Next(edges, level))
  }

  /** What imports the visited files of this level waits in the back block. */
  ghost predicate Expanded(edges: set<(string, string)>, near: set<string>, back: seq<Item>, visited: set<string>) {
    forall e :: e in edges && e.0 in visited && e.0 !in near ==> e.1 in Files(back)
  }

  /** All nearer files are visited already, and the level's own files are visited or in front. */
  ghost predicate Frontier(edges: set<(string, string)>, near: set<string>, level: set<string>, maxDepth: int,
                           queue: seq<Item>, visited: set<string>, h: nat, n: nat) {
    && TwoBlocks(edges, level, queue, h, n)
    && (h == 1 || h <= maxDepth)
    && (n < |queue| ==> h < maxDepth)
    && near <= visited <= level
    && level <= visited + Files(queue[..n])
    && (h < maxDepth ==> Expanded(edges, near, queue[n..], visited))
  }

  ghost predicate AtLevel(edges: set<(string, string)>, c: string, near: set<string>, level: set<string>, h: nat) {
    h >= 1 && near == Within(edges, c, h - 1) && level == Within(edges, c, h)
  }

  lemma NextLevel(edges: set<(string, string)>, near: set<string>, level: set<string>, maxDepth: int,
                  queue: seq<Item>, visited: set<string>, h: nat)
    requires Frontier(edges, near, level, maxDepth, queue, visited, h, 0) && queue != [] && level == Next(edges, near)
    ensures Frontier(edges, level, Next(edges, level), maxDepth, queue, visited, h + 1, |queue|)
  {
    assert queue[..0] == [] && queue[0..] == queue && queue[..|queue|] == queue;
    forall f | f in Next(edges, level)
      ensures f in visited + Files(queue)
    {
      if f !in level {
        var e :| e in edges && e.0 in level && e.1 == f;
        assert e.0 !in near;
      }
    }
  }

  /** An empty queue means that everything within the depth limit has been visited. */
  lemma Exhausted(edges: set<(string, string)>, c: string, near: set<string>, level: set<string>, maxDepth: int,
                  visited: set<string>, h: nat)
    requires Frontier(edges, near, level, maxDepth, [], visited, h, 0) && AtLevel(edges, c, near, level, h)
    ensures visited == Within(edges, c, if maxDepth > 1 then maxDepth else 1)
  {
    if h < maxDepth {
      assert level == Next(edges, near);
      assert Within(edges, c, h + 1) == Within(edges, c, h);
      Fixpoint(edges, c, h, maxDepth);
    }
  }

  lemma {:induction false} Fixpoint(edges: set<(string, string)>, c: string, h: nat, m: nat)
    requires Within(edges, c, h + 1) == Within(edges, c, h) && h <= m
    ensures Within(edges, c, m) == Within(edges, c, h)
    decreases m
  {
    if h < m {
      Fixpoint(edges, c, h, m - 1);
      StepsAlike(edges, c, m, h + 1);
    }
  }

  lemma {:induction false} StepsAlike(edges: set<(string, string)>, c: string, j: nat, k: nat)
    requires j > 0 && k > 0 && Within(edges, c, j - 1) == Within(edges, c, k - 1)
    ensures Within(edges, c, j) == Within(edges, c, k)
  {
    assert Within(edges, c, j) == Next(edges, Within(edges, c, j - 1));
    assert Within(edges, c, k) == Next(edges, Within(edges, c, k - 1));
  }

  lemma SkipVisited(edges: set<(string, string)>, near: set<string>, level: set<string>, maxDepth: int,
                    queue: seq<Item>, visited: set<string>, h: nat, n: nat)
    requires n > 0 && Frontier(edges, near, level, maxDepth, queue, visited, h, n) && queue[0].file in visited
    ensures Frontier(edges, near, level, maxDepth, queue[1..], visited, h, n - 1)
  {
    assert queue[1..][n - 1..] == queue[n..];
    assert queue[..n] == [queue[0]] + queue[1..][..n - 1];
  }

  /** Visiting the first item: its importers join the back block, unless the limit is reached. */
  lemma VisitFirst(edges: set<(string, string)>, near: set<string>, level: set<string>, maxDepth: int,
                   queue: seq<Item>, visited: set<string>, h: nat, n: nat, added: seq<Item>)
    requires n > 0 && Frontier(edges, near, level, maxDepth, queue, visited, h, n)
    requires h >= maxDepth ==> added == []
    requires h < maxDepth ==> AreImporters(edges, queue[0].file, added, h + 1)
    ensures Frontier(edges, near, level, maxDepth, queue[1..] + added, visited + {queue[0].file}, h, n - 1)
  {
    var f := queue[0].file;
    var queue' := queue[1..] + added;
    assert queue'[n - 1..] == queue[n..] + added;
    assert queue'[..n - 1] == queue[1..][..n - 1];
    assert queue[..n] == [queue[0]] + queue[1..][..n - 1];
    VisitKeepsBlocks(edges, level, queue, h, n, added);
    assert visited + Files(queue[..n]) <= visited + {f} + Files(queue'[..n - 1]);
    if h < maxDepth {
      VisitExpands(edges, near, queue[n..], visited, h, f, added);
    }
  }

  ghost predicate AreImporters(edges: set<(string, string)>, f: string, items: seq<Item>, depth: int) {
    && (forall g :: (f, g) in edges ==> g in Files(items))
    && (forall i :: 0 <= i < |items| ==> items[i].depth == depth && (f, items[i].file) in edges)
  }

  lemma VisitKeepsBlocks(edges: set<(string, string)>, level: set<string>, queue: seq<Item>, h: nat, n: nat, added: seq<Item>)
    requires n > 0 && TwoBlocks(edges, level, queue, h, n)
    requires added == [] || AreImporters(edges, queue[0].file, added, h + 1)
    ensures TwoBlocks(edges, level, queue[1..] + added, h, n - 1)
  {
    var queue' := queue[1..] + added;
    forall i | n - 1 <= i < |queue'|
      ensures queue'[i].depth == h + 1 && queue'[i].file in Next(edges, level)
    {
      if i >= |queue| - 1 {
        assert (queue[0].file, queue'[i].file) in edges;
      } else {
        assert queue'[i] == queue[i + 1];
      }
    }
  }

  lemma VisitExpands(edges: set<(string, string)>, near: set<string>, back: seq<Item>, visited: set<string>, h: nat, f: string, added: seq<Item>)
    requires Expanded(edges, near, back, visited) && AreImporters(edges, f, added, h + 1)
    ensures Expanded(edges, near, back + added, visited + {f})
  {
    forall e | e in edges && e.0 in visited + {f} && e.0 !in near
      ensures e.1 in Files(back + added)
    {
      if e.0 == f {
        assert (f, e.1) in edges;
        var i :| i in added && i.file == e.1;
        assert i in back + added;
      } else {
        var i :| i in back && i.file == e.1;
        assert i in back + added;
      }
    }
  }

  function Pushed(importers: seq<string>, depth: int): seq<Item> {
    seq(|importers|, i requires 0 <= i < |importers| => Item(importers[i], depth))
  }

  lemma PushedImporters(edges: set<(string, string)>, reverse: Reverse, f: string, depth: int)
    requires Represents(reverse, edges)
    ensures AreImporters(edges, f, Pushed(Importers(reverse, f), depth), depth)
  {
    var items := Pushed(Importers(reverse, f), depth);
    forall g | (f, g) in edges
      ensures g in Files(items)
    {
      assert g in Importers(reverse, f);
      var i :| 0 <= i < |Importers(reverse, f)| && Importers(reverse, f)[i] == g;
      assert items[i] in items;
    }
    forall i | 0 <= i < |items|
      ensures (f, items[i].file) in edges
    {
      assert items[i].file in Importers(reverse, f);
    }
  }

  lemma StartFrontier(edges: set<(string, string)>, c: string, maxDepth: int, reverse: Reverse)
    requires Represents(reverse, edges)
    ensures var queue := Pushed(Importers(reverse, c), 1);
            && AtLevel(edges, c, {c}, Next(edges, {c}), 1)
            && Frontier(edges, {c}, Next(edges, {c}), maxDepth, queue, {c}, 1, |queue|)
  {
    var queue := Pushed(Importers(reverse, c), 1);
    PushedImporters(edges, reverse, c, 1);
    assert queue[..|queue|] == queue && queue[|queue|..] == [];
    assert Within(edges, c, 0) == {c};
  }

  /** `traverseImporters`: adds the files at distance 2..maxDepth from the changed file that are
      not known to be direct. */
  method TraverseImporters(changedFile: string, reverse: Reverse, direct: set<string>, transitive: set<string>,
                           maxDepth: int, ghost edges: set<(string, string)>) returns (transitive': set<string>)
    requires Represents(reverse, edges)
    ensures transitive' == transitive + (Within(edges, changedFile, if maxDepth > 1 then maxDepth else 1)
                                         - Within(edges, changedFile, 1) - direct)
  {
    transitive' := transitive;
    var queue := Pushed(Importers(reverse, changedFile), 1);
    var visited := {changedFile};
    StartFrontier(edges, changedFile, maxDepth, reverse);
    ghost var h: nat, n: nat := 1, |queue|;
    ghost var near := {changedFile};
    ghost var first := Next(edges, near);
    ghost var level := first;
    while queue != []
      invariant AtLevel(edges, changedFile, near, level, h) && first == Within(edges, changedFile, 1)
      invariant Frontier(edges, near, level, maxDepth, queue, visited, h, n)
      invariant transitive' == transitive + (visited - first - direct)
      decreases Targets(edges, changedFile) - visited, |queue|
    {
      near, level, h, n := ShiftLevel(edges, changedFile, near, level, maxDepth, queue, visited, h, n);
      queue, visited, transitive' :=
        VisitNext(changedFile, reverse, direct, maxDepth, queue, visited, transitive', near, level, h, n, edges);
      n := n - 1;
    }
    Exhausted(edges, changedFile, near, level, maxDepth, visited, h);
  }

  /** The first item, of the level's depth, is visited and its importers queued. */
  lemma ExpandFirst(edges: set<(string, string)>, reverse: Reverse, near: set<string>, level: set<string>, maxDepth: int,
                    queue: seq<Item>, visited: set<string>, h: nat, n: nat, added: seq<Item>)
    requires Represents(reverse, edges) && n > 0 && Frontier(edges, near, level, maxDepth, queue, visited, h, n)
    requires queue[0].depth == h
    requires added == if h >= maxDepth then [] else Pushed(Importers(reverse, queue[0].file), h + 1)
    ensures Frontier(edges, near, level, maxDepth, queue[1..] + added, visited + {queue[0].file}, h, n - 1)
  {
    PushedImporters(edges, reverse, queue[0].file, h + 1);
    VisitFirst(edges, near, level, maxDepth, queue, visited, h, n, added);
  }

  /** One turn of the loop: shifts the first item and, if its file is new, visits it. */
  method VisitNext(changedFile: string, reverse: Reverse, direct: set<string>, maxDepth: int,
                   queue: seq<Item>, visited: set<string>, transitive: set<string>,
                   ghost near: set<string>, ghost level: set<string>, ghost h: nat, ghost n: nat, ghost edges: set<(string, string)>)
    returns (queue': seq<Item>, visited': set<string>, transitive': set<string>)
    requires Represents(reverse, edges) && n > 0
    requires Frontier(edges, near, level, maxDepth, queue, visited, h, n) && AtLevel(edges, changedFile, near, level, h)
    ensures Frontier(edges, near, level, maxDepth, queue', visited', h, n - 1)
    ensures queue[0].file in visited ==> queue' == queue[1..] && visited' == visited && transitive' == transitive
    ensures queue[0].file !in visited ==>
              && visited' == visited + {queue[0].file} && queue[0].file in Targets(edges, changedFile)
              && transitive' == transitive + ({queue[0].file} - Within(edges, changedFile, 1) - direct)
  {
    var current := queue[0];
    if current.file in visited {
      SkipVisited(edges, near, level, maxDepth, queue, visited, h, n);
      return queue[1..], visited, transitive;
    }
    FirstIsNew(edges, changedFile, near, level, maxDepth, queue, visited, h, n);
    var added: seq<Item>;
    added, transitive' := VisitFile(current, reverse, direct, maxDepth, transitive, Within(edges, changedFile, 1));
    ExpandFirst(edges, reverse, near, level, maxDepth, queue, visited, h, n, added);
    visited' := visited + {current.file};
    queue' := queue[1..] + added;
  }

  /** Visits one new file: what it adds to the queue and to the transitive files. */
  method VisitFile(current: Item, reverse: Reverse, direct: set<string>, maxDepth: int, transitive: set<string>,
                   ghost oneStep: set<string>)
    returns (added: seq<Item>, transitive': set<string>)
    requires current.depth > 1 <==> current.file !in oneStep
    ensures added == if current.depth >= maxDepth then [] else Pushed(Importers(reverse, current.file), current.depth + 1)
    ensures transitive' == transitive + ({current.file} - oneStep - direct)
  {
    added := if current.depth >= maxDepth then [] else Pushed(Importers(reverse, current.file), current.depth + 1);
    transitive' := if current.depth > 1 && current.file !in direct then transitive + {current.file} else transitive;
  }

  ghost function Targets(edges: set<(string, string)>, c: string): set<string> {
    {c} + set e | e in edges :: e.1
  }

  lemma NextAtLevel(edges: set<(string, string)>, c: string, near: set<string>, level: set<string>, h: nat)
    requires AtLevel(edges, c, near, level, h)
    ensures level == Next(edges, near) && AtLevel(edges, c, level, Next(edges, level), h + 1)
  {}

  lemma ShiftLevel(edges: set<(string, string)>, c: string, near: set<string>, level: set<string>, maxDepth: int,
                   queue: seq<Item>, visited: set<string>, h: nat, n: nat)
    returns (near': set<string>, level': set<string>, h': nat, n': nat)
    requires Frontier(edges, near, level, maxDepth, queue, visited, h, n) && queue != []
    requires AtLevel(edges, c, near, level, h)
    ensures n' > 0 && Frontier(edges, near', level', maxDepth, queue, visited, h', n')
    ensures AtLevel(edges, c, near', level', h')
  {
    if n == 0 {
      NextAtLevel(edges, c, near, level, h);
      NextLevel(edges, near, level, maxDepth, queue, visited, h);
      near', level', h', n' := level, Next(edges, level), h + 1, |queue|;
    } else {
      near', level', h', n' := near, level, h, n;
    }
  }

  /** The first item is visited at its true distance: deeper than one exactly when the level is. */
  lemma FirstIsNew(edges: set<(string, string)>, c: string, near: set<string>, level: set<string>, maxDepth: int,
                   queue: seq<Item>, visited: set<string>, h: nat, n: nat)
    requires n > 0 && Frontier(edges, near, level, maxDepth, queue, visited, h, n) && queue[0].file !in visited
    requires AtLevel(edges, c, near, level, h)
    ensures queue[0].depth == h && queue[0].file in Targets(edges, c)
    ensures queue[0].depth > 1 <==> queue[0].file !in Within(edges, c, 1)
  {
    WithinTargets(edges, c, h);
    if h > 1 { WithinGrows(edges, c, 1, h - 1); }
  }

  lemma {:induction false} WithinTargets(edges: set<(string, string)>, c: string, k: nat)
    ensures Within(edges, c, k) <= Targets(edges, c)
  {
    if k > 0 { WithinTargets(edges, c, k - 1); }
  }

  datatype Impact = Impact(direct: set<string>, transitive: set<string>)

  ghost predicate ImportsAny(edges: set<(string, string)>, changed: seq<string>, f: string) {
    exists c :: c in changed && (c, f) in edges
  }

  ghost predicate AtDistance(edges: set<(string, string)>, changed: seq<string>, f: string, low: nat, high: int) {
    exists c, k: nat :: c in changed && low <= k <= high && Distance(edges, c, f, k)
  }

  /** Impact analysis is exact: the direct files are the unchanged importers of a changed file, and
      the transitive files are those at shortest reverse-import distance 2..maxDepth from some
      changed file that are neither direct nor changed. */
  method AnalyzeRepositoryImpact(imports: seq<ImportEdge>, changed: seq<string>, maxDepth: int) returns (impact: Impact)
    ensures forall f :: f in impact.direct <==>
              f !in changed && ImportsAny(ReverseEdges(imports), changed, f)
    ensures forall f :: f in impact.transitive <==>
              f !in changed && f !in impact.direct && AtDistance(ReverseEdges(imports), changed, f, 2, maxDepth)
  {
    ghost var edges := ReverseEdges(imports);
    var reverse := BuildReverseDependencies(imports);
    var direct: set<string>, transitive: set<string> := {}, {};
    for i := 0 to |changed|
      invariant forall f :: f in direct <==> ImportsAny(edges, changed[..i], f)
      invariant forall f :: f in transitive ==> AtDistance(edges, changed[..i], f, 2, maxDepth)
      invariant forall f :: AtDistance(edges, changed[..i], f, 2, maxDepth) ==> f in transitive || f in direct
    {
      var c := changed[i];
      ghost var before, direct0 := transitive, direct;
      assert changed[..i + 1] == changed[..i] + [c];
      direct := direct + set g | g in Importers(reverse, c) :: g;
      transitive := TraverseImporters(c, reverse, direct, transitive, maxDepth, edges);
      AddedAtDistance(edges, c, maxDepth);
      forall f
        ensures ImportsAny(edges, changed[..i + 1], f) <==> ImportsAny(edges, changed[..i], f) || (c, f) in edges
        ensures AtDistance(edges, changed[..i + 1], f, 2, maxDepth) <==>
                  AtDistance(edges, changed[..i], f, 2, maxDepth) || AtDistance(edges, [c], f, 2, maxDepth)
      {
        OneMoreChanged(edges, changed[..i], c, f, maxDepth);
      }
    }
    assert changed[..|changed|] == changed;
    var changedSet := set c | c in changed;
    direct := direct - changedSet;
    transitive := transitive - changedSet - direct;
    impact := Impact(direct, transitive);
  }

  lemma OneMoreChanged(edges: set<(string, string)>, changed: seq<string>, c: string, f: string, maxDepth: int)
    ensures ImportsAny(edges, changed + [c], f) <==> ImportsAny(edges, changed, f) || (c, f) in edges
    ensures AtDistance(edges, changed + [c], f, 2, maxDepth) <==>
              AtDistance(edges, changed, f, 2, maxDepth) || AtDistance(edges, [c], f, 2, maxDepth)
  {}

  lemma AddedAtDistance(edges: set<(string, string)>, c: string, maxDepth: int)
    ensures forall f :: f in Within(edges, c, if maxDepth > 1 then maxDepth else 1) && f !in Within(edges, c, 1)
                        <==> AtDistance(edges, [c], f, 2, maxDepth)
  {
    var m := if maxDepth > 1 then maxDepth else 1;
    forall f
      ensures f in Within(edges, c, m) && f !in Within(edges, c, 1) <==> AtDistance(edges, [c], f, 2, maxDepth)
    {
      DistanceBetween(edges, c, f, 1, m);
      if k: nat :| 1 < k <= m && Distance(edges, c, f, k) {
        assert c in [c] && 2 <= k <= maxDepth;
      }
    }
  }
}
