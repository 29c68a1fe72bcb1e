/** The edit order of src/autonomy/semantic-edit-orchestrator.ts: Kahn's algorithm over the imports
    inside the plan, with the files on or behind an import cycle appended at the end. Imports are
    taken as resolved, and the two orders used for sorting are arbitrary. */
module DependencyOrder {
  import opened Digraph
  import opened ImpactAnalysis

  type Order = (string, string) -> bool

  function SetOf(xs: seq<string>): set<string> {
    set x | x in xs
  }

  ghost predicate NoDuplicates(xs: seq<string>) {
    forall i, j :: 0 <= i < j < |xs| ==> xs[i] != xs[j]
  }

  /** The imports between planned files: from an importer to what it imports. */
  ghost function PlanEdges(files: set<string>, imports: seq<ImportEdge>): set<(string, string)> {
    set e | e in imports && e.importer in files && e.imported in files :: (e.importer, e.imported)
  }

  ghost function ImportsOf(plan: set<(string, string)>, f: string): set<string> {
    set e | e in plan && e.0 == f :: e.1
  }

  ghost function ImportersOf(plan: set<(string, string)>, g: string): set<string> {
    set e | e in plan && e.1 == g :: e.0
  }

  // ----- sorting

  /** `insertSorted`: no effect if present, otherwise before the first entry that comes after. */
  method InsertSorted(values: seq<string>, value: string, after: Order) returns (r: seq<string>)
    ensures value in values ==> r == values
    ensures value !in values ==>
              exists i :: 0 <= i <= |values| && r == values[..i] + [value] + values[i..]
                          && (forall j :: 0 <= j < i ==> !after(values[j], value))
                          && (i < |values| ==> after(values[i], value))
  {
    if value in values { return values; }
    var i := 0;
    while i < |values| && !after(values[i], value)
      invariant 0 <= i <= |values| && forall j :: 0 <= j < i ==> !after(values[j], value)
    {
      i := i + 1;
    }
    r := values[..i] + [value] + values[i..];
  }

  lemma InsertedElements(values: seq<string>, value: string, i: nat)
    requires i <= |values| && value !in values && NoDuplicates(values)
    ensures NoDuplicates(values[..i] + [value] + values[i..])
    ensures SetOf(values[..i] + [value] + values[i..]) == SetOf(values) + {value}
  {
    var r := values[..i] + [value] + values[i..];
    assert values == values[..i] + values[i..];
    assert forall k :: 0 <= k < |r| ==> r[k] == (if k < i then values[k] else if k == i then value else values[k - 1]);
  }

  /** A sorted listing of a finite set of files, in whatever order `after` describes. */
  method SortedList(files: set<string>, after: Order) returns (r: seq<string>)
    ensures NoDuplicates(r) && SetOf(r) == files
  {
    r := [];
    var rest := files;
    while rest != {}
      invariant rest <= files && NoDuplicates(r) && SetOf(r) == files - rest
      decreases |rest|
    {
      var f :| f in rest;
      assert f !in SetOf(r);
      ghost var before := r;
      r := InsertSorted(r, f, after);
      ghost var i :| 0 <= i <= |before| && r == before[..i] + [f] + before[i..];
      InsertedElements(before, f, i);
      rest := rest - {f};
    }
  }

  // ----- the tables

  type Outgoing = map<string, set<string>>
  type Indegree = map<string, int>

  ghost predicate Tables(files: set<string>, plan: set<(string, string)>, outgoing: Outgoing, indegree: Indegree) {
    && outgoing.Keys == files && indegree.Keys == files
    && (forall g :: g in files ==> outgoing[g] == ImportersOf(plan, g))
    && (forall f :: f in files ==> indegree[f] == |ImportsOf(plan, f)|)
  }

  lemma AddPlanEdge(files: set<string>, plan: set<(string, string)>, e: ImportEdge, outgoing: Outgoing, indegree: Indegree)
    requires Tables(files, plan, outgoing, indegree)
    requires e.importer in files && e.imported in files && (e.importer, e.imported) !in plan
    ensures Tables(files, plan + {(e.importer, e.imported)},
                   outgoing[e.imported := outgoing[e.imported] + {e.importer}],
                   indegree[e.importer := indegree[e.importer] + 1])
  {
    var plan' := plan + {(e.importer, e.imported)};
    var outgoing' := outgoing[e.imported := outgoing[e.imported] + {e.importer}];
    var indegree' := indegree[e.importer := indegree[e.importer] + 1];
    forall g | g in files
      ensures outgoing'[g] == ImportersOf(plan', g) && indegree'[g] == |ImportsOf(plan', g)|
    {
      EdgeAdded(plan, e.importer, e.imported, g);
    }
  }

  lemma EdgeAdded(plan: set<(string, string)>, f: string, g: string, x: string)
    requires (f, g) !in plan
    ensures ImportersOf(plan + {(f, g)}, x) == ImportersOf(plan, x) + if x == g then {f} else {}
    ensures |ImportsOf(plan + {(f, g)}, x)| == |ImportsOf(plan, x)| + if x == f then 1 else 0
  {
    assert ImportsOf(plan + {(f, g)}, x) == ImportsOf(plan, x) + if x == f then {g} else {};
    assert g !in ImportsOf(plan, f);
  }

  /** Counts an import between planned files once, however often it occurs. */
  method AddImport(files: set<string>, ghost plan: set<(string, string)>, e: ImportEdge, outgoing: Outgoing, indegree: Indegree)
    returns (outgoing': Outgoing, indegree': Indegree)
    requires Tables(files, plan, outgoing, indegree)
    ensures Tables(files, plan + if e.importer in files && e.imported in files then {(e.importer, e.imported)} else {},
                   outgoing', indegree')
  {
    outgoing', indegree' := outgoing, indegree;
    if e.imported !in files || e.importer !in files {
      assert plan + {} == plan;
      return;
    }
    assert e.importer in outgoing[e.imported] <==> (e.importer, e.imported) in plan;
    if e.importer in outgoing[e.imported] {
      assert plan + {(e.importer, e.imported)} == plan;
      return;
    }
    AddPlanEdge(files, plan, e, outgoing, indegree);
    outgoing' := outgoing[e.imported := outgoing[e.imported] + {e.importer}];
    indegree' := indegree[e.importer := indegree[e.importer] + 1];
  }

  method BuildTables(files: set<string>, imports: seq<ImportEdge>) returns (outgoing: Outgoing, indegree: Indegree)
    ensures Tables(files, PlanEdges(files, imports), outgoing, indegree)
  {
    outgoing := map f | f in files :: {};
    indegree := map f | f in files :: 0;
    assert PlanEdges(files, imports[..0]) == {};
    for i := 0 to |imports|
      invariant Tables(files, PlanEdges(files, imports[..i]), outgoing, indegree)
    {
      PlanEdgesStep(files, imports, i);
      outgoing, indegree := AddImport(files, PlanEdges(files, imports[..i]), imports[i], outgoing, indegree);
    }
    assert imports[..|imports|] == imports;
  }

  lemma PlanEdgesStep(files: set<string>, imports: seq<ImportEdge>, i: nat)
    requires i < |imports|
    ensures var e := imports[i];
            PlanEdges(files, imports[..i + 1]) == PlanEdges(files, imports[..i])
              + if e.importer in files && e.imported in files then {(e.importer, e.imported)} else {}
    ensures var e := imports[i];
            e.importer in ImportersOf(PlanEdges(files, imports[..i]), e.imported) <==>
            (e.importer, e.imported) in PlanEdges(files, imports[..i])
  {
    assert imports[..i + 1] == imports[..i] + [imports[i]];
  }

  // ----- Kahn's loop

  /** Open imports of a file: those not ordered yet. */
  ghost function OpenImports(plan: set<(string, string)>, f: string, ordered: seq<string>): set<string> {
    ImportsOf(plan, f) - SetOf(ordered)
  }

  /** Every import of an ordered file was ordered before it. */
  ghost predicate Topological(plan: set<(string, string)>, ordered: seq<string>) {
    forall i :: 0 <= i < |ordered| ==> ImportsOf(plan, ordered[i]) <= SetOf(ordered[..i])
  }

  /** Each count is the number of open imports; `pending` are the importers of the last ordered
      file whose count is still to be lowered. */
  ghost predicate Counts(files: set<string>, plan: set<(string, string)>, indegree: Indegree, ordered: seq<string>, pending: set<string>) {
    && indegree.Keys == files
    && forall f :: f in files ==> indegree[f] == |OpenImports(plan, f, ordered)| + if f in pending then 1 else 0
  }

  /** The ready files are those not ordered whose count is zero. */
  ghost predicate Ready(files: set<string>, indegree: Indegree, ready: seq<string>, ordered: seq<string>)
    requires indegree.Keys == files
  {
    && NoDuplicates(ready)
    && forall f :: f in SetOf(ready) <==> f in files && f !in SetOf(ordered) && indegree[f] == 0
  }

  ghost predicate Progress(files: set<string>, plan: set<(string, string)>, indegree: Indegree,
                           ready: seq<string>, ordered: seq<string>, pending: set<string>) {
    && NoDuplicates(ordered) && SetOf(ordered) <= files && Topological(plan, ordered)
    && Counts(files, plan, indegree, ordered, pending)
    && Ready(files, indegree, ready, ordered)
  }

  lemma NoneOpen(plan: set<(string, string)>, c: string, ordered: seq<string>)
    requires OpenImports(plan, c, ordered) == {}
    ensures ImportsOf(plan, c) <= SetOf(ordered)
  {
    forall g | g in ImportsOf(plan, c)
      ensures g in SetOf(ordered)
    {
      assert g !in OpenImports(plan, c, ordered);
    }
  }

  lemma TakeFirst(files: set<string>, plan: set<(string, string)>, indegree: Indegree, ready: seq<string>, ordered: seq<string>)
    requires Progress(files, plan, indegree, ready, ordered, {}) && ready != []
    ensures Progress(files, plan, indegree, ready[1..], ordered + [ready[0]], ImportersOf(plan, ready[0]))
    ensures forall f :: f in ImportersOf(plan, ready[0]) ==> f !in ordered + [ready[0]]
    ensures SetOf(ordered + [ready[0]]) == SetOf(ordered) + {ready[0]} && ready[0] in files - SetOf(ordered)
  {
    var c := ready[0];
    assert c in SetOf(ready) && |OpenImports(plan, c, ordered)| == 0;
    assert SetOf(ordered + [c]) == SetOf(ordered) + {c};
    TakeFirstCounts(files, plan, indegree, ordered, c);
    forall f | f in ImportersOf(plan, c) {
      ImportersNotOrdered(plan, ordered, c, f);
    }
    ExtendTopological(plan, ordered, c);
    TakeFirstReady(files, indegree, ready, ordered);
  }

  lemma TakeFirstReady(files: set<string>, indegree: Indegree, ready: seq<string>, ordered: seq<string>)
    requires indegree.Keys == files && Ready(files, indegree, ready, ordered) && ready != []
    ensures Ready(files, indegree, ready[1..], ordered + [ready[0]])
    ensures ready[0] in files - SetOf(ordered)
    ensures NoDuplicates(ordered) ==> NoDuplicates(ordered + [ready[0]])
  {
    TailElements(ready);
    assert ready[0] in SetOf(ready);
    assert SetOf(ordered + [ready[0]]) == SetOf(ordered) + {ready[0]};
    assert forall i :: 0 <= i < |ordered| ==> ordered[i] in SetOf(ordered);
  }

  lemma TakeFirstCounts(files: set<string>, plan: set<(string, string)>, indegree: Indegree, ordered: seq<string>, c: string)
    requires Counts(files, plan, indegree, ordered, {}) && c !in SetOf(ordered)
    ensures Counts(files, plan, indegree, ordered + [c], ImportersOf(plan, c))
  {
    forall f | f in files
      ensures indegree[f] == |OpenImports(plan, f, ordered + [c])| + if f in ImportersOf(plan, c) then 1 else 0
    {
      OneLessOpen(plan, f, ordered, c);
    }
  }

  lemma ExtendTopological(plan: set<(string, string)>, ordered: seq<string>, c: string)
    requires Topological(plan, ordered) && OpenImports(plan, c, ordered) == {}
    ensures Topological(plan, ordered + [c])
  {
    var ordered' := ordered + [c];
    NoneOpen(plan, c, ordered);
    forall i | 0 <= i < |ordered'|
      ensures ImportsOf(plan, ordered'[i]) <= SetOf(ordered'[..i])
    {
      if i < |ordered| {
        assert ordered'[..i] == ordered[..i];
      } else {
        assert ordered'[..|ordered|] == ordered;
      }
    }
  }

  lemma TailElements(xs: seq<string>)
    requires xs != [] && NoDuplicates(xs)
    ensures SetOf(xs[1..]) == SetOf(xs) - {xs[0]} && NoDuplicates(xs[1..])
  {
    assert xs == [xs[0]] + xs[1..];
  }

  lemma OneLessOpen(plan: set<(string, string)>, f: string, ordered: seq<string>, c: string)
    requires c !in SetOf(ordered)
    ensures |OpenImports(plan, f, ordered)| == |OpenImports(plan, f, ordered + [c])| + if f in ImportersOf(plan, c) then 1 else 0
  {
    assert SetOf(ordered + [c]) == SetOf(ordered) + {c};
    if f in ImportersOf(plan, c) {
      assert c in OpenImports(plan, f, ordered);
      assert OpenImports(plan, f, ordered) == OpenImports(plan, f, ordered + [c]) + {c};
    } else {
      assert c !in ImportsOf(plan, f);
      assert OpenImports(plan, f, ordered) == OpenImports(plan, f, ordered + [c]);
    }
  }

  lemma ImportersNotOrdered(plan: set<(string, string)>, ordered: seq<string>, c: string, f: string)
    requires Topological(plan, ordered) && c !in SetOf(ordered) && OpenImports(plan, c, ordered) == {}
    requires f in ImportersOf(plan, c)
    ensures f !in ordered + [c]
  {
    assert c in ImportsOf(plan, f);
    NoneOpen(plan, c, ordered);
    assert forall i :: 0 <= i < |ordered| ==> SetOf(ordered[..i]) <= SetOf(ordered);
    assert forall i :: 0 <= i < |ordered| ==> ordered[i] != f;
  }

  lemma LowerReady(files: set<string>, indegree: Indegree, ready: seq<string>, ordered: seq<string>, d: string, ready': seq<string>)
    requires indegree.Keys == files && Ready(files, indegree, ready, ordered)
    requires d in files && d !in SetOf(ordered) && indegree[d] > 0
    requires if indegree[d] == 1 then NoDuplicates(ready') && SetOf(ready') == SetOf(ready) + {d} else ready' == ready
    ensures Ready(files, indegree[d := indegree[d] - 1], ready', ordered)
  {
    assert d !in SetOf(ready);
  }

  /** One turn of the inner loop: an importer that has no open import left becomes ready. */
  method LowerOne(files: set<string>, ghost plan: set<(string, string)>, indegree: Indegree, ready: seq<string>,
                  ghost ordered: seq<string>, ghost pending: set<string>, d: string, after: Order)
    returns (indegree': Indegree, ready': seq<string>)
    requires Counts(files, plan, indegree, ordered, pending) && Ready(files, indegree, ready, ordered)
    requires d in pending && d in files && d !in SetOf(ordered)
    ensures Counts(files, plan, indegree', ordered, pending - {d}) && Ready(files, indegree', ready', ordered)
  {
    var remaining := indegree[d] - 1;
    ready' := ready;
    if remaining == 0 {
      assert d !in SetOf(ready);
      ready' := InsertSorted(ready, d, after);
      ghost var k :| 0 <= k <= |ready| && ready' == ready[..k] + [d] + ready[k..];
      InsertedElements(ready, d, k);
    }
    LowerReady(files, indegree, ready, ordered, d, ready');
    indegree' := indegree[d := remaining];
  }

  /** Lowers the count of every importer of the file just ordered. */
  method LowerCounts(files: set<string>, ghost plan: set<(string, string)>, indegree: Indegree, ready: seq<string>,
                     ghost ordered: seq<string>, dependants: seq<string>, after: Order)
    returns (indegree': Indegree, ready': seq<string>)
    requires NoDuplicates(dependants) && SetOf(dependants) <= files && SetOf(dependants) !! SetOf(ordered)
    requires Counts(files, plan, indegree, ordered, SetOf(dependants)) && Ready(files, indegree, ready, ordered)
    ensures Counts(files, plan, indegree', ordered, {}) && Ready(files, indegree', ready', ordered)
  {
    indegree', ready' := indegree, ready;
    assert dependants[0..] == dependants;
    for i := 0 to |dependants|
      invariant Counts(files, plan, indegree', ordered, SetOf(dependants[i..])) && Ready(files, indegree', ready', ordered)
    {
      var d := dependants[i];
      assert d in SetOf(dependants) && d in SetOf(dependants[i..]);
      TailElements(dependants[i..]);
      assert dependants[i..][1..] == dependants[i + 1..];
      indegree', ready' := LowerOne(files, plan, indegree', ready', ordered, SetOf(dependants[i..]), d, after);
    }
    assert SetOf(dependants[|dependants|..]) == {};
  }

  method KahnOrder(files: set<string>, ghost plan: set<(string, string)>, outgoing: Outgoing, counts: Indegree, sortAfter: Order, insertAfter: Order)
    returns (ordered: seq<string>)
    requires Tables(files, plan, outgoing, counts)
    requires forall e :: e in plan ==> e.0 in files && e.1 in files
    ensures NoDuplicates(ordered) && SetOf(ordered) <= files && Topological(plan, ordered)
    ensures forall f :: f in files - SetOf(ordered) ==> HasSuccessorIn(plan, files - SetOf(ordered), f)
  {
    var indegree := counts;
    var sources := set f | f in files && indegree[f] == 0;
    var ready := SortedList(sources, sortAfter);
    ordered := [];
    StartProgress(files, plan, outgoing, indegree, ready);
    while ready != []
      invariant Progress(files, plan, indegree, ready, ordered, {})
      decreases files - SetOf(ordered)
    {
      var current := ready[0];
      TakeFirst(files, plan, indegree, ready, ordered);
      ordered := ordered + [current];
      var dependants := SortedList(outgoing[current], sortAfter);
      assert SetOf(dependants) <= files && SetOf(dependants) !! SetOf(ordered);
      indegree, ready := LowerCounts(files, plan, indegree, ready[1..], ordered, dependants, insertAfter);
    }
    forall f | f in files - SetOf(ordered) {
      LeftOverHasLeftOverImport(files, plan, indegree, ordered, f);
    }
  }

  lemma StartProgress(files: set<string>, plan: set<(string, string)>, outgoing: Outgoing, indegree: Indegree, ready: seq<string>)
    requires Tables(files, plan, outgoing, indegree)
    requires NoDuplicates(ready) && SetOf(ready) == set f | f in files && indegree[f] == 0
    ensures Progress(files, plan, indegree, ready, [], {})
  {
    assert forall f :: f in files ==> OpenImports(plan, f, []) == ImportsOf(plan, f);
  }

  lemma LeftOverHasLeftOverImport(files: set<string>, plan: set<(string, string)>, indegree: Indegree, ordered: seq<string>, f: string)
    requires Counts(files, plan, indegree, ordered, {}) && Ready(files, indegree, [], ordered)
    requires forall e :: e in plan ==> e.0 in files && e.1 in files
    requires f in files - SetOf(ordered)
    ensures HasSuccessorIn(plan, files - SetOf(ordered), f)
  {
    assert f !in SetOf([]);
    assert OpenImports(plan, f, ordered) != {};
    var g :| g in OpenImports(plan, f, ordered);
    assert (f, g) in plan;
  }

  // ----- which files can be ordered

  /** No import cycle is among the file and its transitive imports inside the plan. */
  ghost predicate CycleFree(plan: set<(string, string)>, f: string) {
    forall w :: Reaches(plan, f, w) ==> !OnCycle(plan, w)
  }

  lemma {:induction false} PositionsKeys(xs: seq<string>)
    ensures Positions(xs).Keys == SetOf(xs)
  {
    if xs != [] {
      PositionsKeys(xs[..|xs| - 1]);
      assert xs == xs[..|xs| - 1] + [xs[|xs| - 1]];
    }
  }

  lemma OrderedIsCycleFree(plan: set<(string, string)>, ordered: seq<string>, f: string)
    requires NoDuplicates(ordered) && Topological(plan, ordered) && f in ordered
    ensures CycleFree(plan, f)
  {
    var rank := Positions(ordered);
    PositionsKeys(ordered);
    forall e | e in plan && e.0 in rank
      ensures e.1 in rank && rank[e.1] < rank[e.0]
    {
      assert e.0 in SetOf(ordered);
      var i :| 0 <= i < |ordered| && ordered[i] == e.0;
      assert e.1 in ImportsOf(plan, e.0);
      assert e.1 in SetOf(ordered[..i]);
      var j :| 0 <= j < i && ordered[..i][j] == e.1;
      PositionOf(ordered, i);
      PositionOf(ordered, j);
    }
    assert f in SetOf(ordered);
    RankedReachesNoCycle(plan, rank, f);
  }

  lemma StuckIsNotCycleFree(plan: set<(string, string)>, stuck: set<string>, f: string)
    requires f in stuck && forall g :: g in stuck ==> HasSuccessorIn(plan, stuck, g)
    ensures !CycleFree(plan, f)
  {
    TrappedReachesCycle(plan, stuck, f);
  }

  /** Each import of the file at `i` stands before it. */
  ghost predicate AfterItsImports(plan: set<(string, string)>, r: seq<string>, i: nat)
    requires i < |r|
  {
    forall g :: (r[i], g) in plan ==> g in r[..i]
  }

  /** The order is a permutation of the planned files. The files free of import cycles come first,
      each after everything it imports inside the plan; so an acyclic plan is fully ordered. */
  method DependencyOrder(files: set<string>, imports: seq<ImportEdge>, sortAfter: Order, insertAfter: Order)
    returns (r: seq<string>)
    ensures NoDuplicates(r) && SetOf(r) == files
    ensures forall i, j :: 0 <= i < j < |r| && CycleFree(PlanEdges(files, imports), r[j]) ==> CycleFree(PlanEdges(files, imports), r[i])
    ensures forall i: nat :: i < |r| && CycleFree(PlanEdges(files, imports), r[i]) ==> AfterItsImports(PlanEdges(files, imports), r, i)
    ensures Acyclic(PlanEdges(files, imports)) ==>
              forall i: nat :: i < |r| ==> AfterItsImports(PlanEdges(files, imports), r, i)
  {
    ghost var plan := PlanEdges(files, imports);
    var outgoing, indegree := BuildTables(files, imports);
    var ordered := KahnOrder(files, plan, outgoing, indegree, sortAfter, insertAfter);
    var unresolved := SortedList(files - SetOf(ordered), sortAfter);
    r := ordered + unresolved;
    OrderIsExact(files, plan, ordered, unresolved);
  }

  lemma OrderIsExact(files: set<string>, plan: set<(string, string)>, ordered: seq<string>, unresolved: seq<string>)
    requires NoDuplicates(ordered) && SetOf(ordered) <= files && Topological(plan, ordered)
    requires forall f :: f in files - SetOf(ordered) ==> HasSuccessorIn(plan, files - SetOf(ordered), f)
    requires NoDuplicates(unresolved) && SetOf(unresolved) == files - SetOf(ordered)
    ensures var r := ordered + unresolved;
            && NoDuplicates(r) && SetOf(r) == files
            && (forall i, j :: 0 <= i < j < |r| && CycleFree(plan, r[j]) ==> CycleFree(plan, r[i]))
            && (forall i: nat :: i < |r| && CycleFree(plan, r[i]) ==> AfterItsImports(plan, r, i))
            && (Acyclic(plan) ==> forall i: nat :: i < |r| ==> AfterItsImports(plan, r, i))
  {
    var r := ordered + unresolved;
    forall i | 0 <= i < |r|
      ensures CycleFree(plan, r[i]) <==> i < |ordered|
    {
      if i < |ordered| {
        OrderedIsCycleFree(plan, ordered, r[i]);
      } else {
        assert r[i] in SetOf(unresolved);
        StuckIsNotCycleFree(plan, files - SetOf(ordered), r[i]);
      }
    }
    forall i: nat | i < |ordered|
      ensures AfterItsImports(plan, r, i)
    {
      assert r[..i] == ordered[..i];
      forall g | (r[i], g) in plan
        ensures g in r[..i]
      {
        assert g in ImportsOf(plan, ordered[i]);
        assert g in SetOf(ordered[..i]);
      }
    }
    forall i, j | 0 <= i < j < |r|
      ensures r[i] != r[j]
    {
      if i < |ordered| <= j {
        assert r[i] in SetOf(ordered) && r[j] in SetOf(unresolved);
      }
    }
    forall f | f in files
      ensures f in SetOf(r)
    {
      if f !in SetOf(ordered) { assert f in SetOf(unresolved); }
    }
    forall f | f in SetOf(r)
      ensures f in files
    {
      if f !in ordered { assert f in SetOf(unresolved); } else { assert f in SetOf(ordered); }
    }
  }
}
