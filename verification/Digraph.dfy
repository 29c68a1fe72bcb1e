/** Finite directed graphs, as used by the task graph, the import graph and the edit planner.
    A graph is a finite set of (from, to) pairs. */
module Digraph {

  ghost predicate Hop<V(!new)>(edges: set<(V, V)>, p: seq<V>, i: int)
    requires 0 <= i < |p| - 1
  {
    (p[i], p[i + 1]) in edges
  }

  /** A nonempty node sequence in which each node has an edge to the next one. */
  ghost predicate IsWalk<V(!new)>(edges: set<(V, V)>, p: seq<V>) {
    |p| > 0 && forall i :: 0 <= i < |p| - 1 ==> Hop(edges, p, i)
  }

  ghost predicate Walk<V(!new)>(edges: set<(V, V)>, a: V, b: V, p: seq<V>) {
    IsWalk(edges, p) && p[0] == a && p[|p| - 1] == b
  }

  ghost predicate Reaches<V(!new)>(edges: set<(V, V)>, a: V, b: V) {
    exists p :: Walk(edges, a, b, p)
  }

  /** `v` lies on a closed walk with at least one edge. */
  ghost predicate OnCycle<V(!new)>(edges: set<(V, V)>, v: V) {
    exists p :: Walk(edges, v, v, p) && |p| >= 2
  }

  ghost predicate Acyclic<V(!new)>(edges: set<(V, V)>) {
    forall v :: !OnCycle(edges, v)
  }

  ghost predicate HasSuccessorIn<V(!new)>(edges: set<(V, V)>, s: set<V>, u: V) {
    exists w :: w in s && (u, w) in edges
  }

  lemma WalkSlice<V(!new)>(edges: set<(V, V)>, p: seq<V>, i: nat, j: nat)
    requires IsWalk(edges, p) && i < j <= |p|
    ensures Walk(edges, p[i], p[j - 1], p[i..j])
  {
    var q := p[i..j];
    forall k | 0 <= k < |q| - 1
      ensures Hop(edges, q, k)
    {
      assert Hop(edges, p, i + k);
    }
  }

  lemma WalkAppend<V(!new)>(edges: set<(V, V)>, a: V, b: V, p: seq<V>, c: V)
    requires Walk(edges, a, b, p) && (b, c) in edges
    ensures Walk(edges, a, c, p + [c])
  {
    var q := p + [c];
    forall k | 0 <= k < |q| - 1
      ensures Hop(edges, q, k)
    {
      if k < |p| - 1 { assert Hop(edges, p, k); }
    }
  }

  lemma WalkConcat<V(!new)>(edges: set<(V, V)>, a: V, b: V, c: V, p: seq<V>, q: seq<V>)
    requires Walk(edges, a, b, p) && Walk(edges, b, c, q)
    ensures Walk(edges, a, c, p + q[1..])
  {
    var r := p + q[1..];
    forall k | 0 <= k < |r| - 1
      ensures Hop(edges, r, k)
    {
      if k < |p| - 1 {
        assert Hop(edges, p, k);
      } else {
        assert Hop(edges, q, k - |p| + 1);
      }
    }
  }

  lemma ReachesTrans<V(!new)>(edges: set<(V, V)>, a: V, b: V, c: V)
    requires Reaches(edges, a, b) && Reaches(edges, b, c)
    ensures Reaches(edges, a, c)
  {
    var p :| Walk(edges, a, b, p);
    var q :| Walk(edges, b, c, q);
    WalkConcat(edges, a, b, c, p, q);
  }

  lemma ReachesRefl<V(!new)>(edges: set<(V, V)>, a: V)
    ensures Reaches(edges, a, a)
  {
    assert Walk(edges, a, a, [a]);
  }

  lemma ReachesEdge<V(!new)>(edges: set<(V, V)>, a: V, b: V)
    requires (a, b) in edges
    ensures Reaches(edges, a, b)
  {
    assert Hop(edges, [a, b], 0);
    assert Walk(edges, a, b, [a, b]);
  }

  /** A sequence longer than the set it draws from repeats an element. */
  lemma {:induction false} Pigeonhole<V(!new)>(s: set<V>, p: seq<V>) returns (i: nat, j: nat)
    requires |p| > |s|
    requires forall k :: 0 <= k < |p| ==> p[k] in s
    ensures i < j < |p| && p[i] == p[j]
    decreases |s|
  {
    var last := p[|p| - 1];
    if k :| 0 <= k < |p| - 1 && p[k] == last {
      return k, |p| - 1;
    }
    i, j := Pigeonhole(s - {last}, p[..|p| - 1]);
  }

  /** In a set where every node has a successor, walks of any length stay inside the set. */
  lemma {:induction false} EndlessWalk<V(!new)>(edges: set<(V, V)>, s: set<V>, v: V, n: nat) returns (p: seq<V>)
    requires v in s
    requires forall u :: u in s ==> HasSuccessorIn(edges, s, u)
    ensures |p| == n + 1 && IsWalk(edges, p) && p[0] == v
    ensures forall k :: 0 <= k < |p| ==> p[k] in s
  {
    if n == 0 {
      p := [v];
    } else {
      p := EndlessWalk(edges, s, v, n - 1);
      var u := p[|p| - 1];
      assert HasSuccessorIn(edges, s, u);
      var w :| w in s && (u, w) in edges;
      WalkAppend(edges, v, u, p, w);
      p := p + [w];
    }
  }

  /** From any node of a finite set in which every node has a successor, a cycle is reachable. */
  lemma TrappedReachesCycle<V(!new)>(edges: set<(V, V)>, s: set<V>, v: V)
    requires v in s
    requires forall u :: u in s ==> HasSuccessorIn(edges, s, u)
    ensures exists w :: w in s && Reaches(edges, v, w) && OnCycle(edges, w)
  {
    var p := EndlessWalk(edges, s, v, |s|);
    var i, j := Pigeonhole(s, p);
    WalkSlice(edges, p, 0, i + 1);
    WalkSlice(edges, p, i, j + 1);
    assert Walk(edges, v, p[i], p[0..i + 1]);
    assert Walk(edges, p[i], p[i], p[i..j + 1]);
  }

  /** A node whose reachable nodes are ranked downwards along every edge reaches no cycle. */
  lemma {:induction false} RankFalls<V(!new)>(edges: set<(V, V)>, rank: map<V, nat>, p: seq<V>)
    requires IsWalk(edges, p) && p[0] in rank
    requires forall e :: e in edges && e.0 in rank ==> e.1 in rank && rank[e.1] < rank[e.0]
    ensures p[|p| - 1] in rank
    ensures |p| >= 2 ==> rank[p[|p| - 1]] < rank[p[0]]
    decreases |p|
  {
    if |p| >= 2 {
      assert Hop(edges, p, 0);
      assert (p[0], p[1]) in edges;
      WalkSlice(edges, p, 1, |p|);
      assert p[1..|p|] == p[1..];
      RankFalls(edges, rank, p[1..]);
    }
  }

  lemma RankedReachesNoCycle<V(!new)>(edges: set<(V, V)>, rank: map<V, nat>, v: V)
    requires v in rank
    requires forall e :: e in edges && e.0 in rank ==> e.1 in rank && rank[e.1] < rank[e.0]
    ensures forall w :: Reaches(edges, v, w) ==> w in rank && !OnCycle(edges, w)
  {
    forall w | Reaches(edges, v, w)
      ensures w in rank && !OnCycle(edges, w)
    {
      var p :| Walk(edges, v, w, p);
      RankFalls(edges, rank, p);
      if OnCycle(edges, w) {
        var q :| Walk(edges, w, w, q) && |q| >= 2;
        RankFalls(edges, rank, q);
        assert false;
      }
    }
  }

  /** The position of each node of a list. */
  function Positions(xs: seq<string>): map<string, nat> {
    if xs == [] then map[] else Positions(xs[..|xs| - 1])[xs[|xs| - 1] := |xs| - 1]
  }

  lemma {:induction false} PositionOf(xs: seq<string>, i: nat)
    requires i < |xs| && forall j, k :: 0 <= j < k < |xs| ==> xs[j] != xs[k]
    ensures xs[i] in Positions(xs) && Positions(xs)[xs[i]] == i
  {
    if i < |xs| - 1 {
      PositionOf(xs[..|xs| - 1], i);
      assert xs[i] != xs[|xs| - 1];
    }
  }
}
