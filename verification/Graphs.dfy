/** Directed graphs as sets of edges: walks, reachability, cycles and topological orders. */
module Graphs {

  type Edges = set<(string, string)>

  /** Consecutive nodes of a walk are joined by edges. */
  ghost predicate IsWalk(edges: Edges, walk: seq<string>) {
    && walk != []
    && forall i, j | 0 <= i < |walk| && j == i + 1 < |walk| :: (walk[i], walk[j]) in edges
  }

  ghost predicate IsWalkFromTo(edges: Edges, walk: seq<string>, from: string, to: string) {
    IsWalk(edges, walk) && walk[0] == from && walk[|walk| - 1] == to
  }

  /** `to` can be reached from `from` by following at least one edge. */
  ghost predicate Reaches(edges: Edges, from: string, to: string) {
    exists walk :: |walk| >= 2 && IsWalkFromTo(edges, walk, from, to)
  }

  /** A walk of at least one edge back to where it began. */
  ghost predicate IsCycle(edges: Edges, walk: seq<string>) {
    |walk| >= 2 && IsWalk(edges, walk) && walk[0] == walk[|walk| - 1]
  }

  ghost predicate HasCycle(edges: Edges) {
    exists walk :: IsCycle(edges, walk)
  }

  /** Every edge leads from an earlier to a later element of `order`, which lists each node once. */
  ghost predicate IsTopological(order: seq<string>, nodes: set<string>, edges: Edges) {
    && (forall i, j | 0 <= i < j < |order| :: order[i] != order[j])
    && (forall n :: n in order <==> n in nodes)
    && (forall i, j | 0 <= i < |order| && 0 <= j < |order| && (order[i], order[j]) in edges :: i < j)
  }

  ghost predicate EdgesWithin(edges: Edges, nodes: set<string>) {
    forall e | e in edges :: e.0 in nodes && e.1 in nodes
  }

  lemma {:induction false} WalkPart(edges: Edges, walk: seq<string>, lo: nat, hi: nat)
    requires IsWalk(edges, walk) && lo < hi <= |walk|
    ensures IsWalk(edges, walk[lo..hi])
  {}

  lemma {:induction false} WalkJoin(edges: Edges, a: seq<string>, b: seq<string>)
    requires IsWalk(edges, a) && IsWalk(edges, b) && a[|a| - 1] == b[0]
    ensures IsWalkFromTo(edges, a + b[1..], a[0], b[|b| - 1])
  {}

  lemma {:induction false} WalkInMore(edges: Edges, more: Edges, walk: seq<string>)
    requires IsWalk(edges, walk) && edges <= more
    ensures IsWalk(more, walk)
  {}

  lemma {:induction false} EdgeReaches(edges: Edges, from: string, to: string)
    requires (from, to) in edges
    ensures Reaches(edges, from, to)
  {
    assert IsWalkFromTo(edges, [from, to], from, to);
  }

  lemma {:induction false} ReachesTransitive(edges: Edges, a: string, b: string, c: string)
    requires Reaches(edges, a, b) && Reaches(edges, b, c)
    ensures Reaches(edges, a, c)
  {
    var p :| |p| >= 2 && IsWalkFromTo(edges, p, a, b);
    var q :| |q| >= 2 && IsWalkFromTo(edges, q, b, c);
    WalkJoin(edges, p, q);
  }

  /** Along a walk positions in a topological order grow, so there is no way back. */
  lemma {:induction false} WalkAscends(order: seq<string>, nodes: set<string>, edges: Edges, walk: seq<string>, i: nat,
                                       j: nat)
    requires IsTopological(order, nodes, edges) && EdgesWithin(edges, nodes) && IsWalk(edges, walk) && |walk| >= 2
    requires i < |order| && j < |order| && order[i] == walk[0] && order[j] == walk[|walk| - 1]
    ensures i < j
    decreases |walk|
  {
    var n := |walk| - 1;
    assert (walk[n - 1], walk[n]) in edges;
    if n > 1 {
      assert walk[n - 1] in nodes && walk[n - 1] in order;
      var k :| 0 <= k < |order| && order[k] == walk[n - 1];
      WalkPart(edges, walk, 0, n);
      WalkAscends(order, nodes, edges, walk[0..n], i, k);
    }
  }

  lemma {:induction false} OrderedHasNoCycle(order: seq<string>, nodes: set<string>, edges: Edges)
    requires IsTopological(order, nodes, edges) && EdgesWithin(edges, nodes)
    ensures !HasCycle(edges)
  {
    if walk :| IsCycle(edges, walk) {
      assert (walk[0], walk[1]) in edges;
      assert walk[0] in order;
      var i :| 0 <= i < |order| && order[i] == walk[0];
      WalkAscends(order, nodes, edges, walk, i, i);
    }
  }

  ghost predicate HasPredecessor(nodes: set<string>, edges: Edges, n: string) {
    exists m :: m in nodes && (m, n) in edges
  }

  lemma {:induction false} ExtendWalk(edges: Edges, m: string, walk: seq<string>)
    requires IsWalk(edges, walk) && (m, walk[0]) in edges
    ensures IsWalk(edges, [m] + walk)
  {}

  lemma {:induction false} SmallerSet(a: set<string>, b: set<string>)
    requires a < b
    ensures |a| < |b|
  {
    assert b == a + (b - a);
  }

  /** Walking backwards inside a finite set in which every node has a predecessor must repeat a node. */
  lemma {:induction false} WalkBackFindsCycle(nodes: set<string>, edges: Edges, walk: seq<string>,
                                              unvisited: set<string>)
    requires forall n | n in nodes :: HasPredecessor(nodes, edges, n)
    requires walk != [] && IsWalk(edges, walk) && walk[0] in nodes
    requires forall n | n in nodes && n !in unvisited :: n in walk
    ensures HasCycle(edges)
    decreases |unvisited|
  {
    hide IsWalk;
    assert HasPredecessor(nodes, edges, walk[0]);
    var m :| m in nodes && (m, walk[0]) in edges;
    ExtendWalk(edges, m, walk);
    if m in walk {
      var i :| 0 <= i < |walk| && walk[i] == m;
      WalkPart(edges, [m] + walk, 0, i + 2);
      assert IsCycle(edges, ([m] + walk)[0..i + 2]);
    } else {
      assert m in unvisited;
      SmallerSet(unvisited - {m}, unvisited);
      WalkBackFindsCycle(nodes, edges, [m] + walk, unvisited - {m});
    }
  }

  lemma {:induction false} EveryPredecessorMeansCycle(nodes: set<string>, edges: Edges)
    requires nodes != {} && forall n | n in nodes :: HasPredecessor(nodes, edges, n)
    ensures HasCycle(edges)
  {
    hide HasPredecessor;
    var n :| n in nodes;
    WalkBackFindsCycle(nodes, edges, [n], nodes);
  }

  /** A finite graph without a cycle has a topological order. */
  lemma {:induction false} AcyclicHasOrder(nodes: set<string>, edges: Edges) returns (order: seq<string>)
    requires !HasCycle(edges)
    ensures IsTopological(order, nodes, edges)
    decreases |nodes|
  {
    if nodes == {} {
      order := [];
    } else {
      if forall n | n in nodes :: HasPredecessor(nodes, edges, n) {
        EveryPredecessorMeansCycle(nodes, edges);
        assert false;
      }
      var n :| n in nodes && !HasPredecessor(nodes, edges, n);
      SmallerSet(nodes - {n}, nodes);
      var rest := AcyclicHasOrder(nodes - {n}, edges);
      order := [n] + rest;
    }
  }
}
