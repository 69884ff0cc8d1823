/** Identifier checks and the queue-based acyclicity check that contracts share. */
module Kahn {
  import opened Graphs
  import opened Sequences
  import opened Wrappers

  datatype EdgeError = DuplicateEdges | UnknownIds | SelfDependency | CyclicGraph

  /** The check compares the length of a list with the size of its set. */
  method RequireUniqueIds(ids: seq<string>) returns (ok: bool)
    ensures ok <==> NoDuplicates(ids)
  {
    MembersCount(ids);
    ok := |ids| == |Members(ids)|;
  }

  // ----- edges -----

  function EdgeSet(edges: seq<(string, string)>): Edges {
    set e | e in edges
  }

  /** Edges are told apart by this text, not as pairs. */
  function Label(e: (string, string)): string {
    e.0 + "->" + e.1
  }

  function Labels(edges: seq<(string, string)>): (r: seq<string>)
    ensures |r| == |edges| && forall i | 0 <= i < |edges| :: r[i] == Label(edges[i])
  {
    if edges == [] then [] else Labels(edges[..|edges| - 1]) + [Label(edges[|edges| - 1])]
  }

  /** What is wrong with the first bad edge of edges[i..]. */
  function EdgeProblem(nodes: set<string>, edges: seq<(string, string)>, i: nat): Option<EdgeError>
    requires i <= |edges|
    decreases |edges| - i
  {
    if i == |edges| then None
    else if edges[i].0 !in nodes || edges[i].1 !in nodes then Some(UnknownIds)
    else if edges[i].0 == edges[i].1 then Some(SelfDependency)
    else EdgeProblem(nodes, edges, i + 1)
  }

  /** The verdict on a graph, said without an algorithm. */
  ghost function Verdict(nodes: set<string>, edges: seq<(string, string)>): Option<EdgeError> {
    if !NoDuplicates(Labels(edges)) then Some(DuplicateEdges)
    else if EdgeProblem(nodes, edges, 0).Some? then EdgeProblem(nodes, edges, 0)
    else if HasCycle(EdgeSet(edges)) then Some(CyclicGraph)
    else None
  }

  lemma {:induction false} NoProblemMeansKnown(nodes: set<string>, edges: seq<(string, string)>, i: nat)
    requires i <= |edges|
    ensures EdgeProblem(nodes, edges, i).None? <==>
              forall k | i <= k < |edges| :: edges[k].0 in nodes && edges[k].1 in nodes && edges[k].0 != edges[k].1
    decreases |edges| - i
  {
    if i < |edges| {
      NoProblemMeansKnown(nodes, edges, i + 1);
    }
  }

  /** Predecessors of `n` that are not yet done. */
  ghost function Pending(nodes: set<string>, edges: Edges, done: seq<string>, n: string): set<string> {
    set m | m in nodes && (m, n) in edges && m !in done
  }

  /** Indegrees count pending predecessors; nodes in `left` still count one that is already done. */
  ghost predicate Counts(nodes: set<string>, edges: Edges, done: seq<string>, left: set<string>,
                         indegree: map<string, int>) {
    && indegree.Keys == nodes
    && forall n | n in nodes :: indegree[n] == |Pending(nodes, edges, done, n)| + (if n in left then 1 else 0)
  }

  /** Done and ready nodes are distinct and are exactly those that wait for nothing. */
  ghost predicate ReadyIs(nodes: set<string>, edges: Edges, done: seq<string>, left: set<string>, ready: seq<string>) {
    && NoDuplicates(done + ready)
    && (forall n | n in done || n in ready :: n in nodes)
    && (forall n | n in nodes :: n in done || n in ready <==> Pending(nodes, edges, done, n) == {} && n !in left)
  }

  ghost predicate DoneInOrder(edges: Edges, done: seq<string>) {
    forall i, m | 0 <= i < |done| && (m, done[i]) in edges :: m in done[..i]
  }

  ghost function Successors(nodes: set<string>, edges: Edges, n: string): set<string> {
    set t | t in nodes && (n, t) in edges
  }

  lemma {:induction false} PendingAfter(nodes: set<string>, edges: Edges, done: seq<string>, node: string, n: string)
    requires node in nodes && node !in done
    ensures (node, n) in edges ==> |Pending(nodes, edges, done, n)| == |Pending(nodes, edges, done + [node], n)| + 1
    ensures (node, n) !in edges ==> Pending(nodes, edges, done, n) == Pending(nodes, edges, done + [node], n)
  {
    var before, after := Pending(nodes, edges, done, n), Pending(nodes, edges, done + [node], n);
    if (node, n) in edges {
      assert before == after + {node} && node !in after;
    } else {
      assert before == after;
    }
  }

  lemma {:induction false} PendingHas(nodes: set<string>, edges: Edges, done: seq<string>, n: string, m: string)
    requires m in nodes && (m, n) in edges && m !in done
    ensures Pending(nodes, edges, done, n) != {}
  {
    assert m in Pending(nodes, edges, done, n);
  }

  lemma {:induction false} ReadyHead(nodes: set<string>, edges: Edges, done: seq<string>, node: string,
                                     ready: seq<string>)
    requires ReadyIs(nodes, edges, done, {}, [node] + ready)
    ensures node in nodes && node !in done && node !in ready && done + [node] + ready == done + ([node] + ready)
    ensures Pending(nodes, edges, done, node) == {}
    ensures forall n | n in nodes && (node, n) in edges :: n !in done && n !in ready && n != node
  {
    hide Pending;
    var all := done + ([node] + ready);
    assert all[|done|] == node && done + [node] + ready == all;
    assert forall i | 0 <= i < |done| :: all[i] == done[i];
    assert forall i | 0 <= i < |ready| :: all[|done| + 1 + i] == ready[i];
    assert node in [node] + ready;
    forall n | n in nodes && (node, n) in edges ensures n !in done && n !in [node] + ready {
      PendingHas(nodes, edges, done, n, node);
    }
  }

  lemma {:induction false} CountsAfter(nodes: set<string>, edges: Edges, done: seq<string>, node: string,
                                       indegree: map<string, int>)
    requires Counts(nodes, edges, done, {}, indegree) && node in nodes && node !in done
    ensures Counts(nodes, edges, done + [node], Successors(nodes, edges, node), indegree)
  {
    hide Pending;
    forall n | n in nodes
      ensures indegree[n] == |Pending(nodes, edges, done + [node], n)|
                             + (if n in Successors(nodes, edges, node) then 1 else 0)
    {
      PendingAfter(nodes, edges, done, node, n);
    }
  }

  lemma {:induction false} ReadyAfter(nodes: set<string>, edges: Edges, done: seq<string>, node: string,
                                      ready: seq<string>)
    requires ReadyIs(nodes, edges, done, {}, [node] + ready)
    ensures ReadyIs(nodes, edges, done + [node], Successors(nodes, edges, node), ready)
  {
    hide Pending, NoDuplicates;
    ReadyHead(nodes, edges, done, node, ready);
    forall n | n in nodes
      ensures n in done + [node] || n in ready <==>
                Pending(nodes, edges, done + [node], n) == {} && n !in Successors(nodes, edges, node)
    {
      PendingAfter(nodes, edges, done, node, n);
      assert n in [node] + ready <==> n == node || n in ready;
    }
  }

  /** Taking the first ready node. */
  lemma {:induction false} TakeReady(nodes: set<string>, edges: Edges, done: seq<string>, node: string,
                                     ready: seq<string>, indegree: map<string, int>)
    requires Counts(nodes, edges, done, {}, indegree) && ReadyIs(nodes, edges, done, {}, [node] + ready)
    requires EdgesWithin(edges, nodes) && DoneInOrder(edges, done)
    ensures node in nodes && node !in done && node !in ready
    ensures Counts(nodes, edges, done + [node], Successors(nodes, edges, node), indegree)
    ensures ReadyIs(nodes, edges, done + [node], Successors(nodes, edges, node), ready)
    ensures DoneInOrder(edges, done + [node])
  {
    hide Counts, ReadyIs;
    ReadyHead(nodes, edges, done, node, ready);
    CountsAfter(nodes, edges, done, node, indegree);
    ReadyAfter(nodes, edges, done, node, ready);
    var more := done + [node];
    forall i, m | 0 <= i < |more| && (m, more[i]) in edges ensures m in more[..i] {
      if i < |done| {
        assert more[..i] == done[..i];
      } else {
        assert more[..i] == done;
        assert m !in Pending(nodes, edges, done, node);
      }
    }
  }

  /** Lowering the indegree of one successor. */
  lemma {:induction false} LowerOne(nodes: set<string>, edges: Edges, done: seq<string>, left: set<string>,
                                    ready: seq<string>, indegree: map<string, int>, t: string)
    requires Counts(nodes, edges, done, left, indegree) && ReadyIs(nodes, edges, done, left, ready) && t in left
             && t in nodes
    ensures Counts(nodes, edges, done, left - {t}, indegree[t := indegree[t] - 1])
    ensures ReadyIs(nodes, edges, done, left - {t}, if indegree[t] == 1 then ready + [t] else ready)
  {
    assert indegree[t] == 1 <==> Pending(nodes, edges, done, t) == {};
    assert done + (ready + [t]) == (done + ready) + [t];
    assert t !in done && t !in ready;
  }

  lemma {:induction false} AllDone(nodes: set<string>, edges: Edges, done: seq<string>)
    requires NoDuplicates(done) && Members(done) == nodes && DoneInOrder(edges, done)
    ensures IsTopological(done, nodes, edges)
  {
    forall i, j | 0 <= i < |done| && 0 <= j < |done| && (done[i], done[j]) in edges ensures i < j {
      assert done[i] in done[..j];
      var k :| 0 <= k < j && done[k] == done[i];
    }
    forall n ensures n in done <==> n in nodes {
      assert n in Members(done) <==> n in done;
    }
  }

  lemma {:induction false} SomeBlocked(nodes: set<string>, edges: Edges, done: seq<string>, rest: set<string>)
    requires ReadyIs(nodes, edges, done, {}, []) && rest == nodes - Members(done) && rest != {}
    ensures HasCycle(edges)
  {
    forall n | n in rest ensures HasPredecessor(rest, edges, n) {
      assert n !in done;
      assert Pending(nodes, edges, done, n) != {};
      var m :| m in Pending(nodes, edges, done, n);
      assert m in rest;
    }
    EveryPredecessorMeansCycle(rest, edges);
  }

  /** When no node is ready, either all are done, in a topological order, or the rest contains a cycle. */
  lemma {:induction false} Exhausted(nodes: set<string>, edges: Edges, done: seq<string>)
    requires ReadyIs(nodes, edges, done, {}, []) && DoneInOrder(edges, done)
    ensures |done| == |nodes| ==> IsTopological(done, nodes, edges)
    ensures |done| != |nodes| ==> HasCycle(edges)
  {
    hide Pending, HasCycle, IsTopological, DoneInOrder;
    assert done + [] == done;
    MembersCount(done);
    assert Members(done) <= nodes;
    var rest := nodes - Members(done);
    assert nodes == Members(done) + rest;
    if rest == {} {
      assert Members(done) + {} == Members(done);
      AllDone(nodes, edges, done);
    } else {
      SmallerSet(Members(done), nodes);
      SomeBlocked(nodes, edges, done, rest);
    }
  }

  // ----- the algorithm -----

  /** The edges read so far, as adjacency sets and indegrees. */
  ghost predicate Tables(nodes: set<string>, edges: Edges, adjacency: map<string, set<string>>,
                         indegree: map<string, int>) {
    && adjacency.Keys == nodes && (forall n | n in nodes :: adjacency[n] == Successors(nodes, edges, n))
    && Counts(nodes, edges, [], {}, indegree)
  }

  lemma {:induction false} CountEdge(nodes: set<string>, edges: Edges, indegree: map<string, int>, e: (string, string))
    requires Counts(nodes, edges, [], {}, indegree) && e.0 in nodes && e.1 in nodes && e !in edges
    ensures Counts(nodes, edges + {e}, [], {}, indegree[e.1 := indegree[e.1] + 1])
  {
    hide Pending;
    forall n | n in nodes
      ensures |Pending(nodes, edges + {e}, [], n)| == |Pending(nodes, edges, [], n)| + (if n == e.1 then 1 else 0)
    {
      OneMorePending(nodes, edges, n, e);
    }
  }

  lemma {:induction false} OneMorePending(nodes: set<string>, edges: Edges, n: string, e: (string, string))
    requires e.0 in nodes && e !in edges
    ensures |Pending(nodes, edges + {e}, [], n)| == |Pending(nodes, edges, [], n)| + (if n == e.1 then 1 else 0)
  {
    if n == e.1 {
      assert e.0 !in Pending(nodes, edges, [], n) by { assert e == (e.0, n); }
      assert Pending(nodes, edges + {e}, [], n) == Pending(nodes, edges, [], n) + {e.0};
    } else {
      assert Pending(nodes, edges + {e}, [], n) == Pending(nodes, edges, [], n);
    }
  }

  lemma {:induction false} OneMoreSuccessor(nodes: set<string>, edges: Edges, n: string, e: (string, string))
    requires e.1 in nodes
    ensures Successors(nodes, edges + {e}, n) == Successors(nodes, edges, n) + (if n == e.0 then {e.1} else {})
  {}

  lemma {:induction false} AddEdge(nodes: set<string>, edges: Edges, adjacency: map<string, set<string>>,
                                   indegree: map<string, int>, e: (string, string))
    requires Tables(nodes, edges, adjacency, indegree) && e.0 in nodes && e.1 in nodes && e !in edges
    ensures Tables(nodes, edges + {e}, adjacency[e.0 := adjacency[e.0] + {e.1}], indegree[e.1 := indegree[e.1] + 1])
  {
    hide Counts, Successors;
    CountEdge(nodes, edges, indegree, e);
    forall n | n in nodes
      ensures Successors(nodes, edges + {e}, n) == Successors(nodes, edges, n) + (if n == e.0 then {e.1} else {})
    {
      OneMoreSuccessor(nodes, edges, n, e);
    }
  }

  method BuildTables(nodes: set<string>, edges: seq<(string, string)>)
    returns (problem: Option<EdgeError>, adjacency: map<string, set<string>>, indegree: map<string, int>)
    requires NoDuplicates(Labels(edges))
    ensures problem == EdgeProblem(nodes, edges, 0)
    ensures problem.None? ==> indegree.Keys == nodes && Tables(nodes, EdgeSet(edges), adjacency, indegree)
  {
    hide Tables;
    adjacency := map n | n in nodes :: {};
    indegree := map n | n in nodes :: 0;
    NoEdges(nodes, adjacency, indegree);
    assert EdgeSet(edges[..0]) == {};
    for i := 0 to |edges|
      invariant EdgeProblem(nodes, edges, i) == EdgeProblem(nodes, edges, 0)
      invariant adjacency.Keys == indegree.Keys == nodes
      invariant Tables(nodes, EdgeSet(edges[..i]), adjacency, indegree)
    {
      var e := edges[i];
      if e.0 !in nodes || e.1 !in nodes {
        return Some(UnknownIds), adjacency, indegree;
      }
      if e.0 == e.1 {
        return Some(SelfDependency), adjacency, indegree;
      }
      assert e !in edges[..i] by {
        assert Labels(edges)[i] == Label(e);
      }
      assert EdgeSet(edges[..i + 1]) == EdgeSet(edges[..i]) + {e};
      AddEdge(nodes, EdgeSet(edges[..i]), adjacency, indegree, e);
      adjacency := adjacency[e.0 := adjacency[e.0] + {e.1}];
      indegree := indegree[e.1 := indegree[e.1] + 1];
    }
    assert edges[..|edges|] == edges;
    problem := None;
  }

  lemma {:induction false} NoEdges(nodes: set<string>, adjacency: map<string, set<string>>, indegree: map<string, int>)
    requires adjacency == map n | n in nodes :: {}
    requires indegree == map n | n in nodes :: 0
    ensures Tables(nodes, {}, adjacency, indegree)
  {
    forall n | n in nodes ensures Pending(nodes, {}, [], n) == {} && Successors(nodes, {}, n) == {} {
    }
  }

  /** The nodes with indegree zero, each once, in an order the model leaves open. */
  method InitialReady(nodes: set<string>, indegree: map<string, int>) returns (ready: seq<string>)
    requires indegree.Keys == nodes
    ensures NoDuplicates(ready) && forall n :: n in ready <==> n in nodes && indegree[n] == 0
  {
    ready := [];
    var rest := nodes;
    while rest != {}
      invariant rest <= nodes && NoDuplicates(ready)
      invariant forall n :: n in ready <==> n in nodes && n !in rest && indegree[n] == 0
      decreases |rest|
    {
      var n :| n in rest;
      rest := rest - {n};
      if indegree[n] == 0 {
        ready := ready + [n];
      }
    }
  }

  method Drain(nodes: set<string>, ghost edges: Edges, adjacency: map<string, set<string>>, indegree0: map<string, int>,
               ready0: seq<string>)
    returns (processed: nat, ghost done: seq<string>)
    requires EdgesWithin(edges, nodes)
    requires adjacency.Keys == nodes && forall n | n in nodes :: adjacency[n] == Successors(nodes, edges, n)
    requires Counts(nodes, edges, [], {}, indegree0) && ReadyIs(nodes, edges, [], {}, ready0)
    ensures processed == |nodes| <==> !HasCycle(edges)
    ensures processed == |nodes| ==> IsTopological(done, nodes, edges)
  {
    hide Pending, NoDuplicates, HasCycle, IsTopological;
    var indegree, ready := indegree0, ready0;
    processed, done := 0, [];
    while ready != []
      invariant processed == |done|
      invariant Counts(nodes, edges, done, {}, indegree) && ReadyIs(nodes, edges, done, {}, ready)
                && DoneInOrder(edges, done)
      decreases |nodes| - |done|
    {
      hide Counts, ReadyIs, DoneInOrder;
      var node := ready[0];
      assert ready == [node] + ready[1..];
      ready := ready[1..];
      TakeReady(nodes, edges, done, node, ready, indegree);
      done := done + [node];
      processed := processed + 1;
      assert |done| <= |nodes| by { DoneFits(nodes, edges, done, Successors(nodes, edges, node), ready); }
      var left := adjacency[node];
      while left != {}
        invariant left <= nodes && indegree.Keys == nodes
        invariant Counts(nodes, edges, done, left, indegree) && ReadyIs(nodes, edges, done, left, ready)
        decreases |left|
      {
        var t :| t in left;
        LowerOne(nodes, edges, done, left, ready, indegree, t);
        indegree := indegree[t := indegree[t] - 1];
        if indegree[t] == 0 {
          ready := ready + [t];
        }
        left := left - {t};
      }
    }
    Exhausted(nodes, edges, done);
    if |done| == |nodes| {
      OrderedHasNoCycle(done, nodes, edges);
    }
  }

  lemma {:induction false} DoneFits(nodes: set<string>, edges: Edges, done: seq<string>, left: set<string>,
                                    ready: seq<string>)
    requires ReadyIs(nodes, edges, done, left, ready)
    ensures |done| <= |nodes|
  {
    assert forall i | 0 <= i < |done| :: (done + ready)[i] == done[i];
    MembersCount(done);
    assert Members(done) <= nodes;
    if Members(done) != nodes { SmallerSet(Members(done), nodes); }
  }

  /** Accepts exactly the graphs with distinct edge labels, known ends, no self edge and no cycle; an
      accepted graph comes with a topological order of all its nodes. */
  lemma {:induction false} TablesAreReady(nodes: set<string>, edges: Edges, adjacency: map<string, set<string>>,
                                          indegree: map<string, int>, ready: seq<string>)
    requires Tables(nodes, edges, adjacency, indegree)
    requires NoDuplicates(ready) && forall n :: n in ready <==> n in nodes && n in indegree && indegree[n] == 0
    ensures adjacency.Keys == nodes && forall n | n in nodes :: adjacency[n] == Successors(nodes, edges, n)
    ensures Counts(nodes, edges, [], {}, indegree) && ReadyIs(nodes, edges, [], {}, ready)
  {
    assert [] + ready == ready;
  }

  method RequireAcyclicEdges(nodes: set<string>, edges: seq<(string, string)>)
    returns (error: Option<EdgeError>, ghost order: seq<string>)
    ensures error == Verdict(nodes, edges)
    ensures error.None? ==> IsTopological(order, nodes, EdgeSet(edges))
  {
    hide NoDuplicates, HasCycle, IsTopological, Tables, Counts, ReadyIs, Pending, Successors;
    order := [];
    var unique := RequireUniqueIds(Labels(edges));
    if !unique {
      return Some(DuplicateEdges), [];
    }
    var problem, adjacency, indegree := BuildTables(nodes, edges);
    if problem.Some? {
      return problem, [];
    }
    NoProblemMeansKnown(nodes, edges, 0);
    var ready := InitialReady(nodes, indegree);
    TablesAreReady(nodes, EdgeSet(edges), adjacency, indegree, ready);
    var processed, done := Drain(nodes, EdgeSet(edges), adjacency, indegree, ready);
    if processed != |nodes| {
      error := Some(CyclicGraph);
    } else {
      error, order := None, done;
    }
  }

  // ----- labels and identifiers -----

  /** The characters of an identifier: none of them is '>'. */
  predicate IsIdentifier(id: string) {
    id != "" && forall i | 0 <= i < |id| ::
      'A' <= id[i] <= 'Z' || 'a' <= id[i] <= 'z' || '0' <= id[i] <= '9' || (i > 0 && id[i] in "._:-")
  }

  lemma {:induction false} LabelsOfIdentifiersDiffer(a: (string, string), b: (string, string))
    requires IsIdentifier(a.0) && IsIdentifier(a.1) && IsIdentifier(b.0) && IsIdentifier(b.1)
    requires Label(a) == Label(b)
    ensures a == b
  {
    var text := Label(a);
    assert |text| == |a.0| + 2 + |a.1| == |b.0| + 2 + |b.1|;
    assert forall i | 0 <= i < |text| :: text[i] == '>' <==> i == |a.0| + 1;
    assert text[|b.0| + 1] == '>';
    assert a.0 == text[..|a.0|] && b.0 == text[..|b.0|];
    assert a.1 == text[|a.0| + 2..] && b.1 == text[|b.0| + 2..];
  }

  /** For identifiers the labels repeat only where an edge does. */
  lemma {:induction false} LabelsOfIdentifiersRepeatWithEdges(edges: seq<(string, string)>)
    requires forall e | e in edges :: IsIdentifier(e.0) && IsIdentifier(e.1)
    ensures NoDuplicates(Labels(edges)) <==> NoDuplicates(edges)
  {
    forall i, j | 0 <= i < j < |edges| ensures Labels(edges)[i] == Labels(edges)[j] <==> edges[i] == edges[j] {
      assert edges[i] in edges && edges[j] in edges;
      if Labels(edges)[i] == Labels(edges)[j] {
        LabelsOfIdentifiersDiffer(edges[i], edges[j]);
      }
    }
  }

  /** Known edges without a self edge are accepted exactly when their labels are distinct and they form no cycle;
      between identifiers that is when they are distinct and form no cycle. */
  lemma {:induction false} AcceptedExactlyWhenAcyclic(nodes: set<string>, edges: seq<(string, string)>)
    requires forall e | e in edges :: e.0 in nodes && e.1 in nodes && e.0 != e.1
    ensures Verdict(nodes, edges).None? <==> NoDuplicates(Labels(edges)) && !HasCycle(EdgeSet(edges))
    ensures (forall e | e in edges :: IsIdentifier(e.0) && IsIdentifier(e.1)) ==>
              (Verdict(nodes, edges).None? <==> NoDuplicates(edges) && !HasCycle(EdgeSet(edges)))
  {
    NoProblemMeansKnown(nodes, edges, 0);
    if forall e | e in edges :: IsIdentifier(e.0) && IsIdentifier(e.1) {
      LabelsOfIdentifiersRepeatWithEdges(edges);
    }
  }

  /** Other names can collide: two different edges with one label, refused although there is no cycle. */
  lemma {:induction false} CollidingLabels()
    ensures var edges := [("a", "b->c"), ("a->b", "c")];
      && edges[0] != edges[1]
      && !HasCycle(EdgeSet(edges))
      && Verdict({"a", "b->c", "a->b", "c"}, edges) == Some(DuplicateEdges)
  {
    var edges := [("a", "b->c"), ("a->b", "c")];
    var order := ["a", "b->c", "a->b", "c"];
    var nodes := {"a", "b->c", "a->b", "c"};
    assert |order[0]| == 1 && |order[1]| == 4 && |order[2]| == 4 && |order[3]| == 1;
    assert order[0][0] == 'a' && order[3][0] == 'c' && order[1][0] == 'b' && order[2][0] == 'a';
    assert EdgeSet(edges) == {("a", "b->c"), ("a->b", "c")};
    assert IsTopological(order, nodes, EdgeSet(edges));
    OrderedHasNoCycle(order, nodes, EdgeSet(edges));
    assert Labels(edges)[0] == "a->b->c" == Labels(edges)[1];
  }
}
