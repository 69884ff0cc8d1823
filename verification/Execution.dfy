/** Execution graphs: their validation, what it buys a scheduler, and what tool results may store. */
module Execution {
  import opened Graphs
  import opened Kahn
  import opened Sequences
  import opened Wrappers

  datatype Task = Task(taskId: string, subtaskId: string, outputType: string, inputs: seq<string>,
                       outputs: seq<string>, dependsOn: seq<string>, budgetMs: int)

  datatype Cardinality = One | Many

  datatype Binding = Binding(name: string, valueType: string, subtaskId: string, cardinality: Cardinality)

  datatype Graph = Graph(runtime: Runtime, tasks: seq<Task>, bindings: seq<Binding>,
                         criticalPath: seq<string>, totalBudgetMs: int)

  /** The identifying fields that a graph and the results of its tasks share. */
  datatype Runtime = Runtime(requestKey: string, runId: string, datasetVersion: string, cutoffDate: string)

  datatype GraphError =
    | DuplicateTasks | DuplicateBindings | BadEdges(edge: EdgeError)
    | DuplicateInputs | DuplicateOutputs | UnknownInputs | UnknownOutputs | ConsumesOwnOutput
    | DuplicateProducers | MissingProducers | WrongSubtask | IndependentConsumer
    | DuplicateCritical | UnknownCritical | BrokenCritical | CriticalOverBudget | TaskOverBudget

  // ----- reading a graph -----

  function TaskIds(tasks: seq<Task>): (r: seq<string>)
    ensures |r| == |tasks| && forall i | 0 <= i < |tasks| :: r[i] == tasks[i].taskId
  {
    if tasks == [] then [] else TaskIds(tasks[..|tasks| - 1]) + [tasks[|tasks| - 1].taskId]
  }

  function Names(bindings: seq<Binding>): (r: seq<string>)
    ensures |r| == |bindings| && forall i | 0 <= i < |bindings| :: r[i] == bindings[i].name
  {
    if bindings == [] then [] else Names(bindings[..|bindings| - 1]) + [bindings[|bindings| - 1].name]
  }

  function EdgesInto(sources: seq<string>, target: string): (r: seq<(string, string)>)
    ensures |r| == |sources| && forall i | 0 <= i < |sources| :: r[i] == (sources[i], target)
  {
    if sources == [] then [] else EdgesInto(sources[..|sources| - 1], target) + [(sources[|sources| - 1], target)]
  }

  /** An edge leads from a task to each task that depends on it. */
  function DependencyEdges(tasks: seq<Task>): seq<(string, string)> {
    if tasks == [] then []
    else
      var last := tasks[|tasks| - 1];
      DependencyEdges(tasks[..|tasks| - 1]) + EdgesInto(last.dependsOn, last.taskId)
  }

  function Produced(tasks: seq<Task>): seq<string> {
    if tasks == [] then [] else Produced(tasks[..|tasks| - 1]) + tasks[|tasks| - 1].outputs
  }

  /** Tasks by their id; a repeated id keeps its last task. */
  function TasksById(tasks: seq<Task>): map<string, Task> {
    if tasks == [] then map[]
    else TasksById(tasks[..|tasks| - 1])[tasks[|tasks| - 1].taskId := tasks[|tasks| - 1]]
  }

  /** Bindings by their name; a repeated name keeps its last declaration. */
  function BindingsByName(bindings: seq<Binding>): map<string, Binding> {
    if bindings == [] then map[]
    else BindingsByName(bindings[..|bindings| - 1])[bindings[|bindings| - 1].name := bindings[|bindings| - 1]]
  }

  ghost predicate IsDependency(tasks: seq<Task>, from: string, to: string) {
    exists t :: t in tasks && t.taskId == to && from in t.dependsOn
  }

  ghost function Dependencies(tasks: seq<Task>): Edges {
    EdgeSet(DependencyEdges(tasks))
  }

  lemma {:induction false} DependenciesAre(tasks: seq<Task>, from: string, to: string)
    ensures (from, to) in Dependencies(tasks) <==> IsDependency(tasks, from, to)
  {
    if tasks != [] {
      var front, last := tasks[..|tasks| - 1], tasks[|tasks| - 1];
      DependenciesAre(front, from, to);
      assert tasks == front + [last];
      assert (from, to) in EdgesInto(last.dependsOn, last.taskId) <==> from in last.dependsOn && to == last.taskId by {
        if from in last.dependsOn && to == last.taskId {
          var i :| 0 <= i < |last.dependsOn| && last.dependsOn[i] == from;
          assert EdgesInto(last.dependsOn, last.taskId)[i] == (from, to);
        }
      }
    }
  }

  lemma {:induction false} DistinctFront(front: seq<string>, last: string)
    ensures NoDuplicates(front + [last]) ==> NoDuplicates(front) && last !in front
  {
    var all := front + [last];
    assert forall i | 0 <= i < |front| :: all[i] == front[i];
    assert all[|front|] == last;
  }

  lemma {:induction false} TasksByIdAre(tasks: seq<Task>)
    ensures forall id :: id in TasksById(tasks) <==> id in TaskIds(tasks)
    ensures forall id | id in TasksById(tasks) :: TasksById(tasks)[id] in tasks && TasksById(tasks)[id].taskId == id
    ensures NoDuplicates(TaskIds(tasks)) ==>
              forall t | t in tasks :: t.taskId in TasksById(tasks) && TasksById(tasks)[t.taskId] == t
  {
    if tasks != [] {
      var front, last := tasks[..|tasks| - 1], tasks[|tasks| - 1];
      TasksByIdAre(front);
      assert tasks == front + [last] && TaskIds(tasks) == TaskIds(front) + [last.taskId];
      assert TasksById(tasks) == TasksById(front)[last.taskId := last];
      DistinctFront(TaskIds(front), last.taskId);
      hide NoDuplicates, TasksById;
      forall t | t in front ensures t.taskId in TaskIds(front) {
        var i :| 0 <= i < |front| && front[i] == t;
        assert TaskIds(front)[i] == t.taskId;
      }
    }
  }

  lemma {:induction false} BindingsByNameAre(bindings: seq<Binding>)
    ensures forall n :: n in BindingsByName(bindings) <==> n in Names(bindings)
    ensures forall n | n in BindingsByName(bindings) ::
              BindingsByName(bindings)[n] in bindings && BindingsByName(bindings)[n].name == n
    ensures NoDuplicates(Names(bindings)) ==>
              forall b | b in bindings :: b.name in BindingsByName(bindings) && BindingsByName(bindings)[b.name] == b
  {
    if bindings != [] {
      var front, last := bindings[..|bindings| - 1], bindings[|bindings| - 1];
      BindingsByNameAre(front);
      assert bindings == front + [last] && Names(bindings) == Names(front) + [last.name];
      assert BindingsByName(bindings) == BindingsByName(front)[last.name := last];
      DistinctFront(Names(front), last.name);
      hide NoDuplicates, BindingsByName;
      forall b | b in front ensures b.name in Names(front) {
        var i :| 0 <= i < |front| && front[i] == b;
        assert Names(front)[i] == b.name;
      }
    }
  }

  lemma {:induction false} ProducedAre(tasks: seq<Task>, b: string)
    ensures b in Produced(tasks) <==> exists t :: t in tasks && b in t.outputs
  {
    if tasks != [] {
      var front, last := tasks[..|tasks| - 1], tasks[|tasks| - 1];
      ProducedAre(front, b);
      assert tasks == front + [last];
    }
  }

  /** When no binding is produced twice, its producer is one task. */
  lemma {:induction false} OneProducer(tasks: seq<Task>, p: Task, q: Task, b: string)
    requires NoDuplicates(Produced(tasks)) && p in tasks && q in tasks && b in p.outputs && b in q.outputs
    ensures p == q
  {
    var front, last := tasks[..|tasks| - 1], tasks[|tasks| - 1];
    var head := Produced(front);
    var all := Produced(tasks);
    assert tasks == front + [last] && all == head + last.outputs;
    assert forall i | 0 <= i < |head| :: all[i] == head[i];
    ProducedAre(front, b);
    if b in head {
      assert forall j | 0 <= j < |last.outputs| :: all[|head| + j] == last.outputs[j];
      assert b !in last.outputs;
      OneProducer(front, p, q, b);
    }
  }

  // ----- the verdict on a graph -----

  /** What is wrong with one task's own lists. */
  function TaskProblem(t: Task, names: set<string>): Option<GraphError> {
    if |t.inputs| != |Members(t.inputs)| then Some(DuplicateInputs)
    else if |t.outputs| != |Members(t.outputs)| then Some(DuplicateOutputs)
    else if !(Members(t.inputs) <= names) then Some(UnknownInputs)
    else if !(Members(t.outputs) <= names) then Some(UnknownOutputs)
    else if Members(t.inputs) * Members(t.outputs) != {} then Some(ConsumesOwnOutput)
    else None
  }

  function FirstTaskProblem(tasks: seq<Task>, names: set<string>, i: nat): Option<GraphError>
    requires i <= |tasks|
    decreases |tasks| - i
  {
    if i == |tasks| then None
    else if TaskProblem(tasks[i], names).Some? then TaskProblem(tasks[i], names)
    else FirstTaskProblem(tasks, names, i + 1)
  }

  ghost predicate ProducedInSubtask(g: Graph) {
    forall p, b | p in g.tasks && b in g.bindings && b.name in p.outputs :: p.subtaskId == b.subtaskId
  }

  /** Each consumer of the outputs of p can be reached from p. */
  ghost predicate ConsumersDependOn(tasks: seq<Task>, t: Task, p: Task) {
    forall b | b in t.inputs && b in p.outputs :: Reaches(Dependencies(tasks), p.taskId, t.taskId)
  }

  ghost predicate ConsumersDepend(tasks: seq<Task>) {
    forall t, p | t in tasks && p in tasks :: ConsumersDependOn(tasks, t, p)
  }

  /** Each step of the path is a direct dependency. */
  ghost predicate IsConnected(tasks: seq<Task>, path: seq<string>) {
    forall i, j | 0 <= i < |path| && j == i + 1 < |path| :: IsDependency(tasks, path[i], path[j])
  }

  function PathBudget(tasks: seq<Task>, path: seq<string>): int {
    if path == [] then 0
    else
      var id := path[|path| - 1];
      PathBudget(tasks, path[..|path| - 1]) + if id in TasksById(tasks) then TasksById(tasks)[id].budgetMs else 0
  }

  /** The part of the verdict that is about bindings. */
  ghost function BindingProblem(g: Graph): Option<GraphError> {
    if !NoDuplicates(Produced(g.tasks)) then Some(DuplicateProducers)
    else if !(Members(Names(g.bindings)) <= Members(Produced(g.tasks))) then Some(MissingProducers)
    else if !ProducedInSubtask(g) then Some(WrongSubtask)
    else if !ConsumersDepend(g.tasks) then Some(IndependentConsumer)
    else None
  }

  /** The part of the verdict that is about the critical path and the budgets. */
  ghost function BudgetProblem(g: Graph): Option<GraphError> {
    if !NoDuplicates(g.criticalPath) then Some(DuplicateCritical)
    else if !(Members(g.criticalPath) <= Members(TaskIds(g.tasks))) then Some(UnknownCritical)
    else if !IsConnected(g.tasks, g.criticalPath) then Some(BrokenCritical)
    else if PathBudget(g.tasks, g.criticalPath) > g.totalBudgetMs then Some(CriticalOverBudget)
    else if exists t :: t in g.tasks && t.budgetMs > g.totalBudgetMs then Some(TaskOverBudget)
    else None
  }

  /** The first reason to refuse a graph, said without its algorithms. */
  ghost function GraphProblem(g: Graph): Option<GraphError> {
    if !NoDuplicates(TaskIds(g.tasks)) then Some(DuplicateTasks)
    else if !NoDuplicates(Names(g.bindings)) then Some(DuplicateBindings)
    else if Verdict(Members(TaskIds(g.tasks)), DependencyEdges(g.tasks)).Some? then
      Some(BadEdges(Verdict(Members(TaskIds(g.tasks)), DependencyEdges(g.tasks)).value))
    else if FirstTaskProblem(g.tasks, Members(Names(g.bindings)), 0).Some? then
      FirstTaskProblem(g.tasks, Members(Names(g.bindings)), 0)
    else if BindingProblem(g).Some? then BindingProblem(g)
    else BudgetProblem(g)
  }

  // ----- the ancestors of a task -----

  ghost predicate DependenciesKnown(tasks: seq<Task>) {
    forall t, d | t in tasks && d in t.dependsOn :: d in TaskIds(tasks)
  }

  /** Every dependency of `id` is in one of the two collections. */
  ghost predicate Covered(tasks: seq<Task>, id: string, ancestors: set<string>, pending: seq<string>) {
    forall d | (d, id) in Dependencies(tasks) :: d in ancestors || d in pending
  }

  /** A set that holds a task's dependencies and is closed under them holds everything upstream of it. */
  lemma {:induction false} ClosedHoldsUpstream(tasks: seq<Task>, to: string, ancestors: set<string>, walk: seq<string>)
    requires Covered(tasks, to, ancestors, []) && forall a | a in ancestors :: Covered(tasks, a, ancestors, [])
    requires |walk| >= 2 && IsWalk(Dependencies(tasks), walk) && walk[|walk| - 1] == to
    ensures walk[0] in ancestors
    decreases |walk|
  {
    assert (walk[0], walk[1]) in Dependencies(tasks);
    if |walk| > 2 {
      WalkPart(Dependencies(tasks), walk, 1, |walk|);
      ClosedHoldsUpstream(tasks, to, ancestors, walk[1..]);
    }
  }

  lemma {:induction false} StillUpstream(tasks: seq<Task>, from: string, id: string, to: string)
    requires id == to || Reaches(Dependencies(tasks), id, to)
    requires (from, id) in Dependencies(tasks)
    ensures Reaches(Dependencies(tasks), from, to)
  {
    EdgeReaches(Dependencies(tasks), from, id);
    if id != to {
      ReachesTransitive(Dependencies(tasks), from, id, to);
    }
  }

  /** What the worklist knows: everything it holds is upstream, and what is missing is behind `pending`. */
  ghost predicate Searching(tasks: seq<Task>, id: string, ancestors: set<string>, pending: seq<string>) {
    && ancestors <= Members(TaskIds(tasks))
    && (forall d | d in pending :: d in TaskIds(tasks))
    && (forall d | d in ancestors || d in pending :: Reaches(Dependencies(tasks), d, id))
    && Covered(tasks, id, ancestors, pending)
    && (forall a | a in ancestors :: Covered(tasks, a, ancestors, pending))
  }

  lemma {:induction false} DirectDependencies(tasks: seq<Task>, id: string)
    requires NoDuplicates(TaskIds(tasks)) && DependenciesKnown(tasks) && id in TaskIds(tasks)
    ensures id in TasksById(tasks)
    ensures forall d :: (d, id) in Dependencies(tasks) <==> d in TasksById(tasks)[id].dependsOn
    ensures forall d | d in TasksById(tasks)[id].dependsOn :: d in TaskIds(tasks)
  {
    TasksByIdAre(tasks);
    forall d ensures (d, id) in Dependencies(tasks) <==> d in TasksById(tasks)[id].dependsOn {
      DependenciesAre(tasks, d, id);
    }
  }

  lemma {:induction false} StartSearch(tasks: seq<Task>, id: string, pending: seq<string>)
    requires NoDuplicates(TaskIds(tasks)) && DependenciesKnown(tasks) && id in TaskIds(tasks)
    requires id in TasksById(tasks) && pending == TasksById(tasks)[id].dependsOn
    ensures Searching(tasks, id, {}, pending)
  {
    hide Reaches;
    DirectDependencies(tasks, id);
    forall d | d in pending ensures Reaches(Dependencies(tasks), d, id) {
      StillUpstream(tasks, d, id, id);
    }
  }

  lemma {:induction false} SkipSeen(tasks: seq<Task>, id: string, ancestors: set<string>, rest: seq<string>, d: string)
    requires Searching(tasks, id, ancestors, rest + [d]) && d in ancestors
    ensures Searching(tasks, id, ancestors, rest)
  {
    hide Reaches, Dependencies, TaskIds;
    assert forall x :: x in rest + [d] <==> x in rest || x == d;
  }

  lemma {:induction false} CoveredAfterVisit(tasks: seq<Task>, x: string, ancestors: set<string>, rest: seq<string>,
                                             d: string, more: seq<string>)
    requires Covered(tasks, x, ancestors, rest + [d])
    ensures Covered(tasks, x, ancestors + {d}, rest + more)
  {
    hide Dependencies;
    assert forall x :: x in rest + [d] <==> x in rest || x == d;
  }

  lemma {:induction false} CoveredByVisit(tasks: seq<Task>, ancestors: set<string>, rest: seq<string>, d: string,
                                          more: seq<string>)
    requires NoDuplicates(TaskIds(tasks)) && DependenciesKnown(tasks)
    requires d in TaskIds(tasks) && d in TasksById(tasks) && more == TasksById(tasks)[d].dependsOn
    ensures Covered(tasks, d, ancestors, rest + more)
    ensures forall e | e in more :: (e, d) in Dependencies(tasks) && e in TaskIds(tasks)
  {
    DirectDependencies(tasks, d);
  }

  lemma {:induction false} VisitNew(tasks: seq<Task>, id: string, ancestors: set<string>, rest: seq<string>, d: string,
                                    more: seq<string>)
    requires NoDuplicates(TaskIds(tasks)) && DependenciesKnown(tasks)
    requires Searching(tasks, id, ancestors, rest + [d]) && d in TasksById(tasks)
             && more == TasksById(tasks)[d].dependsOn
    ensures Searching(tasks, id, ancestors + {d}, rest + more)
  {
    hide Reaches, Dependencies, TasksById, TaskIds, DependenciesKnown, NoDuplicates, Covered;
    assert d in rest + [d];
    CoveredByVisit(tasks, ancestors + {d}, rest, d, more);
    forall e | e in more ensures Reaches(Dependencies(tasks), e, id) {
      StillUpstream(tasks, e, d, id);
    }
    forall x | x == id || x in ancestors ensures Covered(tasks, x, ancestors + {d}, rest + more) {
      CoveredAfterVisit(tasks, x, ancestors, rest, d, more);
    }
    assert forall x | x in rest :: x in rest + [d];
    assert forall x :: x in rest + more <==> x in rest || x in more;
  }

  /** The worklist ends on every graph, cyclic ones included, with exactly the tasks upstream of `id`. */
  method DependencyAncestors(tasks: seq<Task>, byId: map<string, Task>, id: string) returns (ancestors: set<string>)
    requires byId == TasksById(tasks) && NoDuplicates(TaskIds(tasks)) && DependenciesKnown(tasks)
             && id in TaskIds(tasks)
    ensures forall d :: d in ancestors <==> Reaches(Dependencies(tasks), d, id)
  {
    TasksByIdAre(tasks);
    hide *;
    ancestors := {};
    var pending := byId[id].dependsOn;
    StartSearch(tasks, id, pending);
    while pending != []
      invariant Searching(tasks, id, ancestors, pending)
      decreases |Members(TaskIds(tasks)) - ancestors|, |pending|
    {
      var d := pending[|pending| - 1];
      var rest := pending[..|pending| - 1];
      assert pending == rest + [d];
      PendingIsKnown(tasks, id, ancestors, pending, d);
      if d in ancestors {
        SkipSeen(tasks, id, ancestors, rest, d);
        pending := rest;
        continue;
      }
      VisitNew(tasks, id, ancestors, rest, d, byId[d].dependsOn);
      ancestors := ancestors + {d};
      pending := rest + byId[d].dependsOn;
    }
    SearchEnds(tasks, id, ancestors);
  }

  lemma {:induction false} PendingIsKnown(tasks: seq<Task>, id: string, ancestors: set<string>, pending: seq<string>,
                                          d: string)
    requires Searching(tasks, id, ancestors, pending) && d in pending
    ensures d in TaskIds(tasks)
    ensures d !in ancestors ==>
              |Members(TaskIds(tasks)) - (ancestors + {d})| < |Members(TaskIds(tasks)) - ancestors|
  {
    if d !in ancestors {
      SmallerSet(Members(TaskIds(tasks)) - (ancestors + {d}), Members(TaskIds(tasks)) - ancestors);
    }
  }

  lemma {:induction false} SearchEnds(tasks: seq<Task>, id: string, ancestors: set<string>)
    requires Searching(tasks, id, ancestors, [])
    ensures forall d :: d in ancestors <==> Reaches(Dependencies(tasks), d, id)
  {
    forall d | Reaches(Dependencies(tasks), d, id) ensures d in ancestors {
      UpstreamIsHeld(tasks, d, id, ancestors);
    }
  }

  lemma {:induction false} UpstreamIsHeld(tasks: seq<Task>, from: string, to: string, ancestors: set<string>)
    requires Covered(tasks, to, ancestors, []) && forall a | a in ancestors :: Covered(tasks, a, ancestors, [])
    requires Reaches(Dependencies(tasks), from, to)
    ensures from in ancestors
  {
    var walk :| |walk| >= 2 && IsWalkFromTo(Dependencies(tasks), walk, from, to);
    ClosedHoldsUpstream(tasks, to, ancestors, walk);
  }

  // ----- the validator -----

  method CheckTasks(tasks: seq<Task>, names: set<string>) returns (problem: Option<GraphError>)
    ensures problem == FirstTaskProblem(tasks, names, 0)
  {
    for i := 0 to |tasks|
      invariant FirstTaskProblem(tasks, names, i) == FirstTaskProblem(tasks, names, 0)
    {
      problem := TaskProblem(tasks[i], names);
      if problem.Some? {
        return;
      }
    }
    problem := None;
  }

  lemma {:induction false} NoTaskProblem(tasks: seq<Task>, names: set<string>, i: nat)
    requires i <= |tasks| && FirstTaskProblem(tasks, names, i).None?
    ensures forall k | i <= k < |tasks| :: TaskProblem(tasks[k], names).None?
    decreases |tasks| - i
  {
    if i < |tasks| {
      NoTaskProblem(tasks, names, i + 1);
    }
  }

  /** Every listed binding has a producer, and only declared ones have. */
  ghost predicate AreProducers(tasks: seq<Task>, producers: map<string, Task>) {
    && (forall b :: b in producers <==> b in Produced(tasks))
    && (forall b | b in producers :: producers[b] in tasks && b in producers[b].outputs)
  }

  method BuildProducers(tasks: seq<Task>) returns (producers: map<string, Task>)
    ensures AreProducers(tasks, producers)
  {
    producers := map[];
    for i := 0 to |tasks|
      invariant AreProducers(tasks[..i], producers)
    {
      var t := tasks[i];
      assert tasks[..i + 1] == tasks[..i] + [t];
      for k := 0 to |t.outputs|
        invariant forall b :: b in producers <==> b in Produced(tasks[..i]) || b in t.outputs[..k]
        invariant forall b | b in producers :: producers[b] in tasks[..i + 1] && b in producers[b].outputs
      {
        assert t.outputs[..k + 1] == t.outputs[..k] + [t.outputs[k]];
        producers := producers[t.outputs[k] := t];
      }
      assert t.outputs[..|t.outputs|] == t.outputs;
    }
    assert tasks[..|tasks|] == tasks;
  }

  method CheckSubtasks(producers: map<string, Task>, byName: map<string, Binding>) returns (ok: bool)
    requires producers.Keys <= byName.Keys
    ensures ok <==> forall b | b in producers :: producers[b].subtaskId == byName[b].subtaskId
  {
    var rest := producers.Keys;
    while rest != {}
      invariant forall b | b in producers && b !in rest :: producers[b].subtaskId == byName[b].subtaskId
      invariant rest <= producers.Keys
      decreases |rest|
    {
      var b :| b in rest;
      rest := rest - {b};
      if producers[b].subtaskId != byName[b].subtaskId {
        return false;
      }
    }
    ok := true;
  }

  /** What is known of a graph once its ids, edges, lists and producers are accepted. */
  ghost predicate WellFormed(g: Graph) {
    && NoDuplicates(TaskIds(g.tasks))
    && NoDuplicates(Names(g.bindings))
    && NoDuplicates(Produced(g.tasks))
    && DependenciesKnown(g.tasks)
    && (forall t, b | t in g.tasks && b in t.inputs :: b in Produced(g.tasks))
    && (forall b :: b in Produced(g.tasks) <==> b in Names(g.bindings))
  }

  lemma {:induction false} KnownDependencies(tasks: seq<Task>)
    requires Verdict(Members(TaskIds(tasks)), DependencyEdges(tasks)).None?
    ensures DependenciesKnown(tasks)
  {
    var nodes, edges := Members(TaskIds(tasks)), DependencyEdges(tasks);
    NoProblemMeansKnown(nodes, edges, 0);
    forall t, d | t in tasks && d in t.dependsOn ensures d in TaskIds(tasks) {
      assert IsDependency(tasks, d, t.taskId);
      DependenciesAre(tasks, d, t.taskId);
      var i :| 0 <= i < |edges| && edges[i] == (d, t.taskId);
    }
  }

  lemma {:induction false} BecomesWellFormed(g: Graph)
    requires NoDuplicates(TaskIds(g.tasks)) && NoDuplicates(Names(g.bindings)) && NoDuplicates(Produced(g.tasks))
    requires DependenciesKnown(g.tasks) && FirstTaskProblem(g.tasks, Members(Names(g.bindings)), 0).None?
    requires Members(Names(g.bindings)) <= Members(Produced(g.tasks))
    ensures WellFormed(g)
  {
    hide NoDuplicates, TaskIds, Names, DependenciesKnown, Produced, FirstTaskProblem;
    var names := Members(Names(g.bindings));
    NoTaskProblem(g.tasks, names, 0);
    forall t | t in g.tasks
      ensures (forall b | b in t.inputs :: b in names) && (forall b | b in t.outputs :: b in names)
    {
      var k :| 0 <= k < |g.tasks| && g.tasks[k] == t;
      assert forall b | b in t.inputs :: b in Members(t.inputs);
      assert forall b | b in t.outputs :: b in Members(t.outputs);
    }
    forall b ensures b in Produced(g.tasks) <==> b in Names(g.bindings) {
      ProducedAre(g.tasks, b);
      assert b in Produced(g.tasks) <==> b in Members(Produced(g.tasks));
    }
  }

  lemma {:induction false} SubtasksMeanSame(g: Graph, producers: map<string, Task>, byName: map<string, Binding>)
    requires WellFormed(g) && AreProducers(g.tasks, producers) && byName == BindingsByName(g.bindings)
    ensures producers.Keys == byName.Keys
    ensures ProducedInSubtask(g) <==> forall b | b in producers :: producers[b].subtaskId == byName[b].subtaskId
  {
    hide Produced, NoDuplicates, Names, TaskIds, DependenciesKnown, BindingsByName;
    BindingsByNameAre(g.bindings);
    assert forall b :: b in producers.Keys <==> b in byName.Keys;
    forall p, b | p in g.tasks && b in g.bindings && b.name in p.outputs
      ensures b.name in producers && producers[b.name] == p && byName[b.name] == b
    {
      ProducedAre(g.tasks, b.name);
      OneProducer(g.tasks, p, producers[b.name], b.name);
    }
  }

  /** Each input of one task has its producer among the ancestors. */
  method CheckInputs(t: Task, producers: map<string, Task>, ancestors: set<string>) returns (ok: bool)
    requires forall b | b in t.inputs :: b in producers
    ensures ok <==> forall b | b in t.inputs :: producers[b].taskId in ancestors
  {
    for k := 0 to |t.inputs|
      invariant forall b | b in t.inputs[..k] :: producers[b].taskId in ancestors
    {
      assert t.inputs[..k + 1] == t.inputs[..k] + [t.inputs[k]];
      if producers[t.inputs[k]].taskId !in ancestors {
        return false;
      }
    }
    assert t.inputs[..|t.inputs|] == t.inputs;
    ok := true;
  }

  ghost predicate InputsReached(tasks: seq<Task>, t: Task) {
    forall p | p in tasks :: ConsumersDependOn(tasks, t, p)
  }

  lemma {:induction false} InputsMeanSame(g: Graph, t: Task, producers: map<string, Task>, ancestors: set<string>)
    requires WellFormed(g) && AreProducers(g.tasks, producers) && t in g.tasks
    requires forall d :: d in ancestors <==> Reaches(Dependencies(g.tasks), d, t.taskId)
    ensures forall b | b in t.inputs :: b in producers
    ensures InputsReached(g.tasks, t) <==> forall b | b in t.inputs :: producers[b].taskId in ancestors
  {
    hide Reaches, Dependencies, Produced, NoDuplicates, Names, TaskIds, DependenciesKnown;
    forall p, b | p in g.tasks && b in t.inputs && b in p.outputs ensures producers[b] == p {
      OneProducer(g.tasks, p, producers[b], b);
    }
    forall b | b in t.inputs && InputsReached(g.tasks, t) ensures producers[b].taskId in ancestors {
      assert ConsumersDependOn(g.tasks, t, producers[b]);
    }
  }

  method CheckConsumers(g: Graph, byId: map<string, Task>, producers: map<string, Task>) returns (ok: bool)
    requires WellFormed(g) && AreProducers(g.tasks, producers) && byId == TasksById(g.tasks)
    ensures ok <==> ConsumersDepend(g.tasks)
  {
    hide Reaches, AreProducers, NoDuplicates, DependenciesKnown, Produced, Names, ConsumersDependOn;
    for i := 0 to |g.tasks|
      invariant forall k | 0 <= k < i :: InputsReached(g.tasks, g.tasks[k])
    {
      var t := g.tasks[i];
      assert TaskIds(g.tasks)[i] == t.taskId;
      var ancestors := DependencyAncestors(g.tasks, byId, t.taskId);
      InputsMeanSame(g, t, producers, ancestors);
      ok := CheckInputs(t, producers, ancestors);
      if !ok {
        return;
      }
    }
    ok := true;
  }

  method CheckConnected(tasks: seq<Task>, byId: map<string, Task>, path: seq<string>) returns (ok: bool)
    requires byId == TasksById(tasks) && NoDuplicates(TaskIds(tasks)) && DependenciesKnown(tasks)
    requires forall id | id in path :: id in TaskIds(tasks)
    ensures ok <==> IsConnected(tasks, path)
  {
    hide TaskIds, NoDuplicates, DependenciesKnown, IsDependency, TasksById;
    var i := 0;
    while i + 1 < |path|
      invariant 0 <= i && (path != [] ==> i < |path|)
      invariant forall k, j | 0 <= k < i && j == k + 1 < |path| :: IsDependency(tasks, path[k], path[j])
    {
      DirectDependencies(tasks, path[i + 1]);
      DependenciesAre(tasks, path[i], path[i + 1]);
      if path[i] !in byId[path[i + 1]].dependsOn {
        return false;
      }
      i := i + 1;
    }
    ok := true;
  }

  method SumBudgets(tasks: seq<Task>, byId: map<string, Task>, path: seq<string>) returns (sum: int)
    requires byId == TasksById(tasks) && forall id | id in path :: id in byId
    ensures sum == PathBudget(tasks, path)
  {
    sum := 0;
    for i := 0 to |path|
      invariant sum == PathBudget(tasks, path[..i])
    {
      assert path[..i + 1][..i] == path[..i];
      sum := sum + byId[path[i]].budgetMs;
    }
    assert path[..|path|] == path;
  }

  method CheckBindings(g: Graph) returns (problem: Option<GraphError>)
    requires NoDuplicates(TaskIds(g.tasks)) && NoDuplicates(Names(g.bindings)) && DependenciesKnown(g.tasks)
    requires FirstTaskProblem(g.tasks, Members(Names(g.bindings)), 0).None?
    ensures problem == BindingProblem(g)
  {
    hide NoDuplicates, DependenciesKnown, FirstTaskProblem, AreProducers, ProducedInSubtask, ConsumersDepend,
         WellFormed;
    var unique := RequireUniqueIds(Produced(g.tasks));
    if !unique { return Some(DuplicateProducers); }
    if !(Members(Names(g.bindings)) <= Members(Produced(g.tasks))) { return Some(MissingProducers); }
    BecomesWellFormed(g);
    var producers := BuildProducers(g.tasks);
    var byName := BindingsByName(g.bindings);
    SubtasksMeanSame(g, producers, byName);
    var ok := CheckSubtasks(producers, byName);
    if !ok { return Some(WrongSubtask); }
    ok := CheckConsumers(g, TasksById(g.tasks), producers);
    problem := if ok then None else Some(IndependentConsumer);
  }

  method CheckCriticalPath(g: Graph) returns (problem: Option<GraphError>)
    requires NoDuplicates(TaskIds(g.tasks)) && DependenciesKnown(g.tasks)
    ensures problem == BudgetProblem(g)
  {
    hide NoDuplicates, DependenciesKnown, IsConnected;
    var unique := RequireUniqueIds(g.criticalPath);
    if !unique { return Some(DuplicateCritical); }
    if !(Members(g.criticalPath) <= Members(TaskIds(g.tasks))) { return Some(UnknownCritical); }
    var byId := TasksById(g.tasks);
    assert forall id | id in g.criticalPath :: id in TaskIds(g.tasks) && id in byId by {
      assert forall id | id in g.criticalPath :: id in Members(g.criticalPath);
      TasksByIdAre(g.tasks);
    }
    hide Members;
    var ok := CheckConnected(g.tasks, byId, g.criticalPath);
    if !ok { return Some(BrokenCritical); }
    var budget := SumBudgets(g.tasks, byId, g.criticalPath);
    if budget > g.totalBudgetMs { return Some(CriticalOverBudget); }
    problem := if exists t :: t in g.tasks && t.budgetMs > g.totalBudgetMs then Some(TaskOverBudget) else None;
  }

  /** Refuses a graph for the first problem that the specification finds, and only then. */
  method ValidateGraph(g: Graph) returns (problem: Option<GraphError>)
    ensures problem == GraphProblem(g)
  {
    var taskIds, names := TaskIds(g.tasks), Names(g.bindings);
    var unique := RequireUniqueIds(taskIds);
    if !unique { return Some(DuplicateTasks); }
    unique := RequireUniqueIds(names);
    if !unique { return Some(DuplicateBindings); }
    var edgeError, _ := RequireAcyclicEdges(Members(taskIds), DependencyEdges(g.tasks));
    if edgeError.Some? { return Some(BadEdges(edgeError.value)); }
    problem := CheckTasks(g.tasks, Members(names));
    if problem.Some? { return; }
    KnownDependencies(g.tasks);
    hide Verdict, FirstTaskProblem;
    problem := CheckBindings(g);
    if problem.None? {
      problem := CheckCriticalPath(g);
    }
  }

  // ----- what acceptance means -----

  /** The running total of the budgets along a path: each step adds the budget of the task with the next id. */
  ghost predicate IsRunningTotal(tasks: seq<Task>, path: seq<string>, totals: seq<int>) {
    && |totals| == |path| + 1 && totals[0] == 0
    && forall i, j | 0 <= i < |path| && j == i + 1 :: AddsBudget(tasks, path[i], totals[i], totals[j])
  }

  ghost predicate AddsBudget(tasks: seq<Task>, id: string, before: int, after: int) {
    exists t :: t in tasks && t.taskId == id && after == before + t.budgetMs
  }

  lemma {:induction false} BudgetOfTask(tasks: seq<Task>, id: string, before: int, after: int)
    requires NoDuplicates(TaskIds(tasks)) && id in TaskIds(tasks)
    ensures id in TasksById(tasks)
    ensures AddsBudget(tasks, id, before, after) <==> after == before + TasksById(tasks)[id].budgetMs
  {
    TasksByIdAre(tasks);
  }

  /** Along known tasks there is one running total, and the path's budget is what it ends with. */
  lemma {:induction false} PathBudgetIsExact(tasks: seq<Task>, path: seq<string>) returns (totals: seq<int>)
    requires NoDuplicates(TaskIds(tasks)) && forall id | id in path :: id in TaskIds(tasks)
    ensures IsRunningTotal(tasks, path, totals) && totals[|path|] == PathBudget(tasks, path)
    ensures forall other | IsRunningTotal(tasks, path, other) :: other[|path|] == PathBudget(tasks, path)
  {
    hide TaskIds, NoDuplicates, AddsBudget, TasksById;
    if path == [] {
      totals := [0];
    } else {
      var front, last := path[..|path| - 1], path[|path| - 1];
      var before := PathBudgetIsExact(tasks, front);
      BudgetOfTask(tasks, last, before[|front|], PathBudget(tasks, path));
      totals := before + [PathBudget(tasks, path)];
      forall other | IsRunningTotal(tasks, path, other) ensures other[|path|] == PathBudget(tasks, path) {
        assert IsRunningTotal(tasks, front, other[..|path|]);
        BudgetOfTask(tasks, last, other[|front|], other[|path|]);
        assert AddsBudget(tasks, path[|front|], other[|front|], other[|path|]);
      }
    }
  }

  /** The budgets along the path add up to at most the total. */
  ghost predicate PathFits(g: Graph) {
    exists totals: seq<int> :: IsRunningTotal(g.tasks, g.criticalPath, totals)
                               && totals[|g.criticalPath|] <= g.totalBudgetMs
  }

  /** A task's lists repeat nothing, name declared bindings, and share none. */
  ghost predicate HasGoodLists(g: Graph, t: Task) {
    && NoDuplicates(t.inputs) && NoDuplicates(t.outputs)
    && (forall b | b in t.inputs || b in t.outputs :: b in Names(g.bindings))
    && (forall b | b in t.inputs :: b !in t.outputs)
  }

  /** Dependencies name other tasks, no two of them share a label, and they form no cycle. */
  ghost predicate HasGoodEdges(g: Graph) {
    && NoDuplicates(Labels(DependencyEdges(g.tasks)))
    && (forall from, to | IsDependency(g.tasks, from, to) :: from in TaskIds(g.tasks) && from != to)
    && !HasCycle(Dependencies(g.tasks))
  }

  /** Every declared binding is produced once, in its own subtask, upstream of all its consumers. */
  ghost predicate HasGoodBindings(g: Graph) {
    && NoDuplicates(Produced(g.tasks))
    && (forall s | s in g.bindings :: s.name in Produced(g.tasks))
    && ProducedInSubtask(g) && ConsumersDepend(g.tasks)
  }

  /** The critical path goes through known tasks, each once, along direct dependencies, and within the budget,
      in which every single task stays too. */
  ghost predicate HasGoodPath(g: Graph) {
    && NoDuplicates(g.criticalPath) && (forall id | id in g.criticalPath :: id in TaskIds(g.tasks))
    && IsConnected(g.tasks, g.criticalPath) && PathFits(g)
    && forall t | t in g.tasks :: t.budgetMs <= g.totalBudgetMs
  }

  lemma {:induction false} ListsAccepted(g: Graph)
    ensures FirstTaskProblem(g.tasks, Members(Names(g.bindings)), 0).None?
       <==> forall t | t in g.tasks :: HasGoodLists(g, t)
  {
    hide Names, FirstTaskProblem, TaskProblem, HasGoodLists, Members;
    var names := Members(Names(g.bindings));
    AllTasksChecked(g.tasks, names, 0);
    forall t | t in g.tasks ensures TaskProblem(t, names).None? <==> HasGoodLists(g, t) {
      OneTaskChecked(g, t);
    }
    assert forall t | t in g.tasks :: exists k :: 0 <= k < |g.tasks| && g.tasks[k] == t;
  }

  lemma {:induction false} AllTasksChecked(tasks: seq<Task>, names: set<string>, i: nat)
    requires i <= |tasks|
    ensures FirstTaskProblem(tasks, names, i).None? <==>
              forall k | i <= k < |tasks| :: TaskProblem(tasks[k], names).None?
    decreases |tasks| - i
  {
    if i < |tasks| {
      AllTasksChecked(tasks, names, i + 1);
    }
  }

  lemma {:induction false} OneTaskChecked(g: Graph, t: Task)
    ensures TaskProblem(t, Members(Names(g.bindings))).None? <==> HasGoodLists(g, t)
  {
    hide Names, NoDuplicates;
    MembersCount(t.inputs);
    MembersCount(t.outputs);
    var names := Members(Names(g.bindings));
    assert Members(t.inputs) <= names <==> forall b | b in t.inputs :: b in Names(g.bindings) by {
      assert forall b :: b in t.inputs <==> b in Members(t.inputs);
    }
    assert Members(t.outputs) <= names <==> forall b | b in t.outputs :: b in Names(g.bindings) by {
      assert forall b :: b in t.outputs <==> b in Members(t.outputs);
    }
    assert Members(t.inputs) * Members(t.outputs) == {} <==> forall b | b in t.inputs :: b !in t.outputs by {
      assert forall b :: b in Members(t.inputs) * Members(t.outputs) <==> b in t.inputs && b in t.outputs;
    }
  }

  lemma {:induction false} EdgesAccepted(g: Graph)
    ensures Verdict(Members(TaskIds(g.tasks)), DependencyEdges(g.tasks)).None? <==> HasGoodEdges(g)
  {
    hide TaskIds, DependencyEdges, NoDuplicates, HasCycle, Labels, EdgeProblem;
    var nodes, edges := Members(TaskIds(g.tasks)), DependencyEdges(g.tasks);
    NoProblemMeansKnown(nodes, edges, 0);
    forall from, to ensures (from, to) in edges <==> IsDependency(g.tasks, from, to) {
      DependenciesAre(g.tasks, from, to);
    }
    hide IsDependency;
    forall k | 0 <= k < |edges| ensures IsDependency(g.tasks, edges[k].0, edges[k].1) && edges[k].1 in nodes {
      assert (edges[k].0, edges[k].1) in edges;
      TargetIsTask(g.tasks, edges[k].0, edges[k].1);
    }
    forall from, to | IsDependency(g.tasks, from, to)
      ensures exists k :: 0 <= k < |edges| && edges[k].0 == from && edges[k].1 == to
    {
      var k :| 0 <= k < |edges| && edges[k] == (from, to);
    }
  }

  lemma {:induction false} TargetIsTask(tasks: seq<Task>, from: string, to: string)
    requires IsDependency(tasks, from, to)
    ensures to in TaskIds(tasks)
  {
    var t :| t in tasks && t.taskId == to;
    var k :| 0 <= k < |tasks| && tasks[k] == t;
    assert TaskIds(tasks)[k] == to;
  }

  lemma {:induction false} BindingsAccepted(g: Graph)
    ensures BindingProblem(g).None? <==> HasGoodBindings(g)
  {
    hide Produced, NoDuplicates, ProducedInSubtask, ConsumersDepend, Names;
    assert Members(Names(g.bindings)) <= Members(Produced(g.tasks))
      <==> forall s | s in g.bindings :: s.name in Produced(g.tasks)
    by {
      NamesAre(g.bindings);
      assert forall n :: n in Members(Produced(g.tasks)) <==> n in Produced(g.tasks);
      assert forall n :: n in Members(Names(g.bindings)) <==> n in Names(g.bindings);
    }
  }

  lemma {:induction false} NamesAre(bindings: seq<Binding>)
    ensures forall n :: n in Names(bindings) <==> exists s :: s in bindings && s.name == n
  {
    forall s | s in bindings ensures s.name in Names(bindings) {
      var k :| 0 <= k < |bindings| && bindings[k] == s;
      assert Names(bindings)[k] == s.name;
    }
    forall n | n in Names(bindings) ensures exists s :: s in bindings && s.name == n {
      var k :| 0 <= k < |bindings| && Names(bindings)[k] == n;
      assert bindings[k] in bindings;
    }
  }

  lemma {:induction false} PathAccepted(g: Graph)
    requires NoDuplicates(TaskIds(g.tasks))
    ensures BudgetProblem(g).None? <==> HasGoodPath(g)
  {
    hide TaskIds, NoDuplicates, IsConnected, IsRunningTotal, PathBudget;
    assert Members(g.criticalPath) <= Members(TaskIds(g.tasks))
      <==> forall id | id in g.criticalPath :: id in TaskIds(g.tasks)
    by {
      assert forall id :: id in Members(g.criticalPath) <==> id in g.criticalPath;
      assert forall id :: id in Members(TaskIds(g.tasks)) <==> id in TaskIds(g.tasks);
    }
    if forall id | id in g.criticalPath :: id in TaskIds(g.tasks) {
      var totals := PathBudgetIsExact(g.tasks, g.criticalPath);
    }
  }

  /** A graph is accepted exactly when its ids and binding names are distinct, and its edges, its tasks' lists,
      its bindings and its critical path are good. */
  lemma {:induction false} AcceptanceIsExact(g: Graph)
    ensures GraphProblem(g).None?
       <==> && NoDuplicates(TaskIds(g.tasks)) && NoDuplicates(Names(g.bindings))
            && HasGoodEdges(g) && (forall t | t in g.tasks :: HasGoodLists(g, t))
            && HasGoodBindings(g) && HasGoodPath(g)
  {
    hide NoDuplicates, TaskIds, Names, HasGoodEdges, HasGoodLists, HasGoodBindings, HasGoodPath, Verdict,
         FirstTaskProblem, BindingProblem, BudgetProblem;
    EdgesAccepted(g);
    ListsAccepted(g);
    BindingsAccepted(g);
    if NoDuplicates(TaskIds(g.tasks)) {
      PathAccepted(g);
    }
  }

  // ----- schedules -----

  /** A run order in which every task comes after all its direct dependencies. */
  ghost predicate RespectsDependencies(tasks: seq<Task>, order: seq<string>) {
    forall i, d | 0 <= i < |order| && IsDependency(tasks, d, order[i]) :: d in order[..i]
  }

  lemma {:induction false} UpstreamRunsBefore(tasks: seq<Task>, order: seq<string>, walk: seq<string>, j: nat)
    requires RespectsDependencies(tasks, order) && j < |order|
    requires |walk| >= 2 && IsWalk(Dependencies(tasks), walk) && walk[|walk| - 1] == order[j]
    ensures walk[0] in order[..j]
    decreases |walk|
  {
    var n := |walk| - 1;
    assert (walk[n - 1], walk[n]) in Dependencies(tasks);
    DependenciesAre(tasks, walk[n - 1], walk[n]);
    assert walk[n - 1] in order[..j];
    if n > 1 {
      var i :| 0 <= i < j && order[i] == walk[n - 1];
      WalkPart(Dependencies(tasks), walk, 0, n);
      UpstreamRunsBefore(tasks, order, walk[0..n], i);
      assert order[..i] <= order[..j];
    }
  }

  lemma {:induction false} AcceptedIsWellFormed(g: Graph)
    requires GraphProblem(g).None?
    ensures WellFormed(g) && ProducedInSubtask(g) && ConsumersDepend(g.tasks)
    ensures !HasCycle(Dependencies(g.tasks))
  {
    hide ProducedInSubtask, ConsumersDepend, NoDuplicates, WellFormed, HasCycle, FirstTaskProblem, IsConnected;
    KnownDependencies(g.tasks);
    BecomesWellFormed(g);
  }

  /** `p` is the one producer of binding `b`, in the subtask that b's declaration names. */
  ghost predicate IsTheProducer(g: Graph, p: Task, b: string) {
    && p in g.tasks && b in p.outputs
    && (forall q | q in g.tasks && b in q.outputs :: q == p)
    && (exists s :: s in g.bindings && s.name == b && s.subtaskId == p.subtaskId)
  }

  lemma {:induction false} ProducerExists(g: Graph, b: string) returns (p: Task)
    requires WellFormed(g) && ProducedInSubtask(g) && b in Names(g.bindings)
    ensures IsTheProducer(g, p, b)
  {
    hide NoDuplicates, DependenciesKnown, TaskIds;
    assert b in Produced(g.tasks);
    ProducedAre(g.tasks, b);
    p :| p in g.tasks && b in p.outputs;
    forall q | q in g.tasks && b in q.outputs ensures q == p {
      OneProducer(g.tasks, p, q, b);
    }
    var k :| 0 <= k < |g.bindings| && g.bindings[k].name == b;
    assert g.bindings[k] in g.bindings;
  }

  /** In every order that respects direct dependencies, the producer of each input runs before its consumer. */
  lemma {:induction false} ProducersRunFirst(g: Graph, order: seq<string>, j: nat, t: Task, b: string) returns (p: Task)
    requires GraphProblem(g).None? && RespectsDependencies(g.tasks, order)
    requires j < |order| && t in g.tasks && order[j] == t.taskId && b in t.inputs
    ensures IsTheProducer(g, p, b) && p.taskId in order[..j]
  {
    hide GraphProblem, RespectsDependencies, ProducedInSubtask, Dependencies;
    AcceptedIsWellFormed(g);
    p := ProducerExists(g, b);
    assert ConsumersDependOn(g.tasks, t, p);
    var walk :| |walk| >= 2 && IsWalkFromTo(Dependencies(g.tasks), walk, p.taskId, t.taskId);
    UpstreamRunsBefore(g.tasks, order, walk, j);
  }

  /** An accepted graph can be scheduled: all its tasks, each once, after their dependencies. */
  lemma {:induction false} ScheduleExists(g: Graph) returns (order: seq<string>)
    requires GraphProblem(g).None?
    ensures RespectsDependencies(g.tasks, order) && NoDuplicates(order)
    ensures forall id :: id in order <==> id in TaskIds(g.tasks)
  {
    hide GraphProblem, ProducedInSubtask, ConsumersDepend, HasCycle;
    AcceptedIsWellFormed(g);
    order := AcyclicHasOrder(Members(TaskIds(g.tasks)), Dependencies(g.tasks));
    hide Dependencies;
    assert forall id :: id in Members(TaskIds(g.tasks)) <==> id in TaskIds(g.tasks);
    forall i, d | 0 <= i < |order| && IsDependency(g.tasks, d, order[i]) ensures d in order[..i] {
      DependenciesAre(g.tasks, d, order[i]);
      assert d in order;
      var k :| 0 <= k < |order| && order[k] == d;
      assert k < i;
    }
  }

  // ----- tool results -----

  datatype Value = Scalar(text: string) | Tuple(items: seq<string>)

  datatype BindingValue = BindingValue(name: string, valueType: string, value: Value)

  datatype ToolResult = ToolResult(runtime: Runtime, taskId: string, success: bool, outputType: string,
                                   values: seq<BindingValue>)

  datatype ResultError =
    | RuntimeMismatch | UnknownTask | WrongOutputType
    | UndeclaredOutput | WrongValueType | TupleForOne | ScalarForMany

  /** What a tool result already satisfies on its own. */
  ghost predicate IsToolResult(r: ToolResult) {
    && (!r.success ==> r.values == [])
    && (forall i, j | 0 <= i < j < |r.values| :: r.values[i].name != r.values[j].name)
  }

  /** A value is of the type and the cardinality that a binding declares. */
  predicate Fits(v: BindingValue, b: Binding) {
    v.valueType == b.valueType && (b.cardinality.Many? <==> v.value.Tuple?)
  }

  function ValueProblem(t: Task, byName: map<string, Binding>, v: BindingValue): (r: Option<ResultError>)
    ensures r.None? <==> v.name in t.outputs && v.name in byName && Fits(v, byName[v.name])
    ensures r == Some(UndeclaredOutput) <==> v.name !in t.outputs || v.name !in byName
  {
    if v.name !in t.outputs || v.name !in byName then Some(UndeclaredOutput)
    else
      var b := byName[v.name];
      if v.valueType != b.valueType then Some(WrongValueType)
      else if b.cardinality.One? && v.value.Tuple? then Some(TupleForOne)
      else if b.cardinality.Many? && !v.value.Tuple? then Some(ScalarForMany)
      else None
  }

  function FirstValueProblem(t: Task, byName: map<string, Binding>, values: seq<BindingValue>,
                             i: nat): Option<ResultError>
    requires i <= |values|
    decreases |values| - i
  {
    if i == |values| then None
    else if ValueProblem(t, byName, values[i]).Some? then ValueProblem(t, byName, values[i])
    else FirstValueProblem(t, byName, values, i + 1)
  }

  function ResultProblem(g: Graph, r: ToolResult): Option<ResultError> {
    if g.runtime != r.runtime then Some(RuntimeMismatch)
    else if r.taskId !in TasksById(g.tasks) then Some(UnknownTask)
    else if r.outputType != TasksById(g.tasks)[r.taskId].outputType then Some(WrongOutputType)
    else FirstValueProblem(TasksById(g.tasks)[r.taskId], BindingsByName(g.bindings), r.values, 0)
  }

  lemma {:induction false} NoValueProblem(t: Task, byName: map<string, Binding>, values: seq<BindingValue>, i: nat)
    requires i <= |values|
    ensures FirstValueProblem(t, byName, values, i).None? <==>
              forall k | i <= k < |values| :: ValueProblem(t, byName, values[k]).None?
    decreases |values| - i
  {
    if i < |values| {
      NoValueProblem(t, byName, values, i + 1);
    }
  }

  /** A result is compatible exactly when it shares the graph's identifying fields, is of a task of the graph and
      of that task's output type, and every value it carries is an output of the task and fits its declaration. */
  lemma {:induction false} CompatibleExactly(g: Graph, r: ToolResult)
    requires GraphProblem(g).None?
    ensures ResultProblem(g, r).None?
       <==> && g.runtime == r.runtime
            && exists t :: t in g.tasks && t.taskId == r.taskId && t.outputType == r.outputType
                           && forall k | 0 <= k < |r.values| :: IsOutputOf(g, t, r.values[k])
  {
    AcceptedIsWellFormed(g);
    hide GraphProblem, ConsumersDepend, DependenciesKnown, Produced, ProducedInSubtask;
    TasksByIdAre(g.tasks);
    BindingsByNameAre(g.bindings);
    hide NoDuplicates, TaskIds, Names, TasksById, BindingsByName;
    if r.taskId in TasksById(g.tasks) {
      var t, byName := TasksById(g.tasks)[r.taskId], BindingsByName(g.bindings);
      NoValueProblem(t, byName, r.values, 0);
      forall v ensures ValueProblem(t, byName, v).None? <==> IsOutputOf(g, t, v) {
        assert v.name in byName ==> byName[v.name] in g.bindings;
      }
    }
  }

  /** The value is an output of the task and fits the declaration of its binding. */
  ghost predicate IsOutputOf(g: Graph, t: Task, v: BindingValue) {
    v.name in t.outputs && exists s :: s in g.bindings && s.name == v.name && Fits(v, s)
  }

  /** Checks a result against an accepted graph: the loop stops at the first value that does not fit. */
  method ValidateToolResult(g: Graph, r: ToolResult) returns (problem: Option<ResultError>)
    requires GraphProblem(g).None?
    ensures problem == ResultProblem(g, r)
  {
    if g.runtime != r.runtime { return Some(RuntimeMismatch); }
    hide GraphProblem;
    var byId, byName := TasksById(g.tasks), BindingsByName(g.bindings);
    if r.taskId !in byId { return Some(UnknownTask); }
    var t := byId[r.taskId];
    OutputsAreDeclared(g, t.taskId);
    hide TasksById, BindingsByName;
    if r.outputType != t.outputType { return Some(WrongOutputType); }
    var declared := Members(t.outputs);
    for i := 0 to |r.values|
      invariant FirstValueProblem(t, byName, r.values, i) == FirstValueProblem(t, byName, r.values, 0)
    {
      var v := r.values[i];
      if v.name !in declared { return Some(UndeclaredOutput); }
      var b := byName[v.name];
      if v.valueType != b.valueType { return Some(WrongValueType); }
      if b.cardinality == One && v.value.Tuple? { return Some(TupleForOne); }
      if b.cardinality == Many && !v.value.Tuple? { return Some(ScalarForMany); }
    }
    problem := None;
  }

  lemma {:induction false} OutputsAreDeclared(g: Graph, id: string)
    requires GraphProblem(g).None?
    ensures id in TaskIds(g.tasks) ==>
              id in TasksById(g.tasks) && forall b | b in TasksById(g.tasks)[id].outputs ::
                  b in BindingsByName(g.bindings)
    ensures forall id | id in TasksById(g.tasks) :: TasksById(g.tasks)[id].taskId == id && id in TaskIds(g.tasks)
  {
    AcceptedIsWellFormed(g);
    hide GraphProblem, ProducedInSubtask, ConsumersDepend, NoDuplicates, DependenciesKnown;
    TasksByIdAre(g.tasks);
    BindingsByNameAre(g.bindings);
    if id in TaskIds(g.tasks) {
      forall b | b in TasksById(g.tasks)[id].outputs ensures b in BindingsByName(g.bindings) {
        ProducedAre(g.tasks, b);
      }
    }
  }

  // ----- the store of binding values -----

  datatype Entry = Entry(value: BindingValue, taskId: string)

  function Put(store: map<string, Entry>, r: ToolResult, n: nat): map<string, Entry>
    requires n <= |r.values|
  {
    if n == 0 then store
    else Put(store, r, n - 1)[r.values[n - 1].name := Entry(r.values[n - 1], r.taskId)]
  }

  /** The values that the compatible ones among the results leave behind. */
  function Store(g: Graph, results: seq<ToolResult>): map<string, Entry> {
    if results == [] then map[]
    else
      var before, r := Store(g, results[..|results| - 1]), results[|results| - 1];
      if ResultProblem(g, r).None? then Put(before, r, |r.values|) else before
  }

  lemma {:induction false} PutHas(store: map<string, Entry>, r: ToolResult, n: nat)
    requires IsToolResult(r) && n <= |r.values|
    ensures forall k | 0 <= k < n ::
              r.values[k].name in Put(store, r, n) && Put(store, r, n)[r.values[k].name] == Entry(r.values[k], r.taskId)
    ensures forall b | b in Put(store, r, n) ::
              || (exists k :: 0 <= k < n && r.values[k].name == b)
              || (b in store && Put(store, r, n)[b] == store[b])
    ensures forall b | b in store :: b in Put(store, r, n)
  {
    if n > 0 {
      PutHas(store, r, n - 1);
    }
  }

  /** A stored value fits its declaration and was put there by the one producer of its binding. */
  ghost predicate IsDeclared(g: Graph, b: string, e: Entry) {
    && e.value.name == b
    && (exists s :: s in g.bindings && s.name == b && Fits(e.value, s))
    && (exists p :: IsTheProducer(g, p, b) && p.taskId == e.taskId)
  }

  lemma {:induction false} CompatibleIsDeclared(g: Graph, r: ToolResult, k: nat)
    requires GraphProblem(g).None? && ResultProblem(g, r).None? && k < |r.values|
    ensures IsDeclared(g, r.values[k].name, Entry(r.values[k], r.taskId))
  {
    AcceptedIsWellFormed(g);
    hide GraphProblem, ConsumersDepend, NoDuplicates, DependenciesKnown, Produced, ProducedInSubtask;
    TasksByIdAre(g.tasks);
    BindingsByNameAre(g.bindings);
    var t, byName, v := TasksById(g.tasks)[r.taskId], BindingsByName(g.bindings), r.values[k];
    NoValueProblem(t, byName, r.values, 0);
    assert ValueProblem(t, byName, v).None?;
    var p := ProducerExists(g, v.name);
    assert t in g.tasks && v.name in t.outputs;
    assert byName[v.name] in g.bindings;
  }

  /** Whatever results arrive, in whatever order, the store holds only declared values. */
  lemma {:induction false} StoreHoldsDeclared(g: Graph, results: seq<ToolResult>)
    requires GraphProblem(g).None? && forall r | r in results :: IsToolResult(r)
    ensures forall b | b in Store(g, results) :: IsDeclared(g, b, Store(g, results)[b])
  {
    if results != [] {
      hide GraphProblem, IsDeclared, ResultProblem, IsToolResult;
      var front, r := results[..|results| - 1], results[|results| - 1];
      StoreHoldsDeclared(g, front);
      if ResultProblem(g, r).None? {
        PutHas(Store(g, front), r, |r.values|);
        forall k | 0 <= k < |r.values| ensures IsDeclared(g, r.values[k].name, Entry(r.values[k], r.taskId)) {
          CompatibleIsDeclared(g, r, k);
        }
      }
    }
  }

  /** A compatible result with a value for every binding its task declares. */
  ghost predicate Delivers(g: Graph, r: ToolResult) {
    && IsToolResult(r) && ResultProblem(g, r).None?
    && forall b | b in TasksById(g.tasks)[r.taskId].outputs :: exists k :: 0 <= k < |r.values| && r.values[k].name == b
  }

  lemma {:induction false} DeliveredStays(g: Graph, results: seq<ToolResult>, i: nat, p: Task, b: string)
    requires forall r | r in results :: Delivers(g, r)
    requires i < |results| && results[i].taskId in TasksById(g.tasks) && TasksById(g.tasks)[results[i].taskId] == p
             && b in p.outputs
    ensures b in Store(g, results)
  {
    hide ResultProblem, IsToolResult;
    var front, r := results[..|results| - 1], results[|results| - 1];
    assert r in results && Delivers(g, r);
    PutHas(Store(g, front), r, |r.values|);
    if i < |front| {
      DeliveredStays(g, front, i, p, b);
    }
  }

  /** When the tasks run in an order that respects dependencies and each delivers, every task finds all
      its inputs in the store, of the declared type and cardinality, put there by the right producer. */
  lemma {:induction false} InputsAreReady(g: Graph, order: seq<string>, results: seq<ToolResult>, j: nat, t: Task,
                                          b: string)
    requires GraphProblem(g).None? && RespectsDependencies(g.tasks, order)
    requires j == |results| < |order| && t in g.tasks && order[j] == t.taskId && b in t.inputs
    requires forall i | 0 <= i < j :: results[i].taskId == order[i] && Delivers(g, results[i])
    ensures b in Store(g, results) && IsDeclared(g, b, Store(g, results)[b])
  {
    hide GraphProblem, RespectsDependencies, ResultProblem, IsDeclared, Store;
    var p := ProducersRunFirst(g, order, j, t, b);
    var i :| 0 <= i < j && order[i] == p.taskId;
    AcceptedIsWellFormed(g);
    TasksByIdAre(g.tasks);
    assert forall r | r in results :: Delivers(g, r);
    DeliveredStays(g, results, i, p, b);
    StoreHoldsDeclared(g, results);
  }
}
