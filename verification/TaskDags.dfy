/** The validated task graph of crates/workflow-core/src/dag.rs. */
module TaskDags {
  import opened Sequences
  import opened Bytes
  import opened DependencyGraphs
  import opened PathScopes

  type TaskId = nat

  datatype Role = Architect | Executor | FunctionalReviewer | SecurityArchitectureReviewer | Arbiter

  datatype TaskNode = TaskNode(id: TaskId, owner: Role, writeScopes: seq<bytes>, dependencies: seq<TaskId>)

  datatype DagError =
    | Empty
    | DuplicateTask(task: TaskId)
    | InvalidOwner(task: TaskId)
    | InvalidScope(task: TaskId, scope: bytes)
    | OverlappingScope(firstTask: TaskId, secondTask: TaskId, firstScope: bytes, secondScope: bytes)
    | DuplicateDependency(task: TaskId, dependency: TaskId)
    | MissingDependency(task: TaskId, dependency: TaskId)
    | Cycle

  type Nodes = map<TaskId, TaskNode>

  datatype TaskDag = TaskDag(nodes: Nodes, order: seq<TaskId>)

  function GraphOf(nodes: Nodes): Graph<TaskId> {
    map id | id in nodes :: nodes[id].dependencies
  }

  // ----- depends_on

  /** What the depth-first search knows: everything reached is below `task`, and nothing is forgotten. */
  ghost predicate Explores(nodes: Nodes, task: TaskId, target: TaskId, visited: set<TaskId>, pending: seq<TaskId>) {
    && (task in visited || task in pending)
    && (forall x :: x in visited || x in pending ==> x == task || Reaches(GraphOf(nodes), task, x))
    && forall x :: x in visited ==>
         target !in Deps(GraphOf(nodes), x) && Elems(Deps(GraphOf(nodes), x)) <= visited + Elems(pending)
  }

  lemma ExpandPending(nodes: Nodes, task: TaskId, current: TaskId, d: TaskId)
    requires current == task || Reaches(GraphOf(nodes), task, current)
    requires d in Deps(GraphOf(nodes), current)
    ensures Reaches(GraphOf(nodes), task, d)
  {
    ReachesDirect(GraphOf(nodes), current, d);
    if current != task { ReachesTransitive(GraphOf(nodes), task, current, d); }
  }

  lemma SearchExhausted(nodes: Nodes, task: TaskId, target: TaskId, visited: set<TaskId>)
    requires Explores(nodes, task, target, visited, [])
    ensures !Reaches(GraphOf(nodes), task, target)
  {
    forall k, d | k in visited && d in Deps(GraphOf(nodes), k) ensures d in visited {
      assert d in Elems(Deps(GraphOf(nodes), k));
    }
    if Reaches(GraphOf(nodes), task, target) { LastStepWithin(GraphOf(nodes), visited, task, target); }
  }

  /** Terminates on every graph, cyclic or not, and decides transitive reachability. */
  method DependsOn(nodes: Nodes, task: TaskId, target: TaskId) returns (r: bool)
    ensures r <==> Reaches(GraphOf(nodes), task, target)
  {
    hide Reaches, PathBetween, IsPath;
    var pending := [task];
    var visited: set<TaskId> := {};
    while pending != []
      invariant Explores(nodes, task, target, visited, pending)
      decreases nodes.Keys - visited, |pending|
    {
      var current := pending[|pending| - 1];
      ghost var before := pending;
      pending := pending[..|pending| - 1];
      assert before == pending + [current];
      if current in visited {
        SkipExplores(nodes, task, target, visited, before, current, pending);
        continue;
      }
      ghost var seen := visited;
      visited := visited + {current};
      var dependencies := if current in nodes then nodes[current].dependencies else [];
      assert dependencies == Deps(GraphOf(nodes), current);
      ghost var kept := pending;
      for i := 0 to |dependencies|
        invariant pending == kept + dependencies[..i]
        invariant target !in dependencies[..i]
      {
        if dependencies[i] == target {
          ExpandPending(nodes, task, current, target);
          return true;
        }
        pending := pending + [dependencies[i]];
        assert dependencies[..i + 1] == dependencies[..i] + [dependencies[i]];
      }
      assert dependencies[..|dependencies|] == dependencies;
      StepExplores(nodes, task, target, seen, before, current, kept, pending);
    }
    SearchExhausted(nodes, task, target, visited);
    return false;
  }

  lemma SkipExplores(
      nodes: Nodes, task: TaskId, target: TaskId, visited: set<TaskId>, before: seq<TaskId>, current: TaskId,
      kept: seq<TaskId>)
    requires Explores(nodes, task, target, visited, before) && before == kept + [current] && current in visited
    ensures Explores(nodes, task, target, visited, kept)
  {
    hide Reaches;
    assert forall x :: x in before <==> x in kept || x == current;
  }

  lemma StepExplores(
      nodes: Nodes, task: TaskId, target: TaskId, visited: set<TaskId>, before: seq<TaskId>, current: TaskId,
      kept: seq<TaskId>, pending: seq<TaskId>)
    requires Explores(nodes, task, target, visited, before) && before == kept + [current]
    requires pending == kept + Deps(GraphOf(nodes), current) && target !in Deps(GraphOf(nodes), current)
    ensures Explores(nodes, task, target, visited + {current}, pending)
  {
    hide Reaches;
    forall d | d in Deps(GraphOf(nodes), current) ensures Reaches(GraphOf(nodes), task, d) {
      assert current in before;
      ExpandPending(nodes, task, current, d);
    }
    assert forall x :: x in pending <==> x in kept || x in Deps(GraphOf(nodes), current);
    assert forall x :: x in before <==> x in kept || x == current;
  }

  method DependencyOrdered(nodes: Nodes, first: TaskId, second: TaskId) returns (r: bool)
    ensures r <==> OrderedPair(GraphOf(nodes), first, second)
  {
    r := DependsOn(nodes, first, second);
    if !r {
      r := DependsOn(nodes, second, first);
    }
  }

  // ----- sort

  /** What `sort` may rely on: validation has rejected repeated and missing dependencies. */
  ghost predicate Sortable(nodes: Nodes) {
    forall id :: id in nodes ==>
      NoDup(nodes[id].dependencies) && forall d :: d in nodes[id].dependencies ==> d in nodes
  }

  /** The tasks among `ids` that depend on `t`, in order. */
  ghost function DependentsOf(nodes: Nodes, ids: seq<TaskId>, t: TaskId): seq<TaskId>
    requires Elems(ids) <= nodes.Keys
  {
    if ids == [] then []
    else
      var last := ids[|ids| - 1];
      assert last in Elems(ids) && Elems(ids[..|ids| - 1]) <= Elems(ids);
      DependentsOf(nodes, ids[..|ids| - 1], t) + (if t in nodes[last].dependencies then [last] else [])
  }

  function Lookup(m: map<TaskId, seq<TaskId>>, t: TaskId): seq<TaskId> {
    if t in m then m[t] else []
  }

  ghost predicate HoldsDependents(nodes: Nodes, ids: seq<TaskId>, m: map<TaskId, seq<TaskId>>)
    requires Elems(ids) <= nodes.Keys
  {
    forall t :: Lookup(m, t) == DependentsOf(nodes, ids, t)
  }

  lemma {:induction false} DependentsListed(nodes: Nodes, ids: seq<TaskId>, t: TaskId)
    requires Elems(ids) <= nodes.Keys && NoDup(ids)
    ensures NoDup(DependentsOf(nodes, ids, t))
    ensures forall x :: x in DependentsOf(nodes, ids, t) <==> x in ids && t in nodes[x].dependencies
  {
    if ids != [] {
      var n := |ids| - 1;
      assert ids[n] in Elems(ids) && ids == ids[..n] + [ids[n]];
      DependentsListed(nodes, ids[..n], t);
    }
  }

  ghost predicate HoldsPartly(
      before: map<TaskId, seq<TaskId>>, m: map<TaskId, seq<TaskId>>, done: seq<TaskId>, id: TaskId)
  {
    forall t :: Lookup(m, t) == Lookup(before, t) + (if t in done then [id] else [])
  }

  /** `dependents.entry(d).or_default().push(id)` for every dependency of one task. */
  method PushDependents(before: map<TaskId, seq<TaskId>>, id: TaskId, dependencies: seq<TaskId>)
    returns (m: map<TaskId, seq<TaskId>>)
    requires NoDup(dependencies)
    ensures HoldsPartly(before, m, dependencies, id)
  {
    m := before;
    for i := 0 to |dependencies|
      invariant HoldsPartly(before, m, dependencies[..i], id)
    {
      var d := dependencies[i];
      assert d !in dependencies[..i] && dependencies[..i + 1] == dependencies[..i] + [d];
      m := m[d := Lookup(m, d) + [id]];
    }
    assert dependencies[..|dependencies|] == dependencies;
  }

  lemma HoldsOneMore(
      nodes: Nodes, ids: seq<TaskId>, id: TaskId, before: map<TaskId, seq<TaskId>>, m: map<TaskId, seq<TaskId>>)
    requires Elems(ids) <= nodes.Keys && id in nodes && HoldsDependents(nodes, ids, before)
    requires HoldsPartly(before, m, nodes[id].dependencies, id)
    ensures Elems(ids + [id]) <= nodes.Keys && HoldsDependents(nodes, ids + [id], m)
  {
    assert forall x :: x in ids ==> x in Elems(ids);
    assert (ids + [id])[..|ids|] == ids;
  }

  ghost predicate AreDependents(nodes: Nodes, m: map<TaskId, seq<TaskId>>) {
    && (forall t :: NoDup(Lookup(m, t)))
    && (forall t, x :: x in Lookup(m, t) <==> x in nodes && t in nodes[x].dependencies)
  }

  method Dependents(nodes: Nodes) returns (m: map<TaskId, seq<TaskId>>)
    requires Sortable(nodes)
    ensures AreDependents(nodes, m)
  {
    hide HoldsDependents, HoldsPartly, AreDependents;
    m := map[];
    var ids := Ascending(nodes.Keys);
    ghost var visited: seq<TaskId> := [];
    NothingHeld(nodes);
    for n := 0 to |ids|
      invariant visited == ids[..n] && Elems(visited) <= nodes.Keys
      invariant HoldsDependents(nodes, visited, m)
    {
      var id := ids[n];
      assert id in ids;
      ghost var before := m;
      m := PushDependents(m, id, nodes[id].dependencies);
      HoldsOneMore(nodes, visited, id, before, m);
      visited := visited + [id];
    }
    assert visited == ids;
    AllHeld(nodes, ids, m);
  }

  lemma NothingHeld(nodes: Nodes)
    ensures HoldsDependents(nodes, [], map[])
  {}

  lemma AllHeld(nodes: Nodes, ids: seq<TaskId>, m: map<TaskId, seq<TaskId>>)
    requires Increasing(ids) && (forall x :: x in ids <==> x in nodes) && Elems(ids) <= nodes.Keys
    requires HoldsDependents(nodes, ids, m)
    ensures AreDependents(nodes, m)
  {
    forall t
      ensures NoDup(Lookup(m, t)) && forall x :: x in Lookup(m, t) <==> x in nodes && t in nodes[x].dependencies
    {
      DependentsListed(nodes, ids, t);
    }
  }

  /** How many dependencies of `id` are not among `done`. */
  function Waiting(nodes: Nodes, id: TaskId, done: set<TaskId>): set<TaskId>
    requires id in nodes
  {
    Elems(nodes[id].dependencies) - done
  }

  /** Degrees and the ready set say exactly what the finished tasks leave open. */
  ghost predicate Counts(nodes: Nodes, degrees: map<TaskId, nat>, ready: set<TaskId>, done: set<TaskId>) {
    && degrees.Keys == nodes.Keys
    && (forall id :: id in nodes ==> degrees[id] == |Waiting(nodes, id, done)|)
    && ready == Ready(GraphOf(nodes), done)
  }

  /** The same in the middle of a turn: `task` is finished for the dependents in `notified` only. */
  ghost predicate CountsPartly(
      nodes: Nodes, degrees: map<TaskId, nat>, ready: set<TaskId>, done: set<TaskId>, task: TaskId,
      notified: set<TaskId>)
  {
    && degrees.Keys == nodes.Keys
    && (forall id :: id in nodes ==>
          degrees[id] == |Waiting(nodes, id, if id in notified then done + {task} else done)|)
    && ready == (Ready(GraphOf(nodes), done) - {task}) +
                (set id | id in notified && id in nodes && id !in done && Waiting(nodes, id, done + {task}) == {})
  }

  lemma NothingDone(nodes: Nodes, id: TaskId)
    requires Sortable(nodes) && id in nodes
    ensures |Waiting(nodes, id, {})| == |nodes[id].dependencies|
    ensures id in Ready(GraphOf(nodes), {}) <==> nodes[id].dependencies == []
  {
    assert Waiting(nodes, id, {}) == Elems(nodes[id].dependencies);
    NoDupSize(nodes[id].dependencies);
    if nodes[id].dependencies != [] { assert nodes[id].dependencies[0] in nodes[id].dependencies; }
  }

  lemma StartCounts(nodes: Nodes, degrees: map<TaskId, nat>, ready: set<TaskId>)
    requires Sortable(nodes) && degrees == map id | id in nodes :: |nodes[id].dependencies|
    requires ready == set id | id in degrees && degrees[id] == 0
    ensures Counts(nodes, degrees, ready, {})
  {
    hide Waiting, Sortable, Ready;
    forall id | id in nodes
      ensures degrees[id] == |Waiting(nodes, id, {})| && (id in ready <==> id in Ready(GraphOf(nodes), {}))
    {
      NothingDone(nodes, id);
    }
    ReadyAreTasks(nodes, {});
  }

  lemma ReadyAreTasks(nodes: Nodes, done: set<TaskId>)
    ensures Ready(GraphOf(nodes), done) <= nodes.Keys - done
  {}

  lemma StartTurn(nodes: Nodes, degrees: map<TaskId, nat>, ready: set<TaskId>, done: set<TaskId>, task: TaskId)
    requires Counts(nodes, degrees, ready, done) && task in ready
    ensures CountsPartly(nodes, degrees, ready - {task}, done, task, {})
  {}

  lemma ReadyIsWaitingForNone(nodes: Nodes, id: TaskId, done: set<TaskId>)
    requires id in nodes
    ensures id in Ready(GraphOf(nodes), done) <==> id !in done && Waiting(nodes, id, done) == {}
  {
    if Waiting(nodes, id, done) == {} {
      forall d | d in nodes[id].dependencies ensures d in done {
        assert d !in Waiting(nodes, id, done);
      }
    }
  }

  lemma OneLess(nodes: Nodes, dependent: TaskId, done: set<TaskId>, task: TaskId)
    requires dependent in nodes && task in nodes[dependent].dependencies && task !in done
    ensures |Waiting(nodes, dependent, done + {task})| + 1 == |Waiting(nodes, dependent, done)|
    ensures Waiting(nodes, dependent, done + {task}) == {} <==> |Waiting(nodes, dependent, done)| == 1
  {
    var before, after := Waiting(nodes, dependent, done), Waiting(nodes, dependent, done + {task});
    assert task in before && after == before - {task};
  }

  /** One notification: the dependent waits for one task less, and becomes ready when none is left. */
  lemma {:induction false} Notify(
      nodes: Nodes, degrees: map<TaskId, nat>, ready: set<TaskId>, done: set<TaskId>, task: TaskId,
      notified: set<TaskId>, dependent: TaskId)
    requires CountsPartly(nodes, degrees, ready, done, task, notified)
    requires dependent in nodes && task in nodes[dependent].dependencies && task !in done
    requires dependent !in notified && dependent !in done
    ensures degrees[dependent] > 0
    ensures
      var now := if degrees[dependent] == 1 then ready + {dependent} else ready;
      CountsPartly(
        nodes, degrees[dependent := degrees[dependent] - 1], now, done, task, notified + {dependent})
  {
    hide Waiting, Ready;
    OneLess(nodes, dependent, done, task);
    var after := degrees[dependent := degrees[dependent] - 1];
    assert after.Keys == degrees.Keys;
    forall id | id in nodes
      ensures after[id] == |Waiting(nodes, id, if id in notified + {dependent} then done + {task} else done)|
    {
      assert id in notified + {dependent} <==> id in notified || id == dependent;
    }
  }

  lemma {:induction false} EndTurn(
      nodes: Nodes, degrees: map<TaskId, nat>, ready: set<TaskId>, done: set<TaskId>, task: TaskId,
      notified: set<TaskId>)
    requires CountsPartly(nodes, degrees, ready, done, task, notified)
    requires task in Ready(GraphOf(nodes), done)
    requires forall x :: x in notified <==> x in nodes && task in nodes[x].dependencies
    ensures Counts(nodes, degrees, ready, done + {task})
  {
    hide Waiting, Ready;
    ReadyAreTasks(nodes, done);
    ReadyAreTasks(nodes, done + {task});
    forall id | id in nodes ensures id !in notified ==> Waiting(nodes, id, done + {task}) == Waiting(nodes, id, done) {
      if id !in notified { NotWaitingFor(nodes, id, done, task); }
    }
    forall id | id in nodes ensures id in ready <==> id in Ready(GraphOf(nodes), done + {task}) {
      ReadyIsWaitingForNone(nodes, id, done);
      ReadyIsWaitingForNone(nodes, id, done + {task});
      if id in notified { WaitingFor(nodes, id, done, task); }
    }
  }

  lemma WaitingFor(nodes: Nodes, id: TaskId, done: set<TaskId>, task: TaskId)
    requires id in nodes && task in nodes[id].dependencies && task !in done
    ensures Waiting(nodes, id, done) != {}
  {
    assert task in Waiting(nodes, id, done);
  }

  lemma NotWaitingFor(nodes: Nodes, id: TaskId, done: set<TaskId>, task: TaskId)
    requires id in nodes && task !in nodes[id].dependencies
    ensures Waiting(nodes, id, done + {task}) == Waiting(nodes, id, done)
  {}

  lemma NotYetDone(nodes: Nodes, order: seq<TaskId>, task: TaskId, x: TaskId)
    requires CompletionRun(GraphOf(nodes), order) && task !in order
    requires x in nodes && task in nodes[x].dependencies
    ensures x !in order
  {
    CompletedIsClosed(GraphOf(nodes), order);
    assert task in Deps(GraphOf(nodes), x);
    assert x in Elems(order) <==> x in order;
  }

  /** The least ready task first, until none is ready. */
  ghost predicate LeastFirst(g: Graph<TaskId>, order: seq<TaskId>) {
    forall i :: 0 <= i < |order| ==> IsLeast(order[i], Ready(g, Elems(order[..i])))
  }

  lemma LeastFirstIsRun(g: Graph<TaskId>, order: seq<TaskId>)
    requires LeastFirst(g, order)
    ensures CompletionRun(g, order)
  {}

  lemma RunIsTopological(nodes: Nodes, order: seq<TaskId>)
    requires CompletionRun(GraphOf(nodes), order) && |order| == |nodes|
    ensures Topological(GraphOf(nodes), order)
  {
    var g := GraphOf(nodes);
    CompletedIsClosed(g, order);
    NoDupSize(order);
    assert |g.Keys| == |nodes.Keys| by { assert g.Keys == nodes.Keys; }
    SameSizeSubset(Elems(order), g.Keys);
    forall i | 0 <= i < |order| ensures Elems(Deps(g, order[i])) <= Elems(order[..i]) {
      assert order[i] in Ready(g, Elems(order[..i]));
    }
  }

  lemma SameSizeSubset<T>(part: set<T>, whole: set<T>)
    requires part <= whole && |part| == |whole|
    ensures part == whole
  {
    if x :| x in whole && x !in part { SubsetSize(part, whole - {x}); }
  }

  lemma CompleteRunIsAll(nodes: Nodes, order: seq<TaskId>)
    requires Sortable(nodes) && CompletionRun(GraphOf(nodes), order)
    requires Ready(GraphOf(nodes), Elems(order)) == {} && Acyclic(GraphOf(nodes))
    ensures |order| == |nodes|
  {
    var g := GraphOf(nodes);
    CompletedIsClosed(g, order);
    if !(g.Keys <= Elems(order)) { SomethingReady(g, Elems(order)); }
    NoDupSize(order);
    assert Elems(order) == g.Keys == nodes.Keys;
  }

  /** Succeeds exactly on acyclic graphs, with every task after its dependencies, least ready task first. */
  method Sort(nodes: Nodes) returns (r: Result<seq<TaskId>, DagError>)
    requires Sortable(nodes)
    ensures r.Ok? <==> Acyclic(GraphOf(nodes))
    ensures r.Ok? ==> Topological(GraphOf(nodes), r.value) && LeastFirst(GraphOf(nodes), r.value)
    ensures r.Err? ==> r.error == Cycle
  {
    hide Counts, CountsPartly, AreDependents, Sortable, Topological, Acyclic, Waiting;
    ghost var g := GraphOf(nodes);
    var degrees: map<TaskId, nat> := map id | id in nodes :: |nodes[id].dependencies|;
    var dependents := Dependents(nodes);
    var ready := set id | id in degrees && degrees[id] == 0;
    var order: seq<TaskId> := [];
    StartCounts(nodes, degrees, ready);
    assert Elems(order) == {};
    while ready != {}
      invariant Counts(nodes, degrees, ready, Elems(order))
      invariant LeastFirst(g, order) && Elems(order) <= nodes.Keys
      decreases nodes.Keys - Elems(order)
    {
      var task := Minimum(ready);
      degrees, ready := Turn(nodes, dependents, degrees, ready, order, task);
      assert Elems(order + [task]) == Elems(order) + {task};
      order := order + [task];
    }
    LeastFirstIsRun(g, order);
    if |order| == |nodes| {
      RunIsTopological(nodes, order);
      TopologicalIsAcyclic(g, order);
      return Ok(order);
    }
    NoneReady(nodes, degrees, order);
    return Err(Cycle);
  }

  lemma NoneReady(nodes: Nodes, degrees: map<TaskId, nat>, order: seq<TaskId>)
    requires Sortable(nodes) && Counts(nodes, degrees, {}, Elems(order)) && CompletionRun(GraphOf(nodes), order)
    requires |order| != |nodes|
    ensures !Acyclic(GraphOf(nodes))
  {
    if Acyclic(GraphOf(nodes)) { CompleteRunIsAll(nodes, order); }
  }

  /** One turn of the sort: finish a task and notify its dependents. */
  method Turn(
      nodes: Nodes, dependents: map<TaskId, seq<TaskId>>, degrees0: map<TaskId, nat>, ready0: set<TaskId>,
      ghost order: seq<TaskId>, task: TaskId)
    returns (degrees: map<TaskId, nat>, ready: set<TaskId>)
    requires AreDependents(nodes, dependents) && Counts(nodes, degrees0, ready0, Elems(order))
    requires IsLeast(task, ready0) && LeastFirst(GraphOf(nodes), order)
    ensures Counts(nodes, degrees, ready, Elems(order + [task]))
    ensures LeastFirst(GraphOf(nodes), order + [task])
    ensures task in nodes && task !in order
  {
    hide CountsPartly, Waiting;
    ghost var done := Elems(order);
    LeastFirstIsRun(GraphOf(nodes), order);
    StartTurn(nodes, degrees0, ready0, done, task);
    assert task in Ready(GraphOf(nodes), done);
    degrees, ready := degrees0, ready0 - {task};
    var list := Lookup(dependents, task);
    assert Elems(list[..0]) == {};
    for i := 0 to |list|
      invariant degrees.Keys == nodes.Keys
      invariant CountsPartly(nodes, degrees, ready, done, task, Elems(list[..i]))
    {
      var dependent := list[i];
      assert dependent in list && dependent !in list[..i];
      NotYetDone(nodes, order, task, dependent);
      Notify(nodes, degrees, ready, done, task, Elems(list[..i]), dependent);
      degrees := degrees[dependent := degrees[dependent] - 1];
      if degrees[dependent] == 0 {
        ready := ready + {dependent};
      }
      assert list[..i + 1] == list[..i] + [dependent];
      assert Elems(list[..i + 1]) == Elems(list[..i]) + {dependent};
    }
    assert list[..|list|] == list;
    EndTurn(nodes, degrees, ready, done, task, Elems(list));
    assert Elems(order + [task]) == done + {task};
    ghost var longer := order + [task];
    forall j | 0 <= j < |longer| ensures IsLeast(longer[j], Ready(GraphOf(nodes), Elems(longer[..j]))) {
      if j < |order| {
        assert longer[..j] == order[..j];
      } else {
        assert longer[..j] == order;
      }
    }
  }
}
