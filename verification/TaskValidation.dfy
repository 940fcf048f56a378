/** Validation of a task graph, and what a validated graph guarantees while its tasks complete. */
module TaskValidation {
  import opened Sequences
  import opened Bytes
  import opened DependencyGraphs
  import opened PathScopes
  import opened TaskDags

  // ----- what validation checks

  ghost predicate AllSafe(scopes: seq<bytes>) {
    forall i :: 0 <= i < |scopes| ==> IsSafeRelative(scopes[i])
  }

  ghost predicate GoodNode(nodes: Nodes, id: TaskId)
    requires id in nodes
  {
    && nodes[id].owner == Executor
    && nodes[id].writeScopes != []
    && AllSafe(nodes[id].writeScopes)
    && NoDup(nodes[id].dependencies)
    && (forall d :: d in nodes[id].dependencies ==> d in nodes)
  }

  ghost predicate GoodNodes(nodes: Nodes) {
    forall id :: id in nodes ==> GoodNode(nodes, id)
  }

  /** The `i`-th write scope of task `a`. */
  ghost predicate IsScope(nodes: Nodes, a: TaskId, i: nat, scope: bytes) {
    a in nodes && i < |nodes[a].writeScopes| && nodes[a].writeScopes[i] == scope
  }

  /** Any two different scopes that overlap belong to tasks that are ordered by dependencies. */
  ghost predicate ScopesOrdered(nodes: Nodes) {
    forall a: TaskId, i: nat, s, b: TaskId, j: nat, t ::
      IsScope(nodes, a, i, s) && IsScope(nodes, b, j, t) && (a, i) != (b, j) && Overlaps(s, t) ==>
        OrderedPair(GraphOf(nodes), a, b)
  }

  ghost predicate Acceptable(nodes: Nodes) {
    GoodNodes(nodes) && ScopesOrdered(nodes) && Acyclic(GraphOf(nodes))
  }

  /** Every reported error names a fault that is really there. */
  ghost predicate Justified(nodes: Nodes, e: DagError) {
    match e
    case Empty => nodes == map[]
    case DuplicateTask(_) => false
    case InvalidOwner(id) => id in nodes && nodes[id].owner != Executor
    case InvalidScope(id, scope) =>
      id in nodes && if nodes[id].writeScopes == [] then scope == []
                     else scope in nodes[id].writeScopes && !IsSafeRelative(scope)
    case OverlappingScope(a, b, s, t) =>
      && Overlaps(s, t) && !OrderedPair(GraphOf(nodes), a, b)
      && exists i, j :: IsScope(nodes, a, i, s) && IsScope(nodes, b, j, t) && (a, i) != (b, j)
    case DuplicateDependency(id, d) =>
      && id in nodes
      && exists i, j ::
           0 <= i < j < |nodes[id].dependencies| && nodes[id].dependencies[i] == d == nodes[id].dependencies[j]
    case MissingDependency(id, d) => id in nodes && d in nodes[id].dependencies && d !in nodes
    case Cycle => !Acyclic(GraphOf(nodes))
  }

  lemma JustifiedRefuses(nodes: Nodes, e: DagError)
    requires Justified(nodes, e) && !e.Empty?
    ensures !Acceptable(nodes)
  {
    match e
    case OverlappingScope(a, b, s, t) =>
      var i, j :| IsScope(nodes, a, i, s) && IsScope(nodes, b, j, t) && (a, i) != (b, j);
    case InvalidOwner(id) => assert !GoodNode(nodes, id);
    case InvalidScope(id, scope) => assert !GoodNode(nodes, id);
    case DuplicateDependency(id, d) => assert !GoodNode(nodes, id);
    case MissingDependency(id, d) => assert !GoodNode(nodes, id);
    case Cycle =>
    case DuplicateTask(_) =>
  }

  method CheckScopes(nodes: Nodes, id: TaskId) returns (r: Option<DagError>)
    requires id in nodes
    ensures r.None? <==> nodes[id].writeScopes != [] && AllSafe(nodes[id].writeScopes)
    ensures r.Some? ==> r.value.InvalidScope? && Justified(nodes, r.value)
  {
    hide IsSafeRelative;
    var scopes := nodes[id].writeScopes;
    if scopes == [] {
      return Some(InvalidScope(id, []));
    }
    for i := 0 to |scopes|
      invariant forall k :: 0 <= k < i ==> IsSafeRelative(scopes[k])
    {
      if !IsSafeRelative(scopes[i]) {
        return Some(InvalidScope(id, scopes[i]));
      }
    }
    return None;
  }

  method CheckDependencies(nodes: Nodes, id: TaskId) returns (r: Option<DagError>)
    requires id in nodes
    ensures r.None? <==> NoDup(nodes[id].dependencies) && forall d :: d in nodes[id].dependencies ==> d in nodes
    ensures r.Some? ==> (r.value.DuplicateDependency? || r.value.MissingDependency?) && Justified(nodes, r.value)
  {
    var dependencies := nodes[id].dependencies;
    var seen: set<TaskId> := {};
    for i := 0 to |dependencies|
      invariant seen == Elems(dependencies[..i])
      invariant NoDup(dependencies[..i]) && forall k :: 0 <= k < i ==> dependencies[k] in nodes
    {
      var d := dependencies[i];
      if d in seen {
        assert d in dependencies[..i];
        return Some(DuplicateDependency(id, d));
      }
      assert dependencies[..i + 1] == dependencies[..i] + [d];
      seen := seen + {d};
      if d !in nodes {
        return Some(MissingDependency(id, d));
      }
    }
    assert dependencies[..|dependencies|] == dependencies;
    return None;
  }

  method CheckNodes(nodes: Nodes) returns (r: Option<DagError>)
    ensures r.None? <==> GoodNodes(nodes)
    ensures r.Some? ==> Justified(nodes, r.value) && !r.value.Empty? && !r.value.Cycle?
  {
    hide IsSafeRelative, NoDup;
    var ids := Ascending(nodes.Keys);
    for n := 0 to |ids|
      invariant forall k :: 0 <= k < n ==> ids[k] in nodes && GoodNode(nodes, ids[k])
    {
      var id := ids[n];
      assert id in ids;
      if nodes[id].owner != Executor {
        return Some(InvalidOwner(id));
      }
      r := CheckScopes(nodes, id);
      if r.Some? { return; }
      r := CheckDependencies(nodes, id);
      if r.Some? { return; }
    }
    forall id | id in nodes ensures GoodNode(nodes, id) {
      assert id in ids;
    }
    return None;
  }

  // ----- overlapping scopes

  /** The scopes collected so far, and where each one comes from. */
  ghost predicate Collected(nodes: Nodes, scopes: seq<(TaskId, bytes)>, origin: seq<nat>) {
    && |scopes| == |origin|
    && (forall k :: 0 <= k < |scopes| ==> IsScope(nodes, scopes[k].0, origin[k], scopes[k].1))
    && (forall k, l :: 0 <= k < l < |scopes| ==> (scopes[k].0, origin[k]) != (scopes[l].0, origin[l]))
  }

  ghost predicate CollectedOrdered(nodes: Nodes, scopes: seq<(TaskId, bytes)>) {
    forall k, l :: 0 <= k < l < |scopes| && Overlaps(scopes[l].1, scopes[k].1) ==>
      OrderedPair(GraphOf(nodes), scopes[l].0, scopes[k].0)
  }

  /** Compare one scope with everything collected before it. */
  method CompareScope(nodes: Nodes, id: TaskId, scope: bytes, scopes: seq<(TaskId, bytes)>) returns (clash: Option<nat>)
    ensures clash.None? <==> forall k :: 0 <= k < |scopes| && Overlaps(scope, scopes[k].1) ==>
              OrderedPair(GraphOf(nodes), id, scopes[k].0)
    ensures clash.Some? ==>
              && clash.value < |scopes| && Overlaps(scope, scopes[clash.value].1)
              && !OrderedPair(GraphOf(nodes), id, scopes[clash.value].0)
  {
    hide Overlaps, OrderedPair;
    for k := 0 to |scopes|
      invariant forall l :: 0 <= l < k && Overlaps(scope, scopes[l].1) ==> OrderedPair(GraphOf(nodes), id, scopes[l].0)
    {
      if Overlaps(scope, scopes[k].1) {
        var ordered := DependencyOrdered(nodes, id, scopes[k].0);
        if !ordered { return Some(k); }
      }
    }
    return None;
  }

  lemma OverlapsSymmetric(s: bytes, t: bytes)
    ensures Overlaps(s, t) <==> Overlaps(t, s)
  {}

  ghost predicate Has(scopes: seq<(TaskId, bytes)>, origin: seq<nat>, a: TaskId, i: nat, s: bytes) {
    |scopes| == |origin| && exists k :: 0 <= k < |scopes| && scopes[k] == (a, s) && origin[k] == i
  }

  lemma AllCollectedOrdered(nodes: Nodes, scopes: seq<(TaskId, bytes)>, origin: seq<nat>)
    requires Collected(nodes, scopes, origin) && CollectedOrdered(nodes, scopes)
    requires forall a: TaskId, i: nat, s :: IsScope(nodes, a, i, s) ==> Has(scopes, origin, a, i, s)
    ensures ScopesOrdered(nodes)
  {
    hide Overlaps, Reaches, IsScope;
    forall a: TaskId, i: nat, s, b: TaskId, j: nat, t |
      IsScope(nodes, a, i, s) && IsScope(nodes, b, j, t) && (a, i) != (b, j) && Overlaps(s, t)
      ensures OrderedPair(GraphOf(nodes), a, b)
    {
      var k :| 0 <= k < |scopes| && scopes[k] == (a, s) && origin[k] == i;
      var l :| 0 <= l < |scopes| && scopes[l] == (b, t) && origin[l] == j;
      OverlapsSymmetric(s, t);
    }
  }

  lemma CollectOne(nodes: Nodes, scopes: seq<(TaskId, bytes)>, origin: seq<nat>, id: TaskId, i: nat, scope: bytes)
    requires Collected(nodes, scopes, origin) && CollectedOrdered(nodes, scopes) && IsScope(nodes, id, i, scope)
    requires !Has(scopes, origin, id, i, scope)
    requires forall k ::
        0 <= k < |scopes| && Overlaps(scope, scopes[k].1) ==> OrderedPair(GraphOf(nodes), id, scopes[k].0)
    ensures Collected(nodes, scopes + [(id, scope)], origin + [i])
    ensures CollectedOrdered(nodes, scopes + [(id, scope)])
    ensures Has(scopes + [(id, scope)], origin + [i], id, i, scope)
    ensures forall a: TaskId, j: nat, s ::
        Has(scopes, origin, a, j, s) ==> Has(scopes + [(id, scope)], origin + [i], a, j, s)
    ensures forall a: TaskId, j: nat, s :: Has(scopes + [(id, scope)], origin + [i], a, j, s) ==>
              Has(scopes, origin, a, j, s) || (a, j, s) == (id, i, scope)
  {
    hide Overlaps, OrderedPair;
    var longer, origins := scopes + [(id, scope)], origin + [i];
    assert longer[|scopes|] == (id, scope) && origins[|origin|] == i;
    forall k | 0 <= k < |scopes| ensures (scopes[k].0, origin[k]) != (id, i) {
      assert IsScope(nodes, scopes[k].0, origin[k], scopes[k].1);
    }
    forall a: TaskId, j: nat, s | Has(scopes, origin, a, j, s) ensures Has(longer, origins, a, j, s) {
      var k :| 0 <= k < |scopes| && scopes[k] == (a, s) && origin[k] == j;
      assert longer[k] == (a, s) && origins[k] == j;
    }
  }

  /** The scopes of the tasks before the `n`-th, and the first `m` scopes of the `n`-th. */
  ghost predicate HasUpTo(
      nodes: Nodes, ids: seq<TaskId>, n: nat, m: nat, scopes: seq<(TaskId, bytes)>, origin: seq<nat>)
    requires n <= |ids|
  {
    forall a: TaskId, i: nat, s ::
      Has(scopes, origin, a, i, s) <==>
      IsScope(nodes, a, i, s) && (a in ids[..n] || (n < |ids| && a == ids[n] && i < m))
  }

  lemma NextTask(nodes: Nodes, ids: seq<TaskId>, n: nat, scopes: seq<(TaskId, bytes)>, origin: seq<nat>)
    requires n < |ids| && ids[n] in nodes
    requires HasUpTo(nodes, ids, n, |nodes[ids[n]].writeScopes|, scopes, origin)
    ensures HasUpTo(nodes, ids, n + 1, 0, scopes, origin)
  {
    assert ids[..n + 1] == ids[..n] + [ids[n]];
  }

  lemma ClashJustified(
      nodes: Nodes, scopes: seq<(TaskId, bytes)>, origin: seq<nat>, id: TaskId, i: nat, scope: bytes, k: nat)
    requires Collected(nodes, scopes, origin) && IsScope(nodes, id, i, scope) && !Has(scopes, origin, id, i, scope)
    requires k < |scopes| && Overlaps(scope, scopes[k].1) && !OrderedPair(GraphOf(nodes), id, scopes[k].0)
    ensures Justified(nodes, OverlappingScope(scopes[k].0, id, scopes[k].1, scope))
  {
    OverlapsSymmetric(scope, scopes[k].1);
    assert IsScope(nodes, scopes[k].0, origin[k], scopes[k].1);
    assert (scopes[k].0, origin[k]) != (id, i);
  }

  method CheckOverlaps(nodes: Nodes) returns (r: Option<DagError>)
    ensures r.None? <==> ScopesOrdered(nodes)
    ensures r.Some? ==> r.value.OverlappingScope? && Justified(nodes, r.value)
  {
    hide Overlaps, OrderedPair, Collected, CollectedOrdered, Has, HasUpTo, ScopesOrdered, Justified, IsScope;
    var ids := Ascending(nodes.Keys);
    var scopes: seq<(TaskId, bytes)> := [];
    ghost var origin: seq<nat> := [];
    NothingCollected(nodes, ids);
    for n := 0 to |ids|
      invariant Collected(nodes, scopes, origin) && CollectedOrdered(nodes, scopes)
      invariant HasUpTo(nodes, ids, n, 0, scopes, origin)
    {
      var id := ids[n];
      assert id in ids;
      var own := nodes[id].writeScopes;
      for i := 0 to |own|
        invariant Collected(nodes, scopes, origin) && CollectedOrdered(nodes, scopes)
        invariant HasUpTo(nodes, ids, n, i, scopes, origin)
      {
        var clash := CompareScope(nodes, id, own[i], scopes);
        NotYetCollected(nodes, ids, n, i, scopes, origin);
        if clash.Some? {
          var k := clash.value;
          ClashJustified(nodes, scopes, origin, id, i, own[i], k);
          r := Some(OverlappingScope(scopes[k].0, id, scopes[k].1, own[i]));
          JustifiedUnordered(nodes, r.value);
          return;
        }
        CollectOne(nodes, scopes, origin, id, i, own[i]);
        CollectNext(nodes, ids, n, i, scopes, origin, scopes + [(id, own[i])], origin + [i]);
        scopes := scopes + [(id, own[i])];
        origin := origin + [i];
      }
      NextTask(nodes, ids, n, scopes, origin);
    }
    EverythingCollected(nodes, ids, scopes, origin);
    return None;
  }

  lemma NothingCollected(nodes: Nodes, ids: seq<TaskId>)
    ensures Collected(nodes, [], []) && CollectedOrdered(nodes, []) && HasUpTo(nodes, ids, 0, 0, [], [])
  {}

  lemma NotYetCollected(nodes: Nodes, ids: seq<TaskId>, n: nat, m: nat, scopes: seq<(TaskId, bytes)>, origin: seq<nat>)
    requires n < |ids| && Increasing(ids) && HasUpTo(nodes, ids, n, m, scopes, origin)
    requires ids[n] in nodes && m < |nodes[ids[n]].writeScopes|
    ensures IsScope(nodes, ids[n], m, nodes[ids[n]].writeScopes[m])
    ensures !Has(scopes, origin, ids[n], m, nodes[ids[n]].writeScopes[m])
  {
    assert ids[n] !in ids[..n];
  }

  lemma CollectNext(nodes: Nodes, ids: seq<TaskId>, n: nat, m: nat, scopes: seq<(TaskId, bytes)>, origin: seq<nat>,
    scopes': seq<(TaskId, bytes)>, origin': seq<nat>)
    requires n < |ids| && HasUpTo(nodes, ids, n, m, scopes, origin)
    requires ids[n] in nodes && m < |nodes[ids[n]].writeScopes|
    requires Has(scopes', origin', ids[n], m, nodes[ids[n]].writeScopes[m])
    requires forall a: TaskId, j: nat, s :: Has(scopes, origin, a, j, s) ==> Has(scopes', origin', a, j, s)
    requires forall a: TaskId, j: nat, s :: Has(scopes', origin', a, j, s) ==>
               Has(scopes, origin, a, j, s) || (a, j, s) == (ids[n], m, nodes[ids[n]].writeScopes[m])
    ensures HasUpTo(nodes, ids, n, m + 1, scopes', origin')
  {
    hide Has;
  }

  lemma EverythingCollected(nodes: Nodes, ids: seq<TaskId>, scopes: seq<(TaskId, bytes)>, origin: seq<nat>)
    requires forall id :: id in ids <==> id in nodes
    requires Collected(nodes, scopes, origin) && CollectedOrdered(nodes, scopes)
    requires HasUpTo(nodes, ids, |ids|, 0, scopes, origin)
    ensures ScopesOrdered(nodes)
  {
    hide Overlaps, OrderedPair, Has;
    assert ids[..|ids|] == ids;
    AllCollectedOrdered(nodes, scopes, origin);
  }

  lemma JustifiedUnordered(nodes: Nodes, e: DagError)
    requires e.OverlappingScope? && Justified(nodes, e)
    ensures !ScopesOrdered(nodes)
  {}

  // ----- validate

  function Indexed(list: seq<TaskNode>): Nodes {
    if list == [] then map[] else Indexed(list[..|list| - 1])[list[|list| - 1].id := list[|list| - 1]]
  }

  ghost predicate DistinctTasks(list: seq<TaskNode>) {
    forall i, j :: 0 <= i < j < |list| ==> list[i].id != list[j].id
  }

  lemma {:induction false} IndexedKeys(list: seq<TaskNode>)
    ensures forall id :: id in Indexed(list) <==> exists i :: 0 <= i < |list| && list[i].id == id
    ensures forall id :: id in Indexed(list) ==> Indexed(list)[id].id == id && Indexed(list)[id] in list
  {
    if list != [] {
      var before := list[..|list| - 1];
      IndexedKeys(before);
      forall id ensures id in Indexed(list) <==> exists i :: 0 <= i < |list| && list[i].id == id {
        if id in Indexed(before) {
          var i :| 0 <= i < |before| && before[i].id == id;
          assert list[i].id == id;
        }
        if i :| 0 <= i < |list| && list[i].id == id {
          assert i < |before| ==> before[i].id == id;
        }
      }
    }
  }

  /** A task for the executor that may write somewhere, only below the project, and waits for other tasks of the list,
      for each once. */
  ghost predicate FitsInto(list: seq<TaskNode>, node: TaskNode) {
    && node.owner == Executor && |node.writeScopes| > 0
    && (forall k :: 0 <= k < |node.writeScopes| ==>
          Walked([], Segments(node.writeScopes[k])) == Some(Segments(node.writeScopes[k])))
    && (forall k :: 0 <= k < |node.dependencies| ==>
          exists j :: 0 <= j < |list| && list[j].id == node.dependencies[k] && node.dependencies[k] != node.id)
    && forall k, l :: 0 <= k < l < |node.dependencies| ==> node.dependencies[k] != node.dependencies[l]
  }

  lemma AllFit(list: seq<TaskNode>)
    requires DistinctTasks(list) && Acceptable(Indexed(list))
    ensures forall i :: 0 <= i < |list| ==> FitsInto(list, list[i])
  {
    hide ScopesOrdered, Acyclic, GoodNode, IsSafeRelative;
    forall i | 0 <= i < |list| ensures FitsInto(list, list[i]) {
      OneFits(list, i);
    }
  }

  lemma OneFits(list: seq<TaskNode>, i: nat)
    requires DistinctTasks(list) && Acceptable(Indexed(list)) && i < |list|
    ensures FitsInto(list, list[i])
  {
    hide ScopesOrdered, Acyclic, IsSafeRelative, Segments, Walked, Indexed;
    var nodes, node := Indexed(list), list[i];
    IndexedKeys(list);
    assert node.id in nodes && nodes[node.id] == node;
    assert GoodNode(nodes, node.id);
    ScopesStayInside(node);
    DependenciesFit(nodes, node);
  }

  lemma ScopesStayInside(node: TaskNode)
    requires AllSafe(node.writeScopes)
    ensures forall k :: 0 <= k < |node.writeScopes| ==>
              Walked([], Segments(node.writeScopes[k])) == Some(Segments(node.writeScopes[k]))
  {
    hide IsSafeRelative, Segments, Walked;
    forall k | 0 <= k < |node.writeScopes|
      ensures Walked([], Segments(node.writeScopes[k])) == Some(Segments(node.writeScopes[k]))
    {
      SafeExactly(node.writeScopes[k], []);
      assert [] + Segments(node.writeScopes[k]) == Segments(node.writeScopes[k]);
    }
  }

  lemma DependenciesFit(nodes: Nodes, node: TaskNode)
    requires Acyclic(GraphOf(nodes)) && node.id in nodes && nodes[node.id] == node
    requires forall d :: d in node.dependencies ==> d in nodes
    ensures forall k :: 0 <= k < |node.dependencies| ==>
              node.dependencies[k] in nodes && node.dependencies[k] != node.id
  {
    hide Acyclic, Reaches;
    forall k | 0 <= k < |node.dependencies| ensures node.dependencies[k] in nodes && node.dependencies[k] != node.id {
      assert node.dependencies[k] in node.dependencies;
      if node.dependencies[k] == node.id { ReachesDirect(GraphOf(nodes), node.id, node.id); }
      NotAcyclicIf(GraphOf(nodes), node.id);
    }
  }

  lemma NotAcyclicIf(g: Graph<TaskId>, id: TaskId)
    requires Acyclic(g)
    ensures !Reaches(g, id, id)
  {}

  /** Accepts exactly the lists of distinct, well-formed tasks without cycles whose overlapping scopes
      are ordered, keeps the tasks as they are, and names a real fault otherwise. */
  method Validate(list: seq<TaskNode>) returns (r: Result<TaskDag, DagError>)
    ensures r.Ok? <==> list != [] && DistinctTasks(list) && Acceptable(Indexed(list))
    ensures r.Ok? ==> r.value.nodes == Indexed(list) && Validated(r.value)
    ensures r.Ok? ==> Topological(GraphOf(r.value.nodes), r.value.order)
    ensures r.Ok? ==> forall i :: 0 <= i < |list| ==> FitsInto(list, list[i])
    ensures r.Err? ==>
              match r.error
              case DuplicateTask(id) => exists i, j :: 0 <= i < j < |list| && list[i].id == id == list[j].id
              case _ => DistinctTasks(list) && Justified(Indexed(list), r.error)
  {
    hide GoodNodes, ScopesOrdered, Acyclic, Topological, LeastFirst, OrderedPair, Overlaps;
    if list == [] {
      return Err(Empty);
    }
    var indexed: Nodes := map[];
    for n := 0 to |list|
      invariant indexed == Indexed(list[..n]) && DistinctTasks(list[..n])
    {
      var node := list[n];
      IndexedKeys(list[..n]);
      if node.id in indexed {
        return Err(DuplicateTask(node.id));
      }
      assert list[..n + 1][..n] == list[..n];
      indexed := indexed[node.id := node];
    }
    assert list[..|list|] == list;
    var fault := CheckNodes(indexed);
    if fault.Some? {
      JustifiedRefuses(indexed, fault.value);
      return Err(fault.value);
    }
    fault := CheckOverlaps(indexed);
    if fault.Some? {
      JustifiedRefuses(indexed, fault.value);
      return Err(fault.value);
    }
    GoodIsSortable(indexed);
    var order := Sort(indexed);
    match order
    case Err(error) => return Err(error);
    case Ok(order) =>
      var dag := TaskDag(indexed, order);
      ValidatedList(list, dag);
      AllFit(list);
      return Ok(dag);
  }

  lemma GoodIsSortable(nodes: Nodes)
    requires GoodNodes(nodes)
    ensures Sortable(nodes)
  {}

  // ----- what a validated graph is for

  ghost predicate Validated(dag: TaskDag) {
    && (forall id :: id in dag.nodes ==> dag.nodes[id].id == id)
    && Acceptable(dag.nodes)
  }

  lemma ValidatedList(list: seq<TaskNode>, dag: TaskDag)
    requires dag.nodes == Indexed(list) && Acceptable(dag.nodes)
    ensures Validated(dag)
  {
    IndexedKeys(list);
  }

  function ReadyTasks(dag: TaskDag, completed: set<TaskId>): set<TaskId> {
    set id | id in dag.nodes && id !in completed && forall d :: d in dag.nodes[id].dependencies ==> d in completed
  }

  predicate CanComplete(dag: TaskDag, task: TaskId, completed: set<TaskId>) {
    task !in completed && task in dag.nodes && forall d :: d in dag.nodes[task].dependencies ==> d in completed
  }

  /** Every task of `run` could be completed when its turn came. */
  ghost predicate CompletedBy(dag: TaskDag, run: seq<TaskId>) {
    forall i :: 0 <= i < |run| ==> CanComplete(dag, run[i], Elems(run[..i]))
  }

  ghost predicate MayWrite(dag: TaskDag, task: TaskId, path: bytes) {
    task in dag.nodes && exists i: nat, scope :: IsScope(dag.nodes, task, i, scope) && Covers(scope, path)
  }

  lemma ReadyIsGraphReady(dag: TaskDag, completed: set<TaskId>)
    ensures ReadyTasks(dag, completed) == Ready(GraphOf(dag.nodes), completed)
  {}

  lemma CompletedIsRun(dag: TaskDag, run: seq<TaskId>)
    requires CompletedBy(dag, run)
    ensures CompletionRun(GraphOf(dag.nodes), run)
  {
    forall i | 0 <= i < |run| ensures run[i] in Ready(GraphOf(dag.nodes), Elems(run[..i])) {
      assert CanComplete(dag, run[i], Elems(run[..i]));
    }
  }

  /** Tasks that may run together never share a writable path. */
  lemma ReadyTasksShareNoPath(dag: TaskDag, run: seq<TaskId>, a: TaskId, b: TaskId, path: bytes)
    requires Validated(dag) && CompletedBy(dag, run)
    requires a != b && a in ReadyTasks(dag, Elems(run)) && b in ReadyTasks(dag, Elems(run))
    ensures !(MayWrite(dag, a, path) && MayWrite(dag, b, path))
  {
    hide Acyclic, GoodNodes, Reaches;
    if MayWrite(dag, a, path) && MayWrite(dag, b, path) {
      var i: nat, s :| IsScope(dag.nodes, a, i, s) && Covers(s, path);
      var j: nat, t :| IsScope(dag.nodes, b, j, t) && Covers(t, path);
      CommonPathOverlaps(s, t, path);
      CompletedIsRun(dag, run);
      ReadyUnordered(GraphOf(dag.nodes), run, a, b);
    }
  }

  /** No run of completions gets stuck: some task is ready until all are done. */
  lemma AlwaysReadyUntilDone(dag: TaskDag, run: seq<TaskId>)
    requires Validated(dag) && CompletedBy(dag, run)
    ensures Elems(run) <= dag.nodes.Keys
    ensures ReadyTasks(dag, Elems(run)) == {} <==> Elems(run) == dag.nodes.Keys
  {
    var g := GraphOf(dag.nodes);
    CompletedIsRun(dag, run);
    CompletedIsClosed(g, run);
    assert g.Keys == dag.nodes.Keys;
    ReadyIsGraphReady(dag, Elems(run));
    if Elems(run) != dag.nodes.Keys {
      assert Resolved(g) by {
        forall k, d | k in g && d in g[k] ensures d in g { assert GoodNode(dag.nodes, k); }
      }
      SomethingReady(g, Elems(run));
    }
  }

  /** A task can be completed exactly when it is among the ready ones. */
  lemma CompletableIsReady(dag: TaskDag, task: TaskId, completed: set<TaskId>)
    ensures CanComplete(dag, task, completed) <==> task in ReadyTasks(dag, completed)
  {}

  lemma CompletedNext(dag: TaskDag, run: seq<TaskId>, task: TaskId)
    requires CompletedBy(dag, run) && task in ReadyTasks(dag, Elems(run))
    ensures CompletedBy(dag, run + [task]) && Elems(run + [task]) == Elems(run) + {task} && task !in Elems(run)
  {
    var longer := run + [task];
    forall i | 0 <= i < |longer| ensures CanComplete(dag, longer[i], Elems(longer[..i])) {
      if i < |run| {
        assert longer[..i] == run[..i];
      } else {
        assert longer[..i] == run;
      }
    }
  }

  /** Whatever has been completed so far, the rest can be completed too: every run extends to one that completes every
      task. */
  lemma {:induction false} EveryRunCanFinish(dag: TaskDag, run: seq<TaskId>) returns (rest: seq<TaskId>)
    requires Validated(dag) && CompletedBy(dag, run)
    ensures CompletedBy(dag, run + rest) && Elems(run + rest) == dag.nodes.Keys
    decreases |dag.nodes.Keys - Elems(run)|
  {
    hide Validated, CompletedBy, ReadyTasks, Elems;
    AlwaysReadyUntilDone(dag, run);
    if Elems(run) == dag.nodes.Keys {
      rest := [];
      assert run + rest == run;
    } else {
      var task :| task in ReadyTasks(dag, Elems(run));
      ReadyIsTask(dag, run, task);
      CompletedNext(dag, run, task);
      FewerLeft(dag.nodes.Keys, Elems(run), task);
      var more := EveryRunCanFinish(dag, run + [task]);
      rest := [task] + more;
      assert run + rest == run + [task] + more;
    }
  }

  lemma FewerLeft(all: set<TaskId>, completed: set<TaskId>, task: TaskId)
    requires task in all && task !in completed
    ensures |all - (completed + {task})| < |all - completed|
  {
    assert all - (completed + {task}) == all - completed - {task};
  }

  lemma ReadyIsTask(dag: TaskDag, run: seq<TaskId>, task: TaskId)
    requires task in ReadyTasks(dag, Elems(run))
    ensures task in dag.nodes.Keys - Elems(run)
  {}
}
