/** The ordering checks on an architect's plan: src/workflow/plan.ts. */
module Plans {
  import opened Sequences
  import opened DependencyGraphs
  import opened PlanScopes

  datatype PlanTask = PlanTask(key: Text, dependencies: seq<Text>, writeScopes: seq<Text>)

  datatype PlanError =
    | DuplicateKey
    | DependsOnItself(key: Text)
    | UnknownDependency(key: Text, dependency: Text)
    | DependenciesCycle(pending: set<Text>)
    | UnorderedScopes(left: Text, right: Text)

  /** `new Map(tasks.map((task) => [task.key, ...]))`: a repeated key keeps its last task. */
  function Direct(tasks: seq<PlanTask>): Graph<Text> {
    if tasks == [] then map[]
    else
      var last := tasks[|tasks| - 1];
      Direct(tasks[..|tasks| - 1])[last.key := last.dependencies]
  }

  ghost predicate DistinctKeys(tasks: seq<PlanTask>) {
    forall i, j :: 0 <= i < j < |tasks| ==> tasks[i].key != tasks[j].key
  }

  ghost predicate IsEntry(tasks: seq<PlanTask>, i: nat, k: Text, dependencies: seq<Text>) {
    i < |tasks| && tasks[i].key == k && tasks[i].dependencies == dependencies
  }

  lemma {:induction false} DirectKeys(tasks: seq<PlanTask>)
    ensures forall i :: 0 <= i < |tasks| ==> tasks[i].key in Direct(tasks)
    ensures forall k :: k in Direct(tasks) ==> exists i :: IsEntry(tasks, i, k, Direct(tasks)[k])
    ensures
      DistinctKeys(tasks) ==> forall i :: 0 <= i < |tasks| ==> Direct(tasks)[tasks[i].key] == tasks[i].dependencies
  {
    if tasks != [] {
      var n := |tasks| - 1;
      DirectKeys(tasks[..n]);
      forall k | k in Direct(tasks) ensures exists i :: IsEntry(tasks, i, k, Direct(tasks)[k]) {
        if k != tasks[n].key {
          var i :| IsEntry(tasks[..n], i, k, Direct(tasks[..n])[k]);
          assert IsEntry(tasks, i, k, Direct(tasks)[k]);
        } else {
          assert IsEntry(tasks, n, k, Direct(tasks)[k]);
        }
      }
      forall i | 0 <= i < |tasks|
        ensures
          && tasks[i].key in Direct(tasks)
          && (DistinctKeys(tasks) ==> Direct(tasks)[tasks[i].key] == tasks[i].dependencies)
      {
        if i < n { assert tasks[..n][i] == tasks[i]; }
      }
    }
  }

  method AssertUnique(tasks: seq<PlanTask>) returns (r: Option<PlanError>)
    ensures r.None? <==> DistinctKeys(tasks)
    ensures r.Some? ==> r.value == DuplicateKey
  {
    var seen: set<Text> := {};
    for n := 0 to |tasks|
      invariant DistinctKeys(tasks[..n])
      invariant forall k :: k in seen <==> exists i :: 0 <= i < n && tasks[i].key == k
    {
      if tasks[n].key in seen { return Some(DuplicateKey); }
      seen := seen + {tasks[n].key};
    }
    assert tasks[..|tasks|] == tasks;
    return None;
  }

  method AssertDependenciesResolve(tasks: seq<PlanTask>) returns (r: Option<PlanError>)
    requires DistinctKeys(tasks)
    ensures
      r.None? <==> Resolved(Direct(tasks)) && forall i :: 0 <= i < |tasks| ==> tasks[i].key !in tasks[i].dependencies
    ensures r.Some? ==>
              match r.value
              case DependsOnItself(key) => key in Direct(tasks) && key in Direct(tasks)[key]
              case UnknownDependency(key, d) => key in Direct(tasks) && d in Direct(tasks)[key] && d !in Direct(tasks)
              case _ => false
  {
    DirectKeys(tasks);
    var keys := Direct(tasks).Keys;
    for n := 0 to |tasks|
      invariant forall i, d :: 0 <= i < n && d in tasks[i].dependencies ==> d in keys && d != tasks[i].key
    {
      var task := tasks[n];
      for m := 0 to |task.dependencies|
        invariant forall d :: d in task.dependencies[..m] ==> d in keys && d != task.key
      {
        var dependency := task.dependencies[m];
        if dependency == task.key { return Some(DependsOnItself(task.key)); }
        if dependency !in keys { return Some(UnknownDependency(task.key, dependency)); }
        assert task.dependencies[..m + 1] == task.dependencies[..m] + [dependency];
      }
      assert task.dependencies[..|task.dependencies|] == task.dependencies;
    }
    return None;
  }

  // ----- the layered peel

  /** What is done was finished in an order that respects dependencies, and the rest is pending. */
  ghost predicate Peeled(g: Graph<Text>, pending: Graph<Text>, done: set<Text>, run: seq<Text>) {
    && CompletionRun(g, run) && Elems(run) == done
    && pending.Keys == g.Keys - done && forall k :: k in pending ==> pending[k] == g[k]
  }

  lemma PeelOne(g: Graph<Text>, pending: Graph<Text>, done: set<Text>, run: seq<Text>, before: set<Text>, k: Text)
    requires Peeled(g, pending, done, run) && before <= done && k in Ready(g, before) && k !in done
    ensures Peeled(g, pending - {k}, done + {k}, run + [k])
  {
    var longer := run + [k];
    assert Elems(longer) == done + {k};
    forall i | 0 <= i < |longer| ensures longer[i] in Ready(g, Elems(longer[..i])) {
      if i < |run| {
        assert longer[..i] == run[..i];
      } else {
        assert longer[..i] == run;
      }
    }
  }

  lemma RunOfAllIsAcyclic(g: Graph<Text>, run: seq<Text>)
    requires CompletionRun(g, run) && Elems(run) == g.Keys
    ensures Resolved(g) && Acyclic(g)
  {
    CompletedIsClosed(g, run);
    forall i | 0 <= i < |run| ensures Elems(Deps(g, run[i])) <= Elems(run[..i]) {
      assert run[i] in Ready(g, Elems(run[..i]));
    }
    TopologicalIsAcyclic(g, run);
    forall k, d | k in g && d in g[k] ensures d in g {
      assert k in Elems(run) && d in Deps(g, k);
    }
  }

  /** Terminates on every plan, and accepts exactly the graphs that are resolved and without cycles. */
  method AssertAcyclic(tasks: seq<PlanTask>) returns (r: Option<PlanError>)
    ensures r.None? <==> Resolved(Direct(tasks)) && Acyclic(Direct(tasks))
    ensures r.Some? ==>
              && r.value.DependenciesCycle? && r.value.pending != {} && r.value.pending <= Direct(tasks).Keys
              && (Resolved(Direct(tasks)) ==> Stuck(Direct(tasks), r.value.pending))
  {
    hide Acyclic, Peeled, CompletionRun;
    ghost var g := Direct(tasks);
    var pending := Direct(tasks);
    var done: set<Text> := {};
    ghost var run: seq<Text> := [];
    NothingPeeled(g);
    while pending != map[]
      invariant Peeled(g, pending, done, run)
      decreases |pending|
    {
      PeeledKeys(g, pending, done, run);
      var ready := set k | k in pending && forall d :: d in pending[k] ==> d in done;
      assert ready == Ready(g, done);
      if ready == {} {
        NoneReadyToPeel(g, pending, done);
        return Some(DependenciesCycle(pending.Keys));
      }
      ghost var before, layer := pending, done;
      pending, done, run := PeelLayer(g, pending, done, ready, run);
      PeeledKeys(g, pending, done, run);
      SmallerPending(g, before, layer, pending, ready);
    }
    PeeledKeys(g, pending, done, run);
    assert Elems(run) == g.Keys;
    RunOfAllIsAcyclic(g, run);
    return None;
  }

  lemma NothingPeeled(g: Graph<Text>)
    ensures Peeled(g, g, {}, [])
  {
    assert Elems<Text>([]) == {};
  }

  lemma PeeledKeys(g: Graph<Text>, pending: Graph<Text>, done: set<Text>, run: seq<Text>)
    requires Peeled(g, pending, done, run)
    ensures CompletionRun(g, run) && Elems(run) == done && done <= g.Keys
    ensures pending.Keys == g.Keys - done && forall k :: k in pending ==> pending[k] == g[k]
  {
    CompletedIsClosed(g, run);
  }

  lemma NotReadyWaits(g: Graph<Text>, pending: set<Text>, done: set<Text>, k: Text)
    requires Resolved(g) && pending == g.Keys - done && k in pending && k !in Ready(g, done)
    ensures WaitsWithin(g, pending, k)
  {
    var d :| d in g[k] && d !in done;
    assert d in pending && d in Deps(g, k);
  }

  lemma NoneReadyToPeel(g: Graph<Text>, pending: Graph<Text>, done: set<Text>)
    requires pending.Keys == g.Keys - done && pending != map[] && Ready(g, done) == {}
    ensures Resolved(g) ==> !Acyclic(g) && Stuck(g, pending.Keys)
  {
    hide Acyclic, WaitsWithin;
    var k :| k in pending;
    assert k in g.Keys && k !in done;
    if Resolved(g) {
      forall k | k in pending.Keys ensures WaitsWithin(g, pending.Keys, k) {
        NotReadyWaits(g, pending.Keys, done, k);
      }
      StuckSetHasCycle(g, pending.Keys);
    }
  }

  /** In the middle of a layer: `rest` is still to be moved. */
  ghost predicate Peeling(
      g: Graph<Text>, done0: set<Text>, rest: set<Text>, pending: Graph<Text>, done: set<Text>, run: seq<Text>)
  {
    && Peeled(g, pending, done, run)
    && done == done0 + (Ready(g, done0) - rest)
    && rest <= Ready(g, done0)
  }

  lemma PeelStep(
      g: Graph<Text>, done0: set<Text>, rest: set<Text>, pending: Graph<Text>, done: set<Text>, run: seq<Text>,
      k: Text)
    requires Peeling(g, done0, rest, pending, done, run) && k in rest
    ensures Peeling(g, done0, rest - {k}, pending - {k}, done + {k}, run + [k])
  {
    hide Peeled;
    assert k !in done0 by { ReadyIsOpen(g, done0, k); }
    PeelOne(g, pending, done, run, done0, k);
  }

  lemma ReadyIsOpen(g: Graph<Text>, done: set<Text>, k: Text)
    requires k in Ready(g, done)
    ensures k in g && k !in done
  {}

  /** Move one layer of ready tasks from `pending` to `done`, in whatever order. */
  method PeelLayer(
      ghost g: Graph<Text>, pending0: Graph<Text>, done0: set<Text>, ready: set<Text>, ghost run0: seq<Text>)
    returns (pending: Graph<Text>, done: set<Text>, ghost run: seq<Text>)
    requires Peeled(g, pending0, done0, run0) && ready == Ready(g, done0)
    ensures Peeled(g, pending, done, run) && done == done0 + ready
  {
    hide Peeled, Ready;
    pending, done, run := pending0, done0, run0;
    var rest := ready;
    while rest != {}
      invariant Peeling(g, done0, rest, pending, done, run)
    {
      hide Peeling;
      var k :| k in rest;
      PeelStep(g, done0, rest, pending, done, run, k);
      done, pending, run, rest := done + {k}, pending - {k}, run + [k], rest - {k};
    }
  }

  lemma SmallerPending(g: Graph<Text>, before: Graph<Text>, done: set<Text>, after: Graph<Text>, ready: set<Text>)
    requires ready == Ready(g, done) && ready != {}
    requires before.Keys == g.Keys - done && after.Keys == g.Keys - (done + ready)
    ensures |after| < |before|
  {
    assert |before| == |before.Keys| && |after| == |after.Keys|;
    assert before.Keys == after.Keys + ready;
  }

  // ----- transitive dependencies

  /** Exactly what `key` depends on, directly or through others. */
  ghost predicate IsClosure(g: Graph<Text>, key: Text, all: set<Text>) {
    forall d :: d in all <==> Reaches(g, key, d)
  }

  ghost predicate Within(g: Graph<Text>, key: Text, all: set<Text>) {
    forall d :: d in all ==> Reaches(g, key, d)
  }

  ghost predicate Sound(g: Graph<Text>, cache: map<Text, set<Text>>) {
    forall k :: k in cache ==> Within(g, k, cache[k])
  }

  ghost predicate Exact(g: Graph<Text>, cache: map<Text, set<Text>>) {
    forall k :: k in cache ==> IsClosure(g, k, cache[k])
  }

  /** Everything on the way down to `key` depends on it. */
  ghost predicate OnTheWay(g: Graph<Text>, seen: set<Text>, key: Text) {
    key in seen && forall x :: x in seen ==> x == key || Reaches(g, x, key)
  }

  ghost function Mentioned(g: Graph<Text>): set<Text> {
    g.Keys + set k, d | k in g && d in g[k] :: d
  }

  lemma DependencyMentioned(g: Graph<Text>, key: Text, d: Text)
    requires d in Deps(g, key)
    ensures d in Mentioned(g)
  {}

  lemma DownOneStep(g: Graph<Text>, seen: set<Text>, key: Text, d: Text)
    requires OnTheWay(g, seen, key) && d in Deps(g, key)
    ensures OnTheWay(g, seen + {d}, d)
  {
    ReachesDirect(g, key, d);
    forall x | x in seen && x != key ensures Reaches(g, x, d) {
      ReachesTransitive(g, x, key, d);
    }
  }

  lemma SeenMeansCycle(g: Graph<Text>, seen: set<Text>, key: Text, d: Text)
    requires OnTheWay(g, seen, key) && d in Deps(g, key) && d in seen
    ensures !Acyclic(g)
  {
    ReachesDirect(g, key, d);
    if d != key { ReachesTransitive(g, key, d, key); }
  }

  lemma WithinThrough(g: Graph<Text>, key: Text, d: Text, nested: set<Text>)
    requires d in Deps(g, key) && Within(g, d, nested)
    ensures Within(g, key, nested + {d})
  {
    ReachesDirect(g, key, d);
    forall x | x in nested ensures Reaches(g, key, x) {
      ReachesTransitive(g, key, d, x);
    }
  }

  /** `all` holds everything below the first dependencies. */
  ghost predicate HoldsBelow(g: Graph<Text>, dependencies: seq<Text>, all: set<Text>) {
    forall d :: d in dependencies ==> d in all && forall x :: Reaches(g, d, x) ==> x in all
  }

  lemma HoldsOneMoreBelow(g: Graph<Text>, dependencies: seq<Text>, i: nat, all: set<Text>, nested: set<Text>)
    requires i < |dependencies| && HoldsBelow(g, dependencies[..i], all) && IsClosure(g, dependencies[i], nested)
    ensures HoldsBelow(g, dependencies[..i + 1], all + {dependencies[i]} + nested)
  {
    hide Reaches;
    assert dependencies[..i + 1] == dependencies[..i] + [dependencies[i]];
  }

  lemma BelowIsClosure(g: Graph<Text>, key: Text, all: set<Text>)
    requires Within(g, key, all) && HoldsBelow(g, Deps(g, key), all)
    ensures IsClosure(g, key, all)
  {
    forall x | Reaches(g, key, x) ensures x in all {
      ReachesFirstStep(g, key, x);
      var d :| d in Deps(g, key) && (d == x || Reaches(g, d, x));
    }
  }

  class TransitiveDependencies {
    const direct: Graph<Text>
    var result: map<Text, set<Text>>

    constructor (g: Graph<Text>)
      ensures direct == g && result == map[]
    {
      direct := g;
      result := map[];
    }

    /** The memoised search. What it finds is always reachable, and on an acyclic graph, whatever is
        in the cache already, it is everything that is. */
    method Resolve(key: Text, seen: set<Text>) returns (all: set<Text>)
      requires OnTheWay(direct, seen, key) && Sound(direct, result)
      modifies this
      ensures Sound(direct, result) && key in result && result[key] == all
      ensures old(result).Keys <= result.Keys
      ensures Acyclic(direct) && Exact(direct, old(result)) ==> Exact(direct, result)
      decreases Mentioned(direct) - seen
    {
      hide Acyclic, Reaches, HoldsBelow, Mentioned, OnTheWay, IsClosure, Within;
      if key in result {
        return result[key];
      }
      all := {};
      var dependencies := if key in direct then direct[key] else [];
      ghost var start := result;
      NothingBelow(direct, key);
      for i := 0 to |dependencies|
        invariant Sound(direct, result) && Within(direct, key, all)
        invariant start.Keys <= result.Keys
        invariant
          Acyclic(direct) && Exact(direct, start) ==>
            Exact(direct, result) && HoldsBelow(direct, dependencies[..i], all)
      {
        var dependency := dependencies[i];
        assert dependency in Deps(direct, key);
        if dependency in seen {
          SeenMeansCycle(direct, seen, key, dependency);
          continue;
        }
        DownOneStep(direct, seen, key, dependency);
        DependencyMentioned(direct, key, dependency);
        var nested := this.Resolve(dependency, seen + {dependency});
        WithinThrough(direct, key, dependency, nested);
        WithinBoth(direct, key, all, nested + {dependency});
        if Acyclic(direct) && Exact(direct, start) {
          HoldsOneMoreBelow(direct, dependencies, i, all, nested);
        }
        assert all + {dependency} + nested == all + (nested + {dependency});
        all := all + {dependency} + nested;
      }
      assert dependencies[..|dependencies|] == dependencies == Deps(direct, key);
      if Acyclic(direct) && Exact(direct, start) {
        BelowIsClosure(direct, key, all);
      }
      result := result[key := all];
    }
  }

  lemma NothingBelow(g: Graph<Text>, key: Text)
    ensures Within(g, key, {}) && HoldsBelow(g, [], {})
  {}

  lemma WithinBoth(g: Graph<Text>, key: Text, a: set<Text>, b: set<Text>)
    requires Within(g, key, a) && Within(g, key, b)
    ensures Within(g, key, a + b)
  {}

  /** On an acyclic plan the table is the transitive closure, in whatever order the tasks are listed. */
  method TransitiveTable(tasks: seq<PlanTask>) returns (table: map<Text, set<Text>>)
    ensures forall i :: 0 <= i < |tasks| ==> tasks[i].key in table
    ensures Sound(Direct(tasks), table)
    ensures Acyclic(Direct(tasks)) ==> Exact(Direct(tasks), table)
  {
    hide Acyclic, Reaches, IsClosure;
    var search := new TransitiveDependencies(Direct(tasks));
    for n := 0 to |tasks|
      invariant fresh(search) && search.direct == Direct(tasks)
      invariant Sound(search.direct, search.result)
      invariant Acyclic(search.direct) ==> Exact(search.direct, search.result)
      invariant forall i :: 0 <= i < n ==> tasks[i].key in search.result
    {
      var _ := search.Resolve(tasks[n].key, {tasks[n].key});
    }
    return search.result;
  }

  // ----- overlapping scopes

  /** Different tasks that write overlapping scopes are ordered by dependencies. */
  ghost predicate PairOrdered(comparable: Text -> Text, g: Graph<Text>, a: PlanTask, b: PlanTask) {
    a.key != b.key && ScopesOverlap(comparable, a.writeScopes, b.writeScopes) ==> OrderedPair(g, a.key, b.key)
  }

  ghost predicate ScopesOrdered(comparable: Text -> Text, tasks: seq<PlanTask>) {
    forall i, j :: 0 <= i < |tasks| && 0 <= j < |tasks| ==> PairOrdered(comparable, Direct(tasks), tasks[i], tasks[j])
  }

  lemma PairOrderedSymmetric(comparable: Text -> Text, g: Graph<Text>, a: PlanTask, b: PlanTask)
    requires PairOrdered(comparable, g, a, b)
    ensures PairOrdered(comparable, g, b, a)
  {
    hide Reaches, InScope;
    if ScopesOverlap(comparable, b.writeScopes, a.writeScopes) {
      var i, j :|
        0 <= i < |b.writeScopes| && 0 <= j < |a.writeScopes| && Touch(comparable, b.writeScopes[i], a.writeScopes[j]);
      assert Touch(comparable, a.writeScopes[j], b.writeScopes[i]);
    }
  }

  /** The pairs the loops compare: the smaller key on the left. */
  ghost predicate RowOrdered(comparable: Text -> Text, tasks: seq<PlanTask>, i: nat, m: nat)
    requires i < |tasks| && m <= |tasks|
  {
    forall j ::
      0 <= j < m && Before(tasks[i].key, tasks[j].key) ==> PairOrdered(comparable, Direct(tasks), tasks[i], tasks[j])
  }

  lemma {:induction false} RowsSuffice(comparable: Text -> Text, tasks: seq<PlanTask>)
    requires forall i: nat :: i < |tasks| ==> RowOrdered(comparable, tasks, i, |tasks|)
    ensures ScopesOrdered(comparable, tasks)
  {
    hide PairOrdered;
    forall i: nat, j: nat | i < |tasks| && j < |tasks|
      ensures PairOrdered(comparable, Direct(tasks), tasks[i], tasks[j])
    {
      BeforeTotal(tasks[i].key, tasks[j].key);
      if Before(tasks[i].key, tasks[j].key) {
        assert RowOrdered(comparable, tasks, i, |tasks|);
      } else if Before(tasks[j].key, tasks[i].key) {
        assert RowOrdered(comparable, tasks, j, |tasks|);
        PairOrderedSymmetric(comparable, Direct(tasks), tasks[j], tasks[i]);
      } else {
        SameKey(comparable, Direct(tasks), tasks[i], tasks[j]);
      }
    }
  }

  lemma SameKey(comparable: Text -> Text, g: Graph<Text>, a: PlanTask, b: PlanTask)
    requires a.key == b.key
    ensures PairOrdered(comparable, g, a, b)
  {}

  lemma {:induction false} BeforeIsStrict(a: Text)
    ensures !Before(a, a)
  {
    if a != [] { BeforeIsStrict(a[1..]); }
  }

  /** Two tasks of these keys may write a common path and neither waits for the other. */
  ghost predicate IsUnordered(comparable: Text -> Text, tasks: seq<PlanTask>, left: Text, right: Text) {
    && !OrderedPair(Direct(tasks), left, right)
    && exists i, j ::
         && 0 <= i < |tasks| && 0 <= j < |tasks| && tasks[i].key == left && tasks[j].key == right && left != right
         && ScopesOverlap(comparable, tasks[i].writeScopes, tasks[j].writeScopes)
  }

  method AssertScopesOrdered(comparable: Text -> Text, tasks: seq<PlanTask>) returns (r: Option<PlanError>)
    requires Acyclic(Direct(tasks))
    ensures r.None? <==> ScopesOrdered(comparable, tasks)
    ensures r.Some? ==> r.value.UnorderedScopes? && IsUnordered(comparable, tasks, r.value.left, r.value.right)
  {
    hide Acyclic, Reaches, ScopesOverlap, Before;
    var reachable := TransitiveTable(tasks);
    for i := 0 to |tasks|
      invariant forall k: nat :: k < i ==> RowOrdered(comparable, tasks, k, |tasks|)
    {
      var left := tasks[i];
      for j := 0 to |tasks|
        invariant RowOrdered(comparable, tasks, i, j)
      {
        var right := tasks[j];
        if !Before(left.key, right.key) { continue; }
        if !ScopesOverlap(comparable, left.writeScopes, right.writeScopes) { continue; }
        assert
          && IsClosure(Direct(tasks), left.key, reachable[left.key])
          && IsClosure(Direct(tasks), right.key, reachable[right.key]);
        if right.key !in reachable[left.key] && left.key !in reachable[right.key] {
          BeforeIsStrict(left.key);
          assert !PairOrdered(comparable, Direct(tasks), tasks[i], tasks[j]);
          assert IsUnordered(comparable, tasks, left.key, right.key);
          return Some(UnorderedScopes(left.key, right.key));
        }
      }
    }
    RowsSuffice(comparable, tasks);
    return None;
  }

  // ----- the whole check

  ghost predicate AcceptablePlan(comparable: Text -> Text, tasks: seq<PlanTask>) {
    && DistinctKeys(tasks) && Resolved(Direct(tasks)) && Acyclic(Direct(tasks)) && ScopesOrdered(comparable, tasks)
  }

  lemma SelfDependencyIsCycle(tasks: seq<PlanTask>, i: nat)
    requires DistinctKeys(tasks) && i < |tasks| && tasks[i].key in tasks[i].dependencies
    ensures !Acyclic(Direct(tasks))
  {
    DirectKeys(tasks);
    ReachesDirect(Direct(tasks), tasks[i].key, tasks[i].key);
  }

  /** Every reported error names a fault that is really there, and says that the checks before it passed. */
  ghost predicate Justified(comparable: Text -> Text, tasks: seq<PlanTask>, e: PlanError) {
    match e
    case DuplicateKey => exists i, j :: 0 <= i < j < |tasks| && tasks[i].key == tasks[j].key
    case DependsOnItself(key) =>
      && DistinctKeys(tasks) && exists i :: 0 <= i < |tasks| && tasks[i].key == key && key in tasks[i].dependencies
    case UnknownDependency(key, d) =>
      && DistinctKeys(tasks) && (forall j :: 0 <= j < |tasks| ==> tasks[j].key != d)
      && exists i :: 0 <= i < |tasks| && tasks[i].key == key && d in tasks[i].dependencies
    case DependenciesCycle(pending) =>
      && DistinctKeys(tasks) && Resolved(Direct(tasks)) && pending != {} && Stuck(Direct(tasks), pending)
    case UnorderedScopes(left, right) =>
      && DistinctKeys(tasks) && Resolved(Direct(tasks)) && Acyclic(Direct(tasks))
      && IsUnordered(comparable, tasks, left, right)
  }

  lemma DependencyFault(comparable: Text -> Text, tasks: seq<PlanTask>, e: PlanError)
    requires DistinctKeys(tasks)
    requires
      match e
      case DependsOnItself(key) => key in Direct(tasks) && key in Direct(tasks)[key]
      case UnknownDependency(key, d) => key in Direct(tasks) && d in Direct(tasks)[key] && d !in Direct(tasks)
      case _ => false
    ensures Justified(comparable, tasks, e)
  {
    hide Acyclic, Resolved;
    DirectKeys(tasks);
    var i :| IsEntry(tasks, i, e.key, Direct(tasks)[e.key]);
  }

  /** Accepts exactly the plans whose dependencies exist and are acyclic and whose overlapping tasks are ordered. */
  method CheckPlan(comparable: Text -> Text, tasks: seq<PlanTask>) returns (r: Option<PlanError>)
    ensures r.None? <==> AcceptablePlan(comparable, tasks)
    ensures r.Some? ==> Justified(comparable, tasks, r.value)
  {
    hide Acyclic, ScopesOrdered;
    r := AssertUnique(tasks);
    if r.Some? { return; }
    r := AssertDependenciesResolve(tasks);
    if r.Some? {
      if i :| 0 <= i < |tasks| && tasks[i].key in tasks[i].dependencies { SelfDependencyIsCycle(tasks, i); }
      DependencyFault(comparable, tasks, r.value);
      return;
    }
    r := AssertAcyclic(tasks);
    if r.Some? { return; }
    r := AssertScopesOrdered(comparable, tasks);
  }

  lemma {:induction false} TasksOrdered(comparable: Text -> Text, tasks: seq<PlanTask>, a: PlanTask, b: PlanTask)
    requires AcceptablePlan(comparable, tasks) && a in tasks && b in tasks && a != b
    requires ScopesOverlap(comparable, a.writeScopes, b.writeScopes)
    ensures OrderedPair(Direct(tasks), a.key, b.key)
  {
    hide Acyclic, Reaches, ScopesOverlap;
    assert PairOrdered(comparable, Direct(tasks), a, b);
  }

  /** Tasks of an accepted plan that may run together share no path they are both authorised to write. */
  lemma {:induction false} ConcurrentTasksShareNoPath(
      comparable: Text -> Text, tasks: seq<PlanTask>, run: seq<Text>, a: PlanTask, b: PlanTask, path: Text)
    requires AcceptablePlan(comparable, tasks) && CompletionRun(Direct(tasks), run)
    requires a in tasks && b in tasks && a != b
    requires a.key in Ready(Direct(tasks), Elems(run)) && b.key in Ready(Direct(tasks), Elems(run))
    ensures !(InsideAny(comparable, path, a.writeScopes) && InsideAny(comparable, path, b.writeScopes))
  {
    hide Acyclic, Reaches, InsideAny, ScopesOverlap;
    if InsideAny(comparable, path, a.writeScopes) && InsideAny(comparable, path, b.writeScopes) {
      OverlapIffCommonPath(comparable, a.writeScopes, b.writeScopes);
      TasksOrdered(comparable, tasks, a, b);
      ReadyUnordered(Direct(tasks), run, a.key, b.key);
    }
  }

  /** No accepted plan gets stuck. */
  lemma PlanNeverStuck(comparable: Text -> Text, tasks: seq<PlanTask>, run: seq<Text>)
    requires AcceptablePlan(comparable, tasks) && CompletionRun(Direct(tasks), run)
    ensures Ready(Direct(tasks), Elems(run)) == {} <==> Elems(run) == Direct(tasks).Keys
  {
    hide Acyclic, ScopesOrdered;
    CompletedIsClosed(Direct(tasks), run);
    if Elems(run) != Direct(tasks).Keys { SomethingReady(Direct(tasks), Elems(run)); }
  }
}
