/** Dependency graphs: reachability, cycles, and runs that complete one task after another. */
module DependencyGraphs {
  import opened Sequences

  /** Every task under its key, with the keys it depends on. */
  type Graph<K(==)> = map<K, seq<K>>

  function Deps<K(==)>(g: Graph<K>, k: K): seq<K> {
    if k in g then g[k] else []
  }

  ghost predicate Resolved<K(!new)>(g: Graph<K>) {
    forall k, d :: k in g && d in g[k] ==> d in g
  }

  /** Each key depends on the next. */
  ghost predicate IsPath<K(!new)>(g: Graph<K>, p: seq<K>) {
    forall i :: 0 <= i < |p| - 1 ==> p[i + 1] in Deps(g, p[i])
  }

  ghost predicate PathBetween<K(!new)>(g: Graph<K>, a: K, b: K, p: seq<K>) {
    |p| >= 2 && p[0] == a && p[|p| - 1] == b && IsPath(g, p)
  }

  /** `a` depends on `b`, directly or through others. */
  ghost predicate Reaches<K(!new)>(g: Graph<K>, a: K, b: K) {
    exists p :: PathBetween(g, a, b, p)
  }

  ghost predicate Acyclic<K(!new)>(g: Graph<K>) {
    forall k :: !Reaches(g, k, k)
  }

  ghost predicate OrderedPair<K(!new)>(g: Graph<K>, a: K, b: K) {
    Reaches(g, a, b) || Reaches(g, b, a)
  }

  lemma ReachesDirect<K(!new)>(g: Graph<K>, a: K, b: K)
    requires b in Deps(g, a)
    ensures Reaches(g, a, b)
  {
    assert PathBetween(g, a, b, [a, b]);
  }

  lemma ReachesTransitive<K(!new)>(g: Graph<K>, a: K, b: K, c: K)
    requires Reaches(g, a, b) && Reaches(g, b, c)
    ensures Reaches(g, a, c)
  {
    var p :| PathBetween(g, a, b, p);
    var q :| PathBetween(g, b, c, q);
    assert PathBetween(g, a, c, p + q[1..]);
  }

  /** A dependency path starts with a direct dependency. */
  lemma ReachesFirstStep<K(!new)>(g: Graph<K>, a: K, b: K)
    requires Reaches(g, a, b)
    ensures exists d :: d in Deps(g, a) && (d == b || Reaches(g, d, b))
  {
    var p :| PathBetween(g, a, b, p);
    assert p[1] in Deps(g, a);
    if |p| > 2 { assert PathBetween(g, p[1], b, p[1..]); }
  }

  /** A set closed under direct dependencies is closed under reachability. */
  lemma {:induction false} ClosedUnderPaths<K(!new)>(g: Graph<K>, s: set<K>, p: seq<K>)
    requires forall k, d :: k in s && d in Deps(g, k) ==> d in s
    requires p != [] && p[0] in s && IsPath(g, p)
    ensures p[|p| - 1] in s
  {
    if |p| > 1 {
      assert p[1] in Deps(g, p[0]);
      ClosedUnderPaths(g, s, p[1..]);
    }
  }

  lemma ClosedUnderReaches<K(!new)>(g: Graph<K>, s: set<K>, a: K, b: K)
    requires forall k, d :: k in s && d in Deps(g, k) ==> d in s
    requires a in s && Reaches(g, a, b)
    ensures b in s
  {
    var p :| PathBetween(g, a, b, p);
    ClosedUnderPaths(g, s, p);
  }

  /** From a closed set everything is reached by a last step inside the set. */
  lemma LastStepWithin<K(!new)>(g: Graph<K>, s: set<K>, a: K, b: K)
    requires forall k, d :: k in s && d in Deps(g, k) ==> d in s
    requires a in s && Reaches(g, a, b)
    ensures exists k :: k in s && b in Deps(g, k)
  {
    var p :| PathBetween(g, a, b, p);
    var n := |p| - 1;
    assert forall i :: 0 <= i < n - 1 ==> p[i + 1] in Deps(g, p[i]);
    ClosedUnderPaths(g, s, p[..n]);
    assert p[n - 1 + 1] in Deps(g, p[n - 1]);
  }

  // ----- cycles

  ghost predicate WaitsWithin<K>(g: Graph<K>, s: set<K>, k: K) {
    exists d :: d in s && d in Deps(g, k)
  }

  ghost predicate Stuck<K>(g: Graph<K>, s: set<K>) {
    s != {} && forall k :: k in s ==> WaitsWithin(g, s, k)
  }

  lemma NextWithin<K>(g: Graph<K>, s: set<K>, k: K) returns (d: K)
    requires WaitsWithin(g, s, k)
    ensures d in s && d in Deps(g, k)
  {
    d :| d in s && d in Deps(g, k);
  }

  lemma {:induction false} LongPath<K(!new)>(g: Graph<K>, s: set<K>, n: nat) returns (p: seq<K>)
    requires Stuck(g, s)
    ensures |p| == n + 1 && IsPath(g, p) && Elems(p) <= s
  {
    hide WaitsWithin, Deps;
    if n == 0 {
      var k :| k in s;
      p := [k];
    } else {
      var q := LongPath(g, s, n - 1);
      assert q[n - 1] in Elems(q);
      var d := NextWithin(g, s, q[n - 1]);
      p := q + [d];
    }
  }

  /** When every task of a non-empty set waits for another of the set, there is a cycle. */
  lemma StuckSetHasCycle<K(!new)>(g: Graph<K>, s: set<K>)
    requires Stuck(g, s)
    ensures !Acyclic(g)
  {
    hide Stuck, Deps;
    var p := LongPath(g, s, |s|);
    if NoDup(p) { NoDupLength(p, s); }
    var i, j :| 0 <= i < j < |p| && p[i] == p[j];
    var q := p[i..j + 1];
    assert forall m :: 0 <= m < |q| ==> q[m] == p[i + m];
    assert PathBetween(g, p[i], p[i], q);
    assert Reaches(g, p[i], p[i]);
  }

  /** Every task once, each after everything it depends on. */
  ghost predicate Topological<K(!new)>(g: Graph<K>, order: seq<K>) {
    && NoDup(order)
    && Elems(order) == g.Keys
    && forall i :: 0 <= i < |order| ==> Elems(Deps(g, order[i])) <= Elems(order[..i])
  }

  lemma {:induction false} PathRunsBackwards<K(!new)>(g: Graph<K>, order: seq<K>, p: seq<K>)
    requires Topological(g, order) && IsPath(g, p) && |p| >= 2
    ensures p[0] in order && p[|p| - 1] in order && IndexOf(order, p[|p| - 1]) < IndexOf(order, p[0])
  {
    assert p[1] in Deps(g, p[0]);
    assert p[0] in Elems(order);
    var i := IndexOf(order, p[0]);
    assert p[1] in Elems(order[..i]);
    var j :| 0 <= j < i && order[j] == p[1];
    assert IndexOf(order, p[1]) <= j;
    if |p| > 2 { PathRunsBackwards(g, order, p[1..]); }
  }

  lemma TopologicalIsAcyclic<K(!new)>(g: Graph<K>, order: seq<K>)
    requires Topological(g, order)
    ensures Acyclic(g)
  {
    forall k | Reaches(g, k, k) ensures false {
      var p :| PathBetween(g, k, k, p);
      PathRunsBackwards(g, order, p);
    }
  }

  // ----- completing tasks

  function Ready<K>(g: Graph<K>, completed: set<K>): set<K> {
    set k | k in g && k !in completed && forall d :: d in g[k] ==> d in completed
  }

  /** The tasks of `run` completed one after another, each when it was ready. */
  ghost predicate CompletionRun<K(!new)>(g: Graph<K>, run: seq<K>) {
    forall i :: 0 <= i < |run| ==> run[i] in Ready(g, Elems(run[..i]))
  }

  lemma CompletedIsClosed<K(!new)>(g: Graph<K>, run: seq<K>)
    requires CompletionRun(g, run)
    ensures Elems(run) <= g.Keys && NoDup(run)
    ensures forall k, d :: k in Elems(run) && d in Deps(g, k) ==> d in Elems(run)
  {
    forall k, d | k in Elems(run) && d in Deps(g, k) ensures d in Elems(run) {
      var i :| 0 <= i < |run| && run[i] == k;
      assert d in Elems(run[..i]);
    }
    forall i, j | 0 <= i < j < |run| ensures run[i] != run[j] {
      assert run[j] !in Elems(run[..j]);
      assert run[..j][i] == run[i];
    }
  }

  /** Tasks that are ready together are not ordered by dependencies. */
  lemma ReadyUnordered<K(!new)>(g: Graph<K>, run: seq<K>, a: K, b: K)
    requires CompletionRun(g, run)
    requires a in Ready(g, Elems(run)) && b in Ready(g, Elems(run))
    ensures !OrderedPair(g, a, b)
  {
    if Reaches(g, a, b) { WaitsForCompleted(g, run, a, b); }
    if Reaches(g, b, a) { WaitsForCompleted(g, run, b, a); }
  }

  lemma WaitsForCompleted<K(!new)>(g: Graph<K>, run: seq<K>, a: K, b: K)
    requires CompletionRun(g, run) && a in Ready(g, Elems(run)) && Reaches(g, a, b)
    ensures b in Elems(run)
  {
    CompletedIsClosed(g, run);
    ReachesFirstStep(g, a, b);
    var d :| d in Deps(g, a) && (d == b || Reaches(g, d, b));
    if d != b { ClosedUnderReaches(g, Elems(run), d, b); }
  }

  /** Without cycles, some task is ready until all are done. */
  lemma SomethingReady<K(!new)>(g: Graph<K>, completed: set<K>)
    requires Resolved(g) && Acyclic(g) && !(g.Keys <= completed)
    ensures Ready(g, completed) != {}
  {
    var rest := g.Keys - completed;
    if Ready(g, completed) == {} {
      var k :| k in g.Keys && k !in completed;
      assert k in rest;
      forall k | k in rest ensures WaitsWithin(g, rest, k) {
        assert k !in Ready(g, completed);
        var d :| d in g[k] && d !in completed;
        assert d in rest && d in Deps(g, k);
      }
      StuckSetHasCycle(g, rest);
    }
  }
}
