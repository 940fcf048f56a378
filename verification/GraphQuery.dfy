/** The bounded traversals of crates/workflow-code-intel/src/query.rs. */
module GraphQuery {
  import opened Sequences

  type NodeId = nat
  type EdgeId = nat

  datatype Edge = Edge(source: NodeId, target: NodeId)

  /** A partition's edges under their identifiers. */
  type Graph = map<EdgeId, Edge>

  datatype Direction = Incoming | Outgoing

  datatype TraversalResult = TraversalResult(edges: seq<EdgeId>, nodes: seq<NodeId>, truncated: bool)

  function From(e: Edge, dir: Direction): NodeId {
    if dir == Outgoing then e.source else e.target
  }

  function To(e: Edge, dir: Direction): NodeId {
    if dir == Outgoing then e.target else e.source
  }

  // ----- what a traversal is measured against

  ghost predicate Arc(g: Graph, dir: Direction, u: NodeId, e: EdgeId, v: NodeId) {
    e in g && From(g[e], dir) == u && To(g[e], dir) == v
  }

  ghost predicate IsWalk(g: Graph, dir: Direction, nodes: seq<NodeId>, edges: seq<EdgeId>) {
    && |nodes| == |edges| + 1
    && forall i :: 0 <= i < |edges| ==> Arc(g, dir, nodes[i], edges[i], nodes[i + 1])
  }

  ghost predicate WalkBetween(
      g: Graph, dir: Direction, from: NodeId, to: NodeId, nodes: seq<NodeId>, edges: seq<EdgeId>)
  {
    IsWalk(g, dir, nodes, edges) && nodes[0] == from && nodes[|nodes| - 1] == to
  }

  ghost function Successors(g: Graph, dir: Direction, s: set<NodeId>): set<NodeId> {
    set e | e in g && From(g[e], dir) in s :: To(g[e], dir)
  }

  /** The nodes within `k` edges of the roots. */
  ghost function Ball(g: Graph, dir: Direction, roots: set<NodeId>, k: nat): set<NodeId> {
    if k == 0 then roots else Ball(g, dir, roots, k - 1) + Successors(g, dir, Ball(g, dir, roots, k - 1))
  }

  lemma {:induction false} BallGrows(g: Graph, dir: Direction, roots: set<NodeId>, j: nat, k: nat)
    requires j <= k
    ensures Ball(g, dir, roots, j) <= Ball(g, dir, roots, k)
    decreases k - j
  {
    if j < k { BallGrows(g, dir, roots, j + 1, k); }
  }

  /** A node lies within k edges of a root exactly when a walk of at most k edges leads to it. */
  lemma BallIsWalks(g: Graph, dir: Direction, root: NodeId, x: NodeId, k: nat)
    ensures x in Ball(g, dir, {root}, k)
       <==> exists nodes, edges :: |edges| <= k && WalkBetween(g, dir, root, x, nodes, edges)
  {
    hide Ball;
    if x in Ball(g, dir, {root}, k) {
      var nodes, edges := WalkTo(g, dir, root, x, k);
    }
    if nodes, edges :| |edges| <= k && WalkBetween(g, dir, root, x, nodes, edges) {
      WalkInBall(g, dir, nodes, edges);
      BallGrows(g, dir, {root}, |edges|, k);
    }
  }

  lemma {:induction false} WalkInBall(g: Graph, dir: Direction, nodes: seq<NodeId>, edges: seq<EdgeId>)
    requires IsWalk(g, dir, nodes, edges)
    ensures nodes[|edges|] in Ball(g, dir, {nodes[0]}, |edges|)
    decreases |edges|
  {
    if edges != [] {
      var n := |edges| - 1;
      WalkInBall(g, dir, nodes[..n + 1], edges[..n]);
      assert Arc(g, dir, nodes[n], edges[n], nodes[n + 1]);
    }
  }

  lemma {:induction false} WalkTo(g: Graph, dir: Direction, root: NodeId, x: NodeId, k: nat)
    returns (nodes: seq<NodeId>, edges: seq<EdgeId>)
    requires x in Ball(g, dir, {root}, k)
    ensures |edges| <= k && WalkBetween(g, dir, root, x, nodes, edges)
    decreases k
  {
    if k == 0 {
      nodes, edges := [x], [];
    } else if x in Ball(g, dir, {root}, k - 1) {
      nodes, edges := WalkTo(g, dir, root, x, k - 1);
    } else {
      var e :| e in g && From(g[e], dir) in Ball(g, dir, {root}, k - 1) && To(g[e], dir) == x;
      var before, via := WalkTo(g, dir, root, From(g[e], dir), k - 1);
      nodes, edges := before + [x], via + [e];
    }
  }

  ghost function Targets(g: Graph, dir: Direction): set<NodeId> {
    set e | e in g :: To(g[e], dir)
  }

  // ----- adjacency lists

  ghost predicate IsAdjacency(g: Graph, dir: Direction, adjacency: map<NodeId, seq<(EdgeId, NodeId)>>) {
    && (forall u, i :: u in adjacency && 0 <= i < |adjacency[u]| ==>
          Arc(g, dir, u, adjacency[u][i].0, adjacency[u][i].1))
    && (forall e :: e in g ==> Listed(adjacency, From(g[e], dir), e, To(g[e], dir)))
    && (forall u, i, j :: u in adjacency && 0 <= i < j < |adjacency[u]| ==> adjacency[u][i].0 < adjacency[u][j].0)
  }

  predicate Listed(adjacency: map<NodeId, seq<(EdgeId, NodeId)>>, u: NodeId, e: EdgeId, v: NodeId) {
    u in adjacency && (e, v) in adjacency[u]
  }

  /** The pairs pushed for `u` while the edges `ids` are visited in order. */
  ghost function Pushed(g: Graph, dir: Direction, ids: seq<EdgeId>, u: NodeId): seq<(EdgeId, NodeId)>
    requires Elems(ids) <= g.Keys
  {
    if ids == [] then []
    else
      var last := ids[|ids| - 1];
      assert last in Elems(ids) && Elems(ids[..|ids| - 1]) <= Elems(ids);
      Pushed(g, dir, ids[..|ids| - 1], u) + (if From(g[last], dir) == u then [(last, To(g[last], dir))] else [])
  }

  lemma {:induction false} PushedIsSorted(g: Graph, dir: Direction, ids: seq<EdgeId>, u: NodeId)
    requires Elems(ids) <= g.Keys && Increasing(ids)
    ensures forall i :: 0 <= i < |Pushed(g, dir, ids, u)| ==>
              var (e, v) := Pushed(g, dir, ids, u)[i]; e in ids && Arc(g, dir, u, e, v)
    ensures forall e :: e in ids && From(g[e], dir) == u ==> (e, To(g[e], dir)) in Pushed(g, dir, ids, u)
    ensures forall i, j :: 0 <= i < j < |Pushed(g, dir, ids, u)| ==>
              Pushed(g, dir, ids, u)[i].0 < Pushed(g, dir, ids, u)[j].0
  {
    if ids != [] {
      var n := |ids| - 1;
      assert ids[n] in Elems(ids) && ids == ids[..n] + [ids[n]];
      PushedIsSorted(g, dir, ids[..n], u);
      assert forall e :: e in ids[..n] ==> e < ids[n];
    }
  }

  /** `adjacency` holds what was pushed while the edges `ids` were visited. */
  ghost predicate HoldsPushed(g: Graph, dir: Direction, ids: seq<EdgeId>, adjacency: map<NodeId, seq<(EdgeId, NodeId)>>)
    requires Elems(ids) <= g.Keys
  {
    forall u :: Pushed(g, dir, ids, u) == if u in adjacency then adjacency[u] else []
  }

  lemma PushedIsAdjacency(g: Graph, dir: Direction, ids: seq<EdgeId>, adjacency: map<NodeId, seq<(EdgeId, NodeId)>>)
    requires Increasing(ids) && Elems(ids) == g.Keys && HoldsPushed(g, dir, ids, adjacency)
    ensures IsAdjacency(g, dir, adjacency)
  {
    forall u | u in adjacency
      ensures forall i :: 0 <= i < |adjacency[u]| ==> Arc(g, dir, u, adjacency[u][i].0, adjacency[u][i].1)
      ensures forall i, j :: 0 <= i < j < |adjacency[u]| ==> adjacency[u][i].0 < adjacency[u][j].0
    {
      PushedIsSorted(g, dir, ids, u);
    }
    forall e | e in g ensures Listed(adjacency, From(g[e], dir), e, To(g[e], dir)) {
      assert e in Elems(ids);
      PushedIsSorted(g, dir, ids, From(g[e], dir));
    }
  }

  /** `arcs` lists exactly the edges that leave `u`. */
  ghost predicate ArcsFrom(g: Graph, dir: Direction, u: NodeId, arcs: seq<(EdgeId, NodeId)>) {
    && (forall i :: 0 <= i < |arcs| ==> Arc(g, dir, u, arcs[i].0, arcs[i].1))
    && (forall e :: e in g && From(g[e], dir) == u ==> (e, To(g[e], dir)) in arcs)
  }

  ghost predicate ArcsAscend(arcs: seq<(EdgeId, NodeId)>) {
    forall i, j :: 0 <= i < j < |arcs| ==> arcs[i].0 < arcs[j].0
  }

  function ArcsOf(adjacency: map<NodeId, seq<(EdgeId, NodeId)>>, u: NodeId): seq<(EdgeId, NodeId)> {
    if u in adjacency then adjacency[u] else []
  }

  lemma ArcsOfAdjacency(g: Graph, dir: Direction, adjacency: map<NodeId, seq<(EdgeId, NodeId)>>, u: NodeId)
    requires IsAdjacency(g, dir, adjacency)
    ensures ArcsFrom(g, dir, u, ArcsOf(adjacency, u)) && ArcsAscend(ArcsOf(adjacency, u))
  {
    forall e | e in g && From(g[e], dir) == u ensures (e, To(g[e], dir)) in ArcsOf(adjacency, u) {
      assert Listed(adjacency, From(g[e], dir), e, To(g[e], dir));
    }
  }

  lemma ArcAt(g: Graph, dir: Direction, u: NodeId, arcs: seq<(EdgeId, NodeId)>, i: nat)
    requires ArcsFrom(g, dir, u, arcs) && i < |arcs|
    ensures Arc(g, dir, u, arcs[i].0, arcs[i].1)
  {}

  lemma AllArcs(g: Graph, dir: Direction, u: NodeId, arcs: seq<(EdgeId, NodeId)>, nodes: set<NodeId>)
    requires ArcsFrom(g, dir, u, arcs) && forall j :: 0 <= j < |arcs| ==> arcs[j].1 in nodes
    ensures forall e :: e in g && From(g[e], dir) == u ==> To(g[e], dir) in nodes
  {}

  lemma AllArcEdges(g: Graph, dir: Direction, u: NodeId, arcs: seq<(EdgeId, NodeId)>, edges: set<EdgeId>)
    requires ArcsFrom(g, dir, u, arcs) && forall j :: 0 <= j < |arcs| ==> arcs[j].0 in edges
    ensures forall e :: e in g && From(g[e], dir) == u ==> e in edges
  {}

  lemma PushNext(g: Graph, dir: Direction, ids: seq<EdgeId>, e: EdgeId, adjacency: map<NodeId, seq<(EdgeId, NodeId)>>)
    requires e in g && Elems(ids) <= g.Keys && HoldsPushed(g, dir, ids, adjacency)
    ensures Elems(ids + [e]) <= g.Keys
    ensures HoldsPushed(g, dir, ids + [e], Push(adjacency, From(g[e], dir), e, To(g[e], dir)))
  {
    assert (ids + [e])[..|ids|] == ids;
    assert forall x :: x in ids ==> x in Elems(ids);
  }

  lemma NothingPushed(g: Graph, dir: Direction)
    ensures HoldsPushed(g, dir, [], map[])
  {}

  function Push(adjacency: map<NodeId, seq<(EdgeId, NodeId)>>, from: NodeId, e: EdgeId, to: NodeId)
    : map<NodeId, seq<(EdgeId, NodeId)>>
  {
    adjacency[from := (if from in adjacency then adjacency[from] else []) + [(e, to)]]
  }

  /** Edges are visited in identifier order, so every list is already sorted when the program sorts it. */
  method Adjacency(g: Graph, dir: Direction) returns (adjacency: map<NodeId, seq<(EdgeId, NodeId)>>)
    ensures IsAdjacency(g, dir, adjacency)
  {
    hide Pushed, IsAdjacency, Arc;
    adjacency := map[];
    var ids := Ascending(g.Keys);
    NothingPushed(g, dir);
    ghost var visited: seq<EdgeId> := [];
    for n := 0 to |ids|
      invariant visited == ids[..n] && Elems(visited) <= g.Keys
      invariant HoldsPushed(g, dir, visited, adjacency)
    {
      var e := ids[n];
      assert e in ids;
      PushNext(g, dir, visited, e, adjacency);
      adjacency := Push(adjacency, From(g[e], dir), e, To(g[e], dir));
      visited := visited + [e];
    }
    assert visited == ids;
    PushedIsAdjacency(g, dir, ids, adjacency);
  }

  // ----- breadth-first exploration

  ghost predicate AtDistance(g: Graph, dir: Direction, roots: set<NodeId>, x: NodeId, d: nat) {
    x in Ball(g, dir, roots, d) && forall k: nat :: k < d ==> x !in Ball(g, dir, roots, k)
  }

  /** Every visited node carries its exact distance from the roots. */
  ghost predicate Explored(g: Graph, dir: Direction, roots: set<NodeId>, dist: map<NodeId, nat>) {
    && (forall r :: r in roots ==> r in dist && dist[r] == 0)
    && (forall x :: x in dist ==> AtDistance(g, dir, roots, x, dist[x]))
  }

  /** The queue holds visited nodes of two neighbouring layers, the nearer ones first. */
  ghost predicate Layered(dist: map<NodeId, nat>, queue: seq<(NodeId, nat)>, floor: nat) {
    && (forall i :: 0 <= i < |queue| ==> queue[i].0 in dist && dist[queue[i].0] == queue[i].1)
    && (forall i :: 0 <= i < |queue| ==> floor <= queue[i].1)
    && (forall i, j :: 0 <= i < j < |queue| ==> queue[i].1 <= queue[j].1)
    && (forall x :: x in dist ==> dist[x] <= floor + 1)
  }

  ghost predicate InQueue(queue: seq<(NodeId, nat)>, x: NodeId) {
    exists i :: 0 <= i < |queue| && queue[i].0 == x
  }

  /** Every edge that leaves a finished node leads to a visited node at most one edge further away. */
  ghost predicate Finished(g: Graph, dir: Direction, dist: map<NodeId, nat>, done: set<NodeId>) {
    && done <= dist.Keys
    && forall e :: e in g && From(g[e], dir) in done ==>
         To(g[e], dir) in dist && dist[To(g[e], dir)] <= dist[From(g[e], dir)] + 1
  }

  /** Nobody is lost: a visited node is finished, in the queue, or the one being expanded. */
  ghost predicate Accounted(
      dist: map<NodeId, nat>, done: set<NodeId>, queue: seq<(NodeId, nat)>, current: set<NodeId>)
  {
    forall x :: x in dist ==> x in done || x in current || InQueue(queue, x)
  }

  lemma {:induction false} BallVisited(
      g: Graph, dir: Direction, roots: set<NodeId>, dist: map<NodeId, nat>, done: set<NodeId>, floor: nat, k: nat)
    requires Explored(g, dir, roots, dist) && Finished(g, dir, dist, done)
    requires forall x :: x in dist && x !in done ==> floor <= dist[x]
    requires k <= floor
    ensures forall x :: x in Ball(g, dir, roots, k) ==> x in dist && dist[x] <= k
  {
    if k > 0 {
      BallVisited(g, dir, roots, dist, done, floor, k - 1);
      forall x | x in Successors(g, dir, Ball(g, dir, roots, k - 1)) ensures x in dist && dist[x] <= k {
        var e :| e in g && From(g[e], dir) in Ball(g, dir, roots, k - 1) && To(g[e], dir) == x;
        assert From(g[e], dir) in done;
      }
    }
  }

  /** Up to the floor of the queue the exploration has missed nothing. */
  lemma NothingMissed(
      g: Graph, dir: Direction, roots: set<NodeId>, dist: map<NodeId, nat>, done: set<NodeId>,
      queue: seq<(NodeId, nat)>, current: set<NodeId>, floor: nat, k: nat)
    requires Explored(g, dir, roots, dist) && Finished(g, dir, dist, done) && Layered(dist, queue, floor)
    requires Accounted(dist, done, queue, current) && (forall x :: x in current && x in dist ==> floor <= dist[x])
    requires k <= floor
    ensures Ball(g, dir, roots, k) <= dist.Keys
  {
    BallVisited(g, dir, roots, dist, done, floor, k);
  }

  /** When every visited node is finished, the visited nodes are the whole reachable closure. */
  lemma ClosureVisited(g: Graph, dir: Direction, roots: set<NodeId>, dist: map<NodeId, nat>, k: nat)
    requires Explored(g, dir, roots, dist) && Finished(g, dir, dist, dist.Keys)
    ensures Ball(g, dir, roots, k) <= dist.Keys
  {
    BallVisited(g, dir, roots, dist, dist.Keys, k, k);
  }

  lemma {:induction false} NextDistance(
      g: Graph, dir: Direction, roots: set<NodeId>, dist: map<NodeId, nat>, node: NodeId, e: EdgeId, next: NodeId)
    requires Explored(g, dir, roots, dist) && node in dist && Arc(g, dir, node, e, next) && next !in dist
    requires Ball(g, dir, roots, dist[node]) <= dist.Keys
    ensures AtDistance(g, dir, roots, next, dist[node] + 1)
  {
    var d := dist[node];
    assert AtDistance(g, dir, roots, node, d);
    assert next in Successors(g, dir, Ball(g, dir, roots, d));
    forall k: nat | k < d + 1 ensures next !in Ball(g, dir, roots, k) {
      BallGrows(g, dir, roots, k, d);
    }
  }

  lemma {:induction false} DiscoverExplored(
      g: Graph, dir: Direction, roots: set<NodeId>, dist: map<NodeId, nat>, node: NodeId, e: EdgeId, next: NodeId)
    requires Explored(g, dir, roots, dist) && node in dist && Arc(g, dir, node, e, next) && next !in dist
    requires Ball(g, dir, roots, dist[node]) <= dist.Keys
    ensures Explored(g, dir, roots, dist[next := dist[node] + 1])
  {
    hide AtDistance;
    NextDistance(g, dir, roots, dist, node, e, next);
  }

  /** An unvisited node within k edges means that its ball is larger than what has been visited. */
  lemma {:induction false} CapExceeded(
      g: Graph, dir: Direction, roots: set<NodeId>, dist: map<NodeId, nat>, depth: nat, target: NodeId, k: nat)
    requires Explored(g, dir, roots, dist) && Ball(g, dir, roots, depth) <= dist.Keys
    requires forall x :: x in dist ==> dist[x] <= depth + 1
    requires target !in dist && target in Ball(g, dir, roots, k)
    ensures |dist.Keys| < |Ball(g, dir, roots, k)|
  {
    if k <= depth { BallGrows(g, dir, roots, k, depth); }
    forall x | x in dist ensures x in Ball(g, dir, roots, k) {
      BallGrows(g, dir, roots, dist[x], k);
    }
    assert dist.Keys <= Ball(g, dir, roots, k) - {target};
    SubsetSize(dist.Keys, Ball(g, dir, roots, k) - {target});
  }

  /** The whole closure lies strictly within the depth bound, and is smaller than the visited bound. */
  ghost predicate FitsCaps(g: Graph, dir: Direction, roots: set<NodeId>, maxDepth: nat, cap: nat) {
    && maxDepth > 0
    && Ball(g, dir, roots, maxDepth) == Ball(g, dir, roots, maxDepth - 1)
    && |Ball(g, dir, roots, maxDepth)| < cap
  }

  lemma NextBallStable(g: Graph, dir: Direction, roots: set<NodeId>, j: nat)
    requires Ball(g, dir, roots, j + 1) == Ball(g, dir, roots, j)
    ensures Ball(g, dir, roots, j + 2) == Ball(g, dir, roots, j + 1)
  {
    hide Successors;
    var b := Ball(g, dir, roots, j + 1);
    assert Ball(g, dir, roots, j + 2) == b + Successors(g, dir, b);
    assert b == Ball(g, dir, roots, j) + Successors(g, dir, Ball(g, dir, roots, j));
  }

  lemma {:induction false} BallStable(g: Graph, dir: Direction, roots: set<NodeId>, j: nat, k: nat)
    requires j <= k && Ball(g, dir, roots, j + 1) == Ball(g, dir, roots, j)
    ensures Ball(g, dir, roots, k) == Ball(g, dir, roots, j)
    decreases k - j
  {
    if j < k {
      NextBallStable(g, dir, roots, j);
      BallStable(g, dir, roots, j + 1, k);
    }
  }

  /** When the closure fits the caps, neither cap is ever met. */
  lemma CapsNotMet(g: Graph, dir: Direction, roots: set<NodeId>, dist: map<NodeId, nat>, maxDepth: nat, cap: nat)
    requires Explored(g, dir, roots, dist) && FitsCaps(g, dir, roots, maxDepth, cap)
    ensures |dist.Keys| < cap
    ensures forall x :: x in dist ==> dist[x] < maxDepth
  {
    hide Ball, AtDistance;
    forall x | x in dist ensures x in Ball(g, dir, roots, maxDepth) && dist[x] < maxDepth {
      WithinClosure(g, dir, roots, x, dist[x], maxDepth);
    }
    SubsetSize(dist.Keys, Ball(g, dir, roots, maxDepth));
  }

  lemma WithinClosure(g: Graph, dir: Direction, roots: set<NodeId>, x: NodeId, d: nat, k: nat)
    requires AtDistance(g, dir, roots, x, d) && k > 0
    requires Ball(g, dir, roots, k) == Ball(g, dir, roots, k - 1)
    ensures d < k && x in Ball(g, dir, roots, k)
  {
    hide Ball;
    if d < k {
      BallGrows(g, dir, roots, d, k);
    } else {
      BallStable(g, dir, roots, k - 1, d);
    }
  }

  /** The visited nodes of an exploration that no cap has cut are a whole ball. */
  lemma {:induction false} UncutClosure(g: Graph, dir: Direction, roots: set<NodeId>, dist: map<NodeId, nat>, k: nat)
    requires Explored(g, dir, roots, dist) && Finished(g, dir, dist, dist.Keys)
    requires forall x :: x in dist ==> dist[x] <= k
    ensures dist.Keys == Ball(g, dir, roots, k)
  {
    ClosureVisited(g, dir, roots, dist, k);
    WithinBall(g, dir, roots, dist, k);
  }

  lemma {:induction false} WithinBall(g: Graph, dir: Direction, roots: set<NodeId>, dist: map<NodeId, nat>, k: nat)
    requires Explored(g, dir, roots, dist) && forall x :: x in dist ==> dist[x] <= k
    ensures dist.Keys <= Ball(g, dir, roots, k)
  {
    forall x | x in dist ensures x in Ball(g, dir, roots, k) {
      assert AtDistance(g, dir, roots, x, dist[x]);
      BallGrows(g, dir, roots, dist[x], k);
    }
  }

  // ----- the state of a running search

  /** A run that no cap has cut yet has finished or still holds every visited node. */
  ghost predicate Uncut(
      g: Graph, dir: Direction, dist: map<NodeId, nat>, done: set<NodeId>, queue: seq<(NodeId, nat)>,
      current: set<NodeId>, maxDepth: nat)
  {
    && Finished(g, dir, dist, done)
    && Accounted(dist, done, queue, current)
    && forall x :: x in done ==> dist[x] < maxDepth
  }

  /** Once a cap has cut the run, nothing can be discovered any more. */
  ghost predicate Cut(dist: map<NodeId, nat>, queue: seq<(NodeId, nat)>, maxDepth: nat, cap: nat) {
    |dist.Keys| >= cap || forall i :: 0 <= i < |queue| ==> queue[i].1 >= maxDepth
  }

  ghost predicate Searching(
      g: Graph, dir: Direction, roots: set<NodeId>, dist: map<NodeId, nat>, done: set<NodeId>,
      queue: seq<(NodeId, nat)>, floor: nat, maxDepth: nat, cap: nat, truncated: bool, fits: bool)
  {
    && Explored(g, dir, roots, dist)
    && Layered(dist, queue, floor)
    && (if truncated then Cut(dist, queue, maxDepth, cap) else Uncut(g, dir, dist, done, queue, {}, maxDepth))
    && (fits ==> !truncated)
  }

  /** While `node` is expanded, a cut run is one that has met the visited bound. */
  ghost predicate Expanding(
      g: Graph, dir: Direction, roots: set<NodeId>, dist: map<NodeId, nat>, done: set<NodeId>,
      queue: seq<(NodeId, nat)>, node: NodeId, maxDepth: nat, cap: nat, truncated: bool, fits: bool)
  {
    && Explored(g, dir, roots, dist)
    && node in dist && dist[node] < maxDepth
    && Layered(dist, queue, dist[node])
    && (if truncated then |dist.Keys| >= cap else Uncut(g, dir, dist, done, queue, {node}, maxDepth))
    && (fits ==> !truncated)
  }

  /** A search starts with the roots at distance zero, all of them queued. */
  lemma StartSearching(
      g: Graph, dir: Direction, roots: set<NodeId>, dist: map<NodeId, nat>, queue: seq<(NodeId, nat)>, maxDepth: nat,
      cap: nat, fits: bool)
    requires dist == map r | r in roots :: 0
    requires forall r :: r in roots <==> InQueue(queue, r)
    requires forall i :: 0 <= i < |queue| ==> queue[i].1 == 0
    ensures Searching(g, dir, roots, dist, {}, queue, 0, maxDepth, cap, false, fits)
  {
    forall r | r in roots ensures AtDistance(g, dir, roots, r, 0) {}
    forall i | 0 <= i < |queue| ensures queue[i].0 in dist {
      assert InQueue(queue, queue[i].0);
    }
  }

  /** A search that ends uncut has visited exactly the closure, within the depth bound. */
  lemma EndSearching(
      g: Graph, dir: Direction, roots: set<NodeId>, dist: map<NodeId, nat>, done: set<NodeId>, floor: nat,
      maxDepth: nat, cap: nat, fits: bool)
    requires Searching(g, dir, roots, dist, done, [], floor, maxDepth, cap, false, fits)
    ensures done == dist.Keys && Finished(g, dir, dist, dist.Keys)
    ensures forall k: nat :: Ball(g, dir, roots, k) <= dist.Keys
    ensures roots != {} ==> maxDepth > 0
    ensures
      maxDepth > 0 ==> Ball(g, dir, roots, maxDepth) == dist.Keys && Ball(g, dir, roots, maxDepth - 1) == dist.Keys
  {
    hide Ball, AtDistance;
    assert done == dist.Keys by {
      forall x | x in dist ensures x in done { assert !InQueue([], x); }
    }
    forall k: nat ensures Ball(g, dir, roots, k) <= dist.Keys {
      ClosureVisited(g, dir, roots, dist, k);
    }
    if maxDepth > 0 {
      UncutClosure(g, dir, roots, dist, maxDepth);
      UncutClosure(g, dir, roots, dist, maxDepth - 1);
    }
    forall r | r in roots ensures maxDepth > 0 {
      assert dist[r] < maxDepth;
    }
  }

  lemma FitsUncut(
      g: Graph, dir: Direction, roots: set<NodeId>, dist: map<NodeId, nat>, done: set<NodeId>,
      queue: seq<(NodeId, nat)>, floor: nat, maxDepth: nat, cap: nat, truncated: bool, fits: bool)
    requires Searching(g, dir, roots, dist, done, queue, floor, maxDepth, cap, truncated, fits)
    ensures fits ==> !truncated
  {}

  lemma PopLayered(dist: map<NodeId, nat>, queue: seq<(NodeId, nat)>, floor: nat)
    requires Layered(dist, queue, floor) && queue != []
    ensures queue[0].0 in dist && dist[queue[0].0] == queue[0].1 && Layered(dist, queue[1..], queue[0].1)
  {}

  lemma PopAccounted(dist: map<NodeId, nat>, done: set<NodeId>, queue: seq<(NodeId, nat)>)
    requires queue != [] && Accounted(dist, done, queue, {})
    ensures Accounted(dist, done, queue[1..], {queue[0].0})
  {
    forall x | x in dist && x !in done && x != queue[0].0 ensures InQueue(queue[1..], x) {
      var i :| 0 <= i < |queue| && queue[i].0 == x;
      assert queue[1..][i - 1] == queue[i];
    }
  }

  /** A node popped at the depth bound cuts the run. */
  lemma {:induction false} PopAtDepthBound(
      g: Graph, dir: Direction, roots: set<NodeId>, dist: map<NodeId, nat>, done: set<NodeId>,
      queue: seq<(NodeId, nat)>, floor: nat, maxDepth: nat, cap: nat, truncated: bool, fits: bool)
    requires fits ==> FitsCaps(g, dir, roots, maxDepth, cap)
    requires Searching(g, dir, roots, dist, done, queue, floor, maxDepth, cap, truncated, fits)
    requires queue != [] && queue[0].1 >= maxDepth
    ensures Searching(g, dir, roots, dist, done, queue[1..], queue[0].1, maxDepth, cap, true, fits)
    ensures !truncated ==> Ball(g, dir, roots, maxDepth) <= dist.Keys
  {
    PopLayered(dist, queue, floor);
    if fits { CapsNotMet(g, dir, roots, dist, maxDepth, cap); }
    if !truncated {
      PopAccounted(dist, done, queue);
      NothingMissed(g, dir, roots, dist, done, queue[1..], {queue[0].0}, queue[0].1, maxDepth);
    }
  }

  lemma PopToExpand(
      g: Graph, dir: Direction, roots: set<NodeId>, dist: map<NodeId, nat>, done: set<NodeId>,
      queue: seq<(NodeId, nat)>, floor: nat, maxDepth: nat, cap: nat, truncated: bool, fits: bool)
    requires Searching(g, dir, roots, dist, done, queue, floor, maxDepth, cap, truncated, fits)
    requires queue != [] && queue[0].1 < maxDepth
    ensures queue[0].0 in dist
    ensures Expanding(g, dir, roots, dist, done, queue[1..], queue[0].0, maxDepth, cap, truncated, fits)
    ensures dist[queue[0].0] == queue[0].1
  {
    PopLayered(dist, queue, floor);
    if !truncated { PopAccounted(dist, done, queue); }
  }

  /** While nothing has cut the run, everything up to the expanded node's layer has been visited. */
  lemma ExpandingMissesNothing(
      g: Graph, dir: Direction, roots: set<NodeId>, dist: map<NodeId, nat>, done: set<NodeId>,
      queue: seq<(NodeId, nat)>, node: NodeId, maxDepth: nat, cap: nat, fits: bool)
    requires Expanding(g, dir, roots, dist, done, queue, node, maxDepth, cap, false, fits)
    ensures Ball(g, dir, roots, dist[node]) <= dist.Keys
  {
    NothingMissed(g, dir, roots, dist, done, queue, {node}, dist[node], dist[node]);
  }

  lemma MeetVisitedBound(
      g: Graph, dir: Direction, roots: set<NodeId>, dist: map<NodeId, nat>, done: set<NodeId>,
      queue: seq<(NodeId, nat)>, node: NodeId, maxDepth: nat, cap: nat, truncated: bool, fits: bool)
    requires fits ==> FitsCaps(g, dir, roots, maxDepth, cap)
    requires Expanding(g, dir, roots, dist, done, queue, node, maxDepth, cap, truncated, fits)
    requires |dist.Keys| >= cap
    ensures Expanding(g, dir, roots, dist, done, queue, node, maxDepth, cap, true, fits)
  {
    if fits { CapsNotMet(g, dir, roots, dist, maxDepth, cap); }
  }

  lemma DiscoverAccounted(
      dist: map<NodeId, nat>, done: set<NodeId>, queue: seq<(NodeId, nat)>, node: NodeId, next: NodeId, depth: nat)
    requires Accounted(dist, done, queue, {node})
    ensures Accounted(dist[next := depth], done, queue + [(next, depth)], {node})
  {
    var longer := queue + [(next, depth)];
    forall x | x in dist[next := depth] && x !in done && x != node ensures InQueue(longer, x) {
      if x == next {
        assert longer[|queue|].0 == x;
      } else {
        var i :| 0 <= i < |queue| && queue[i].0 == x;
        assert longer[i].0 == x;
      }
    }
  }

  lemma DiscoverLayered(dist: map<NodeId, nat>, queue: seq<(NodeId, nat)>, depth: nat, next: NodeId)
    requires Layered(dist, queue, depth) && next !in dist
    ensures Layered(dist[next := depth + 1], queue + [(next, depth + 1)], depth)
  {}

  lemma DiscoverFinished(g: Graph, dir: Direction, dist: map<NodeId, nat>, done: set<NodeId>, next: NodeId, depth: nat)
    requires Finished(g, dir, dist, done) && next !in dist
    ensures Finished(g, dir, dist[next := depth], done)
  {
    assert dist[next := depth].Keys == dist.Keys + {next};
  }

  lemma {:induction false} Discover(
      g: Graph, dir: Direction, roots: set<NodeId>, dist: map<NodeId, nat>, after: map<NodeId, nat>,
      done: set<NodeId>, queue: seq<(NodeId, nat)>, longer: seq<(NodeId, nat)>, node: NodeId, maxDepth: nat, cap: nat,
      e: EdgeId, next: NodeId, fits: bool)
    requires Expanding(g, dir, roots, dist, done, queue, node, maxDepth, cap, false, fits)
    requires Arc(g, dir, node, e, next) && next !in dist
    requires after == dist[next := dist[node] + 1] && longer == queue + [(next, dist[node] + 1)]
    ensures Expanding(g, dir, roots, after, done, longer, node, maxDepth, cap, false, fits)
  {
    hide Ball, AtDistance, Arc, Successors;
    ExpandingMissesNothing(g, dir, roots, dist, done, queue, node, maxDepth, cap, fits);
    DiscoverExplored(g, dir, roots, dist, node, e, next);
    DiscoverLayered(dist, queue, dist[node], next);
    DiscoverAccounted(dist, done, queue, node, next, dist[node] + 1);
    DiscoverFinished(g, dir, dist, done, next, dist[node] + 1);
    assert after[node] == dist[node];
    assert Uncut(g, dir, after, done, longer, {node}, maxDepth) by {
      assert forall x :: x in done ==> x in dist && after[x] == dist[x];
    }
  }

  lemma FinishExpanding(
      g: Graph, dir: Direction, roots: set<NodeId>, dist: map<NodeId, nat>, done: set<NodeId>,
      queue: seq<(NodeId, nat)>, node: NodeId, maxDepth: nat, cap: nat, truncated: bool, fits: bool)
    requires Expanding(g, dir, roots, dist, done, queue, node, maxDepth, cap, truncated, fits)
    requires !truncated ==> forall e :: e in g && From(g[e], dir) == node ==> To(g[e], dir) in dist
    ensures Searching(g, dir, roots, dist, done + {node}, queue, dist[node], maxDepth, cap, truncated, fits)
  {}

  // ----- shortest_path

  /** `previous` leads every visited node one step back towards the source. */
  ghost predicate LeadsBack(g: Graph, source: NodeId, dist: map<NodeId, nat>, previous: map<NodeId, (NodeId, EdgeId)>) {
    forall x :: x in dist && x != source ==>
      && x in previous && previous[x].0 in dist
      && Arc(g, Outgoing, previous[x].0, previous[x].1, x)
      && dist[x] == dist[previous[x].0] + 1
  }

  // ----- the least of the shortest paths

  /** The edges that `previous` leads back along, in the order of the path. */
  function Trail(previous: map<NodeId, (NodeId, EdgeId)>, x: NodeId, d: nat): (t: seq<EdgeId>)
    ensures |t| <= d
    decreases d
  {
    if d == 0 || x !in previous then [] else Trail(previous, previous[x].0, d - 1) + [previous[x].1]
  }

  lemma {:induction false} TrailLength(
      g: Graph, source: NodeId, dist: map<NodeId, nat>, previous: map<NodeId, (NodeId, EdgeId)>, x: NodeId)
    requires LeadsBack(g, source, dist, previous) && x in dist && source in dist && dist[source] == 0
    ensures |Trail(previous, x, dist[x])| == dist[x]
    decreases dist[x]
  {
    hide Arc;
    if x != source { TrailLength(g, source, dist, previous, previous[x].0); }
  }

  /** A newly visited node changes no trail. */
  lemma {:induction false} TrailStays(
      g: Graph, source: NodeId, dist: map<NodeId, nat>, previous: map<NodeId, (NodeId, EdgeId)>, x: NodeId,
      next: NodeId, back: (NodeId, EdgeId))
    requires LeadsBack(g, source, dist, previous) && x in dist && source in dist && dist[source] == 0
    requires next !in dist
    ensures Trail(previous[next := back], x, dist[x]) == Trail(previous, x, dist[x])
    decreases dist[x]
  {
    hide Arc;
    if x != source { TrailStays(g, source, dist, previous, previous[x].0, next, back); }
  }

  /** No walk of the same length to the node comes before its trail. */
  ghost predicate LeastTrail(g: Graph, source: NodeId, x: NodeId, trail: seq<EdgeId>) {
    forall nodes, edges ::
      WalkBetween(g, Outgoing, source, x, nodes, edges) && |edges| == |trail| ==> !Earlier(edges, trail)
  }

  /** Which of two nodes stands first in the queue: of one layer by their trails, and of two neighbouring layers a node
      of the nearer one, with the parent of the other before it. */
  ghost predicate InTurn(a: seq<EdgeId>, b: seq<EdgeId>) {
    && (|a| == |b| ==> Earlier(a, b))
    && (|b| == |a| + 1 ==> Earlier(b[..|a|], a))
  }

  ghost predicate TrailsInTurn(previous: map<NodeId, (NodeId, EdgeId)>, queue: seq<(NodeId, nat)>) {
    forall i, j :: 0 <= i < j < |queue| ==>
      InTurn(Trail(previous, queue[i].0, queue[i].1), Trail(previous, queue[j].0, queue[j].1))
  }

  /** Every visited node is reached by its least trail, and the queue stands in the order of trails. */
  ghost predicate LeastFirst(
      g: Graph, source: NodeId, dist: map<NodeId, nat>, previous: map<NodeId, (NodeId, EdgeId)>,
      queue: seq<(NodeId, nat)>)
  {
    && LeadsBack(g, source, dist, previous)
    && (forall x :: x in dist ==> LeastTrail(g, source, x, Trail(previous, x, dist[x])))
    && TrailsInTurn(previous, queue)
  }

  /** While `node` is expanded it stands before the queue, and so does its continuation by any edge from `least` on
      behind all nodes of the next layer. */
  ghost predicate ExpandsInTurn(
      previous: map<NodeId, (NodeId, EdgeId)>, queue: seq<(NodeId, nat)>, node: NodeId, depth: nat, least: nat)
  {
    var trail := Trail(previous, node, depth);
    && |trail| == depth
    && (forall j :: 0 <= j < |queue| && queue[j].1 == depth ==>
          Earlier(trail, Trail(previous, queue[j].0, queue[j].1)))
    && forall j, e :: 0 <= j < |queue| && queue[j].1 == depth + 1 && least <= e ==>
         Earlier(Trail(previous, queue[j].0, queue[j].1), trail + [e])
  }

  lemma StartLeast(g: Graph, source: NodeId, queue: seq<(NodeId, nat)>)
    requires queue == [(source, 0)]
    ensures LeastFirst(g, source, map[source := 0], map[], queue)
  {}

  /** Every queued node has a trail as long as its depth. */
  ghost predicate TrailsFit(previous: map<NodeId, (NodeId, EdgeId)>, queue: seq<(NodeId, nat)>) {
    forall j :: 0 <= j < |queue| ==> |Trail(previous, queue[j].0, queue[j].1)| == queue[j].1
  }

  lemma QueueTrailsFit(
      g: Graph, source: NodeId, dist: map<NodeId, nat>, previous: map<NodeId, (NodeId, EdgeId)>,
      queue: seq<(NodeId, nat)>, floor: nat)
    requires LeadsBack(g, source, dist, previous) && Layered(dist, queue, floor) && source in dist && dist[source] == 0
    ensures TrailsFit(previous, queue)
  {
    hide Trail, LeadsBack;
    forall j | 0 <= j < |queue| ensures |Trail(previous, queue[j].0, queue[j].1)| == queue[j].1 {
      TrailLength(g, source, dist, previous, queue[j].0);
    }
  }

  lemma PopInTurn(previous: map<NodeId, (NodeId, EdgeId)>, queue: seq<(NodeId, nat)>)
    requires queue != [] && TrailsInTurn(previous, queue) && TrailsFit(previous, queue)
    ensures TrailsInTurn(previous, queue[1..])
    ensures ExpandsInTurn(previous, queue[1..], queue[0].0, queue[0].1, 0)
  {
    hide Trail, Earlier;
    var (node, depth) := queue[0];
    var trail, rest := Trail(previous, node, depth), queue[1..];
    forall i, j | 0 <= i < j < |rest|
      ensures InTurn(Trail(previous, rest[i].0, rest[i].1), Trail(previous, rest[j].0, rest[j].1))
    {
      assert rest[i] == queue[i + 1] && rest[j] == queue[j + 1];
    }
    forall j | 0 <= j < |rest| && rest[j].1 == depth ensures Earlier(trail, Trail(previous, rest[j].0, rest[j].1)) {
      assert rest[j] == queue[j + 1];
      assert InTurn(trail, Trail(previous, queue[j + 1].0, queue[j + 1].1));
    }
    forall j, e | 0 <= j < |rest| && rest[j].1 == depth + 1 && 0 <= e
      ensures Earlier(Trail(previous, rest[j].0, rest[j].1), trail + [e])
    {
      assert rest[j] == queue[j + 1];
      var later := Trail(previous, rest[j].0, rest[j].1);
      assert InTurn(trail, later);
      assert later == later[..depth] + [later[depth]];
      EarlierSnoc(later[..depth], trail, later[depth], e);
    }
  }

  /** Every walk to a node of the next layer passes a node of this one that is being expanded or still queued. */
  lemma PenultimateWaits(
      g: Graph, source: NodeId, dist: map<NodeId, nat>, done: set<NodeId>, queue: seq<(NodeId, nat)>, node: NodeId,
      maxDepth: nat, cap: nat, next: NodeId, nodes: seq<NodeId>, edges: seq<EdgeId>, fits: bool)
    requires Expanding(g, Outgoing, {source}, dist, done, queue, node, maxDepth, cap, false, fits)
    requires next !in dist && AtDistance(g, Outgoing, {source}, next, dist[node] + 1)
    requires WalkBetween(g, Outgoing, source, next, nodes, edges) && |edges| == dist[node] + 1
    ensures
      var k := dist[node];
      && WalkBetween(g, Outgoing, source, nodes[k], nodes[..k + 1], edges[..k])
      && Arc(g, Outgoing, nodes[k], edges[k], next)
      && nodes[k] in dist && dist[nodes[k]] == k
      && (nodes[k] == node || InQueue(queue, nodes[k]))
  {
    hide Ball;
    var k := dist[node];
    var x := nodes[k];
    ExpandingMissesNothing(g, Outgoing, {source}, dist, done, queue, node, maxDepth, cap, fits);
    WalkInBall(g, Outgoing, nodes[..k + 1], edges[..k]);
    assert nodes[..k + 1][k] == x && nodes[..k + 1][0] == source;
    assert x in dist;
    assert AtDistance(g, Outgoing, {source}, x, dist[x]);
    if dist[x] < k { NextBall(g, source, x, edges[k], next, dist[x]); }
    assert Arc(g, Outgoing, x, edges[k], next);
  }

  lemma NextBall(g: Graph, source: NodeId, x: NodeId, e: EdgeId, next: NodeId, d: nat)
    requires x in Ball(g, Outgoing, {source}, d) && Arc(g, Outgoing, x, e, next)
    ensures next in Ball(g, Outgoing, {source}, d + 1)
  {}

  /** The edge that discovers a node continues the least trail to it. */
  lemma DiscoversLeast(
      g: Graph, source: NodeId, dist: map<NodeId, nat>, previous: map<NodeId, (NodeId, EdgeId)>, done: set<NodeId>,
      queue: seq<(NodeId, nat)>, node: NodeId, maxDepth: nat, cap: nat, e: EdgeId, next: NodeId, fits: bool)
    requires Expanding(g, Outgoing, {source}, dist, done, queue, node, maxDepth, cap, false, fits)
    requires LeastFirst(g, source, dist, previous, queue)
    requires ExpandsInTurn(previous, queue, node, dist[node], e)
    requires next !in dist && AtDistance(g, Outgoing, {source}, next, dist[node] + 1)
    requires forall f :: Arc(g, Outgoing, node, f, next) ==> e <= f
    ensures LeastTrail(g, source, next, Trail(previous, node, dist[node]) + [e])
  {
    hide Ball, AtDistance, Trail, Earlier, Arc, LeadsBack, TrailsInTurn, Explored, Finished;
    var k, trail := dist[node], Trail(previous, node, dist[node]);
    SourceKnown(g, source, dist, done, queue, node, maxDepth, cap, fits);
    forall nodes, edges | WalkBetween(g, Outgoing, source, next, nodes, edges) && |edges| == |trail + [e]|
      ensures !Earlier(edges, trail + [e])
    {
      PenultimateWaits(g, source, dist, done, queue, node, maxDepth, cap, next, nodes, edges, fits);
      var x, start := nodes[k], edges[..k];
      assert edges == start + [edges[k]];
      EarlierSnoc(start, trail, edges[k], e);
      assert LeastTrail(g, source, x, Trail(previous, x, dist[x]));
      if x != node {
        var j :| 0 <= j < |queue| && queue[j].0 == x;
        assert queue[j].1 == k;
        TrailLength(g, source, dist, previous, x);
        NotBeforeEarlier(start, trail, Trail(previous, x, k));
      }
    }
  }

  lemma SourceKnown(
      g: Graph, source: NodeId, dist: map<NodeId, nat>, done: set<NodeId>, queue: seq<(NodeId, nat)>, node: NodeId,
      maxDepth: nat, cap: nat, fits: bool)
    requires Expanding(g, Outgoing, {source}, dist, done, queue, node, maxDepth, cap, false, fits)
    ensures source in dist && dist[source] == 0 && node in dist
    ensures Explored(g, Outgoing, {source}, dist) && Layered(dist, queue, dist[node])
  {}

  lemma NotBeforeEarlier(start: seq<nat>, trail: seq<nat>, later: seq<nat>)
    requires |start| == |trail| && Earlier(trail, later) && (|start| == |later| ==> !Earlier(start, later))
    requires |later| == |trail|
    ensures !Earlier(start, trail) && start != trail
  {
    if Earlier(start, trail) { EarlierTransitive(start, trail, later); }
  }

  /** Discovering a node keeps everything in turn. */
  lemma DiscoverLeast(
      g: Graph, source: NodeId, dist: map<NodeId, nat>, previous: map<NodeId, (NodeId, EdgeId)>, done: set<NodeId>,
      queue: seq<(NodeId, nat)>, node: NodeId, maxDepth: nat, cap: nat, e: EdgeId, next: NodeId, fits: bool)
    requires Expanding(g, Outgoing, {source}, dist, done, queue, node, maxDepth, cap, false, fits)
    requires LeastFirst(g, source, dist, previous, queue) && ExpandsInTurn(previous, queue, node, dist[node], e)
    requires Arc(g, Outgoing, node, e, next) && next !in dist
    requires forall f :: Arc(g, Outgoing, node, f, next) ==> e <= f
    ensures
      var after, back := dist[next := dist[node] + 1], previous[next := (node, e)];
      var longer := queue + [(next, dist[node] + 1)];
      LeastFirst(g, source, after, back, longer) && ExpandsInTurn(back, longer, node, dist[node], e + 1)
  {
    hide Ball, AtDistance, Earlier, LeastTrail, Expanding, Explored, LeadsBack;
    hide InTurn, Trail, Arc, TrailsInTurn, ExpandsInTurn;
    SourceKnown(g, source, dist, done, queue, node, maxDepth, cap, fits);
    var depth, back := dist[node], previous[next := (node, e)];
    ExpandingMissesNothing(g, Outgoing, {source}, dist, done, queue, node, maxDepth, cap, fits);
    NextDistance(g, Outgoing, {source}, dist, node, e, next);
    DiscoversLeast(g, source, dist, previous, done, queue, node, maxDepth, cap, e, next, fits);
    ExtendBack(g, source, dist, previous, node, e, next);
    forall x | x in dist ensures Trail(back, x, dist[x]) == Trail(previous, x, dist[x]) {
      TrailStays(g, source, dist, previous, x, next, (node, e));
    }
    NewTrail(previous, node, depth, e, next);
    LeastAfter(g, source, dist, previous, back, depth, next);
    QueueTrailsFit(g, source, dist, previous, queue, depth);
    forall i | 0 <= i < |queue|
      ensures Trail(back, queue[i].0, queue[i].1) == Trail(previous, queue[i].0, queue[i].1)
      ensures depth <= queue[i].1 <= depth + 1
    {
      assert queue[i].0 in dist && dist[queue[i].0] == queue[i].1;
    }
    LongerInTurn(previous, back, queue, node, depth, e, next);
  }

  lemma LeastAfter(
      g: Graph, source: NodeId, dist: map<NodeId, nat>, previous: map<NodeId, (NodeId, EdgeId)>,
      back: map<NodeId, (NodeId, EdgeId)>, depth: nat, next: NodeId)
    requires forall x :: x in dist ==> LeastTrail(g, source, x, Trail(previous, x, dist[x]))
    requires forall x :: x in dist ==> Trail(back, x, dist[x]) == Trail(previous, x, dist[x])
    requires next !in dist && LeastTrail(g, source, next, Trail(back, next, depth + 1))
    ensures
      var after := dist[next := depth + 1];
      forall x :: x in after ==> LeastTrail(g, source, x, Trail(back, x, after[x]))
  {
    hide LeastTrail, Trail;
  }

  lemma NewTrail(
      previous: map<NodeId, (NodeId, EdgeId)>, node: NodeId, depth: nat, e: EdgeId, next: NodeId)
    requires Trail(previous[next := (node, e)], node, depth) == Trail(previous, node, depth)
    ensures Trail(previous[next := (node, e)], next, depth + 1) == Trail(previous, node, depth) + [e]
  {}

  lemma LongerInTurn(
      previous: map<NodeId, (NodeId, EdgeId)>, back: map<NodeId, (NodeId, EdgeId)>, queue: seq<(NodeId, nat)>,
      node: NodeId, depth: nat, e: EdgeId, next: NodeId)
    requires TrailsInTurn(previous, queue) && ExpandsInTurn(previous, queue, node, depth, e)
    requires TrailsFit(previous, queue)
    requires forall i :: 0 <= i < |queue| ==>
               && Trail(back, queue[i].0, queue[i].1) == Trail(previous, queue[i].0, queue[i].1)
               && depth <= queue[i].1 <= depth + 1
    requires Trail(back, node, depth) == Trail(previous, node, depth)
    requires Trail(back, next, depth + 1) == Trail(previous, node, depth) + [e]
    ensures
      var longer := queue + [(next, depth + 1)];
      TrailsInTurn(back, longer) && ExpandsInTurn(back, longer, node, depth, e + 1)
  {
    hide Trail, Earlier;
    var longer := queue + [(next, depth + 1)];
    var trail, new0 := Trail(previous, node, depth), Trail(back, next, depth + 1);
    assert new0[..depth] == trail;
    forall i, j | 0 <= i < j < |longer|
      ensures InTurn(Trail(back, longer[i].0, longer[i].1), Trail(back, longer[j].0, longer[j].1))
    {
      if j < |queue| {
        assert InTurn(Trail(previous, queue[i].0, queue[i].1), Trail(previous, queue[j].0, queue[j].1));
      }
    }
    forall f | e + 1 <= f ensures Earlier(new0, trail + [f]) {
      EarlierSnoc(trail, trail, e, f);
    }
  }

  /** What is in turn for an edge is in turn for every later one. */
  lemma LaterInTurn(
      previous: map<NodeId, (NodeId, EdgeId)>, queue: seq<(NodeId, nat)>, node: NodeId, depth: nat, least: nat,
      later: nat)
    requires ExpandsInTurn(previous, queue, node, depth, least) && least <= later
    ensures ExpandsInTurn(previous, queue, node, depth, later)
  {
    hide Trail, Earlier;
  }

  function Reverse<T>(s: seq<T>): seq<T> {
    seq(|s|, i requires 0 <= i < |s| => s[|s| - 1 - i])
  }

  method Reconstruct(
      source: NodeId, target: NodeId, previous: map<NodeId, (NodeId, EdgeId)>, truncated: bool, ghost g: Graph,
      ghost dist: map<NodeId, nat>)
    returns (r: TraversalResult)
    requires source in dist && dist[source] == 0 && target in dist && LeadsBack(g, source, dist, previous)
    ensures WalkBetween(g, Outgoing, source, target, r.nodes, r.edges)
    ensures |r.edges| == dist[target] && r.truncated == truncated
    ensures r.edges == Trail(previous, target, dist[target])
  {
    hide Arc, Trail;
    var at := target;
    var nodes, edges := [target], [];
    while at != source
      invariant at in dist && |nodes| == |edges| + 1 && |edges| + dist[at] == dist[target]
      invariant Trail(previous, target, dist[target]) == Trail(previous, at, dist[at]) + Reverse(edges)
      invariant nodes[0] == target && nodes[|edges|] == at
      invariant forall i :: 0 <= i < |edges| ==> Arc(g, Outgoing, nodes[i + 1], edges[i], nodes[i])
      decreases dist[at]
    {
      var (parent, edge) := previous[at];
      OneStepBack(previous, at, dist[at], edges);
      edges := edges + [edge];
      nodes := nodes + [parent];
      at := parent;
    }
    ReverseWalk(g, Outgoing, nodes, edges);
    TrailOfSource(previous, source);
    r := TraversalResult(Reverse(edges), Reverse(nodes), truncated);
  }

  lemma OneStepBack(previous: map<NodeId, (NodeId, EdgeId)>, at: NodeId, d: nat, edges: seq<EdgeId>)
    requires d > 0 && at in previous
    ensures Trail(previous, at, d) + Reverse(edges) ==
              Trail(previous, previous[at].0, d - 1) + Reverse(edges + [previous[at].1])
  {
    assert Reverse(edges + [previous[at].1]) == [previous[at].1] + Reverse(edges);
  }

  lemma TrailOfSource(previous: map<NodeId, (NodeId, EdgeId)>, source: NodeId)
    ensures Trail(previous, source, 0) == []
  {}

  lemma ReverseWalk(g: Graph, dir: Direction, nodes: seq<NodeId>, edges: seq<EdgeId>)
    requires |nodes| == |edges| + 1
    requires forall i :: 0 <= i < |edges| ==> Arc(g, dir, nodes[i + 1], edges[i], nodes[i])
    ensures WalkBetween(g, dir, nodes[|edges|], nodes[0], Reverse(nodes), Reverse(edges))
  {
    hide Arc;
  }

  /** No ball within the depth bound that holds the target fits the visited bound. */
  ghost predicate OutOfReach(g: Graph, source: NodeId, target: NodeId, maxDepth: nat, cap: nat) {
    forall k: nat ::
      k <= maxDepth && target in Ball(g, Outgoing, {source}, k) ==> |Ball(g, Outgoing, {source}, k)| > cap
  }

  lemma {:induction false} CutOutOfReach(
      g: Graph, source: NodeId, target: NodeId, dist: map<NodeId, nat>, depth: nat, maxDepth: nat, cap: nat)
    requires Explored(g, Outgoing, {source}, dist) && target !in dist && |dist.Keys| >= cap
    requires Ball(g, Outgoing, {source}, depth) <= dist.Keys && forall x :: x in dist ==> dist[x] <= depth + 1
    ensures OutOfReach(g, source, target, maxDepth, cap)
  {
    forall k: nat | k <= maxDepth && target in Ball(g, Outgoing, {source}, k)
      ensures |Ball(g, Outgoing, {source}, k)| > cap
    {
      CapExceeded(g, Outgoing, {source}, dist, depth, target, k);
    }
  }

  lemma BallOutOfReach(g: Graph, source: NodeId, target: NodeId, visited: set<NodeId>, maxDepth: nat, cap: nat)
    requires Ball(g, Outgoing, {source}, maxDepth) <= visited && target !in visited
    ensures OutOfReach(g, source, target, maxDepth, cap)
  {
    forall k: nat | k <= maxDepth ensures target !in Ball(g, Outgoing, {source}, k) {
      BallGrows(g, Outgoing, {source}, k, maxDepth);
    }
  }

  /** No walk to a node is shorter than the node's distance. */
  lemma NoShorterWalk(
      g: Graph, dir: Direction, source: NodeId, x: NodeId, d: nat, nodes: seq<NodeId>, edges: seq<EdgeId>)
    requires AtDistance(g, dir, {source}, x, d) && WalkBetween(g, dir, source, x, nodes, edges)
    ensures d <= |edges|
  {
    WalkInBall(g, dir, nodes, edges);
  }

  function Max1(n: nat): nat { if n < 1 then 1 else n }

  lemma ExtendBack(
      g: Graph, source: NodeId, dist: map<NodeId, nat>, previous: map<NodeId, (NodeId, EdgeId)>, node: NodeId,
      e: EdgeId, next: NodeId)
    requires LeadsBack(g, source, dist, previous)
    requires node in dist && next !in dist && Arc(g, Outgoing, node, e, next)
    ensures LeadsBack(g, source, dist[next := dist[node] + 1], previous[next := (node, e)])
  {}

  /** The inner loop of `shortest_path`: follow the edges that leave one node. */
  method FollowArcs(
    arcs: seq<(EdgeId, NodeId)>, node: NodeId, depth: nat, target: NodeId, cap: nat,
    queue0: seq<(NodeId, nat)>, visited0: set<NodeId>, previous0: map<NodeId, (NodeId, EdgeId)>, truncated0: bool,
    ghost g: Graph, ghost source: NodeId, ghost maxDepth: nat, ghost fits: bool,
    ghost dist0: map<NodeId, nat>, ghost done: set<NodeId>)
    returns (
      queue: seq<(NodeId, nat)>, visited: set<NodeId>, previous: map<NodeId, (NodeId, EdgeId)>, truncated: bool,
      found: bool, ghost dist: map<NodeId, nat>)
    requires ArcsFrom(g, Outgoing, node, arcs) && (fits ==> FitsCaps(g, Outgoing, {source}, maxDepth, cap))
    requires Expanding(g, Outgoing, {source}, dist0, done, queue0, node, maxDepth, cap, truncated0, fits)
    requires visited0 == dist0.Keys && |visited0| <= cap && target !in visited0
    requires node in dist0 && dist0[node] == depth
    requires LeadsBack(g, source, dist0, previous0) && ArcsAscend(arcs)
    requires !truncated0 ==> InOrderBefore(g, source, dist0, previous0, queue0, node, depth, 0)
    requires truncated0 ==> OutOfReach(g, source, target, maxDepth, cap)
    ensures !truncated ==> LeastFirst(g, source, dist, previous, queue)
    ensures visited == dist.Keys && visited0 <= visited && |visited| <= cap
    ensures LeadsBack(g, source, dist, previous)
    ensures visited <= visited0 + Targets(g, Outgoing)
    ensures node in dist && dist[node] == depth
    ensures Expanding(g, Outgoing, {source}, dist, done, queue, node, maxDepth, cap, truncated, fits)
    ensures found <==> target in visited
    ensures found ==> !truncated && dist[target] == depth + 1
    ensures truncated ==> OutOfReach(g, source, target, maxDepth, cap)
    ensures visited == visited0 ==> queue == queue0
    ensures
      !found && !truncated ==> forall e :: e in g && From(g[e], Outgoing) == node ==> To(g[e], Outgoing) in visited
  {
    hide Ball, AtDistance, FitsCaps, OutOfReach, ArcsFrom, ArcsAscend, LeadsBack, InOrderBefore, LeastFirst, Arc;
    hide Explored, Layered, Finished, Accounted, Uncut, Cut, Searching, Expanding, Targets;
    queue, visited, previous, truncated, found, dist := queue0, visited0, previous0, truncated0, false, dist0;
    var i := 0;
    while i < |arcs|
      invariant 0 <= i <= |arcs|
      invariant visited == dist.Keys && visited0 <= visited && |visited| <= cap && target !in visited
      invariant visited <= visited0 + Targets(g, Outgoing)
      invariant visited == visited0 ==> queue == queue0
      invariant node in dist && dist[node] == depth
      invariant Expanding(g, Outgoing, {source}, dist, done, queue, node, maxDepth, cap, truncated, fits)
      invariant LeadsBack(g, source, dist, previous)
      invariant !truncated ==>
          InOrderBefore(g, source, dist, previous, queue, node, depth, if i == 0 then 0 else arcs[i - 1].0 + 1)
      invariant truncated ==> OutOfReach(g, source, target, maxDepth, cap)
      invariant !truncated ==> forall j :: 0 <= j < i ==> arcs[j].1 in visited
    {
      var (edge, next) := arcs[i];
      ArcAt(g, Outgoing, node, arcs, i);
      if |visited| >= cap {
        if !truncated {
          CutWhileExpanding(g, source, target, dist, done, queue, node, maxDepth, cap, fits);
        }
        MeetVisitedBound(g, Outgoing, {source}, dist, done, queue, node, maxDepth, cap, truncated, fits);
        truncated := true;
        return;
      }
      CutMeetsBound(g, Outgoing, {source}, dist, done, queue, node, maxDepth, cap, truncated, fits);
      NextArcInTurn(g, source, dist, previous, queue, node, depth, arcs, i);
      if next !in visited {
        EdgesAscend(g, node, arcs, i, visited);
        DiscoverLeast(g, source, dist, previous, done, queue, node, maxDepth, cap, edge, next, fits);
        StillInTurn(
          g, source, dist[next := depth + 1], previous[next := (node, edge)], queue + [(next, depth + 1)], node, depth,
          edge + 1);
        TargetKnown(g, Outgoing, node, edge, next);
        Discover(
          g, Outgoing, {source}, dist, dist[next := depth + 1], done, queue, queue + [(next, depth + 1)], node,
          maxDepth, cap, edge, next, fits);
        ExtendBack(g, source, dist, previous, node, edge, next);
        visited := visited + {next};
        previous := previous[next := (node, edge)];
        dist := dist[next := depth + 1];
        queue := queue + [(next, depth + 1)];
        if next == target {
          found := true;
          InTurnIsLeast(g, source, dist, previous, queue, node, depth, edge + 1);
          return;
        }
      }
      i := i + 1;
    }
    if !truncated {
      AllArcs(g, Outgoing, node, arcs, visited);
      InTurnIsLeast(g, source, dist, previous, queue, node, depth, if i == 0 then 0 else arcs[i - 1].0 + 1);
    }
  }

  /** The state of a search that expands `node` and has followed its edges below `least`. */
  ghost predicate InOrderBefore(
      g: Graph, source: NodeId, dist: map<NodeId, nat>, previous: map<NodeId, (NodeId, EdgeId)>,
      queue: seq<(NodeId, nat)>, node: NodeId, depth: nat, least: nat)
  {
    LeastFirst(g, source, dist, previous, queue) && ExpandsInTurn(previous, queue, node, depth, least)
  }

  lemma InTurnIsLeast(
      g: Graph, source: NodeId, dist: map<NodeId, nat>, previous: map<NodeId, (NodeId, EdgeId)>,
      queue: seq<(NodeId, nat)>, node: NodeId, depth: nat, least: nat)
    requires InOrderBefore(g, source, dist, previous, queue, node, depth, least)
    ensures LeastFirst(g, source, dist, previous, queue)
  {}

  lemma StillInTurn(
      g: Graph, source: NodeId, dist: map<NodeId, nat>, previous: map<NodeId, (NodeId, EdgeId)>,
      queue: seq<(NodeId, nat)>, node: NodeId, depth: nat, least: nat)
    requires LeastFirst(g, source, dist, previous, queue) && ExpandsInTurn(previous, queue, node, depth, least)
    ensures InOrderBefore(g, source, dist, previous, queue, node, depth, least)
  {}

  lemma NextArcInTurn(
      g: Graph, source: NodeId, dist: map<NodeId, nat>, previous: map<NodeId, (NodeId, EdgeId)>,
      queue: seq<(NodeId, nat)>, node: NodeId, depth: nat, arcs: seq<(EdgeId, NodeId)>, i: nat)
    requires ArcsAscend(arcs) && i < |arcs|
    requires
      InOrderBefore(g, source, dist, previous, queue, node, depth, if i == 0 then 0 else arcs[i - 1].0 + 1)
    ensures LeastFirst(g, source, dist, previous, queue)
    ensures ExpandsInTurn(previous, queue, node, depth, arcs[i].0)
    ensures InOrderBefore(g, source, dist, previous, queue, node, depth, arcs[i].0 + 1)
  {
    hide LeastFirst, ExpandsInTurn;
    var least := if i == 0 then 0 else arcs[i - 1].0 + 1;
    LaterInTurn(previous, queue, node, depth, least, arcs[i].0);
    LaterInTurn(previous, queue, node, depth, arcs[i].0, arcs[i].0 + 1);
  }

  /** An edge to an unvisited node is the least one to it, when the edges before it lead to visited nodes. */
  lemma EdgesAscend(g: Graph, node: NodeId, arcs: seq<(EdgeId, NodeId)>, i: nat, visited: set<NodeId>)
    requires ArcsFrom(g, Outgoing, node, arcs) && ArcsAscend(arcs) && i < |arcs| && arcs[i].1 !in visited
    requires forall j :: 0 <= j < i ==> arcs[j].1 in visited
    ensures forall f :: Arc(g, Outgoing, node, f, arcs[i].1) ==> arcs[i].0 <= f
  {
    forall f | Arc(g, Outgoing, node, f, arcs[i].1) ensures arcs[i].0 <= f {
      assert (f, arcs[i].1) in arcs;
      var j :| 0 <= j < |arcs| && arcs[j] == (f, arcs[i].1);
    }
  }

  lemma TargetKnown(g: Graph, dir: Direction, node: NodeId, e: EdgeId, next: NodeId)
    requires Arc(g, dir, node, e, next)
    ensures next in Targets(g, dir)
  {}

  lemma CutWhileExpanding(
      g: Graph, source: NodeId, target: NodeId, dist: map<NodeId, nat>, done: set<NodeId>, queue: seq<(NodeId, nat)>,
      node: NodeId, maxDepth: nat, cap: nat, fits: bool)
    requires Expanding(g, Outgoing, {source}, dist, done, queue, node, maxDepth, cap, false, fits)
    requires target !in dist && |dist.Keys| >= cap
    ensures OutOfReach(g, source, target, maxDepth, cap)
  {
    ExpandingMissesNothing(g, Outgoing, {source}, dist, done, queue, node, maxDepth, cap, fits);
    CutOutOfReach(g, source, target, dist, dist[node], maxDepth, cap);
  }

  lemma FoundDistance(
      g: Graph, dir: Direction, roots: set<NodeId>, dist: map<NodeId, nat>, done: set<NodeId>,
      queue: seq<(NodeId, nat)>, node: NodeId, maxDepth: nat, cap: nat, truncated: bool, fits: bool, x: NodeId)
    requires Expanding(g, dir, roots, dist, done, queue, node, maxDepth, cap, truncated, fits) && x in dist
    ensures node in dist && dist[node] < maxDepth && AtDistance(g, dir, roots, x, dist[x])
    ensures roots <= dist.Keys && forall r :: r in roots ==> dist[r] == 0
  {}

  /** A returned path is a real edge path of minimum length within the depth bound, the first of all such paths by the
      order of edges, and never marked truncated; an empty result says that no ball within the depth bound holds the
      target and fits the visited bound; an empty result that is not truncated says that the target is unreachable
      and that the whole closure lies within the bounds. */
  method ShortestPath(g: Graph, source: NodeId, target: NodeId, maxDepth: nat, maxVisited: nat)
    returns (r: TraversalResult)
    ensures r.nodes != [] ==>
              && WalkBetween(g, Outgoing, source, target, r.nodes, r.edges)
              && |r.edges| <= maxDepth && !r.truncated
              && AtDistance(g, Outgoing, {source}, target, |r.edges|)
              && LeastTrail(g, source, target, r.edges)
    ensures r.nodes == [] ==> r.edges == [] && OutOfReach(g, source, target, maxDepth, Max1(maxVisited))
    ensures r.nodes == [] && !r.truncated ==>
              && (forall k: nat :: target !in Ball(g, Outgoing, {source}, k))
              && maxDepth > 0
              && Ball(g, Outgoing, {source}, maxDepth) == Ball(g, Outgoing, {source}, maxDepth - 1)
              && |Ball(g, Outgoing, {source}, maxDepth)| <= Max1(maxVisited)
    ensures FitsCaps(g, Outgoing, {source}, maxDepth, Max1(maxVisited)) ==> !r.truncated
  {
    hide Ball, FitsCaps, OutOfReach, IsAdjacency, ArcsFrom, LeadsBack, Targets;
    hide Explored, Layered, Finished, Accounted, Uncut, Cut, Searching, Expanding;
    hide LeastFirst, LeastTrail, InOrderBefore, ArcsAscend, Trail;
    if source == target {
      assert AtDistance(g, Outgoing, {source}, target, 0) by { SourceAtZero(g, source); }
      NothingBefore(g, source);
      return TraversalResult([], [source], false);
    }
    var adjacency := Adjacency(g, Outgoing);
    var queue: seq<(NodeId, nat)> := [(source, 0)];
    var visited := {source};
    var previous: map<NodeId, (NodeId, EdgeId)> := map[];
    var cap := Max1(maxVisited);
    var truncated := false;
    ghost var dist: map<NodeId, nat> := map[source := 0];
    ghost var done: set<NodeId> := {};
    ghost var floor: nat := 0;
    ghost var fits := FitsCaps(g, Outgoing, {source}, maxDepth, cap);
    ghost var universe := {source} + Targets(g, Outgoing);
    assert queue[0].0 == source && InQueue(queue, source);
    StartSearching(g, Outgoing, {source}, dist, queue, maxDepth, cap, fits);
    StartBack(g, source, dist, previous);
    StartLeast(g, source, queue);
    while queue != []
      invariant visited == dist.Keys <= universe && |visited| <= cap && target !in visited
      invariant Searching(g, Outgoing, {source}, dist, done, queue, floor, maxDepth, cap, truncated, fits)
      invariant LeadsBack(g, source, dist, previous)
      invariant !truncated ==> LeastFirst(g, source, dist, previous, queue)
      invariant truncated ==> OutOfReach(g, source, target, maxDepth, cap)
      decreases universe - visited, |queue|
    {
      var (node, depth) := queue[0];
      ghost var popped := queue;
      queue := queue[1..];
      if depth >= maxDepth {
        PopAtDepthBound(g, Outgoing, {source}, dist, done, popped, floor, maxDepth, cap, truncated, fits);
        if !truncated { BallOutOfReach(g, source, target, visited, maxDepth, cap); }
        floor := depth;
        truncated := true;
        continue;
      }
      PopToExpand(g, Outgoing, {source}, dist, done, popped, floor, maxDepth, cap, truncated, fits);
      if !truncated { PopLeast(g, source, dist, previous, done, popped, floor, maxDepth, cap, fits); }
      ArcsOfAdjacency(g, Outgoing, adjacency, node);
      var found;
      queue, visited, previous, truncated, found, dist :=
        FollowArcs(ArcsOf(adjacency, node), node, depth, target, cap, queue, visited, previous, truncated,
                   g, source, maxDepth, fits, dist, done);
      if found {
        FoundDistance(g, Outgoing, {source}, dist, done, queue, node, maxDepth, cap, truncated, fits, target);
        LeastOf(g, source, dist, previous, queue, target);
        r := Reconstruct(source, target, previous, truncated, g, dist);
        return;
      }
      FinishExpanding(g, Outgoing, {source}, dist, done, queue, node, maxDepth, cap, truncated, fits);
      done := done + {node};
      floor := depth;
    }
    FitsUncut(g, Outgoing, {source}, dist, done, queue, floor, maxDepth, cap, truncated, fits);
    if !truncated {
      EndSearching(g, Outgoing, {source}, dist, done, floor, maxDepth, cap, fits);
      BallOutOfReach(g, source, target, visited, maxDepth, cap);
    }
    r := TraversalResult([], [], truncated);
  }

  lemma NothingBefore(g: Graph, source: NodeId)
    ensures LeastTrail(g, source, source, [])
  {}

  lemma LeastOf(
      g: Graph, source: NodeId, dist: map<NodeId, nat>, previous: map<NodeId, (NodeId, EdgeId)>,
      queue: seq<(NodeId, nat)>, x: NodeId)
    requires LeastFirst(g, source, dist, previous, queue) && x in dist
    ensures LeastTrail(g, source, x, Trail(previous, x, dist[x]))
  {}

  lemma PopLeast(
      g: Graph, source: NodeId, dist: map<NodeId, nat>, previous: map<NodeId, (NodeId, EdgeId)>, done: set<NodeId>,
      queue: seq<(NodeId, nat)>, floor: nat, maxDepth: nat, cap: nat, fits: bool)
    requires queue != [] && LeastFirst(g, source, dist, previous, queue)
    requires Searching(g, Outgoing, {source}, dist, done, queue, floor, maxDepth, cap, false, fits)
    ensures InOrderBefore(g, source, dist, previous, queue[1..], queue[0].0, queue[0].1, 0)
  {
    hide LeastTrail, Trail, LeadsBack, TrailsInTurn, ExpandsInTurn, Uncut, Layered;
    assert source in dist && dist[source] == 0;
    QueueTrailsFit(g, source, dist, previous, queue, floor);
    PopInTurn(previous, queue);
  }

  lemma SourceAtZero(g: Graph, source: NodeId)
    ensures AtDistance(g, Outgoing, {source}, source, 0)
  {}

  lemma StartBack(g: Graph, source: NodeId, dist: map<NodeId, nat>, previous: map<NodeId, (NodeId, EdgeId)>)
    requires dist.Keys == {source}
    ensures LeadsBack(g, source, dist, previous)
  {}

  // ----- impact

  lemma VisitedWithin(
      g: Graph, dir: Direction, roots: set<NodeId>, dist: map<NodeId, nat>, done: set<NodeId>,
      queue: seq<(NodeId, nat)>, node: NodeId, maxDepth: nat, cap: nat, truncated: bool, fits: bool)
    requires Expanding(g, dir, roots, dist, done, queue, node, maxDepth, cap, truncated, fits)
    ensures node in dist && dist[node] < maxDepth
    ensures dist.Keys <= Ball(g, dir, roots, maxDepth)
  {
    WithinBall(g, dir, roots, dist, maxDepth);
  }

  function QueueRoots(order: seq<NodeId>): seq<(NodeId, nat)> {
    seq(|order|, i requires 0 <= i < |order| => (order[i], 0))
  }

  /** The visited nodes are the nearest ones: a whole ball and part of the next, with every edge that leaves the ball
      before. */
  ghost predicate Nearest(
      g: Graph, dir: Direction, roots: set<NodeId>, nodes: set<NodeId>, edges: set<EdgeId>)
  {
    exists k: nat :: NearestUpTo(g, dir, roots, nodes, edges, k)
  }

  ghost predicate NearestUpTo(
      g: Graph, dir: Direction, roots: set<NodeId>, nodes: set<NodeId>, edges: set<EdgeId>, k: nat)
  {
    && Ball(g, dir, roots, k) <= nodes <= Ball(g, dir, roots, k + 1)
    && (k > 0 ==> LeavingEdges(g, dir, Ball(g, dir, roots, k - 1)) <= edges)
  }

  /** Nothing has been left out: a visited node is finished, in the queue, being expanded, or at the depth bound. */
  ghost predicate Thorough(
      g: Graph, dir: Direction, dist: map<NodeId, nat>, done: set<NodeId>, queue: seq<(NodeId, nat)>,
      current: set<NodeId>, edges: set<EdgeId>, maxDepth: nat)
  {
    && Finished(g, dir, dist, done)
    && (forall x :: x in dist ==> x in done || x in current || InQueue(queue, x) || dist[x] >= maxDepth)
    && (forall x :: x in done ==> dist[x] < maxDepth)
    && LeavingEdges(g, dir, done) <= edges
  }

  /** Every listed edge leaves a node nearer than the depth bound. */
  ghost predicate Shallow(g: Graph, dir: Direction, dist: map<NodeId, nat>, edges: set<EdgeId>, maxDepth: nat) {
    forall e :: e in edges ==> e in g && From(g[e], dir) in dist && dist[From(g[e], dir)] < maxDepth
  }

  /** Below the node bound an impact search leaves nothing out; once it is met the nearest nodes are there. */
  ghost predicate Progress(
      g: Graph, dir: Direction, roots: set<NodeId>, dist: map<NodeId, nat>, done: set<NodeId>,
      queue: seq<(NodeId, nat)>, current: set<NodeId>, edges: set<EdgeId>, maxDepth: nat, cap: nat)
  {
    && Shallow(g, dir, dist, edges, maxDepth)
    && (if |dist.Keys| < cap then Thorough(g, dir, dist, done, queue, current, edges, maxDepth)
        else Nearest(g, dir, roots, dist.Keys, edges))
  }

  lemma StartProgress(
      g: Graph, dir: Direction, roots: set<NodeId>, dist: map<NodeId, nat>, queue: seq<(NodeId, nat)>, maxDepth: nat,
      cap: nat)
    requires dist == map r | r in roots :: 0
    requires forall r :: r in roots <==> InQueue(queue, r)
    ensures Progress(g, dir, roots, dist, {}, queue, {}, {}, maxDepth, cap)
  {
    hide Ball, InQueue, Successors;
    assert dist.Keys == roots;
    OnlyRoots(g, dir, roots);
    assert LeavingEdges(g, dir, {}) == {};
  }

  lemma OnlyRoots(g: Graph, dir: Direction, roots: set<NodeId>)
    ensures Nearest(g, dir, roots, roots, {})
  {
    BallGrows(g, dir, roots, 0, 1);
    assert NearestUpTo(g, dir, roots, roots, {}, 0);
  }

  lemma PopProgress(
      g: Graph, dir: Direction, roots: set<NodeId>, dist: map<NodeId, nat>, done: set<NodeId>,
      queue: seq<(NodeId, nat)>, edges: set<EdgeId>, maxDepth: nat, cap: nat)
    requires queue != [] && Progress(g, dir, roots, dist, done, queue, {}, edges, maxDepth, cap)
    ensures Progress(g, dir, roots, dist, done, queue[1..], {queue[0].0}, edges, maxDepth, cap)
    ensures
      queue[0].0 in dist && dist[queue[0].0] >= maxDepth ==>
        Progress(g, dir, roots, dist, done, queue[1..], {}, edges, maxDepth, cap)
  {
    hide Finished, Nearest, LeavingEdges;
    forall x | InQueue(queue, x) && x != queue[0].0 ensures InQueue(queue[1..], x) {
      var i :| 0 <= i < |queue| && queue[i].0 == x;
      assert queue[1..][i - 1].0 == x;
    }
  }

  /** When the node bound is met, the ball up to the expanded node's layer is there. */
  lemma NearestNow(
      g: Graph, dir: Direction, roots: set<NodeId>, dist: map<NodeId, nat>, done: set<NodeId>,
      queue: seq<(NodeId, nat)>, node: NodeId, edges: set<EdgeId>, maxDepth: nat, next: NodeId)
    requires Explored(g, dir, roots, dist) && node in dist && dist[node] < maxDepth
    requires Layered(dist, queue, dist[node]) && Thorough(g, dir, dist, done, queue, {node}, edges, maxDepth)
    requires Explored(g, dir, roots, dist[next := dist[node] + 1]) && next !in dist
    ensures NearestUpTo(g, dir, roots, dist.Keys + {next}, edges, dist[node])
  {
    hide Ball, AtDistance;
    var k := dist[node];
    forall x | x in dist && x !in done ensures k <= dist[x] {
      if InQueue(queue, x) { var i :| 0 <= i < |queue| && queue[i].0 == x; }
    }
    BallVisited(g, dir, roots, dist, done, k, k);
    var more := dist[next := k + 1];
    assert more.Keys == dist.Keys + {next};
    WithinBall(g, dir, roots, more, k + 1);
    if k > 0 {
      BallVisited(g, dir, roots, dist, done, k, k - 1);
      assert Ball(g, dir, roots, k - 1) <= done;
    }
  }

  /** One more edge of the expanded node, to a node visited before. */
  lemma EdgeProgress(
      g: Graph, dir: Direction, roots: set<NodeId>, dist: map<NodeId, nat>, done: set<NodeId>,
      queue: seq<(NodeId, nat)>, node: NodeId, edges: set<EdgeId>, maxDepth: nat, cap: nat, e: EdgeId, next: NodeId)
    requires Progress(g, dir, roots, dist, done, queue, {node}, edges, maxDepth, cap)
    requires node in dist && dist[node] < maxDepth && Arc(g, dir, node, e, next)
    ensures Progress(g, dir, roots, dist, done, queue, {node}, edges + {e}, maxDepth, cap)
  {
    hide Ball, LeavingEdges, Finished;
    if |dist.Keys| >= cap {
      var k: nat :| NearestUpTo(g, dir, roots, dist.Keys, edges, k);
      assert NearestUpTo(g, dir, roots, dist.Keys, edges + {e}, k);
    }
  }

  lemma DiscoverProgress(
      g: Graph, dir: Direction, roots: set<NodeId>, dist: map<NodeId, nat>, done: set<NodeId>,
      queue: seq<(NodeId, nat)>, node: NodeId, edges: set<EdgeId>, maxDepth: nat, cap: nat, next: NodeId)
    requires Progress(g, dir, roots, dist, done, queue, {node}, edges, maxDepth, cap) && |dist.Keys| < cap
    requires Explored(g, dir, roots, dist) && node in dist && dist[node] < maxDepth
    requires Layered(dist, queue, dist[node]) && next !in dist
    requires Explored(g, dir, roots, dist[next := dist[node] + 1])
    ensures
      var after, longer := dist[next := dist[node] + 1], queue + [(next, dist[node] + 1)];
      Progress(g, dir, roots, after, done, longer, {node}, edges, maxDepth, cap)
  {
    hide Ball, LeavingEdges, Explored, Layered, NearestUpTo;
    var after, longer := dist[next := dist[node] + 1], queue + [(next, dist[node] + 1)];
    assert after.Keys == dist.Keys + {next};
    if |after.Keys| < cap {
      DiscoverFinished(g, dir, dist, done, next, dist[node] + 1);
      forall x | x in after && x !in done && x != node && after[x] < maxDepth ensures InQueue(longer, x) {
        if x == next {
          assert longer[|queue|].0 == x;
        } else {
          var i :| 0 <= i < |queue| && queue[i].0 == x;
          assert longer[i].0 == x;
        }
      }
    } else {
      NearestNow(g, dir, roots, dist, done, queue, node, edges, maxDepth, next);
    }
  }

  lemma FinishProgress(
      g: Graph, dir: Direction, roots: set<NodeId>, dist: map<NodeId, nat>, done: set<NodeId>,
      queue: seq<(NodeId, nat)>, node: NodeId, edges: set<EdgeId>, maxDepth: nat, cap: nat)
    requires Progress(g, dir, roots, dist, done, queue, {node}, edges, maxDepth, cap)
    requires node in dist && dist[node] < maxDepth && Layered(dist, queue, dist[node])
    requires
      |dist.Keys| < cap ==> forall e :: e in g && From(g[e], dir) == node ==> To(g[e], dir) in dist && e in edges
    ensures Progress(g, dir, roots, dist, done + {node}, queue, {}, edges, maxDepth, cap)
  {
    hide Ball, Nearest;
  }

  lemma PopImpact(
      g: Graph, dir: Direction, roots: set<NodeId>, dist: map<NodeId, nat>, done: set<NodeId>,
      queue: seq<(NodeId, nat)>, floor: nat, edges: set<EdgeId>, maxDepth: nat, cap: nat, truncated: bool, fits: bool)
    requires Searching(g, dir, roots, dist, done, queue, floor, maxDepth, cap, truncated, fits) && queue != []
    requires Progress(g, dir, roots, dist, done, queue, {}, edges, maxDepth, cap)
    ensures
      queue[0].1 < maxDepth ==>
        Progress(g, dir, roots, dist, done, queue[1..], {queue[0].0}, edges, maxDepth, cap)
    ensures
      queue[0].1 >= maxDepth ==> Progress(g, dir, roots, dist, done, queue[1..], {}, edges, maxDepth, cap)
  {
    hide Progress, Explored, Layered, Cut, Uncut;
    PopLayered(dist, queue, floor);
    PopProgress(g, dir, roots, dist, done, queue, edges, maxDepth, cap);
  }

  lemma FinishImpact(
      g: Graph, dir: Direction, roots: set<NodeId>, dist: map<NodeId, nat>, done: set<NodeId>,
      queue: seq<(NodeId, nat)>, node: NodeId, before: set<EdgeId>, edges: set<EdgeId>, maxDepth: nat, cap: nat,
      truncated: bool, fits: bool)
    requires Expanding(g, dir, roots, dist, done, queue, node, maxDepth, cap, truncated, fits)
    requires Progress(g, dir, roots, dist, done, queue, {node}, edges, maxDepth, cap) && before <= edges
    requires !truncated ==> LeavingEdges(g, dir, done) <= before
    requires
      !truncated || |dist.Keys| < cap ==>
        forall e :: e in g && From(g[e], dir) == node ==> To(g[e], dir) in dist && e in edges
    ensures node in dist && dist.Keys <= Ball(g, dir, roots, maxDepth)
    ensures Searching(g, dir, roots, dist, done + {node}, queue, dist[node], maxDepth, cap, truncated, fits)
    ensures Progress(g, dir, roots, dist, done + {node}, queue, {}, edges, maxDepth, cap)
    ensures !truncated ==> LeavingEdges(g, dir, done + {node}) <= edges
  {
    hide Progress, Explored, Layered, Uncut, LeavingEdges, Searching, Ball;
    VisitedWithin(g, dir, roots, dist, done, queue, node, maxDepth, cap, truncated, fits);
    FinishExpanding(g, dir, roots, dist, done, queue, node, maxDepth, cap, truncated, fits);
    if !truncated { LeavingGrows(g, dir, done, node, before, edges); }
    FinishProgress(g, dir, roots, dist, done, queue, node, edges, maxDepth, cap);
  }

  /** A search that ends below the node bound lists the whole ball of the depth bound, and all edges that leave the
      ball before. */
  lemma EndProgress(
      g: Graph, dir: Direction, roots: set<NodeId>, dist: map<NodeId, nat>, done: set<NodeId>, edges: set<EdgeId>,
      maxDepth: nat, cap: nat)
    requires Explored(g, dir, roots, dist) && dist.Keys <= Ball(g, dir, roots, maxDepth)
    requires Progress(g, dir, roots, dist, done, [], {}, edges, maxDepth, cap) && |dist.Keys| < cap
    ensures dist.Keys == Ball(g, dir, roots, maxDepth)
    ensures maxDepth > 0 ==> edges == LeavingEdges(g, dir, Ball(g, dir, roots, maxDepth - 1))
  {
    hide Ball, AtDistance;
    forall x | x in dist && x !in done ensures maxDepth <= dist[x] {
      assert !InQueue([], x);
    }
    BallVisited(g, dir, roots, dist, done, maxDepth, maxDepth);
    if maxDepth > 0 {
      BallVisited(g, dir, roots, dist, done, maxDepth, maxDepth - 1);
      forall x | x in dist && dist[x] < maxDepth ensures x in Ball(g, dir, roots, maxDepth - 1) {
        assert AtDistance(g, dir, roots, x, dist[x]);
        InNearerBall(g, dir, roots, x, dist[x], maxDepth - 1);
      }
    }
  }

  lemma InNearerBall(g: Graph, dir: Direction, roots: set<NodeId>, x: NodeId, d: nat, k: nat)
    requires AtDistance(g, dir, roots, x, d) && d <= k
    ensures x in Ball(g, dir, roots, k)
  {
    BallGrows(g, dir, roots, d, k);
  }

  lemma ExploredWhileExpanding(
      g: Graph, dir: Direction, roots: set<NodeId>, dist: map<NodeId, nat>, done: set<NodeId>,
      queue: seq<(NodeId, nat)>, node: NodeId, maxDepth: nat, cap: nat, truncated: bool, fits: bool)
    requires Expanding(g, dir, roots, dist, done, queue, node, maxDepth, cap, truncated, fits)
    ensures Explored(g, dir, roots, dist) && Layered(dist, queue, dist[node])
    ensures node in dist && dist[node] < maxDepth
  {}

  /** The inner loop of `impact`: collect the edges that leave one node. */
  method CollectArcs(
    arcs: seq<(EdgeId, NodeId)>, node: NodeId, depth: nat, cap: nat,
    queue0: seq<(NodeId, nat)>, visited0: set<NodeId>, edges0: set<EdgeId>, truncated0: bool,
    ghost g: Graph, ghost dir: Direction, ghost roots: set<NodeId>, ghost maxDepth: nat, ghost fits: bool,
    ghost dist0: map<NodeId, nat>, ghost done: set<NodeId>)
    returns (
      queue: seq<(NodeId, nat)>, visited: set<NodeId>, edges: set<EdgeId>, truncated: bool,
      ghost dist: map<NodeId, nat>)
    requires ArcsFrom(g, dir, node, arcs) && (fits ==> FitsCaps(g, dir, roots, maxDepth, cap))
    requires Expanding(g, dir, roots, dist0, done, queue0, node, maxDepth, cap, truncated0, fits)
    requires visited0 == dist0.Keys && |visited0| <= cap && node in dist0 && dist0[node] == depth
    requires EdgesWithin(g, dir, edges0, visited0)
    requires Progress(g, dir, roots, dist0, done, queue0, {node}, edges0, maxDepth, cap)
    ensures Progress(g, dir, roots, dist, done, queue, {node}, edges, maxDepth, cap)
    ensures visited == dist.Keys && visited0 <= visited && |visited| <= cap
    ensures visited <= visited0 + Targets(g, dir)
    ensures node in dist && dist[node] == depth
    ensures Expanding(g, dir, roots, dist, done, queue, node, maxDepth, cap, truncated, fits)
    ensures edges0 <= edges && EdgesWithin(g, dir, edges, visited)
    ensures visited == visited0 ==> queue == queue0
    ensures truncated0 ==> truncated
    ensures !truncated || |visited| < cap ==>
              forall e :: e in g && From(g[e], dir) == node ==> To(g[e], dir) in visited && e in edges
  {
    hide Ball, AtDistance, FitsCaps, ArcsFrom, Progress, EdgesWithin, Arc, Targets;
    hide Explored, Layered, Finished, Accounted, Uncut, Cut, Searching, Expanding;
    queue, visited, edges, truncated, dist := queue0, visited0, edges0, truncated0, dist0;
    var i := 0;
    while i < |arcs|
      invariant 0 <= i <= |arcs|
      invariant visited == dist.Keys && visited0 <= visited && |visited| <= cap
      invariant visited <= visited0 + Targets(g, dir)
      invariant visited == visited0 ==> queue == queue0
      invariant node in dist && dist[node] == depth
      invariant Expanding(g, dir, roots, dist, done, queue, node, maxDepth, cap, truncated, fits)
      invariant Progress(g, dir, roots, dist, done, queue, {node}, edges, maxDepth, cap)
      invariant edges0 <= edges && EdgesWithin(g, dir, edges, visited)
      invariant truncated0 ==> truncated
      invariant forall j :: 0 <= j < i ==> arcs[j].0 in edges && arcs[j].1 in visited
    {
      var (edge, next) := arcs[i];
      ArcAt(g, dir, node, arcs, i);
      if |visited| >= cap {
        MeetVisitedBound(g, dir, roots, dist, done, queue, node, maxDepth, cap, truncated, fits);
        truncated := true;
        return;
      }
      CutMeetsBound(g, dir, roots, dist, done, queue, node, maxDepth, cap, truncated, fits);
      ExploredWhileExpanding(g, dir, roots, dist, done, queue, node, maxDepth, cap, truncated, fits);
      EdgeProgress(g, dir, roots, dist, done, queue, node, edges, maxDepth, cap, edge, next);
      OneMoreEdge(g, dir, node, edge, next, edges, visited);
      assert next in visited ==> visited + {next} == visited;
      edges := edges + {edge};
      if next !in visited {
        Discover(
          g, dir, roots, dist, dist[next := depth + 1], done, queue, queue + [(next, depth + 1)], node, maxDepth, cap,
          edge, next, fits);
        ExploredWhileExpanding(
          g, dir, roots, dist[next := depth + 1], done, queue + [(next, depth + 1)], node, maxDepth, cap, truncated,
          fits);
        DiscoverProgress(g, dir, roots, dist, done, queue, node, edges, maxDepth, cap, next);
        visited := visited + {next};
        dist := dist[next := depth + 1];
        queue := queue + [(next, depth + 1)];
      }
      i := i + 1;
    }
    AllArcs(g, dir, node, arcs, visited);
    AllArcEdges(g, dir, node, arcs, edges);
  }

  lemma OneMoreEdge(
      g: Graph, dir: Direction, node: NodeId, e: EdgeId, next: NodeId, edges: set<EdgeId>, nodes: set<NodeId>)
    requires Arc(g, dir, node, e, next) && node in nodes && EdgesWithin(g, dir, edges, nodes)
    ensures EdgesWithin(g, dir, edges + {e}, nodes + {next})
    ensures next in Targets(g, dir)
  {}

  /** Only nodes within the depth bound, never more than the node bound or the roots: all of them, with all edges that
      leave the ball before, as long as the node bound is not met, and the nearest ones once it is. Without
      truncation, exactly the reachable closure and exactly the edges that leave it. */
  method Impact(g: Graph, roots: set<NodeId>, dir: Direction, maxDepth: nat, maxNodes: nat) returns (r: TraversalResult)
    ensures Increasing(r.nodes) && Increasing(r.edges)
    ensures roots <= Elems(r.nodes) <= Ball(g, dir, roots, maxDepth)
    ensures |r.nodes| <= if maxNodes < |roots| then |roots| else maxNodes
    ensures EdgesWithin(g, dir, Elems(r.edges), Elems(r.nodes))
    ensures |r.nodes| < (if maxNodes < |roots| then |roots| else maxNodes) ==>
              && Elems(r.nodes) == Ball(g, dir, roots, maxDepth)
              && (maxDepth > 0 ==> Elems(r.edges) == LeavingEdges(g, dir, Ball(g, dir, roots, maxDepth - 1)))
    ensures |r.nodes| == (if maxNodes < |roots| then |roots| else maxNodes) ==>
              Nearest(g, dir, roots, Elems(r.nodes), Elems(r.edges))
    ensures r.edges != [] ==> maxDepth > 0 && Elems(r.edges) <= LeavingEdges(g, dir, Ball(g, dir, roots, maxDepth - 1))
    ensures !r.truncated ==>
              && (forall k: nat :: Ball(g, dir, roots, k) <= Elems(r.nodes))
              && Elems(r.edges) == LeavingEdges(g, dir, Elems(r.nodes))
              && (roots != {} ==> maxDepth > 0 && Ball(g, dir, roots, maxDepth) == Ball(g, dir, roots, maxDepth - 1))
    ensures FitsCaps(g, dir, roots, maxDepth, if maxNodes < |roots| then |roots| else maxNodes) ==> !r.truncated
  {
    hide Ball, AtDistance, FitsCaps, IsAdjacency, ArcsFrom, Targets, InQueue, EdgesWithin, LeavingEdges;
    hide Explored, Layered, Finished, Accounted, Uncut, Cut, Searching, Expanding, Progress, Nearest;
    hide ArcsOf, Ascending;
    var adjacency := Adjacency(g, dir);
    var order := Ascending(roots);
    var queue := QueueRoots(order);
    var visited := roots;
    var edges: set<EdgeId> := {};
    var cap := if maxNodes < |roots| then |roots| else maxNodes;
    var truncated := false;
    ghost var dist: map<NodeId, nat> := map x | x in roots :: 0;
    ghost var done: set<NodeId> := {};
    ghost var floor: nat := 0;
    ghost var fits := FitsCaps(g, dir, roots, maxDepth, cap);
    ghost var universe := roots + Targets(g, dir);
    RootsQueued(roots, order, queue);
    StartSearching(g, dir, roots, dist, queue, maxDepth, cap, fits);
    RootsWithin(g, dir, roots, maxDepth);
    NoEdgesYet(g, dir, visited);
    StartProgress(g, dir, roots, dist, queue, maxDepth, cap);
    while queue != []
      invariant roots <= visited == dist.Keys <= universe && |visited| <= cap
      invariant visited <= Ball(g, dir, roots, maxDepth)
      invariant Searching(g, dir, roots, dist, done, queue, floor, maxDepth, cap, truncated, fits)
      invariant EdgesWithin(g, dir, edges, visited)
      invariant Progress(g, dir, roots, dist, done, queue, {}, edges, maxDepth, cap)
      invariant done <= visited && (!truncated ==> LeavingEdges(g, dir, done) <= edges)
      decreases universe - visited, |queue|
    {
      var (node, depth) := queue[0];
      ghost var popped := queue;
      PopImpact(g, dir, roots, dist, done, popped, floor, edges, maxDepth, cap, truncated, fits);
      queue := queue[1..];
      if depth >= maxDepth {
        PopAtDepthBound(g, dir, roots, dist, done, popped, floor, maxDepth, cap, truncated, fits);
        floor := depth;
        truncated := true;
        continue;
      }
      PopToExpand(g, dir, roots, dist, done, popped, floor, maxDepth, cap, truncated, fits);
      ArcsOfAdjacency(g, dir, adjacency, node);
      ghost var edgesBefore := edges;
      queue, visited, edges, truncated, dist :=
        CollectArcs(ArcsOf(adjacency, node), node, depth, cap, queue, visited, edges, truncated,
                    g, dir, roots, maxDepth, fits, dist, done);
      FinishImpact(
        g, dir, roots, dist, done, queue, node, edgesBefore, edges, maxDepth, cap, truncated, fits);
      done := done + {node};
      floor := depth;
    }
    EndImpact(g, dir, roots, dist, done, floor, edges, maxDepth, cap, truncated, fits);
    if !truncated {
      EndSearching(g, dir, roots, dist, done, floor, maxDepth, cap, fits);
      LeavingAll(g, dir, visited, edges);
    }
    r := TraversalResult(Ascending(edges), Ascending(visited), truncated);
    AscendingListsAll(visited);
    AscendingListsAll(edges);
  }

  /** What an impact search that has ended lists, whether or not the node bound is met. */
  lemma EndImpact(
      g: Graph, dir: Direction, roots: set<NodeId>, dist: map<NodeId, nat>, done: set<NodeId>, floor: nat,
      edges: set<EdgeId>, maxDepth: nat, cap: nat, truncated: bool, fits: bool)
    requires Searching(g, dir, roots, dist, done, [], floor, maxDepth, cap, truncated, fits)
    requires dist.Keys <= Ball(g, dir, roots, maxDepth)
    requires Progress(g, dir, roots, dist, done, [], {}, edges, maxDepth, cap)
    ensures fits ==> !truncated
    ensures edges != {} ==> maxDepth > 0 && edges <= LeavingEdges(g, dir, Ball(g, dir, roots, maxDepth - 1))
    ensures |dist.Keys| < cap ==>
              && dist.Keys == Ball(g, dir, roots, maxDepth)
              && (maxDepth > 0 ==> edges == LeavingEdges(g, dir, Ball(g, dir, roots, maxDepth - 1)))
    ensures |dist.Keys| >= cap ==> Nearest(g, dir, roots, dist.Keys, edges)
  {
    hide Ball, Thorough, Nearest, AtDistance, Cut, Uncut;
    if |dist.Keys| < cap { EndProgress(g, dir, roots, dist, done, edges, maxDepth, cap); }
    forall e | e in edges ensures maxDepth > 0 && From(g[e], dir) in Ball(g, dir, roots, maxDepth - 1) {
      var x := From(g[e], dir);
      InNearerBall(g, dir, roots, x, dist[x], maxDepth - 1);
    }
  }

  lemma RootsWithin(g: Graph, dir: Direction, roots: set<NodeId>, k: nat)
    ensures roots <= Ball(g, dir, roots, k)
  {
    BallGrows(g, dir, roots, 0, k);
  }

  lemma CutMeetsBound(
      g: Graph, dir: Direction, roots: set<NodeId>, dist: map<NodeId, nat>, done: set<NodeId>,
      queue: seq<(NodeId, nat)>, node: NodeId, maxDepth: nat, cap: nat, truncated: bool, fits: bool)
    requires Expanding(g, dir, roots, dist, done, queue, node, maxDepth, cap, truncated, fits)
    ensures truncated ==> |dist.Keys| >= cap
  {}

  ghost predicate EdgesWithin(g: Graph, dir: Direction, edges: set<EdgeId>, nodes: set<NodeId>) {
    forall e :: e in edges ==> e in g && From(g[e], dir) in nodes && To(g[e], dir) in nodes
  }

  ghost function LeavingEdges(g: Graph, dir: Direction, nodes: set<NodeId>): set<EdgeId> {
    set e | e in g && From(g[e], dir) in nodes
  }

  lemma RootsQueued(roots: set<NodeId>, order: seq<NodeId>, queue: seq<(NodeId, nat)>)
    requires Elems(order) == roots && queue == QueueRoots(order)
    ensures forall r :: r in roots <==> InQueue(queue, r)
  {
    forall r ensures r in roots <==> InQueue(queue, r) {
      if r in roots {
        var i :| 0 <= i < |order| && order[i] == r;
        assert queue[i].0 == r;
      }
      if InQueue(queue, r) {
        var i :| 0 <= i < |queue| && queue[i].0 == r;
        assert order[i] in Elems(order);
      }
    }
  }

  lemma {:induction false} AscendingListsAll(s: set<nat>)
    ensures |Ascending(s)| == |s| && Elems(Ascending(s)) == s
    decreases |s|
  {
    if s != {} { AscendingListsAll(s - {Minimum(s)}); }
  }

  lemma LeavingGrows(g: Graph, dir: Direction, done: set<NodeId>, node: NodeId, edges: set<EdgeId>, more: set<EdgeId>)
    requires LeavingEdges(g, dir, done) <= edges <= more
    requires forall e :: e in g && From(g[e], dir) == node ==> e in more
    ensures LeavingEdges(g, dir, done + {node}) <= more
  {}

  lemma LeavingAll(g: Graph, dir: Direction, nodes: set<NodeId>, edges: set<EdgeId>)
    requires EdgesWithin(g, dir, edges, nodes) && LeavingEdges(g, dir, nodes) <= edges
    ensures edges == LeavingEdges(g, dir, nodes)
  {}

  lemma NoEdgesYet(g: Graph, dir: Direction, nodes: set<NodeId>)
    ensures EdgesWithin(g, dir, {}, nodes) && LeavingEdges(g, dir, {}) == {}
  {}
}
