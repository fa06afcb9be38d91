/**
 The diagram as an undirected graph: adjacency lists, breadth-first shortest path and
 connected components, specified by paths.
 */
module Topology {
  import opened Wrappers
  import opened NetworkModel

  datatype Topology = Topology(nodes: seq<Node>, edges: seq<Edge>) {
    predicate Known(id: string) {
      exists n <- nodes :: n.id == id
    }
  }

  predicate Joins(e: Edge, a: string, b: string) {
    || (e.source.nodeId == a && e.target.nodeId == b)
    || (e.source.nodeId == b && e.target.nodeId == a)
  }

  /** Two different known nodes with an edge between them, in either direction. */
  predicate Linked(t: Topology, a: string, b: string) {
    t.Known(a) && t.Known(b) && a != b && exists e <- t.edges :: Joins(e, a, b)
  }

  ghost predicate IsPath(t: Topology, p: seq<string>, a: string, b: string) {
    && p != [] && p[0] == a && p[|p| - 1] == b
    && forall i :: 0 <= i < |p| - 1 ==> Linked(t, p[i], p[i + 1])
  }

  ghost predicate Connected(t: Topology, a: string, b: string) {
    exists p :: IsPath(t, p, a, b)
  }

  function Reverse<T>(s: seq<T>): (r: seq<T>)
    ensures |r| == |s| && forall i :: 0 <= i < |s| ==> r[i] == s[|s| - 1 - i]
  {
    seq(|s|, i requires 0 <= i < |s| => s[|s| - 1 - i])
  }

  lemma ConnectedReflexive(t: Topology, a: string)
    ensures Connected(t, a, a)
  {
    assert IsPath(t, [a], a, a);
  }

  lemma ConnectedSymmetric(t: Topology, a: string, b: string)
    requires Connected(t, a, b)
    ensures Connected(t, b, a)
  {
    var p :| IsPath(t, p, a, b);
    assert IsPath(t, Reverse(p), b, a);
  }

  lemma ConnectedTransitive(t: Topology, a: string, b: string, c: string)
    requires Connected(t, a, b) && Connected(t, b, c)
    ensures Connected(t, a, c)
  {
    var p :| IsPath(t, p, a, b);
    var q :| IsPath(t, q, b, c);
    var r := p + q[1..];
    assert q == [b] + q[1..];
    assert IsPath(t, r, a, c);
  }

  lemma LinkConnects(t: Topology, a: string, b: string)
    requires Linked(t, a, b)
    ensures Connected(t, a, b)
  {
    assert IsPath(t, [a, b], a, b);
  }

  // ---------- Adjacency ----------

  type Lists = map<string, seq<string>>

  ghost predicate IsAdjacency(t: Topology, adjacency: Lists) {
    && (forall a :: a in adjacency <==> t.Known(a))
    && (forall a, b :: a in adjacency ==> (b in adjacency[a] <==> Linked(t, a, b)))
  }

  predicate SomeJoin(edges: seq<Edge>, a: string, b: string) {
    edges != [] && (SomeJoin(edges[..|edges| - 1], a, b) || Joins(edges[|edges| - 1], a, b))
  }

  lemma {:induction false} SomeJoinMeans(edges: seq<Edge>, a: string, b: string)
    ensures SomeJoin(edges, a, b) <==> exists e <- edges :: Joins(e, a, b)
  {
    if edges != [] {
      SomeJoinMeans(edges[..|edges| - 1], a, b);
      assert forall e :: e in edges <==> e in edges[..|edges| - 1] || e == edges[|edges| - 1];
    }
  }

  method Adjacency(t: Topology) returns (adjacency: Lists)
    ensures IsAdjacency(t, adjacency)
  {
    adjacency := EmptyLists(t);
    for k := 0 to |t.edges|
      invariant forall a :: a in adjacency <==> t.Known(a)
      invariant forall a, b :: a in adjacency ==>
                  (b in adjacency[a] <==> t.Known(b) && a != b && SomeJoin(t.edges[..k], a, b))
    {
      assert t.edges[..k + 1][..k] == t.edges[..k];
      adjacency := AddEdge(adjacency, t.edges[k]);
    }
    assert t.edges[..|t.edges|] == t.edges;
    forall a, b | a in adjacency ensures b in adjacency[a] <==> Linked(t, a, b) {
      SomeJoinMeans(t.edges, a, b);
    }
  }

  method EmptyLists(t: Topology) returns (adjacency: Lists)
    ensures forall a :: a in adjacency <==> t.Known(a)
    ensures forall a <- adjacency :: adjacency[a] == []
  {
    adjacency := map[];
    for k := 0 to |t.nodes|
      invariant forall a :: a in adjacency <==> exists n <- t.nodes[..k] :: n.id == a
      invariant forall a <- adjacency :: adjacency[a] == []
    {
      assert t.nodes[..k + 1] == t.nodes[..k] + [t.nodes[k]];
      adjacency := adjacency[t.nodes[k].id := []];
    }
    assert t.nodes[..|t.nodes|] == t.nodes;
  }

  method AddEdge(adjacency: Lists, e: Edge) returns (r: Lists)
    ensures r.Keys == adjacency.Keys
    ensures forall a, b :: a in r ==>
              (b in r[a] <==> b in adjacency[a] || (b in adjacency && a != b && Joins(e, a, b)))
  {
    r := adjacency;
    var source, target := e.source.nodeId, e.target.nodeId;
    if source in r && target in r && source != target {
      r := AddNeighbour(r, source, target);
      r := AddNeighbour(r, target, source);
    }
  }

  method AddNeighbour(adjacency: Lists, a: string, b: string) returns (r: Lists)
    requires a in adjacency
    ensures r.Keys == adjacency.Keys
    ensures forall x, y :: x in r ==> (y in r[x] <==> y in adjacency[x] || (x == a && y == b))
  {
    r := adjacency[a := adjacency[a] + [b]];
  }

  // ---------- Shortest path ----------

  type Tree = map<string, Option<string>>

  /** `previous` is a tree rooted at the source; `dist` is the depth of each node in it. */
  ghost predicate IsTree(t: Topology, source: string, previous: Tree, dist: map<string, nat>) {
    && previous.Keys == dist.Keys
    && source in dist && dist[source] == 0 && previous[source] == None
    && forall v <- previous :: v != source ==>
         && previous[v].Some? && previous[v].value in dist
         && Linked(t, previous[v].value, v) && dist[v] == dist[previous[v].value] + 1
  }

  /** Every discovered node off the queue has had its neighbours discovered, at most one level down. */
  ghost predicate Closed(t: Topology, dist: map<string, nat>, queue: seq<string>) {
    forall u, w :: u in dist && u !in queue && Linked(t, u, w) ==> w in dist && dist[w] <= dist[u] + 1
  }

  /** The same, except for the node being expanded. */
  ghost predicate Expanded(t: Topology, dist: map<string, nat>, queue: seq<string>, current: string) {
    forall u, w :: u in dist && u !in queue && u != current && Linked(t, u, w) ==> w in dist && dist[w] <= dist[u] + 1
  }

  /** The queue holds discovered nodes level by level, within one level of `level`. */
  ghost predicate Levelled(dist: map<string, nat>, queue: seq<string>, level: nat) {
    && (forall q <- queue :: q in dist && level <= dist[q])
    && (forall i, j :: 0 <= i < j < |queue| ==> dist[queue[i]] <= dist[queue[j]])
    && (forall v <- dist :: dist[v] <= level + 1)
  }

  /** Any path is at least as long as the discovered distance of its end, or than the level
      still waiting on the queue. */
  lemma {:induction false} DistanceBound(t: Topology, source: string, dist: map<string, nat>, queue: seq<string>, p: seq<string>, w: string)
    requires source in dist && dist[source] == 0
    requires Closed(t, dist, queue)
    requires forall q <- queue :: q in dist
    requires forall q <- queue :: dist[queue[0]] <= dist[q]
    requires IsPath(t, p, source, w)
    ensures (w in dist && dist[w] < |p|) || (queue != [] && dist[queue[0]] < |p| - 1)
    decreases |p|
  {
    if |p| > 1 {
      var front := p[..|p| - 1];
      DistanceBound(t, source, dist, queue, front, front[|front| - 1]);
      assert Linked(t, p[|p| - 2], p[|p| - 2 + 1]);
    }
  }

  /** Walk back from a discovered node through `previous`; the depth bounds the walk. */
  method WalkBack(t: Topology, source: string, target: string, previous: Tree, ghost dist: map<string, nat>)
    returns (path: seq<string>)
    requires IsTree(t, source, previous, dist) && target in previous
    ensures IsPath(t, path, source, target) && |path| == dist[target] + 1
  {
    var back := [target];
    while previous[back[|back| - 1]].Some?
      invariant back != [] && back[0] == target && back[|back| - 1] in previous
      invariant |back| + dist[back[|back| - 1]] == dist[target] + 1
      invariant forall i :: 0 <= i < |back| - 1 ==> Linked(t, back[i + 1], back[i])
      decreases dist[back[|back| - 1]]
    {
      back := back + [previous[back[|back| - 1]].value];
    }
    path := Reverse(back);
    forall i | 0 <= i < |path| - 1 ensures Linked(t, path[i], path[i + 1]) {
      assert path[i + 1] == back[|back| - 1 - i - 1];
    }
  }

  /** A shortest path, or nothing exactly when there is no path. */
  method ShortestPath(t: Topology, source: string, target: string) returns (r: Option<seq<string>>)
    ensures r.None? <==> !Connected(t, source, target)
    ensures r.Some? ==> IsPath(t, r.value, source, target)
                        && forall p :: IsPath(t, p, source, target) ==> |r.value| <= |p|
  {
    if source == target {
      ConnectedReflexive(t, source);
      return Some([source]);
    }
    var adjacency := Adjacency(t);
    if source !in adjacency || target !in adjacency {
      if Connected(t, source, target) {
        EndsKnown(t, source, target);
      }
      return None;
    }
    r := Search(t, adjacency, source, target);
  }

  /** Breadth-first search between two different known nodes. */
  method Search(t: Topology, adjacency: Lists, source: string, target: string) returns (r: Option<seq<string>>)
    requires IsAdjacency(t, adjacency) && source in adjacency && target in adjacency && source != target
    ensures r.None? ==> forall p :: !IsPath(t, p, source, target)
    ensures r.Some? ==> IsPath(t, r.value, source, target)
                        && forall p :: IsPath(t, p, source, target) ==> |r.value| <= |p|
  {
    var previous: Tree := map[source := None];
    ghost var dist: map<string, nat> := map[source := 0];
    var queue := [source];
    while queue != []
      invariant Searching(t, source, previous, dist, queue)
      invariant target !in previous && previous.Keys <= adjacency.Keys
      decreases adjacency.Keys - previous.Keys, |queue|
    {
      PathsBeyond(t, source, target, previous, dist, queue);
      PopHead(t, source, previous, dist, queue);
      previous, queue, dist := Discover(t, adjacency, source, target, queue[0], previous, queue[1..], dist);
      if target in previous {
        var path := WalkBack(t, source, target, previous, dist);
        return Some(path);
      }
    }
    PathsBeyond(t, source, target, previous, dist, queue);
    return None;
  }

  /** What the search keeps: a tree, a queue ordered by depth, and every node off the queue expanded. */
  ghost predicate Searching(t: Topology, source: string, previous: Tree, dist: map<string, nat>, queue: seq<string>) {
    && IsTree(t, source, previous, dist)
    && (forall q <- queue :: q in dist)
    && (queue != [] ==> Levelled(dist, queue, dist[queue[0]]))
    && Closed(t, dist, queue)
  }

  lemma PopHead(t: Topology, source: string, previous: Tree, dist: map<string, nat>, queue: seq<string>)
    requires Searching(t, source, previous, dist, queue) && queue != []
    ensures queue[0] in dist && Levelled(dist, queue[1..], dist[queue[0]]) && Expanded(t, dist, queue[1..], queue[0])
  {
    forall u | u in dist && u != queue[0] && u !in queue[1..] ensures u !in queue {
    }
  }

  /** Every path to an undiscovered node goes beyond the level at the head of the queue. */
  lemma PathsBeyond(t: Topology, source: string, target: string, previous: Tree, dist: map<string, nat>, queue: seq<string>)
    requires Searching(t, source, previous, dist, queue) && target !in dist
    ensures forall p :: IsPath(t, p, source, target) ==> queue != [] && |p| >= dist[queue[0]] + 2
  {
    forall p | IsPath(t, p, source, target) ensures queue != [] && |p| >= dist[queue[0]] + 2 {
      DistanceBound(t, source, dist, queue, p, target);
    }
  }

  /** Expand one node: record and queue its undiscovered neighbours, stopping at the target. */
  method Discover(t: Topology, adjacency: Lists, ghost source: string, target: string, current: string,
                  previous0: Tree, queue0: seq<string>, ghost dist0: map<string, nat>)
    returns (previous: Tree, queue: seq<string>, ghost dist: map<string, nat>)
    requires IsAdjacency(t, adjacency) && current in adjacency
    requires IsTree(t, source, previous0, dist0) && target !in previous0 && previous0.Keys <= adjacency.Keys
    requires current in dist0 && Levelled(dist0, queue0, dist0[current]) && Expanded(t, dist0, queue0, current)
    ensures IsTree(t, source, previous, dist) && previous0.Keys <= previous.Keys <= adjacency.Keys
    ensures target in previous ==> dist[target] == dist0[current] + 1
    ensures target !in previous ==> Searching(t, source, previous, dist, queue)
    ensures target !in previous && previous.Keys == previous0.Keys ==> queue == queue0
  {
    previous, queue, dist := previous0, queue0, dist0;
    ghost var depth := dist0[current];
    for i := 0 to |adjacency[current]|
      invariant IsTree(t, source, previous, dist) && target !in previous && previous.Keys <= adjacency.Keys
      invariant current in dist && dist[current] == depth
      invariant Levelled(dist, queue, depth) && Expanded(t, dist, queue, current)
      invariant forall k :: 0 <= k < i ==> adjacency[current][k] in dist
      invariant previous0.Keys <= previous.Keys && (previous0.Keys == previous.Keys ==> queue == queue0)
    {
      var neighbour := adjacency[current][i];
      assert neighbour in adjacency[current];
      if neighbour in previous {
        continue;
      }
      GrowTree(t, source, previous, dist, current, neighbour);
      GrowQueue(t, dist, queue, current, neighbour);
      previous := previous[neighbour := Some(current)];
      dist := dist[neighbour := depth + 1];
      if neighbour == target {
        return;
      }
      queue := queue + [neighbour];
    }
  }

  lemma GrowTree(t: Topology, source: string, previous: Tree, dist: map<string, nat>, current: string, neighbour: string)
    requires IsTree(t, source, previous, dist) && current in dist && neighbour !in dist && Linked(t, current, neighbour)
    ensures IsTree(t, source, previous[neighbour := Some(current)], dist[neighbour := dist[current] + 1])
  {
  }

  lemma GrowQueue(t: Topology, dist: map<string, nat>, queue: seq<string>, current: string, neighbour: string)
    requires current in dist && neighbour !in dist
    requires Levelled(dist, queue, dist[current]) && Expanded(t, dist, queue, current)
    ensures Levelled(dist[neighbour := dist[current] + 1], queue + [neighbour], dist[current])
    ensures Expanded(t, dist[neighbour := dist[current] + 1], queue + [neighbour], current)
  {
  }

  lemma EndsKnown(t: Topology, a: string, b: string)
    requires Connected(t, a, b) && a != b
    ensures t.Known(a) && t.Known(b)
  {
    var p :| IsPath(t, p, a, b);
    assert Linked(t, p[0], p[0 + 1]) && Linked(t, p[|p| - 2], p[|p| - 2 + 1]);
  }

  // ---------- Connected components ----------

  /** A class of mutual reachability. */
  ghost predicate IsClass(t: Topology, component: set<string>) {
    && component != {}
    && forall a, b :: a in component ==> (b in component <==> Connected(t, a, b))
  }

  /** The components are classes of mutual reachability, disjoint, and hold every node. */
  ghost predicate IsPartition(t: Topology, components: seq<set<string>>) {
    && (forall c <- components :: IsClass(t, c))
    && (forall i, j :: 0 <= i < j < |components| ==> components[i] !! components[j])
    && (forall v :: t.Known(v) <==> exists c <- components :: v in c)
  }

  ghost predicate ReachedFrom(t: Topology, start: string, vs: set<string>) {
    forall v <- vs :: Connected(t, start, v)
  }

  method ConnectedComponents(t: Topology) returns (components: seq<set<string>>)
    ensures IsPartition(t, components)
  {
    var adjacency := Adjacency(t);
    var seen: set<string> := {};
    components := [];
    var pending := adjacency.Keys;
    while pending != {}
      invariant pending <= adjacency.Keys
      invariant adjacency.Keys - pending <= seen && seen <= adjacency.Keys
      invariant forall c <- components :: IsClass(t, c)
      invariant forall i, j :: 0 <= i < j < |components| ==> components[i] !! components[j]
      invariant forall v :: v in seen <==> exists c <- components :: v in c
      decreases |pending|
    {
      var start :| start in pending;
      pending := pending - {start};
      if start in seen {
        continue;
      }
      var component;
      component, seen := Explore(t, adjacency, components, start, seen);
      components := components + [component];
    }
    assert seen == adjacency.Keys;
    assert forall v :: t.Known(v) <==> v in seen;
  }

  /** Breadth-first search from a node outside every component found so far. */
  method Explore(t: Topology, adjacency: Lists, ghost components: seq<set<string>>, start: string, seen0: set<string>)
    returns (component: set<string>, seen: set<string>)
    requires IsAdjacency(t, adjacency) && start in adjacency && start !in seen0
    requires forall c <- components :: IsClass(t, c)
    requires forall v :: v in seen0 <==> exists c <- components :: v in c
    ensures IsClass(t, component) && start in component && component !! seen0
    ensures seen == seen0 + component && component <= adjacency.Keys
  {
    component := {};
    var queue := [start];
    seen := seen0 + {start};
    ConnectedReflexive(t, start);
    while queue != []
      invariant forall q <- queue :: q in seen && q !in seen0
      invariant forall v :: v in seen <==> v in seen0 || v in component || v in queue
      invariant component !! seen0 && component <= adjacency.Keys && forall q <- queue :: q in adjacency
      invariant start in component || start in queue
      invariant ReachedFrom(t, start, component) && ReachedFrom(t, start, set q <- queue)
      invariant forall a, b :: a in component && Linked(t, a, b) ==> b in seen
      decreases adjacency.Keys - seen, |queue|
    {
      var current := queue[0];
      queue := queue[1..];
      component := component + {current};
      ghost var waiting, found := queue, seen;
      for i := 0 to |adjacency[current]|
        invariant forall q <- queue :: q in seen && q !in seen0
        invariant forall v :: v in seen <==> v in seen0 || v in component || v in queue
        invariant forall q <- queue :: q in adjacency
        invariant ReachedFrom(t, start, set q <- queue)
        invariant forall k :: 0 <= k < i ==> adjacency[current][k] in seen
        invariant found <= seen <= adjacency.Keys + seen0 && (found == seen ==> queue == waiting)
      {
        var neighbour := adjacency[current][i];
        assert neighbour in adjacency[current];
        if neighbour !in seen {
          LinkConnects(t, current, neighbour);
          ConnectedTransitive(t, start, current, neighbour);
          seen := seen + {neighbour};
          queue := queue + [neighbour];
        }
      }
    }
    ExploredIsClass(t, components, start, seen0, component);
  }

  lemma {:induction false} PathStaysInside(t: Topology, inside: set<string>, p: seq<string>, a: string, b: string)
    requires IsPath(t, p, a, b) && a in inside
    requires forall u, w :: u in inside && Linked(t, u, w) ==> w in inside
    ensures b in inside
    decreases |p|
  {
    if |p| > 1 {
      var front := p[..|p| - 1];
      PathStaysInside(t, inside, front, a, front[|front| - 1]);
      assert Linked(t, p[|p| - 2], p[|p| - 2 + 1]);
    }
  }

  lemma ExploredIsClass(t: Topology, components: seq<set<string>>, start: string, seen0: set<string>, component: set<string>)
    requires forall c <- components :: IsClass(t, c)
    requires forall v :: v in seen0 <==> exists c <- components :: v in c
    requires start in component && component !! seen0 && ReachedFrom(t, start, component)
    requires forall u, w :: u in component && Linked(t, u, w) ==> w in seen0 + component
    ensures IsClass(t, component)
  {
    forall u, w | u in component && Linked(t, u, w) ensures w in component {
      if w in seen0 {
        var c :| c in components && w in c;
        LinkConnects(t, u, w);
        ConnectedSymmetric(t, u, w);
      }
    }
    forall a, b | a in component ensures b in component <==> Connected(t, a, b) {
      if b in component {
        ConnectedSymmetric(t, start, a);
        ConnectedTransitive(t, a, start, b);
      } else if p :| IsPath(t, p, a, b) {
        PathStaysInside(t, component, p, a, b);
      }
    }
  }

  /** Two known nodes share a component exactly when a path joins them. */
  lemma ComponentsDecidePaths(t: Topology, components: seq<set<string>>, a: string, b: string)
    requires IsPartition(t, components) && t.Known(a) && t.Known(b)
    ensures Connected(t, a, b) <==> exists c <- components :: a in c && b in c
  {
  }

  /** The graph is connected when it has at most one component: every two nodes are joined. */
  method IsConnected(t: Topology) returns (r: bool)
    ensures r <==> forall a, b :: t.Known(a) && t.Known(b) ==> Connected(t, a, b)
  {
    var components := ConnectedComponents(t);
    r := |components| <= 1;
    if r {
      forall a, b | t.Known(a) && t.Known(b) ensures Connected(t, a, b) {
        ComponentsDecidePaths(t, components, a, b);
      }
    } else {
      assert components[0] in components && components[1] in components;
      var a :| a in components[0];
      var b :| b in components[1];
      assert components[0] !! components[1];
    }
  }
}
