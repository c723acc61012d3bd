/**
 * The walking router's Dijkstra search over the built graph: a lazy
 * min-heap of `{ node, priority }` entries, relaxation on strict
 * improvement, an early stop when the end node is taken from the heap,
 * then the path rebuilt through the predecessor links and summarised.
 */
module WalkSearch {
  import opened Common
  import opened Paths
  import opened WalkHeap
  import opened WalkGraph

  /** The adjacency lists as a weighted graph: each edge keeps its target and weight. */
  function Arcs(nodes: map<string, seq<Edge>>): (g: Graph<string>)
    ensures g.Keys == nodes.Keys
    ensures forall k :: k in nodes ==> |g[k]| == |nodes[k]|
    ensures forall k, i :: k in nodes && 0 <= i < |nodes[k]| ==> g[k][i] == Arc(nodes[k][i].to, nodes[k][i].weight)
  {
    map k | k in nodes :: seq(|nodes[k]|, i requires 0 <= i < |nodes[k]| => Arc(nodes[k][i].to, nodes[k][i].weight))
  }

  /** `end` can be reached from `start` along the edges of the graph. */
  ghost predicate Reachable(nodes: map<string, seq<Edge>>, start: string, end: string) {
    exists p :: IsPath(Arcs(nodes), start, p) && Paths.End(start, p) == end
  }

  // ------------------------------------------------------------ search invariants

  ghost predicate Reached(dist: map<string, ExtReal>, x: string) {
    x in dist && dist[x].Fin?
  }

  /** Every queued node has a finite distance. */
  ghost predicate QueueReached(data: seq<Item<string>>, dist: map<string, ExtReal>) {
    forall i :: 0 <= i < |data| ==> Reached(dist, data[i].node)
  }

  ghost predicate InQueue(data: seq<Item<string>>, x: string) {
    exists i :: 0 <= i < |data| && data[i].node == x
  }

  /** Edge `i` of `x` cannot improve its target any more (a target without a distance is never relaxed). */
  ghost predicate EdgeRelaxed(nodes: map<string, seq<Edge>>, dist: map<string, ExtReal>, x: string, i: nat)
    requires x in nodes && i < |nodes[x]| && x in dist
  {
    nodes[x][i].to in dist ==> dist[nodes[x][i].to].AtMost(dist[x].Plus(nodes[x][i].weight))
  }

  /** Every reached node out of the queue has all its edges relaxed. */
  ghost predicate Settled(nodes: map<string, seq<Edge>>, dist: map<string, ExtReal>, data: seq<Item<string>>) {
    forall x, i :: x in nodes && 0 <= i < |nodes[x]| && Reached(dist, x) && !InQueue(data, x) ==> EdgeRelaxed(nodes, dist, x, i)
  }

  /** `Settled`, except for the edges of `u` from index `j` on, which are still to be scanned. */
  ghost predicate SettledBut(nodes: map<string, seq<Edge>>, dist: map<string, ExtReal>, data: seq<Item<string>>, u: string, j: nat) {
    forall x, i :: x in nodes && 0 <= i < |nodes[x]| && Reached(dist, x) && !InQueue(data, x) && (x == u ==> i < j) ==>
      EdgeRelaxed(nodes, dist, x, i)
  }

  /** Each predecessor link was set through an edge of the graph, which costs no more than the distance it gives. */
  ghost predicate Linked(nodes: map<string, seq<Edge>>, dist: map<string, ExtReal>, prev: map<string, string>, edgeUsed: map<string, Edge>) {
    forall v :: v in prev ==>
      && v in edgeUsed && prev[v] in nodes && edgeUsed[v] in nodes[prev[v]] && edgeUsed[v].to == v
      && Reached(dist, prev[v]) && Reached(dist, v) && dist[prev[v]].r + edgeUsed[v].weight <= dist[v].r
  }

  lemma QueueAfterInsert(data: seq<Item<string>>, data': seq<Item<string>>, item: Item<string>, dist: map<string, ExtReal>)
    requires multiset(data') == multiset(data) + multiset{item}
    requires QueueReached(data, dist) && Reached(dist, item.node)
    ensures QueueReached(data', dist) && InQueue(data', item.node)
    ensures forall x :: InQueue(data, x) ==> InQueue(data', x)
  {
    forall i | 0 <= i < |data'| ensures Reached(dist, data'[i].node) {
      assert data'[i] in multiset(data');
      if data'[i] != item {
        assert data'[i] in multiset(data);
        var k :| 0 <= k < |data| && data[k] == data'[i];
      }
    }
    assert item in multiset(data');
    var m :| 0 <= m < |data'| && data'[m] == item;
    forall x | InQueue(data, x) ensures InQueue(data', x) {
      var i :| 0 <= i < |data| && data[i].node == x;
      assert data[i] in multiset(data');
      var k :| 0 <= k < |data'| && data'[k] == data[i];
    }
  }

  lemma QueueAfterExtract(data: seq<Item<string>>, data': seq<Item<string>>, item: Item<string>, dist: map<string, ExtReal>)
    requires multiset(data') + multiset{item} == multiset(data)
    requires QueueReached(data, dist)
    ensures QueueReached(data', dist) && Reached(dist, item.node)
    ensures forall x :: x != item.node && InQueue(data, x) ==> InQueue(data', x)
  {
    forall i | 0 <= i < |data'| ensures Reached(dist, data'[i].node) {
      assert data'[i] in multiset(data);
      var k :| 0 <= k < |data| && data[k] == data'[i];
    }
    assert item in multiset(data);
    var m :| 0 <= m < |data| && data[m] == item;
    forall x | x != item.node && InQueue(data, x) ensures InQueue(data', x) {
      var i :| 0 <= i < |data| && data[i].node == x;
      assert data[i] in multiset(data) && data[i] != item;
      assert data[i] in multiset(data');
      var k :| 0 <= k < |data'| && data'[k] == data[i];
    }
  }

  /** Lowering a distance keeps every queued node reached. */
  lemma QueueReachedLowered(data: seq<Item<string>>, dist: map<string, ExtReal>, v: string, alt: real)
    requires QueueReached(data, dist)
    ensures QueueReached(data, dist[v := Fin(alt)])
  {
  }

  /** Taking `u` out of the queue leaves only `u`'s edges to scan. */
  lemma SettledAfterExtract(nodes: map<string, seq<Edge>>, dist: map<string, ExtReal>, data: seq<Item<string>>,
                            data': seq<Item<string>>, u: string)
    requires Settled(nodes, dist, data)
    requires forall x :: x != u && InQueue(data, x) ==> InQueue(data', x)
    ensures SettledBut(nodes, dist, data', u, 0)
  {
  }

  /** Once all of `u`'s edges are scanned the exception is gone. */
  lemma SettledAfterScan(nodes: map<string, seq<Edge>>, dist: map<string, ExtReal>, data: seq<Item<string>>, u: string, j: nat)
    requires SettledBut(nodes, dist, data, u, j)
    requires u !in nodes || j >= |nodes[u]|
    ensures Settled(nodes, dist, data)
  {
  }

  /** An edge that does not improve its target is relaxed already. */
  lemma SettledNoImprovement(nodes: map<string, seq<Edge>>, dist: map<string, ExtReal>, data: seq<Item<string>>, u: string, j: nat)
    requires u in nodes && j < |nodes[u]| && Reached(dist, u) && SettledBut(nodes, dist, data, u, j)
    requires !(nodes[u][j].to in dist && Fin(dist[u].r + nodes[u][j].weight).Less(dist[nodes[u][j].to]))
    ensures SettledBut(nodes, dist, data, u, j + 1)
  {
    var v := nodes[u][j].to;
    if v in dist {
      LessIsStrictOrder(Fin(dist[u].r + nodes[u][j].weight), dist[v], dist[v]);
    }
  }

  /** Relaxing `u`'s edge `j` relaxes it; the improved target is queued again, and every other edge stays relaxed. */
  lemma SettledAfterImprovement(nodes: map<string, seq<Edge>>, dist: map<string, ExtReal>, data: seq<Item<string>>,
                                data': seq<Item<string>>, u: string, j: nat, v: string, alt: real)
    requires u in nodes && j < |nodes[u]| && Reached(dist, u) && SettledBut(nodes, dist, data, u, j)
    requires v == nodes[u][j].to && alt == dist[u].r + nodes[u][j].weight && v in dist && Fin(alt).Less(dist[v])
    requires u != v && InQueue(data', v) && forall x :: InQueue(data, x) ==> InQueue(data', x)
    ensures SettledBut(nodes, dist[v := Fin(alt)], data', u, j + 1)
  {
    var dist' := dist[v := Fin(alt)];
    forall x, i | x in nodes && 0 <= i < |nodes[x]| && Reached(dist', x) && !InQueue(data', x) && (x == u ==> i < j + 1)
      ensures EdgeRelaxed(nodes, dist', x, i)
    {
      var t := nodes[x][i].to;
      if t in dist' && !(x == u && i == j) {
        assert EdgeRelaxed(nodes, dist, x, i);
        LessIsStrictOrder(dist[x].Plus(nodes[x][i].weight), dist[t], dist'[t]);
      }
    }
  }

  /** A relaxation sets a link through the scanned edge and only lowers distances, so every link still pays its way. */
  lemma LinkedAfterImprovement(nodes: map<string, seq<Edge>>, dist: map<string, ExtReal>, prev: map<string, string>,
                               edgeUsed: map<string, Edge>, u: string, j: nat, v: string, alt: real)
    requires Linked(nodes, dist, prev, edgeUsed) && u in nodes && j < |nodes[u]| && Reached(dist, u)
    requires v == nodes[u][j].to && alt == dist[u].r + nodes[u][j].weight && v in dist && Fin(alt).Less(dist[v]) && u != v
    ensures Linked(nodes, dist[v := Fin(alt)], prev[v := u], edgeUsed[v := nodes[u][j]])
  {
  }

  /** In a graph whose edge targets are nodes, a search that stops with every reached node settled has reached everything reachable. */
  lemma {:induction false} ReachableIsReached(nodes: map<string, seq<Edge>>, dist: map<string, ExtReal>, start: string, p: seq<Step<string>>)
    requires forall x, i :: x in nodes && 0 <= i < |nodes[x]| ==> nodes[x][i].to in nodes
    requires nodes.Keys <= dist.Keys && Reached(dist, start)
    requires forall x, i :: x in nodes && 0 <= i < |nodes[x]| && Reached(dist, x) ==> EdgeRelaxed(nodes, dist, x, i)
    requires IsPath(Arcs(nodes), start, p)
    ensures Reached(dist, Paths.End(start, p))
    decreases |p|
  {
    if p != [] {
      var g := Arcs(nodes);
      PathInit(g, start, p);
      ReachableIsReached(nodes, dist, start, p[..|p| - 1]);
      var s := p[|p| - 1];
      var x := s.from;
      var k :| 0 <= k < |g[x]| && g[x][k] == s.arc;
      assert EdgeRelaxed(nodes, dist, x, k);
    }
  }

  /** Every edge leads to a node with an adjacency list. */
  ghost predicate EdgesClosed(nodes: map<string, seq<Edge>>) {
    forall x, i :: x in nodes && 0 <= i < |nodes[x]| ==> nodes[x][i].to in nodes
  }

  /** A search that stops with every reached node settled has reached the end node whenever it is reachable. */
  lemma SearchComplete(nodes: map<string, seq<Edge>>, dist: map<string, ExtReal>, start: string, end: string)
    requires nodes.Keys <= dist.Keys && Reached(dist, start) && Settled(nodes, dist, [])
    ensures EdgesClosed(nodes) && Reachable(nodes, start, end) ==> Reached(dist, end)
  {
    if EdgesClosed(nodes) && Reachable(nodes, start, end) {
      var p :| IsPath(Arcs(nodes), start, p) && Paths.End(start, p) == end;
      ReachableIsReached(nodes, dist, start, p);
    }
  }

  /** A reached node is reachable: its witness path leads there. */
  lemma ReachedIsReachable(nodes: map<string, seq<Edge>>, start: string, dist: map<string, ExtReal>,
                           w: map<string, seq<Step<string>>>, v: string)
    requires Witnessed(Arcs(nodes), start, dist, w) && Reached(dist, v)
    ensures Reachable(nodes, start, v)
  {
    assert IsPath(Arcs(nodes), start, w[v]) && Paths.End(start, w[v]) == v;
  }

  /** Overwriting a present key keeps the key set. */
  lemma UpdateKeepsKeys<K, V>(m: map<K, V>, k: K, x: V)
    requires k in m
    ensures m[k := x].Keys == m.Keys
  {
  }

  /** The ghost side of one relaxation: every part of the search invariant for the new maps, and progress. */
  lemma ImprovementKeeps(nodes: map<string, seq<Edge>>, start: string,
                         dist: map<string, ExtReal>, prev: map<string, string>, edgeUsed: map<string, Edge>,
                         setAt: map<string, nat>, clock: nat, w: map<string, seq<Step<string>>>,
                         u: string, j: nat, v: string, alt: real, q: seq<Step<string>>)
    requires NonNegative(Arcs(nodes)) && u in nodes && j < |nodes[u]| && Reached(dist, u)
    requires Rooted(start, dist, prev) && Witnessed(Arcs(nodes), start, dist, w)
    requires Clocked(setAt, clock) && Ranked(start, dist, prev, setAt) && Linked(nodes, dist, prev, edgeUsed)
    requires v == nodes[u][j].to && alt == dist[u].r + nodes[u][j].weight && v in dist && Fin(alt).Less(dist[v])
    requires q == w[u] + [Step(u, Arc(v, nodes[u][j].weight))]
    ensures u != v && dist[v := Fin(alt)].Keys == dist.Keys && dist[v := Fin(alt)][u] == dist[u]
    ensures Rooted(start, dist[v := Fin(alt)], prev[v := u]) && Witnessed(Arcs(nodes), start, dist[v := Fin(alt)], w[v := q])
    ensures Clocked(setAt[v := clock], clock + 1) && Ranked(start, dist[v := Fin(alt)], prev[v := u], setAt[v := clock])
    ensures Linked(nodes, dist[v := Fin(alt)], prev[v := u], edgeUsed[v := nodes[u][j]])
    ensures Improvable(Arcs(nodes), start, dist[v := Fin(alt)]) < Improvable(Arcs(nodes), start, dist)
  {
    var g := Arcs(nodes);
    var a := Arc(v, nodes[u][j].weight);
    assert a == g[u][j];
    Relax(g, start, dist, prev, setAt, clock, w, u, a, v, alt, q);
    ImprovableShrinks(g, start, dist, q, v, alt);
    LinkedAfterImprovement(nodes, dist, prev, edgeUsed, u, j, v, alt);
    UpdateKeepsKeys(dist, v, Fin(alt));
  }

  // ------------------------------------------------------------ one scanned edge

  /**
   * The improving branch of the `neighbors.forEach` callback: edge `j` of
   * `u` lowers the distance of its target `v` to `alt`, which records the
   * predecessor and the edge used and queues `v` again.
   */
  method Improve(nodes: map<string, seq<Edge>>, start: string, queue: MinHeap<string>,
                 dist: map<string, ExtReal>, prev: map<string, string>, edgeUsed: map<string, Edge>,
                 ghost setAt: map<string, nat>, ghost clock: nat, ghost w: map<string, seq<Step<string>>>,
                 u: string, j: nat, v: string, alt: real)
    returns (dist': map<string, ExtReal>, prev': map<string, string>, edgeUsed': map<string, Edge>,
             ghost setAt': map<string, nat>, ghost clock': nat, ghost w': map<string, seq<Step<string>>>)
    modifies queue
    requires NonNegative(Arcs(nodes)) && u in nodes && j < |nodes[u]| && Reached(dist, u)
    requires v == nodes[u][j].to && alt == dist[u].r + nodes[u][j].weight && v in dist && Fin(alt).Less(dist[v])
    requires queue.Valid() && QueueReached(queue.data, dist)
    requires Rooted(start, dist, prev) && Witnessed(Arcs(nodes), start, dist, w)
    requires Clocked(setAt, clock) && Ranked(start, dist, prev, setAt)
    requires Linked(nodes, dist, prev, edgeUsed) && SettledBut(nodes, dist, queue.data, u, j)
    ensures u != v && dist' == dist[v := Fin(alt)] && prev' == prev[v := u] && edgeUsed' == edgeUsed[v := nodes[u][j]]
    ensures dist'.Keys == dist.Keys && dist'[u] == dist[u]
    ensures queue.Valid() && multiset(queue.data) == old(multiset(queue.data)) + multiset{Item(v, alt)}
    ensures QueueReached(queue.data, dist')
    ensures Rooted(start, dist', prev') && Witnessed(Arcs(nodes), start, dist', w')
    ensures Clocked(setAt', clock') && Ranked(start, dist', prev', setAt')
    ensures Linked(nodes, dist', prev', edgeUsed') && SettledBut(nodes, dist', queue.data, u, j + 1)
    ensures Improvable(Arcs(nodes), start, dist') < Improvable(Arcs(nodes), start, dist)
  {
    ghost var q := w[u] + [Step(u, Arc(v, nodes[u][j].weight))];
    ImprovementKeeps(nodes, start, dist, prev, edgeUsed, setAt, clock, w, u, j, v, alt, q);
    ghost var before := queue.data;
    dist' := dist[v := Fin(alt)];
    prev' := prev[v := u];
    edgeUsed' := edgeUsed[v := nodes[u][j]];
    setAt', clock', w' := setAt[v := clock], clock + 1, w[v := q];
    queue.Insert(Item(v, alt));
    QueueReachedLowered(before, dist, v, alt);
    QueueAfterInsert(before, queue.data, Item(v, alt), dist');
    SettledAfterImprovement(nodes, dist, before, queue.data, u, j, v, alt);
  }

  /**
   * The `neighbors.forEach` callback: relax edge `j` of `u` when it strictly
   * improves its target. Every search invariant is kept, and either the set
   * of improvable paths shrinks or nothing changes.
   */
  method ScanEdge(nodes: map<string, seq<Edge>>, start: string, queue: MinHeap<string>,
                  dist: map<string, ExtReal>, prev: map<string, string>, edgeUsed: map<string, Edge>,
                  ghost setAt: map<string, nat>, ghost clock: nat, ghost w: map<string, seq<Step<string>>>,
                  u: string, j: nat)
    returns (dist': map<string, ExtReal>, prev': map<string, string>, edgeUsed': map<string, Edge>,
             ghost setAt': map<string, nat>, ghost clock': nat, ghost w': map<string, seq<Step<string>>>)
    modifies queue
    requires NonNegative(Arcs(nodes)) && u in nodes && j < |nodes[u]| && Reached(dist, u)
    requires queue.Valid() && QueueReached(queue.data, dist)
    requires Rooted(start, dist, prev) && Witnessed(Arcs(nodes), start, dist, w)
    requires Clocked(setAt, clock) && Ranked(start, dist, prev, setAt)
    requires Linked(nodes, dist, prev, edgeUsed) && SettledBut(nodes, dist, queue.data, u, j)
    ensures queue.Valid() && QueueReached(queue.data, dist')
    ensures Rooted(start, dist', prev') && Witnessed(Arcs(nodes), start, dist', w')
    ensures Clocked(setAt', clock') && Ranked(start, dist', prev', setAt')
    ensures Linked(nodes, dist', prev', edgeUsed') && SettledBut(nodes, dist', queue.data, u, j + 1)
    ensures dist'.Keys == dist.Keys && dist'[u] == dist[u]
    ensures Improvable(Arcs(nodes), start, dist') < Improvable(Arcs(nodes), start, dist)
            || (dist' == dist && queue.data == old(queue.data))
  {
    var edge := nodes[u][j];
    var alt := dist[u].r + edge.weight;
    if edge.to in dist && Fin(alt).Less(dist[edge.to]) {
      dist', prev', edgeUsed', setAt', clock', w' :=
        Improve(nodes, start, queue, dist, prev, edgeUsed, setAt, clock, w, u, j, edge.to, alt);
    } else {
      SettledNoImprovement(nodes, dist, queue.data, u, j);
      dist', prev', edgeUsed', setAt', clock', w' := dist, prev, edgeUsed, setAt, clock, w;
    }
  }

  /**
   * The `neighbors.forEach` loop over the edges of `u` (none when `u` has no
   * adjacency list): afterwards every reached node out of the heap is
   * settled, and the measure shrank or nothing changed.
   */
  method ScanAll(nodes: map<string, seq<Edge>>, start: string, queue: MinHeap<string>,
                 dist: map<string, ExtReal>, prev: map<string, string>, edgeUsed: map<string, Edge>,
                 ghost setAt: map<string, nat>, ghost clock: nat, ghost w: map<string, seq<Step<string>>>, u: string)
    returns (dist': map<string, ExtReal>, prev': map<string, string>, edgeUsed': map<string, Edge>,
             ghost setAt': map<string, nat>, ghost clock': nat, ghost w': map<string, seq<Step<string>>>)
    modifies queue
    requires NonNegative(Arcs(nodes)) && Reached(dist, u)
    requires queue.Valid() && QueueReached(queue.data, dist)
    requires Rooted(start, dist, prev) && Witnessed(Arcs(nodes), start, dist, w)
    requires Clocked(setAt, clock) && Ranked(start, dist, prev, setAt)
    requires Linked(nodes, dist, prev, edgeUsed) && SettledBut(nodes, dist, queue.data, u, 0)
    ensures queue.Valid() && QueueReached(queue.data, dist')
    ensures Rooted(start, dist', prev') && Witnessed(Arcs(nodes), start, dist', w')
    ensures Clocked(setAt', clock') && Ranked(start, dist', prev', setAt')
    ensures Linked(nodes, dist', prev', edgeUsed') && Settled(nodes, dist', queue.data)
    ensures dist'.Keys == dist.Keys
    ensures Improvable(Arcs(nodes), start, dist') < Improvable(Arcs(nodes), start, dist)
            || (dist' == dist && queue.data == old(queue.data))
  {
    var neighbors := if u in nodes then nodes[u] else [];
    dist', prev', edgeUsed', setAt', clock', w' := dist, prev, edgeUsed, setAt, clock, w;
    var j := 0;
    while j < |neighbors|
      invariant j <= |neighbors| && neighbors == (if u in nodes then nodes[u] else [])
      invariant Reached(dist', u) && dist'.Keys == dist.Keys
      invariant queue.Valid() && QueueReached(queue.data, dist')
      invariant Rooted(start, dist', prev') && Witnessed(Arcs(nodes), start, dist', w')
      invariant Clocked(setAt', clock') && Ranked(start, dist', prev', setAt')
      invariant Linked(nodes, dist', prev', edgeUsed') && SettledBut(nodes, dist', queue.data, u, j)
      invariant Improvable(Arcs(nodes), start, dist') < Improvable(Arcs(nodes), start, dist)
                || (dist' == dist && queue.data == old(queue.data))
    {
      ghost var mid := dist';
      dist', prev', edgeUsed', setAt', clock', w' :=
        ScanEdge(nodes, start, queue, dist', prev', edgeUsed', setAt', clock', w', u, j);
      if Improvable(Arcs(nodes), start, dist') < Improvable(Arcs(nodes), start, mid) {
        ShrinkAgain(Improvable(Arcs(nodes), start, dist'), Improvable(Arcs(nodes), start, mid),
                    Improvable(Arcs(nodes), start, dist));
      }
      j := j + 1;
    }
    SettledAfterScan(nodes, dist', queue.data, u, j);
  }

  // ------------------------------------------------------------ the search loop

  /** The weights of a built graph are non-negative: each edge costs at least its length. */
  lemma ArcsNonNegative(g: GraphValue)
    requires CostsAtLeastLength(g)
    ensures NonNegative(Arcs(g.nodes))
  {
    forall k, i | k in Arcs(g.nodes) && 0 <= i < |Arcs(g.nodes)[k]| ensures Arcs(g.nodes)[k][i].w >= 0.0 {
      assert g.nodes[k][i].weight >= g.nodes[k][i].distance >= 0.0;
    }
  }

  /** A measure that shrank, or stayed put, and then shrank, shrank overall. */
  lemma ShrinkAgain<T>(now: set<T>, mid: set<T>, first: set<T>)
    requires now < mid && mid <= first
    ensures now < first
  {
  }

  /**
   * The search part of `dijkstra`: every listed node starts unreached, the
   * start at 0; the node of minimum tentative distance leaves the heap, the
   * search stops when that is the end node, and otherwise every edge of the
   * node is scanned. It always terminates; the end node is reached exactly
   * when it is reachable, provided every edge leads to a listed node (so
   * that its target has a distance to compare with).
   */
  method Search(nodes: map<string, seq<Edge>>, startKey: string, endKey: string)
    returns (dist: map<string, ExtReal>, prev: map<string, string>, edgeUsed: map<string, Edge>,
             ghost setAt: map<string, nat>)
    requires NonNegative(Arcs(nodes))
    ensures dist.Keys == nodes.Keys + {startKey}
    ensures Rooted(startKey, dist, prev) && Ranked(startKey, dist, prev, setAt)
    ensures Linked(nodes, dist, prev, edgeUsed)
    ensures Reached(dist, endKey) ==> Reachable(nodes, startKey, endKey)
    ensures EdgesClosed(nodes) && Reachable(nodes, startKey, endKey) ==> Reached(dist, endKey)
  {
    ghost var g := Arcs(nodes);
    dist := (map k | k in nodes :: Inf)[startKey := Fin(0.0)];
    prev := map[];
    edgeUsed := map[];
    setAt := map[];
    ghost var clock: nat := 0;
    ghost var w: map<string, seq<Step<string>>> := map[startKey := []];
    InitInv(g, startKey, dist);
    var queue := new MinHeap<string>();
    queue.Insert(Item(startKey, 0.0));
    QueueAfterInsert([], queue.data, Item(startKey, 0.0), dist);
    ghost var found := false;
    while !queue.IsEmpty()
      invariant queue.Valid() && QueueReached(queue.data, dist)
      invariant Rooted(startKey, dist, prev) && Witnessed(g, startKey, dist, w)
      invariant Clocked(setAt, clock) && Ranked(startKey, dist, prev, setAt)
      invariant Linked(nodes, dist, prev, edgeUsed) && Settled(nodes, dist, queue.data)
      invariant dist.Keys == nodes.Keys + {startKey}
      decreases Improvable(g, startKey, dist), |queue.data|
    {
      ghost var before := queue.data;
      var item := queue.ExtractMin();
      assert before != [];
      var u := item.value.node;
      QueueAfterExtract(before, queue.data, item.value, dist);
      if u == endKey {
        found := true;
        break;
      }
      SettledAfterExtract(nodes, dist, before, queue.data, u);
      dist, prev, edgeUsed, setAt, clock, w :=
        ScanAll(nodes, startKey, queue, dist, prev, edgeUsed, setAt, clock, w, u);
    }
    if Reached(dist, endKey) {
      ReachedIsReachable(nodes, startKey, dist, w, endKey);
    }
    if !found {
      assert queue.data == [];
      SearchComplete(nodes, dist, startKey, endKey);
    }
  }

  // ------------------------------------------------------------ path reconstruction

  /** The summed weights of a sequence of edges. */
  function TotalWeight(es: seq<Edge>): real {
    if es == [] then 0.0 else es[0].weight + TotalWeight(es[1..])
  }

  /**
   * `keys` is a walk of the graph along `edges`: edge `i` leaves `keys[i]`
   * from its adjacency list, arrives at `keys[i + 1]`, and carries segment `i`.
   */
  ghost predicate Walk(nodes: map<string, seq<Edge>>, keys: seq<string>, segments: seq<SegmentMeta>, edges: seq<Edge>) {
    && |keys| == |edges| + 1 && |segments| == |edges|
    && forall i :: 0 <= i < |edges| ==>
         keys[i] in nodes && edges[i] in nodes[keys[i]] && edges[i].to == keys[i + 1] && edges[i].segment == segments[i]
  }

  lemma ReversedSnoc<T>(s: seq<T>, x: T)
    ensures Reversed(s + [x]) == [x] + Reversed(s)
  {
    var a, b := Reversed(s + [x]), [x] + Reversed(s);
    assert |a| == |b|;
    forall i | 0 <= i < |a| ensures a[i] == b[i] {
      if i > 0 {
        assert a[i] == (s + [x])[|s| - i];
      }
    }
  }

  /** One step back along a link: the edge `e` from `p` into the first node of a walk extends the walk at its front. */
  lemma WalkPrepend(nodes: map<string, seq<Edge>>, keys: seq<string>, segs: seq<SegmentMeta>, edges: seq<Edge>, p: string, e: Edge)
    requires Walk(nodes, keys, segs, edges) && p in nodes && e in nodes[p] && e.to == keys[0]
    ensures Walk(nodes, [p] + keys, [e.segment] + segs, [e] + edges)
    ensures TotalWeight([e] + edges) == e.weight + TotalWeight(edges)
  {
    assert ([e] + edges)[1..] == edges;
  }

  /**
   * The reconstruction loop of `dijkstra`: from the end node, push each key
   * and the segment of the edge used to reach it, step to the predecessor
   * until the start (or a falsy key) comes up, then push the start and
   * reverse both lists. The walk always begins at the start; when the empty
   * string has no predecessor link the links lead back to the start, and the
   * result is a walk of the graph to the end node whose weight is at most
   * the end node's distance.
   */
  method Reconstruct(nodes: map<string, seq<Edge>>, startKey: string, endKey: string, dist: map<string, ExtReal>,
                     prev: map<string, string>, edgeUsed: map<string, Edge>, ghost setAt: map<string, nat>)
    returns (pathKeys: seq<string>, segments: seq<SegmentMeta>, ghost edges: seq<Edge>)
    requires Rooted(startKey, dist, prev) && Ranked(startKey, dist, prev, setAt) && Linked(nodes, dist, prev, edgeUsed)
    requires endKey in prev || endKey == startKey
    ensures |pathKeys| == |segments| + 1 && pathKeys[0] == startKey
    ensures endKey == startKey ==> pathKeys == [startKey] && segments == []
    ensures "" !in prev ==> Walk(nodes, pathKeys, segments, edges) && pathKeys[|pathKeys| - 1] == endKey
    ensures "" !in prev ==> Reached(dist, endKey) && TotalWeight(edges) <= dist[endKey].r
  {
    var pushedKeys: seq<string> := [];
    var pushedSegments: seq<SegmentMeta> := [];
    ghost var keys: seq<string> := [];
    ghost var segs: seq<SegmentMeta> := [];
    edges := [];
    var current := endKey;
    while current != "" && current != startKey
      invariant keys == Reversed(pushedKeys) && segs == Reversed(pushedSegments)
      invariant current == startKey || current in prev
      invariant Reached(dist, current) && Reached(dist, endKey)
      invariant Walk(nodes, [current] + keys, segs, edges)
      invariant ([current] + keys)[|keys|] == endKey
      invariant TotalWeight(edges) + dist[current].r <= dist[endKey].r
      invariant endKey == startKey ==> pushedKeys == [] && pushedSegments == []
      decreases Chain(dist, prev, setAt, current)
    {
      ReversedSnoc(pushedKeys, current);
      pushedKeys := pushedKeys + [current];
      ghost var e := edgeUsed[current];
      if current in edgeUsed {
        ReversedSnoc(pushedSegments, edgeUsed[current].segment);
        pushedSegments := pushedSegments + [edgeUsed[current].segment];
      }
      WalkPrepend(nodes, [current] + keys, segs, edges, prev[current], e);
      keys, segs, edges := [current] + keys, [e.segment] + segs, [e] + edges;
      ChainShrinks(startKey, dist, prev, setAt, current);
      current := prev[current];
    }
    ReversedSnoc(pushedKeys, startKey);
    pathKeys := Reversed(pushedKeys + [startKey]);
    segments := Reversed(pushedSegments);
  }

  // ------------------------------------------------------------ the route summary

  /** The `polyline` of a route: every point of the first segment, then every point but the first of each later one. */
  function Polyline(segments: seq<SegmentMeta>): seq<LatLon> {
    if segments == [] then []
    else Polyline(segments[..|segments| - 1]) + DropFirst(segments[|segments| - 1].path, |segments| > 1)
  }

  /** `p` without its first point when `drop` holds (an empty `p` stays empty). */
  function DropFirst(p: seq<LatLon>, drop: bool): (r: seq<LatLon>)
    ensures |r| == if drop && p != [] then |p| - 1 else |p|
    ensures forall k :: 0 <= k < |r| ==> r[k] == p[if drop then k + 1 else k]
  {
    if drop && p != [] then p[1..] else p
  }

  /**
   * The nested `forEach` that builds the polyline: each point of each
   * segment is pushed unless it is the first point of a segment after the
   * first.
   */
  method Stitch(segments: seq<SegmentMeta>) returns (polyline: seq<LatLon>)
    ensures polyline == Polyline(segments)
  {
    polyline := [];
    for segIndex := 0 to |segments|
      invariant polyline == Polyline(segments[..segIndex])
    {
      var path := segments[segIndex].path;
      ghost var base := polyline;
      for coordIndex := 0 to |path|
        invariant polyline == base + DropFirst(path[..coordIndex], segIndex > 0)
      {
        assert path[..coordIndex + 1] == path[..coordIndex] + [path[coordIndex]];
        if segIndex > 0 && coordIndex == 0 {
          continue;
        }
        polyline := polyline + [path[coordIndex]];
      }
      assert path[..|path|] == path;
      assert segments[..segIndex + 1][..segIndex] == segments[..segIndex];
    }
    assert segments[..|segments|] == segments;
  }

  /** Every point of the polyline is a point of one of the segments. */
  lemma {:induction false} PolylinePoints(segments: seq<SegmentMeta>, k: nat)
    requires k < |Polyline(segments)|
    ensures exists i, j :: 0 <= i < |segments| && 0 <= j < |segments[i].path| && Polyline(segments)[k] == segments[i].path[j]
    decreases |segments|
  {
    var n := |segments|;
    var init := segments[..n - 1];
    var last := DropFirst(segments[n - 1].path, n > 1);
    if k < |Polyline(init)| {
      PolylinePoints(init, k);
      var i, j :| 0 <= i < |init| && 0 <= j < |init[i].path| && Polyline(init)[k] == init[i].path[j];
      assert segments[i] == init[i];
    } else {
      var j := if n > 1 then k - |Polyline(init)| + 1 else k - |Polyline(init)|;
      assert Polyline(segments)[k] == segments[n - 1].path[j];
    }
  }

  /** The polyline of segments of at least two points each runs from the first segment's first point to the last segment's last point. */
  lemma {:induction false} PolylineEnds(segments: seq<SegmentMeta>)
    requires segments != [] && forall i :: 0 <= i < |segments| ==> |segments[i].path| >= 2
    ensures |Polyline(segments)| >= 2
    ensures Polyline(segments)[0] == segments[0].path[0]
    ensures Polyline(segments)[|Polyline(segments)| - 1] == segments[|segments| - 1].path[|segments[|segments| - 1].path| - 1]
    decreases |segments|
  {
    var n := |segments|;
    if n > 1 {
      var init := segments[..n - 1];
      PolylineEnds(init);
      assert init[0] == segments[0];
    }
  }

  /** The figures `dijkstra` reports with a route. */
  datatype Metrics = Metrics(totalDistance: real, totalCost: real, averageScore: real, accessibleRatio: real)

  /** The lengths of the segments, summed left to right (`reduce` with `seg.length || 0`). */
  function TotalDistance(segments: seq<SegmentMeta>): real {
    if segments == [] then 0.0 else TotalDistance(segments[..|segments| - 1]) + segments[|segments| - 1].length
  }

  function ScoreSum(segments: seq<SegmentMeta>): real {
    if segments == [] then 0.0 else ScoreSum(segments[..|segments| - 1]) + segments[|segments| - 1].score
  }

  /** The mean score, over `segments.length || 1`. */
  function AverageScore(segments: seq<SegmentMeta>): real {
    ScoreSum(segments) / (if segments == [] then 1 else |segments|) as real
  }

  /** How many segments are marked accessible (`filter(...).length`). */
  function AccessibleCount(segments: seq<SegmentMeta>): nat {
    if segments == [] then 0
    else AccessibleCount(segments[..|segments| - 1]) + if segments[|segments| - 1].accessible then 1 else 0
  }

  /** The accessible share of the segments, 0 for none. */
  function AccessibleRatio(segments: seq<SegmentMeta>): real {
    if segments == [] then 0.0 else AccessibleCount(segments) as real / |segments| as real
  }

  /** At most every segment is accessible, and all of them are exactly when each one is. */
  lemma {:induction false} AccessibleCountBounds(segments: seq<SegmentMeta>)
    ensures AccessibleCount(segments) <= |segments|
    ensures AccessibleCount(segments) == |segments| <==> forall i :: 0 <= i < |segments| ==> segments[i].accessible
    ensures AccessibleCount(segments) == 0 <==> forall i :: 0 <= i < |segments| ==> !segments[i].accessible
    decreases |segments|
  {
    if segments != [] {
      var init := segments[..|segments| - 1];
      AccessibleCountBounds(init);
      assert forall i :: 0 <= i < |init| ==> init[i] == segments[i];
    }
  }

  /** The ratio is a share: between 0 and 1, 1 exactly when a non-empty route is accessible throughout, 0 exactly when no segment is. */
  lemma AccessibleRatioBounds(segments: seq<SegmentMeta>)
    ensures 0.0 <= AccessibleRatio(segments) <= 1.0
    ensures AccessibleRatio(segments) == 1.0 <==> segments != [] && forall i :: 0 <= i < |segments| ==> segments[i].accessible
    ensures AccessibleRatio(segments) == 0.0 <==> forall i :: 0 <= i < |segments| ==> !segments[i].accessible
  {
    AccessibleCountBounds(segments);
  }

  /** Sums of scores within `[lo, hi]` stay within `n * lo` and `n * hi`. */
  lemma {:induction false} ScoreSumBounds(segments: seq<SegmentMeta>, lo: real, hi: real)
    requires forall i :: 0 <= i < |segments| ==> lo <= segments[i].score <= hi
    ensures |segments| as real * lo <= ScoreSum(segments) <= |segments| as real * hi
    decreases |segments|
  {
    if segments != [] {
      var init := segments[..|segments| - 1];
      assert forall i :: 0 <= i < |init| ==> init[i] == segments[i];
      ScoreSumBounds(init, lo, hi);
    }
  }

  /** The average of scores within `[lo, hi]` lies within `[lo, hi]`; with no segments it is 0. */
  lemma AverageScoreBounds(segments: seq<SegmentMeta>, lo: real, hi: real)
    requires forall i :: 0 <= i < |segments| ==> lo <= segments[i].score <= hi
    ensures segments == [] ==> AverageScore(segments) == 0.0
    ensures segments != [] ==> lo <= AverageScore(segments) <= hi
  {
    ScoreSumBounds(segments, lo, hi);
    if segments != [] {
      var n := |segments| as real;
      assert ScoreSum(segments) / n >= lo by {
        assert ScoreSum(segments) >= n * lo;
      }
      assert ScoreSum(segments) / n <= hi by {
        assert ScoreSum(segments) <= n * hi;
      }
    }
  }

  /** Segments of non-negative length give a non-negative total. */
  lemma {:induction false} TotalDistanceNonNegative(segments: seq<SegmentMeta>)
    requires forall i :: 0 <= i < |segments| ==> segments[i].length >= 0.0
    ensures TotalDistance(segments) >= 0.0
    decreases |segments|
  {
    if segments != [] {
      TotalDistanceNonNegative(segments[..|segments| - 1]);
    }
  }

  // ------------------------------------------------------------ dijkstra

  /** A route as `dijkstra` returns it. */
  datatype Route = Route(path: seq<Option<LatLon>>, segments: seq<SegmentMeta>, polyline: seq<LatLon>, metrics: Metrics)

  /** `pathKeys.map((key) => graph.nodePositions.get(key))`, with `None` for a key without a position. */
  function Positions(nodePositions: map<string, LatLon>, keys: seq<string>): (r: seq<Option<LatLon>>)
    ensures |r| == |keys|
    ensures forall i :: 0 <= i < |keys| ==> (r[i].Some? <==> keys[i] in nodePositions)
    ensures forall i :: 0 <= i < |keys| && keys[i] in nodePositions ==> r[i].value == nodePositions[keys[i]]
  {
    seq(|keys|, i requires 0 <= i < |keys| => if keys[i] in nodePositions then Some(nodePositions[keys[i]]) else None)
  }

  /** A finished search leaves the end node reached exactly when it has a predecessor or is the start. */
  lemma ReachedIsLinked(start: string, end: string, dist: map<string, ExtReal>, prev: map<string, string>,
                        nodes: map<string, seq<Edge>>, edgeUsed: map<string, Edge>)
    requires Rooted(start, dist, prev) && Linked(nodes, dist, prev, edgeUsed)
    ensures Reached(dist, end) <==> end in prev || end == start
  {
  }

  /** Only listed nodes and the start get distances, so a key that is neither has no predecessor link. */
  lemma UnlistedHasNoLink(start: string, dist: map<string, ExtReal>, prev: map<string, string>,
                          setAt: map<string, nat>, nodes: map<string, seq<Edge>>, k: string)
    requires Rooted(start, dist, prev) && Ranked(start, dist, prev, setAt) && dist.Keys == nodes.Keys + {start}
    requires k !in nodes
    ensures k !in prev
  {
  }

  /**
   * `dijkstra(graph, startKey, endKey)`: `None` (the source's `null`) when
   * the end node was not reached and differs from the start, which happens
   * only when it is unreachable provided every edge leads to a listed node.
   * Otherwise the route starts at the start key and, when the empty string
   * is not a node key, follows edges of the graph to the end key at a total
   * weight no larger than the reported cost; its polyline and figures are
   * those of its segments.
   */
  method Dijkstra(graph: WalkingGraph, startKey: string, endKey: string)
    returns (r: Option<Route>, ghost keys: seq<string>, ghost edges: seq<Edge>)
    requires NonNegative(Arcs(graph.nodes))
    ensures r.None? ==> startKey != endKey
    ensures r.None? && EdgesClosed(graph.nodes) ==> !Reachable(graph.nodes, startKey, endKey)
    ensures r.Some? ==> Reachable(graph.nodes, startKey, endKey)
    ensures r.Some? ==> keys != [] && keys[0] == startKey && r.value.path == Positions(graph.nodePositions, keys)
    ensures r.Some? && "" !in graph.nodes ==>
      Walk(graph.nodes, keys, r.value.segments, edges) && keys[|keys| - 1] == endKey
      && TotalWeight(edges) <= r.value.metrics.totalCost
    ensures startKey == endKey ==> r.Some? && keys == [startKey] && r.value.segments == []
                                   && r.value.polyline == [] && r.value.metrics == Metrics(0.0, 0.0, 0.0, 0.0)
    ensures r.Some? ==> r.value.polyline == Polyline(r.value.segments)
    ensures r.Some? ==> r.value.metrics.totalDistance == TotalDistance(r.value.segments)
                        && r.value.metrics.averageScore == AverageScore(r.value.segments)
                        && r.value.metrics.accessibleRatio == AccessibleRatio(r.value.segments)
  {
    var dist, prev, edgeUsed, setAt := Search(graph.nodes, startKey, endKey);
    ReachedIsLinked(startKey, endKey, dist, prev, graph.nodes, edgeUsed);
    if endKey !in prev && startKey != endKey {
      return None, [], [];
    }
    var pathKeys, segments;
    pathKeys, segments, edges := Reconstruct(graph.nodes, startKey, endKey, dist, prev, edgeUsed, setAt);
    keys := pathKeys;
    if "" !in graph.nodes {
      UnlistedHasNoLink(startKey, dist, prev, setAt, graph.nodes, "");
    }
    var polyline := Stitch(segments);
    var metrics := Metrics(TotalDistance(segments), dist[endKey].r, AverageScore(segments), AccessibleRatio(segments));
    r := Some(Route(Positions(graph.nodePositions, pathKeys), segments, polyline, metrics));
  }
}
