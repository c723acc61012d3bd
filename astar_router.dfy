/**
 * The back end's A* router over the graph built from OpenStreetMap data:
 * both ends snap to the nearest node, the open set is the sorted-insertion
 * priority queue with lazy re-insertion, a node's score is lowered only on
 * a strict improvement, and the route is rebuilt through `cameFrom` when the
 * goal leaves the queue.
 *
 * Node ids occur in two JavaScript types. Ids enumerated with `for ... in`
 * are property-key strings, while the ids in a neighbour entry come from a
 * way's node list and are numbers. Property lookups convert either to the
 * same key, but the goal test `current === endNodeId` compares them strictly.
 * `JsId` keeps the distinction: `Text(n)` is the key string of id `n`,
 * `Number(n)` the number `n`.
 */
module AStarRouter {
  import opened Common
  import opened Paths
  import opened AStarQueue
  import opened OsmGraph

  datatype JsId = Text(n: int) | Number(n: int)

  /** The neighbour entries as a weighted graph: each entry keeps its node and cost. */
  function OsmArcs(graph: NodeMap): (g: Graph<int>)
    ensures g.Keys == graph.Keys
    ensures forall k :: k in graph ==> |g[k]| == |graph[k].neighbors|
    ensures forall k, i :: k in graph && 0 <= i < |graph[k].neighbors| ==>
      g[k][i] == Arc(graph[k].neighbors[i].node, graph[k].neighbors[i].cost)
  {
    map k | k in graph :: seq(|graph[k].neighbors|, i requires 0 <= i < |graph[k].neighbors| =>
      Arc(graph[k].neighbors[i].node, graph[k].neighbors[i].cost))
  }

  /** `end` can be reached from `start` through neighbour entries. */
  ghost predicate Reachable(graph: NodeMap, start: int, end: int) {
    exists p :: IsPath(OsmArcs(graph), start, p) && Paths.End(start, p) == end
  }

  /** The costs of a well-formed graph are non-negative. */
  lemma ScaledNonNegative(graph: NodeMap)
    requires Scaled(graph)
    ensures NonNegative(OsmArcs(graph))
  {
    forall k, i | k in OsmArcs(graph) && 0 <= i < |OsmArcs(graph)[k]| ensures OsmArcs(graph)[k][i].w >= 0.0 {
      assert graph[k].neighbors[i].cost >= 0.8 * graph[k].neighbors[i].distance;
    }
  }

  // ------------------------------------------------------------ search invariants

  ghost predicate Reached(gScore: map<int, ExtReal>, x: int) {
    x in gScore && gScore[x].Fin?
  }

  /** Every queued id has a finite score. */
  ghost predicate QueueReached(items: seq<QueueElement<JsId>>, gScore: map<int, ExtReal>) {
    forall e :: e in items ==> Reached(gScore, e.element.n)
  }

  /** The queue holds the start as its key string and otherwise numbers only. */
  ghost predicate QueueIds(items: seq<QueueElement<JsId>>, start: int) {
    forall e :: e in items ==> e.element == Text(start) || e.element.Number?
  }

  ghost predicate InQueue(items: seq<QueueElement<JsId>>, x: int) {
    exists e :: e in items && e.element.n == x
  }

  /** Entry `i` of `x` cannot lower its node's score any more. */
  ghost predicate EdgeRelaxed(graph: NodeMap, gScore: map<int, ExtReal>, x: int, i: nat)
    requires x in graph && i < |graph[x].neighbors| && x in gScore
  {
    graph[x].neighbors[i].node in gScore ==>
      gScore[graph[x].neighbors[i].node].AtMost(gScore[x].Plus(graph[x].neighbors[i].cost))
  }

  /** Every reached node out of the queue has all its entries relaxed. */
  ghost predicate Settled(graph: NodeMap, gScore: map<int, ExtReal>, items: seq<QueueElement<JsId>>) {
    forall x, i :: x in graph && 0 <= i < |graph[x].neighbors| && Reached(gScore, x) && !InQueue(items, x) ==>
      EdgeRelaxed(graph, gScore, x, i)
  }

  /** `Settled`, except for the entries of `u` from index `j` on. */
  ghost predicate SettledBut(graph: NodeMap, gScore: map<int, ExtReal>, items: seq<QueueElement<JsId>>, u: int, j: nat) {
    forall x, i :: x in graph && 0 <= i < |graph[x].neighbors| && Reached(gScore, x) && !InQueue(items, x) && (x == u ==> i < j) ==>
      EdgeRelaxed(graph, gScore, x, i)
  }

  /** The ids of a node's neighbour entries. */
  function NeighborIds(n: OsmNode): (r: seq<int>)
    ensures |r| == |n.neighbors| && forall i :: 0 <= i < |r| ==> r[i] == n.neighbors[i].node
  {
    seq(|n.neighbors|, i requires 0 <= i < |n.neighbors| => n.neighbors[i].node)
  }

  /** Every `cameFrom` link leads back along a neighbour entry of the graph. */
  ghost predicate LinksAreEdges(graph: NodeMap, cameFrom: map<int, int>) {
    forall v :: v in cameFrom ==> cameFrom[v] in graph && v in NeighborIds(graph[cameFrom[v]])
  }

  /** In the fixed search, a reached goal is still waiting in the queue. */
  ghost predicate GoalQueued(gScore: map<int, ExtReal>, items: seq<QueueElement<JsId>>, goal: int) {
    Reached(gScore, goal) ==> InQueue(items, goal)
  }

  /** Enqueueing a reached id keeps every queued id reached and queued, and queues the new one. */
  lemma QueueAfterEnqueue(items: seq<QueueElement<JsId>>, e: QueueElement<JsId>, gScore: map<int, ExtReal>, start: int)
    requires QueueReached(items, gScore) && Reached(gScore, e.element.n)
    requires QueueIds(items, start) && (e.element == Text(start) || e.element.Number?)
    ensures QueueReached(Inserted(items, e), gScore) && QueueIds(Inserted(items, e), start)
    ensures InQueue(Inserted(items, e), e.element.n)
    ensures forall x :: InQueue(items, x) ==> InQueue(Inserted(items, e), x)
  {
    InsertedContents(items, e);
  }

  /** Dequeueing the front keeps every other queued id queued. */
  lemma QueueAfterDequeue(items: seq<QueueElement<JsId>>, gScore: map<int, ExtReal>, start: int)
    requires items != [] && QueueReached(items, gScore) && QueueIds(items, start)
    ensures QueueReached(items[1..], gScore) && QueueIds(items[1..], start) && Reached(gScore, items[0].element.n)
    ensures forall x :: x != items[0].element.n && InQueue(items, x) ==> InQueue(items[1..], x)
  {
    forall x | x != items[0].element.n && InQueue(items, x) ensures InQueue(items[1..], x) {
      var e :| e in items && e.element.n == x;
      var i :| 0 <= i < |items| && items[i] == e;
      assert items[1..][i - 1] == e;
    }
  }

  /** Lowering a score keeps every queued id reached. */
  lemma QueueReachedLowered(items: seq<QueueElement<JsId>>, gScore: map<int, ExtReal>, v: int, alt: real)
    requires QueueReached(items, gScore)
    ensures QueueReached(items, gScore[v := Fin(alt)])
  {
  }

  /** Taking `u` out of the queue leaves only `u`'s entries to scan. */
  lemma SettledAfterDequeue(graph: NodeMap, gScore: map<int, ExtReal>, items: seq<QueueElement<JsId>>,
                            items': seq<QueueElement<JsId>>, u: int)
    requires Settled(graph, gScore, items)
    requires forall x :: x != u && InQueue(items, x) ==> InQueue(items', x)
    ensures SettledBut(graph, gScore, items', u, 0)
  {
  }

  lemma SettledAfterScan(graph: NodeMap, gScore: map<int, ExtReal>, items: seq<QueueElement<JsId>>, u: int, j: nat)
    requires SettledBut(graph, gScore, items, u, j)
    requires u !in graph || j >= |graph[u].neighbors|
    ensures Settled(graph, gScore, items)
  {
  }

  /** An entry that does not improve its node is relaxed already. */
  lemma SettledNoImprovement(graph: NodeMap, gScore: map<int, ExtReal>, items: seq<QueueElement<JsId>>, u: int, j: nat)
    requires u in graph && j < |graph[u].neighbors| && Reached(gScore, u) && SettledBut(graph, gScore, items, u, j)
    requires !Improves(gScore, graph[u].neighbors[j].node, gScore[u].r + graph[u].neighbors[j].cost)
    ensures SettledBut(graph, gScore, items, u, j + 1)
  {
    var v := graph[u].neighbors[j].node;
    if v in gScore {
      LessIsStrictOrder(Fin(gScore[u].r + graph[u].neighbors[j].cost), gScore[v], gScore[v]);
    }
  }

  /** Lowering the score of `v` through entry `j` of `u` relaxes that entry, and every other relaxed entry stays so. */
  lemma SettledAfterImprovement(graph: NodeMap, gScore: map<int, ExtReal>, items: seq<QueueElement<JsId>>,
                                items': seq<QueueElement<JsId>>, u: int, j: nat, v: int, alt: real)
    requires u in graph && j < |graph[u].neighbors| && Reached(gScore, u) && SettledBut(graph, gScore, items, u, j)
    requires v == graph[u].neighbors[j].node && alt == gScore[u].r + graph[u].neighbors[j].cost && Improves(gScore, v, alt)
    requires u != v && InQueue(items', v) && forall x :: InQueue(items, x) ==> InQueue(items', x)
    ensures SettledBut(graph, gScore[v := Fin(alt)], items', u, j + 1)
  {
    var gScore' := gScore[v := Fin(alt)];
    forall x, i | x in graph && 0 <= i < |graph[x].neighbors| && Reached(gScore', x) && !InQueue(items', x) && (x == u ==> i < j + 1)
      ensures EdgeRelaxed(graph, gScore', x, i)
    {
      var t := graph[x].neighbors[i].node;
      if t in gScore' && !(x == u && i == j) {
        assert EdgeRelaxed(graph, gScore, x, i);
        LessIsStrictOrder(gScore[x].Plus(graph[x].neighbors[i].cost), gScore[t], gScore'[t]);
      }
    }
  }

  /** A relaxation links `v` back to `u` through `u`'s entry `j`. */
  lemma LinksAfterImprovement(graph: NodeMap, cameFrom: map<int, int>, u: int, j: nat, v: int)
    requires LinksAreEdges(graph, cameFrom) && u in graph && j < |graph[u].neighbors| && v == graph[u].neighbors[j].node
    ensures LinksAreEdges(graph, cameFrom[v := u])
  {
    assert NeighborIds(graph[u])[j] == v;
  }

  /** With every reached node's entries relaxed, everything reachable from a reached start is reached. */
  lemma {:induction false} ReachableIsReached(graph: NodeMap, gScore: map<int, ExtReal>, start: int, p: seq<Step<int>>)
    requires OsmGraph.Closed(graph) && graph.Keys <= gScore.Keys && Reached(gScore, start)
    requires forall x, i :: x in graph && 0 <= i < |graph[x].neighbors| && Reached(gScore, x) ==> EdgeRelaxed(graph, gScore, x, i)
    requires IsPath(OsmArcs(graph), start, p)
    ensures Reached(gScore, Paths.End(start, p))
    decreases |p|
  {
    if p != [] {
      var g := OsmArcs(graph);
      PathInit(g, start, p);
      ReachableIsReached(graph, gScore, start, p[..|p| - 1]);
      var s := p[|p| - 1];
      var x := s.from;
      var k :| 0 <= k < |g[x]| && g[x][k] == s.arc;
      assert EdgeRelaxed(graph, gScore, x, k);
    }
  }

  /** A search that stops with the queue empty and every reached node settled has reached everything reachable. */
  lemma SearchComplete(graph: NodeMap, gScore: map<int, ExtReal>, start: int, end: int)
    requires OsmGraph.Closed(graph) && graph.Keys <= gScore.Keys && Reached(gScore, start) && Settled(graph, gScore, [])
    ensures Reachable(graph, start, end) ==> Reached(gScore, end)
  {
    if Reachable(graph, start, end) {
      var p :| IsPath(OsmArcs(graph), start, p) && Paths.End(start, p) == end;
      ReachableIsReached(graph, gScore, start, p);
    }
  }

  /** A reached node is reachable: its witness path leads there. */
  lemma ReachedIsReachable(graph: NodeMap, start: int, gScore: map<int, ExtReal>, w: map<int, seq<Step<int>>>, v: int)
    requires Witnessed(OsmArcs(graph), start, gScore, w) && Reached(gScore, v)
    ensures Reachable(graph, start, v)
  {
    assert IsPath(OsmArcs(graph), start, w[v]) && Paths.End(start, w[v]) == v;
  }

  lemma UpdateKeepsKeys<K, V>(m: map<K, V>, k: K, x: V)
    requires k in m
    ensures m[k := x].Keys == m.Keys
  {
  }

  /** The ghost side of one relaxation: the search invariant for the new maps, and progress. */
  lemma ImprovementKeeps(graph: NodeMap, start: int, gScore: map<int, ExtReal>, cameFrom: map<int, int>,
                         setAt: map<int, nat>, clock: nat, w: map<int, seq<Step<int>>>,
                         u: int, j: nat, v: int, alt: real, q: seq<Step<int>>)
    requires NonNegative(OsmArcs(graph)) && u in graph && j < |graph[u].neighbors| && Reached(gScore, u)
    requires Rooted(start, gScore, cameFrom) && Witnessed(OsmArcs(graph), start, gScore, w)
    requires Clocked(setAt, clock) && Ranked(start, gScore, cameFrom, setAt) && LinksAreEdges(graph, cameFrom)
    requires v == graph[u].neighbors[j].node && alt == gScore[u].r + graph[u].neighbors[j].cost && Improves(gScore, v, alt)
    requires q == w[u] + [Step(u, Arc(v, graph[u].neighbors[j].cost))]
    ensures u != v && gScore[v := Fin(alt)].Keys == gScore.Keys && gScore[v := Fin(alt)][u] == gScore[u]
    ensures Rooted(start, gScore[v := Fin(alt)], cameFrom[v := u]) && Witnessed(OsmArcs(graph), start, gScore[v := Fin(alt)], w[v := q])
    ensures Clocked(setAt[v := clock], clock + 1) && Ranked(start, gScore[v := Fin(alt)], cameFrom[v := u], setAt[v := clock])
    ensures LinksAreEdges(graph, cameFrom[v := u])
    ensures Improvable(OsmArcs(graph), start, gScore[v := Fin(alt)]) < Improvable(OsmArcs(graph), start, gScore)
  {
    var g := OsmArcs(graph);
    var a := Arc(v, graph[u].neighbors[j].cost);
    assert a == g[u][j];
    Relax(g, start, gScore, cameFrom, setAt, clock, w, u, a, v, alt, q);
    ImprovableShrinks(g, start, gScore, q, v, alt);
    LinksAfterImprovement(graph, cameFrom, u, j, v);
    UpdateKeepsKeys(gScore, v, Fin(alt));
  }

  /** The queue side of one relaxation: queueing the number `v` keeps the queue invariants for the lowered scores. */
  lemma EnqueueKeeps(graph: NodeMap, start: int, gScore: map<int, ExtReal>, before: seq<QueueElement<JsId>>,
                     after: seq<QueueElement<JsId>>, u: int, j: nat, v: int, alt: real, estimate: real)
    requires u in graph && j < |graph[u].neighbors| && Reached(gScore, u) && SettledBut(graph, gScore, before, u, j)
    requires v == graph[u].neighbors[j].node && alt == gScore[u].r + graph[u].neighbors[j].cost && Improves(gScore, v, alt) && u != v
    requires QueueReached(before, gScore) && QueueIds(before, start)
    requires after == Inserted(before, QueueElement(Number(v), estimate))
    ensures QueueReached(after, gScore[v := Fin(alt)]) && QueueIds(after, start)
    ensures InQueue(after, v) && forall x :: InQueue(before, x) ==> InQueue(after, x)
    ensures forall x :: Reached(gScore[v := Fin(alt)], x) ==> Reached(gScore, x) || InQueue(after, x)
    ensures SettledBut(graph, gScore[v := Fin(alt)], after, u, j + 1)
  {
    QueueReachedLowered(before, gScore, v, alt);
    QueueAfterEnqueue(before, QueueElement(Number(v), estimate), gScore[v := Fin(alt)], start);
    SettledAfterImprovement(graph, gScore, before, after, u, j, v, alt);
  }

  /** `heuristic(nodeA, nodeB)`: the distance between the two nodes' points. */
  function Heuristic(a: OsmNode, b: OsmNode, distance: Distance): real {
    distance(Point(a), Point(b))
  }

  // ------------------------------------------------------------ one scanned neighbour

  /**
   * The improving branch of the neighbour loop: entry `j` of `u` lowers the
   * score of its node `v` to `alt`, which records `u` in `cameFrom`, sets the
   * estimate, and queues the number `v` again.
   */
  method Improve(graph: NodeMap, start: int, goal: int, distance: Distance, openSet: PriorityQueue<JsId>,
                 gScore: map<int, ExtReal>, fScore: map<int, ExtReal>, cameFrom: map<int, int>,
                 ghost setAt: map<int, nat>, ghost clock: nat, ghost w: map<int, seq<Step<int>>>,
                 u: int, j: nat, v: int, alt: real)
    returns (gScore': map<int, ExtReal>, fScore': map<int, ExtReal>, cameFrom': map<int, int>,
             ghost setAt': map<int, nat>, ghost clock': nat, ghost w': map<int, seq<Step<int>>>)
    modifies openSet
    requires NonNegative(OsmArcs(graph)) && OsmGraph.Closed(graph) && goal in graph
    requires u in graph && j < |graph[u].neighbors| && Reached(gScore, u)
    requires v == graph[u].neighbors[j].node && alt == gScore[u].r + graph[u].neighbors[j].cost && Improves(gScore, v, alt)
    requires QueueReached(openSet.items, gScore) && QueueIds(openSet.items, start)
    requires Rooted(start, gScore, cameFrom) && Witnessed(OsmArcs(graph), start, gScore, w)
    requires Clocked(setAt, clock) && Ranked(start, gScore, cameFrom, setAt)
    requires LinksAreEdges(graph, cameFrom) && SettledBut(graph, gScore, openSet.items, u, j)
    ensures u != v && gScore' == gScore[v := Fin(alt)] && cameFrom' == cameFrom[v := u]
    ensures gScore'.Keys == gScore.Keys && gScore'[u] == gScore[u]
    ensures QueueReached(openSet.items, gScore') && QueueIds(openSet.items, start)
    ensures InQueue(openSet.items, v) && forall x :: InQueue(old(openSet.items), x) ==> InQueue(openSet.items, x)
    ensures forall x :: Reached(gScore', x) ==> Reached(gScore, x) || InQueue(openSet.items, x)
    ensures Rooted(start, gScore', cameFrom') && Witnessed(OsmArcs(graph), start, gScore', w')
    ensures Clocked(setAt', clock') && Ranked(start, gScore', cameFrom', setAt')
    ensures LinksAreEdges(graph, cameFrom') && SettledBut(graph, gScore', openSet.items, u, j + 1)
    ensures Improvable(OsmArcs(graph), start, gScore') < Improvable(OsmArcs(graph), start, gScore)
  {
    ghost var q := w[u] + [Step(u, Arc(v, graph[u].neighbors[j].cost))];
    ImprovementKeeps(graph, start, gScore, cameFrom, setAt, clock, w, u, j, v, alt, q);
    ghost var before := openSet.items;
    cameFrom' := cameFrom[v := u];
    gScore' := gScore[v := Fin(alt)];
    var estimate := alt + Heuristic(graph[v], graph[goal], distance);
    fScore' := fScore[v := Fin(estimate)];
    setAt', clock', w' := setAt[v := clock], clock + 1, w[v := q];
    openSet.Enqueue(Number(v), estimate);
    EnqueueKeeps(graph, start, gScore, before, openSet.items, u, j, v, alt, estimate);
  }

  /**
   * One pass of the neighbour loop: relax entry `j` of `u` when it strictly
   * improves its node's score. Either the improvable paths shrink, or
   * nothing changes.
   */
  method ScanEdge(graph: NodeMap, start: int, goal: int, distance: Distance, openSet: PriorityQueue<JsId>,
                  gScore: map<int, ExtReal>, fScore: map<int, ExtReal>, cameFrom: map<int, int>,
                  ghost setAt: map<int, nat>, ghost clock: nat, ghost w: map<int, seq<Step<int>>>, u: int, j: nat)
    returns (gScore': map<int, ExtReal>, fScore': map<int, ExtReal>, cameFrom': map<int, int>,
             ghost setAt': map<int, nat>, ghost clock': nat, ghost w': map<int, seq<Step<int>>>)
    modifies openSet
    requires NonNegative(OsmArcs(graph)) && OsmGraph.Closed(graph) && goal in graph
    requires u in graph && j < |graph[u].neighbors| && Reached(gScore, u)
    requires QueueReached(openSet.items, gScore) && QueueIds(openSet.items, start)
    requires Rooted(start, gScore, cameFrom) && Witnessed(OsmArcs(graph), start, gScore, w)
    requires Clocked(setAt, clock) && Ranked(start, gScore, cameFrom, setAt)
    requires LinksAreEdges(graph, cameFrom) && SettledBut(graph, gScore, openSet.items, u, j)
    ensures QueueReached(openSet.items, gScore') && QueueIds(openSet.items, start)
    ensures forall x :: InQueue(old(openSet.items), x) ==> InQueue(openSet.items, x)
    ensures forall x :: Reached(gScore', x) ==> Reached(gScore, x) || InQueue(openSet.items, x)
    ensures Rooted(start, gScore', cameFrom') && Witnessed(OsmArcs(graph), start, gScore', w')
    ensures Clocked(setAt', clock') && Ranked(start, gScore', cameFrom', setAt')
    ensures LinksAreEdges(graph, cameFrom') && SettledBut(graph, gScore', openSet.items, u, j + 1)
    ensures gScore'.Keys == gScore.Keys && gScore'[u] == gScore[u]
    ensures Improvable(OsmArcs(graph), start, gScore') < Improvable(OsmArcs(graph), start, gScore)
            || (gScore' == gScore && openSet.items == old(openSet.items))
  {
    var neighbor := graph[u].neighbors[j];
    var tentativeGScore := gScore[u].r + neighbor.cost;
    if Improves(gScore, neighbor.node, tentativeGScore) {
      gScore', fScore', cameFrom', setAt', clock', w' :=
        Improve(graph, start, goal, distance, openSet, gScore, fScore, cameFrom, setAt, clock, w, u, j, neighbor.node, tentativeGScore);
    } else {
      SettledNoImprovement(graph, gScore, openSet.items, u, j);
      gScore', fScore', cameFrom', setAt', clock', w' := gScore, fScore, cameFrom, setAt, clock, w;
    }
  }

  /** A measure that shrank, or stayed put, and then shrank, shrank overall. */
  lemma ShrinkAgain<T>(now: set<T>, mid: set<T>, first: set<T>)
    requires now < mid && mid <= first
    ensures now < first
  {
  }

  /**
   * `for (const neighbor of currentNode.neighbors)`: afterwards every reached
   * node out of the queue is settled, nothing left the queue, every newly
   * reached node is queued, and the measure shrank or nothing changed.
   */
  method ScanAll(graph: NodeMap, start: int, goal: int, distance: Distance, openSet: PriorityQueue<JsId>,
                 gScore: map<int, ExtReal>, fScore: map<int, ExtReal>, cameFrom: map<int, int>,
                 ghost setAt: map<int, nat>, ghost clock: nat, ghost w: map<int, seq<Step<int>>>, u: int)
    returns (gScore': map<int, ExtReal>, fScore': map<int, ExtReal>, cameFrom': map<int, int>,
             ghost setAt': map<int, nat>, ghost clock': nat, ghost w': map<int, seq<Step<int>>>)
    modifies openSet
    requires NonNegative(OsmArcs(graph)) && OsmGraph.Closed(graph) && goal in graph && u in graph && Reached(gScore, u)
    requires QueueReached(openSet.items, gScore) && QueueIds(openSet.items, start)
    requires Rooted(start, gScore, cameFrom) && Witnessed(OsmArcs(graph), start, gScore, w)
    requires Clocked(setAt, clock) && Ranked(start, gScore, cameFrom, setAt)
    requires LinksAreEdges(graph, cameFrom) && SettledBut(graph, gScore, openSet.items, u, 0)
    ensures QueueReached(openSet.items, gScore') && QueueIds(openSet.items, start)
    ensures forall x :: InQueue(old(openSet.items), x) ==> InQueue(openSet.items, x)
    ensures forall x :: Reached(gScore', x) ==> Reached(gScore, x) || InQueue(openSet.items, x)
    ensures Rooted(start, gScore', cameFrom') && Witnessed(OsmArcs(graph), start, gScore', w')
    ensures Clocked(setAt', clock') && Ranked(start, gScore', cameFrom', setAt')
    ensures LinksAreEdges(graph, cameFrom') && Settled(graph, gScore', openSet.items)
    ensures gScore'.Keys == gScore.Keys
    ensures Improvable(OsmArcs(graph), start, gScore') < Improvable(OsmArcs(graph), start, gScore)
            || (gScore' == gScore && openSet.items == old(openSet.items))
  {
    gScore', fScore', cameFrom', setAt', clock', w' := gScore, fScore, cameFrom, setAt, clock, w;
    var j := 0;
    while j < |graph[u].neighbors|
      invariant j <= |graph[u].neighbors|
      invariant Reached(gScore', u) && gScore'.Keys == gScore.Keys
      invariant QueueReached(openSet.items, gScore') && QueueIds(openSet.items, start)
      invariant forall x :: InQueue(old(openSet.items), x) ==> InQueue(openSet.items, x)
      invariant forall x :: Reached(gScore', x) ==> Reached(gScore, x) || InQueue(openSet.items, x)
      invariant Rooted(start, gScore', cameFrom') && Witnessed(OsmArcs(graph), start, gScore', w')
      invariant Clocked(setAt', clock') && Ranked(start, gScore', cameFrom', setAt')
      invariant LinksAreEdges(graph, cameFrom') && SettledBut(graph, gScore', openSet.items, u, j)
      invariant Improvable(OsmArcs(graph), start, gScore') < Improvable(OsmArcs(graph), start, gScore)
                || (gScore' == gScore && openSet.items == old(openSet.items))
    {
      ghost var mid := gScore';
      gScore', fScore', cameFrom', setAt', clock', w' :=
        ScanEdge(graph, start, goal, distance, openSet, gScore', fScore', cameFrom', setAt', clock', w', u, j);
      if Improvable(OsmArcs(graph), start, gScore') < Improvable(OsmArcs(graph), start, mid) {
        ShrinkAgain(Improvable(OsmArcs(graph), start, gScore'), Improvable(OsmArcs(graph), start, mid),
                    Improvable(OsmArcs(graph), start, gScore));
      }
      j := j + 1;
    }
    SettledAfterScan(graph, gScore', openSet.items, u, j);
  }

  // ------------------------------------------------------------ the search loop

  /**
   * The goal test `current === endNodeId`, where `endNodeId` is the key
   * string of the goal. With `strict` it is JavaScript's strict equality,
   * under which a number never equals a string; otherwise the ids are
   * compared as property keys.
   */
  predicate IsGoal(current: JsId, goal: int, strict: bool) {
    if strict then current == Text(goal) else current.n == goal
  }

  /**
   * One pass of the A* loop: take out the front of the queue and stop if it
   * passes the goal test; otherwise scan its neighbour entries. A pass that
   * does not stop keeps the search invariant, and either the improvable
   * paths shrink or the queue does.
   */
  method Visit(graph: NodeMap, start: int, goal: int, distance: Distance, strict: bool, openSet: PriorityQueue<JsId>,
               gScore: map<int, ExtReal>, fScore: map<int, ExtReal>, cameFrom: map<int, int>,
               ghost setAt: map<int, nat>, ghost clock: nat, ghost w: map<int, seq<Step<int>>>)
    returns (found: bool, gScore': map<int, ExtReal>, fScore': map<int, ExtReal>, cameFrom': map<int, int>,
             ghost setAt': map<int, nat>, ghost clock': nat, ghost w': map<int, seq<Step<int>>>)
    modifies openSet
    requires NonNegative(OsmArcs(graph)) && OsmGraph.Closed(graph) && goal in graph && openSet.items != []
    requires QueueReached(openSet.items, gScore) && QueueIds(openSet.items, start)
    requires Rooted(start, gScore, cameFrom) && Witnessed(OsmArcs(graph), start, gScore, w)
    requires Clocked(setAt, clock) && Ranked(start, gScore, cameFrom, setAt)
    requires LinksAreEdges(graph, cameFrom) && Settled(graph, gScore, openSet.items) && gScore.Keys == graph.Keys
    requires !strict ==> GoalQueued(gScore, openSet.items, goal)
    requires start == goal ==> openSet.items == [QueueElement(Text(start), 0.0)]
    ensures found ==> gScore' == gScore && cameFrom' == cameFrom && setAt' == setAt
    ensures found ==> Reached(gScore, goal) && Reachable(graph, start, goal) && (strict ==> start == goal)
    ensures start == goal ==> found
    ensures !found ==> QueueReached(openSet.items, gScore') && QueueIds(openSet.items, start)
    ensures !found ==> Rooted(start, gScore', cameFrom') && Witnessed(OsmArcs(graph), start, gScore', w')
    ensures !found ==> Clocked(setAt', clock') && Ranked(start, gScore', cameFrom', setAt')
    ensures !found ==> LinksAreEdges(graph, cameFrom') && Settled(graph, gScore', openSet.items) && gScore'.Keys == graph.Keys
    ensures !found && !strict ==> GoalQueued(gScore', openSet.items, goal)
    ensures !found ==> Improvable(OsmArcs(graph), start, gScore') < Improvable(OsmArcs(graph), start, gScore)
                       || (gScore' == gScore && |openSet.items| < |old(openSet.items)|)
  {
    ghost var before := openSet.items;
    var entry := openSet.Dequeue();
    var current := entry.value.element;
    QueueAfterDequeue(before, gScore, start);
    if IsGoal(current, goal, strict) {
      found := true;
      gScore', fScore', cameFrom', setAt', clock', w' := gScore, fScore, cameFrom, setAt, clock, w;
      ReachedIsReachable(graph, start, gScore, w, goal);
      return;
    }
    found := false;
    SettledAfterDequeue(graph, gScore, before, openSet.items, current.n);
    gScore', fScore', cameFrom', setAt', clock', w' :=
      ScanAll(graph, start, goal, distance, openSet, gScore, fScore, cameFrom, setAt, clock, w, current.n);
  }

  /**
   * The set-up of `calculateRoute`: the start alone in the queue with
   * priority 0, every score infinite except the start's 0, no links.
   */
  method StartSearch(graph: NodeMap, start: int, goal: int, distance: Distance)
    returns (openSet: PriorityQueue<JsId>, gScore: map<int, ExtReal>, fScore: map<int, ExtReal>, cameFrom: map<int, int>,
             ghost setAt: map<int, nat>, ghost clock: nat, ghost w: map<int, seq<Step<int>>>)
    requires start in graph && goal in graph
    ensures fresh(openSet) && openSet.items == [QueueElement(Text(start), 0.0)]
    ensures gScore == (map id | id in graph :: Inf)[start := Fin(0.0)] && cameFrom == map[]
    ensures QueueReached(openSet.items, gScore) && QueueIds(openSet.items, start)
    ensures Rooted(start, gScore, cameFrom) && Witnessed(OsmArcs(graph), start, gScore, w)
    ensures Clocked(setAt, clock) && Ranked(start, gScore, cameFrom, setAt)
    ensures LinksAreEdges(graph, cameFrom) && Settled(graph, gScore, openSet.items) && gScore.Keys == graph.Keys
    ensures GoalQueued(gScore, openSet.items, goal)
  {
    openSet := new PriorityQueue<JsId>();
    openSet.Enqueue(Text(start), 0.0);
    cameFrom := map[];
    gScore := map id | id in graph :: Inf;
    fScore := map id | id in graph :: Inf;
    gScore := gScore[start := Fin(0.0)];
    fScore := fScore[start := Fin(Heuristic(graph[start], graph[goal], distance))];
    setAt, clock, w := map[], 0, map[start := []];
    InitInv(OsmArcs(graph), start, gScore);
    QueueAfterEnqueue([], QueueElement(Text(start), 0.0), gScore, start);
  }

  /**
   * The A* loop of `calculateRoute` from `start` towards `goal`: passes
   * repeat until one stops at the goal or the queue runs dry. It always
   * terminates. When it stops at the goal, the goal is reachable; under the
   * strict test that only happens when the goal is the start, and under the
   * key test the search misses the goal only when it is unreachable.
   */
  method Explore(graph: NodeMap, start: int, goal: int, distance: Distance, strict: bool)
    returns (found: bool, gScore: map<int, ExtReal>, cameFrom: map<int, int>, ghost setAt: map<int, nat>)
    requires WellFormed(graph) && start in graph && goal in graph
    ensures gScore.Keys == graph.Keys
    ensures Rooted(start, gScore, cameFrom) && Ranked(start, gScore, cameFrom, setAt) && LinksAreEdges(graph, cameFrom)
    ensures found ==> Reached(gScore, goal) && Reachable(graph, start, goal)
    ensures strict && found ==> start == goal
    ensures start == goal ==> found && cameFrom == map[]
    ensures !strict && Reachable(graph, start, goal) ==> found
  {
    ScaledNonNegative(graph);
    ghost var g := OsmArcs(graph);
    var openSet, fScore;
    ghost var clock, w;
    openSet, gScore, fScore, cameFrom, setAt, clock, w := StartSearch(graph, start, goal, distance);
    found := false;
    while !openSet.IsEmpty()
      invariant QueueReached(openSet.items, gScore) && QueueIds(openSet.items, start)
      invariant Rooted(start, gScore, cameFrom) && Witnessed(g, start, gScore, w)
      invariant Clocked(setAt, clock) && Ranked(start, gScore, cameFrom, setAt)
      invariant LinksAreEdges(graph, cameFrom) && Settled(graph, gScore, openSet.items)
      invariant gScore.Keys == graph.Keys
      invariant !strict ==> GoalQueued(gScore, openSet.items, goal)
      invariant start == goal ==> openSet.items == [QueueElement(Text(start), 0.0)] && cameFrom == map[]
      invariant !found
      decreases Improvable(g, start, gScore), |openSet.items|
    {
      found, gScore, fScore, cameFrom, setAt, clock, w :=
        Visit(graph, start, goal, distance, strict, openSet, gScore, fScore, cameFrom, setAt, clock, w);
      if found {
        return;
      }
    }
    if !strict {
      SearchComplete(graph, gScore, start, goal);
    }
  }

  // ------------------------------------------------------------ rebuilding the route

  /** One `Feature` of the answer: its `distance` property and its geometry. */
  datatype Feature = Feature(distance: real, geometry: Geometry)

  /** The `FeatureCollection` `reconstructPath` returns. */
  datatype FeatureCollection = FeatureCollection(features: seq<Feature>)

  /** `totalPath.map(id => [graph[id].lon, graph[id].lat])`. */
  function Coordinates(graph: NodeMap, ids: seq<int>): (r: seq<LonLat>)
    requires forall i :: 0 <= i < |ids| ==> ids[i] in graph
    ensures |r| == |ids| && forall i :: 0 <= i < |ids| ==> r[i] == LonLat(graph[ids[i]].lon, graph[ids[i]].lat)
  {
    seq(|ids|, i requires 0 <= i < |ids| => LonLat(graph[ids[i]].lon, graph[ids[i]].lat))
  }

  /** `ids` follows neighbour entries of the graph from its first id to its last. */
  ghost predicate Walk(graph: NodeMap, ids: seq<int>) {
    forall i :: 0 <= i < |ids| - 1 ==> Edge(graph, ids[i], ids[i + 1])
  }

  /** `b` is the node of one of `a`'s neighbour entries. */
  ghost predicate Edge(graph: NodeMap, a: int, b: int) {
    a in graph && b in NeighborIds(graph[a])
  }

  /**
   * `reconstructPath(cameFrom, current, graph)`: unshift predecessors until
   * an id without one, then emit each id's `[lon, lat]` as one LineString
   * feature with `distance` 0. The ids end at `current`, each is the
   * `cameFrom` of the next, the first has no predecessor, and it is the
   * start whenever `current` has a predecessor or is the start.
   */
  method ReconstructPath(cameFrom: map<int, int>, current: int, graph: NodeMap,
                         ghost start: int, ghost gScore: map<int, ExtReal>, ghost setAt: map<int, nat>)
    returns (r: FeatureCollection, ids: seq<int>)
    requires Rooted(start, gScore, cameFrom) && Ranked(start, gScore, cameFrom, setAt) && LinksAreEdges(graph, cameFrom)
    requires current in graph
    ensures ids != [] && ids[|ids| - 1] == current && ids[0] !in cameFrom
    ensures forall i :: 0 < i < |ids| ==> ids[i] in cameFrom && cameFrom[ids[i]] == ids[i - 1]
    ensures current in cameFrom || current == start ==> ids[0] == start
    ensures forall i :: 0 <= i < |ids| ==> ids[i] in graph
    ensures Walk(graph, ids)
    ensures r == FeatureCollection([Feature(0.0, Geometry("LineString", Some(Coordinates(graph, ids))))])
  {
    var node := current;
    var totalPath := [node];
    while node in cameFrom
      invariant totalPath != [] && totalPath[0] == node && totalPath[|totalPath| - 1] == current
      invariant forall i :: 0 < i < |totalPath| ==> totalPath[i] in cameFrom && cameFrom[totalPath[i]] == totalPath[i - 1]
      invariant forall i :: 0 <= i < |totalPath| ==> totalPath[i] in graph
      invariant current in cameFrom || current == start ==> node in cameFrom || node == start
      decreases Chain(gScore, cameFrom, setAt, node)
    {
      ChainShrinks(start, gScore, cameFrom, setAt, node);
      node := cameFrom[node];
      totalPath := [node] + totalPath;
    }
    ids := totalPath;
    forall i | 0 <= i < |ids| - 1 ensures Edge(graph, ids[i], ids[i + 1]) {
      assert cameFrom[ids[i + 1]] == ids[i];
    }
    r := FeatureCollection([Feature(0.0, Geometry("LineString", Some(Coordinates(graph, totalPath))))]);
  }

  // ------------------------------------------------------------ snapping and the whole route

  /** The best candidate of a scan: its id (`null` before any) and its distance. */
  datatype Closest = Closest(id: Option<int>, distance: ExtReal)

  /** `order` lists exactly the keys of the graph, as `for ... in` enumerates them. */
  ghost predicate ListsKeys(graph: NodeMap, order: seq<int>) {
    (forall i :: 0 <= i < |order| ==> order[i] in graph) && forall k :: k in graph ==> k in order
  }

  /** The distance from the point `(lon, lat)` of a coordinate pair to a node. */
  function Away(here: LatLon, node: OsmNode, distance: Distance): real {
    distance(LonLat(here.lon, here.lat), Point(node))
  }

  /**
   * `findNearestNode(graph, lat, lon)` over the keys in enumeration order:
   * a key replaces the best one only when it is strictly closer.
   */
  function ClosestOf(graph: NodeMap, order: seq<int>, here: LatLon, distance: Distance): Closest
    requires forall i :: 0 <= i < |order| ==> order[i] in graph
  {
    if order == [] then Closest(None, Inf)
    else
      var b := ClosestOf(graph, order[..|order| - 1], here, distance);
      var k := order[|order| - 1];
      if Fin(Away(here, graph[k], distance)).Less(b.distance) then Closest(Some(k), Fin(Away(here, graph[k], distance))) else b
  }

  /**
   * A node is found exactly when there are keys; it is one of them, at the
   * distance reported, no node is strictly closer, and every key listed
   * before it is strictly farther.
   */
  lemma {:induction false} ClosestIsNearest(graph: NodeMap, order: seq<int>, here: LatLon, distance: Distance)
    requires forall i :: 0 <= i < |order| ==> order[i] in graph
    ensures var b := ClosestOf(graph, order, here, distance);
      && (b.id.None? <==> order == [])
      && (b.id.Some? ==> b.id.value in order && b.distance == Fin(Away(here, graph[b.id.value], distance)))
      && (forall i :: 0 <= i < |order| ==> b.distance.AtMost(Fin(Away(here, graph[order[i]], distance))))
      && (b.id.Some? ==> exists i :: (0 <= i < |order| && order[i] == b.id.value &&
            forall j :: 0 <= j < i ==> b.distance.Less(Fin(Away(here, graph[order[j]], distance)))))
    decreases |order|
  {
    if order != [] {
      var init := order[..|order| - 1];
      ClosestIsNearest(graph, init, here, distance);
      var b := ClosestOf(graph, init, here, distance);
      var k := order[|order| - 1];
      var d := Fin(Away(here, graph[k], distance));
      var r := ClosestOf(graph, order, here, distance);
      forall i | 0 <= i < |order| ensures r.distance.AtMost(Fin(Away(here, graph[order[i]], distance))) {
        if i < |init| {
          assert order[i] == init[i];
          if d.Less(b.distance) {
            LessIsStrictOrder(d, b.distance, Fin(Away(here, graph[order[i]], distance)));
          }
        }
      }
      if d.Less(b.distance) {
        forall j | 0 <= j < |order| - 1 ensures d.Less(Fin(Away(here, graph[order[j]], distance))) {
          assert order[j] == init[j];
          LessIsStrictOrder(d, b.distance, Fin(Away(here, graph[order[j]], distance)));
        }
      } else if b.id.Some? {
        var i :| 0 <= i < |init| && init[i] == b.id.value &&
          forall j :: 0 <= j < i ==> b.distance.Less(Fin(Away(here, graph[init[j]], distance)));
        assert order[i] == init[i];
        forall j | 0 <= j < i ensures b.distance.Less(Fin(Away(here, graph[order[j]], distance))) {
          assert order[j] == init[j];
        }
      }
    }
  }

  /** `findNearestNode`: one pass over the keys, keeping the strictly closest (`None` for `null`). */
  method FindNearestNode(graph: NodeMap, order: seq<int>, here: LatLon, distance: Distance) returns (nearest: Option<int>)
    requires ListsKeys(graph, order)
    ensures nearest == ClosestOf(graph, order, here, distance).id
    ensures nearest.None? <==> graph == map[]
    ensures nearest.Some? ==> nearest.value in graph
  {
    nearest := None;
    var minDist := Inf;
    for i := 0 to |order|
      invariant Closest(nearest, minDist) == ClosestOf(graph, order[..i], here, distance)
    {
      var node := graph[order[i]];
      var dist := Away(here, node, distance);
      if Fin(dist).Less(minDist) {
        minDist := Fin(dist);
        nearest := Some(order[i]);
      }
      assert order[..i + 1][..i] == order[..i];
    }
    assert order[..|order|] == order;
    ClosestIsNearest(graph, order, here, distance);
    if order == [] {
      assert forall k :: k !in graph;
      assert graph == map[];
    } else {
      assert order[0] in graph;
    }
  }

  /** Both ends snap to nodes and the end node is reachable from the start node. */
  ghost predicate Routable(graph: NodeMap, order: seq<int>, from: LatLon, to: LatLon, distance: Distance)
    requires forall i :: 0 <= i < |order| ==> order[i] in graph
  {
    var s := ClosestOf(graph, order, from, distance).id;
    var e := ClosestOf(graph, order, to, distance).id;
    s.Some? && e.Some? && Reachable(graph, s.value, e.value)
  }

  /**
   * `calculateRoute(graph, startCoords, endCoords)` with the goal test
   * comparing ids as property keys: no route exactly when the graph is empty
   * or the end node cannot be reached; otherwise the one LineString of the
   * answer follows neighbour entries from the start node to the end node.
   */
  method CalculateRoute(graph: NodeMap, order: seq<int>, startCoords: LatLon, endCoords: LatLon, distance: Distance)
    returns (r: Option<FeatureCollection>, ghost ids: seq<int>)
    requires WellFormed(graph) && ListsKeys(graph, order)
    ensures r.Some? <==> Routable(graph, order, startCoords, endCoords, distance)
    ensures r.Some? ==> ids != [] && (forall i :: 0 <= i < |ids| ==> ids[i] in graph) && Walk(graph, ids)
    ensures r.Some? ==> Some(ids[0]) == ClosestOf(graph, order, startCoords, distance).id
    ensures r.Some? ==> Some(ids[|ids| - 1]) == ClosestOf(graph, order, endCoords, distance).id
    ensures r.Some? ==> r.value == FeatureCollection([Feature(0.0, Geometry("LineString", Some(Coordinates(graph, ids))))])
  {
    var startNodeId := FindNearestNode(graph, order, startCoords, distance);
    var endNodeId := FindNearestNode(graph, order, endCoords, distance);
    if startNodeId.None? || endNodeId.None? {
      return None, [];
    }
    var found, gScore, cameFrom, setAt := Explore(graph, startNodeId.value, endNodeId.value, distance, false);
    if !found {
      return None, [];
    }
    var path;
    path, ids := ReconstructPath(cameFrom, endNodeId.value, graph, startNodeId.value, gScore, setAt);
    r := Some(path);
  }

  /**
   * `calculateRoute` as written, with the strict goal test: the start is
   * queued as a key string and every other id as a number, so a route is
   * returned only when both ends snap to the same node, and then it is that
   * single node.
   */
  method CalculateRouteAsWritten(graph: NodeMap, order: seq<int>, startCoords: LatLon, endCoords: LatLon, distance: Distance)
    returns (r: Option<FeatureCollection>, ghost ids: seq<int>)
    requires WellFormed(graph) && ListsKeys(graph, order)
    ensures r.Some? <==> graph != map[] && ClosestOf(graph, order, startCoords, distance).id == ClosestOf(graph, order, endCoords, distance).id
    ensures r.Some? ==> |ids| == 1 && ids[0] in graph && Some(ids[0]) == ClosestOf(graph, order, startCoords, distance).id
    ensures r.Some? ==> r.value == FeatureCollection([Feature(0.0, Geometry("LineString", Some(Coordinates(graph, ids))))])
  {
    var startNodeId := FindNearestNode(graph, order, startCoords, distance);
    var endNodeId := FindNearestNode(graph, order, endCoords, distance);
    if startNodeId.None? || endNodeId.None? {
      return None, [];
    }
    var found, gScore, cameFrom, setAt := Explore(graph, startNodeId.value, endNodeId.value, distance, true);
    if !found {
      return None, [];
    }
    var path;
    path, ids := ReconstructPath(cameFrom, endNodeId.value, graph, startNodeId.value, gScore, setAt);
    r := Some(path);
  }

  /** Two nodes one metre apart, joined by a footway of multiplier 1. */
  function TwoNodes(): NodeMap {
    map[1 := OsmNode(1, 0.0, 0.0, [Neighbor(2, 1.0, 1.0, 0.0, 1.0)]),
        2 := OsmNode(2, 0.0, 1.0, [Neighbor(1, 1.0, 1.0, 0.0, 0.0)])]
  }

  /** A distance that is 0 between equal points and 1 otherwise. */
  function UnitDistance(): Distance {
    (a: LonLat, b: LonLat) => if a == b then 0.0 else 1.0
  }

  lemma TwoNodesWellFormed()
    ensures WellFormed(TwoNodes()) && ListsKeys(TwoNodes(), [1, 2])
  {
    var g := TwoNodes();
    assert g.Keys == {1, 2};
    assert Reverse(g, 1, g[1].neighbors[0]) == g[2].neighbors[0];
    assert Reverse(g, 2, g[2].neighbors[0]) == g[1].neighbors[0];
  }

  /** Each end of `TwoNodes` snaps to the node at its position. */
  lemma TwoNodesSnap()
    ensures ClosestOf(TwoNodes(), [1, 2], LatLon(0.0, 0.0), UnitDistance()).id == Some(1)
    ensures ClosestOf(TwoNodes(), [1, 2], LatLon(0.0, 1.0), UnitDistance()).id == Some(2)
  {
    assert [1, 2][..1] == [1];
    assert [1][..0] == [];
  }

  /**
   * With the ends at the two nodes of `TwoNodes`, the ends snap to different
   * nodes joined by an entry: the key-comparing search finds a route, while
   * the strict goal test returns none.
   */
  lemma StrictGoalTestMissesRoute()
    ensures WellFormed(TwoNodes()) && ListsKeys(TwoNodes(), [1, 2])
    ensures Routable(TwoNodes(), [1, 2], LatLon(0.0, 0.0), LatLon(0.0, 1.0), UnitDistance())
    ensures ClosestOf(TwoNodes(), [1, 2], LatLon(0.0, 0.0), UnitDistance()).id
         != ClosestOf(TwoNodes(), [1, 2], LatLon(0.0, 1.0), UnitDistance()).id
  {
    TwoNodesWellFormed();
    TwoNodesSnap();
    var p := [Step(1, Arc(2, 1.0))];
    assert OsmArcs(TwoNodes())[1][0] == Arc(2, 1.0);
    assert IsPath(OsmArcs(TwoNodes()), 1, p) && Paths.End(1, p) == 2;
  }
}
