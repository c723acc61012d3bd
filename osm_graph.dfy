/**
 * The back end's graph builder: OpenStreetMap `node` elements become graph
 * entries keyed by id, and every consecutive pair of indexed nodes on a
 * passable `way` becomes a pair of opposite neighbour entries whose cost is
 * the distance between the two nodes times the way's cost multiplier.
 */
module OsmGraph {
  import opened Common
  import opened SidewalkScoring

  /** A `way` element: its node id list and its `tags` object, if any. */
  datatype Way = Way(nodeIds: seq<int>, tags: Option<Tags>)

  /** The elements of an Overpass answer; elements of other types are ignored. */
  datatype Element =
    | NodeElement(id: int, lat: real, lon: real)
    | WayElement(way: Way)
    | OtherElement

  datatype Neighbor = Neighbor(node: int, cost: real, distance: real, lat: real, lon: real)

  datatype OsmNode = OsmNode(id: int, lat: real, lon: real, neighbors: seq<Neighbor>)

  /** The `nodes` object the builder returns, keyed by node id. */
  type NodeMap = map<int, OsmNode>

  /** `turf.distance` in metres between two `[lon, lat]` points, left abstract. */
  type Distance = (LonLat, LonLat) -> real

  ghost predicate NonNegativeDistance(distance: Distance) {
    forall a, b :: distance(a, b) >= 0.0
  }

  function Point(n: OsmNode): LonLat {
    LonLat(n.lon, n.lat)
  }

  /** `way.tags || {}`. */
  function TagsOrEmpty(tags: Option<Tags>): Tags {
    if tags.Some? then tags.value else map[]
  }

  /** The cost multiplier of a way under the default profile. */
  function Multiplier(w: Way): ExtReal {
    GetSegmentCost(TagsOrEmpty(w.tags), DefaultProfile)
  }

  // ------------------------------------------------------------ specification of the two passes

  /** The first pass over the nodes: a later element with the same id replaces an earlier one. */
  function Indexed(elements: seq<Element>): NodeMap {
    if elements == [] then map[]
    else
      var g := Indexed(elements[..|elements| - 1]);
      var el := elements[|elements| - 1];
      if el.NodeElement? then g[el.id := OsmNode(el.id, el.lat, el.lon, [])] else g
  }

  /** The first pass over the ways: collected in order. */
  function WaysOf(elements: seq<Element>): seq<Way> {
    if elements == [] then []
    else
      var ways := WaysOf(elements[..|elements| - 1]);
      var el := elements[|elements| - 1];
      if el.WayElement? then ways + [el.way] else ways
  }

  /** `arr.push(n)` on the neighbours of `k`. */
  function Push(g: NodeMap, k: int, n: Neighbor): NodeMap
    requires k in g
  {
    g[k := g[k].(neighbors := g[k].neighbors + [n])]
  }

  /** The distance between two indexed nodes, from `u` to `v`. */
  function Span(g: NodeMap, u: int, v: int, distance: Distance): real
    requires u in g && v in g
  {
    distance(Point(g[u]), Point(g[v]))
  }

  /** The entry pushed onto `u`'s neighbours for the pair `u`, `v` of a way with multiplier `m`. */
  function Forward(g: NodeMap, u: int, v: int, m: real, distance: Distance): Neighbor
    requires u in g && v in g
  {
    Neighbor(v, Span(g, u, v, distance) * m, Span(g, u, v, distance), g[v].lat, g[v].lon)
  }

  /** The entry pushed onto `v`'s neighbours for the same pair: same cost and distance, back to `u`. */
  function Backward(g: NodeMap, u: int, v: int, m: real, distance: Distance): Neighbor
    requires u in g && v in g
  {
    Neighbor(u, Span(g, u, v, distance) * m, Span(g, u, v, distance), g[u].lat, g[u].lon)
  }

  /** One iteration of the pair loop: when both ids are indexed, `u → v` is pushed and then `v → u`. */
  function AddPair(g: NodeMap, uId: int, vId: int, m: real, distance: Distance): NodeMap {
    if uId in g && vId in g then
      Push(Push(g, uId, Forward(g, uId, vId, m, distance)), vId, Backward(g, uId, vId, m, distance))
    else g
  }

  /** The number of consecutive pairs in a node list (`nodes.length - 1`, none for an empty list). */
  function PairCount(ids: seq<int>): nat {
    if |ids| == 0 then 0 else |ids| - 1
  }

  /** The first `n` iterations of the pair loop of a way with multiplier `m`. */
  function AddPairs(g: NodeMap, ids: seq<int>, m: real, n: nat, distance: Distance): NodeMap
    requires n <= PairCount(ids)
  {
    if n == 0 then g else AddPair(AddPairs(g, ids, m, n - 1, distance), ids[n - 1], ids[n], m, distance)
  }

  /** A way's contribution: nothing when it is impassable (`Infinity`), its pairs otherwise. */
  function AddWay(g: NodeMap, w: Way, distance: Distance): NodeMap {
    var c := Multiplier(w);
    if c.Inf? then g else AddPairs(g, w.nodeIds, c.r, PairCount(w.nodeIds), distance)
  }

  function AddWays(g: NodeMap, ways: seq<Way>, distance: Distance): NodeMap {
    if ways == [] then g
    else AddWay(AddWays(g, ways[..|ways| - 1], distance), ways[|ways| - 1], distance)
  }

  /** What `buildGraph(elements)` returns. */
  function Built(elements: seq<Element>, distance: Distance): NodeMap {
    AddWays(Indexed(elements), WaysOf(elements), distance)
  }

  // ------------------------------------------------------------ the builder

  /**
   * `buildGraph(elements)`: index the node elements and collect the ways in
   * one pass, then add each passable way's pairs of indexed nodes.
   */
  method BuildGraph(elements: seq<Element>, distance: Distance) returns (nodes: NodeMap)
    ensures nodes == Built(elements, distance)
  {
    nodes := map[];
    var ways: seq<Way> := [];
    for k := 0 to |elements|
      invariant nodes == Indexed(elements[..k]) && ways == WaysOf(elements[..k])
    {
      assert elements[..k + 1][..k] == elements[..k];
      var el := elements[k];
      if el.NodeElement? {
        nodes := nodes[el.id := OsmNode(el.id, el.lat, el.lon, [])];
      } else if el.WayElement? {
        ways := ways + [el.way];
      }
    }
    assert elements[..|elements|] == elements;
    ghost var indexed := nodes;
    for w := 0 to |ways|
      invariant nodes == AddWays(indexed, ways[..w], distance)
    {
      assert ways[..w + 1][..w] == ways[..w];
      nodes := AddWayEdges(nodes, ways[w], distance);
    }
    assert ways[..|ways|] == ways;
  }

  /**
   * The callback of the second pass: skip an impassable way, otherwise push
   * both entries for every consecutive pair of indexed nodes.
   */
  method AddWayEdges(nodes: NodeMap, way: Way, distance: Distance) returns (result: NodeMap)
    ensures result == AddWay(nodes, way, distance)
  {
    result := nodes;
    var costMultiplier := GetSegmentCost(TagsOrEmpty(way.tags), DefaultProfile);
    if costMultiplier == Inf {
      return;
    }
    var i := 0;
    while i < |way.nodeIds| - 1
      invariant i <= PairCount(way.nodeIds)
      invariant result == AddPairs(nodes, way.nodeIds, costMultiplier.r, i, distance)
    {
      var uId := way.nodeIds[i];
      var vId := way.nodeIds[i + 1];
      if uId in result && vId in result {
        var u := result[uId];
        var v := result[vId];
        var dist := distance(LonLat(u.lon, u.lat), LonLat(v.lon, v.lat));
        var finalCost := dist * costMultiplier.r;
        assert Neighbor(vId, finalCost, dist, v.lat, v.lon) == Forward(result, uId, vId, costMultiplier.r, distance);
        assert Neighbor(uId, finalCost, dist, u.lat, u.lon) == Backward(result, uId, vId, costMultiplier.r, distance);
        result := result[uId := result[uId].(neighbors := result[uId].neighbors + [Neighbor(vId, finalCost, dist, v.lat, v.lon)])];
        result := result[vId := result[vId].(neighbors := result[vId].neighbors + [Neighbor(uId, finalCost, dist, u.lat, u.lon)])];
      }
      i := i + 1;
    }
  }

  // ------------------------------------------------------------ what the graph satisfies

  /** `h` is `g` with possibly more neighbours appended: same keys, ids and positions. */
  ghost predicate Extends(g: NodeMap, h: NodeMap) {
    && g.Keys == h.Keys
    && forall k :: k in g ==>
         h[k].id == g[k].id && h[k].lat == g[k].lat && h[k].lon == g[k].lon && g[k].neighbors <= h[k].neighbors
  }

  lemma ExtendsTransitive(g: NodeMap, h: NodeMap, j: NodeMap)
    requires Extends(g, h) && Extends(h, j)
    ensures Extends(g, j)
  {
    forall k | k in g ensures g[k].neighbors <= j[k].neighbors {
      var a, b, c := g[k].neighbors, h[k].neighbors, j[k].neighbors;
      assert a == b[..|a|] && b == c[..|b|];
      assert a == c[..|a|];
    }
  }

  /** Every entry is keyed by its own id. */
  ghost predicate IdsMatch(g: NodeMap) {
    forall k :: k in g ==> g[k].id == k
  }

  /** Neighbours only reference ids present in the graph, with those nodes' positions. */
  ghost predicate Closed(g: NodeMap) {
    forall k, i :: k in g && 0 <= i < |g[k].neighbors| ==>
      && g[k].neighbors[i].node in g
      && g[k].neighbors[i].lat == g[g[k].neighbors[i].node].lat
      && g[k].neighbors[i].lon == g[g[k].neighbors[i].node].lon
  }

  /** The entry `v` holds for the neighbour entry `n` of `u`: back to `u`, same cost and distance. */
  function Reverse(g: NodeMap, u: int, n: Neighbor): Neighbor
    requires u in g
  {
    Neighbor(u, n.cost, n.distance, g[u].lat, g[u].lon)
  }

  /** Every neighbour entry has its reverse entry at the other end. */
  ghost predicate Symmetric(g: NodeMap) {
    forall k, i :: k in g && 0 <= i < |g[k].neighbors| && g[k].neighbors[i].node in g ==>
      Reverse(g, k, g[k].neighbors[i]) in g[g[k].neighbors[i].node].neighbors
  }

  /** Every cost is a distance scaled by a multiplier in `[0.8, 1.8]`, and distances are non-negative. */
  ghost predicate Scaled(g: NodeMap) {
    forall k, i :: k in g && 0 <= i < |g[k].neighbors| ==>
      && 0.0 <= g[k].neighbors[i].distance
      && 0.8 * g[k].neighbors[i].distance <= g[k].neighbors[i].cost <= 1.8 * g[k].neighbors[i].distance
  }

  ghost predicate WellFormed(g: NodeMap) {
    IdsMatch(g) && Closed(g) && Symmetric(g) && Scaled(g)
  }

  lemma PushExtends(g: NodeMap, k: int, n: Neighbor)
    requires k in g
    ensures Extends(g, Push(g, k, n))
  {
  }

  lemma {:induction false} AddPairExtends(g: NodeMap, uId: int, vId: int, m: real, distance: Distance)
    ensures Extends(g, AddPair(g, uId, vId, m, distance))
  {
    if uId in g && vId in g {
      var g1 := Push(g, uId, Forward(g, uId, vId, m, distance));
      PushExtends(g, uId, Forward(g, uId, vId, m, distance));
      PushExtends(g1, vId, Backward(g, uId, vId, m, distance));
      ExtendsTransitive(g, g1, AddPair(g, uId, vId, m, distance));
    }
  }

  /** Both entries of an indexed pair are present afterwards, with cost = distance × multiplier. */
  lemma AddPairLinks(g: NodeMap, uId: int, vId: int, m: real, distance: Distance)
    requires uId in g && vId in g
    ensures Has(AddPair(g, uId, vId, m, distance), uId, Forward(g, uId, vId, m, distance))
    ensures Has(AddPair(g, uId, vId, m, distance), vId, Backward(g, uId, vId, m, distance))
  {
    var e := Forward(g, uId, vId, m, distance);
    var g1 := Push(g, uId, e);
    assert e in g1[uId].neighbors;
    assert g1[uId].neighbors <= Push(g1, vId, Backward(g, uId, vId, m, distance))[uId].neighbors;
  }

  lemma AddPairIdsMatch(g: NodeMap, uId: int, vId: int, m: real, distance: Distance)
    requires IdsMatch(g)
    ensures IdsMatch(AddPair(g, uId, vId, m, distance))
  {
    AddPairExtends(g, uId, vId, m, distance);
  }

  lemma AddPairClosed(g: NodeMap, uId: int, vId: int, m: real, distance: Distance)
    requires Closed(g)
    ensures Closed(AddPair(g, uId, vId, m, distance))
  {
    var h := AddPair(g, uId, vId, m, distance);
    AddPairExtends(g, uId, vId, m, distance);
    forall k, i | k in h && 0 <= i < |h[k].neighbors|
      ensures h[k].neighbors[i].node in h
      ensures h[k].neighbors[i].lat == h[h[k].neighbors[i].node].lat
      ensures h[k].neighbors[i].lon == h[h[k].neighbors[i].node].lon
    {
      if i < |g[k].neighbors| {
        assert h[k].neighbors[i] == g[k].neighbors[i];
      }
    }
  }

  lemma AddPairScaled(g: NodeMap, uId: int, vId: int, m: real, distance: Distance)
    requires Scaled(g) && NonNegativeDistance(distance) && 0.8 <= m <= 1.8
    ensures Scaled(AddPair(g, uId, vId, m, distance))
  {
    var h := AddPair(g, uId, vId, m, distance);
    AddPairExtends(g, uId, vId, m, distance);
    if uId in g && vId in g {
      var d := Span(g, uId, vId, distance);
      assert 0.8 * d <= d * m <= 1.8 * d;
      assert Forward(g, uId, vId, m, distance).cost == d * m;
    }
    forall k, i | k in h && 0 <= i < |h[k].neighbors|
      ensures 0.0 <= h[k].neighbors[i].distance
      ensures 0.8 * h[k].neighbors[i].distance <= h[k].neighbors[i].cost <= 1.8 * h[k].neighbors[i].distance
    {
      if i < |g[k].neighbors| {
        assert h[k].neighbors[i] == g[k].neighbors[i];
      }
    }
  }

  lemma AddPairSymmetric(g: NodeMap, uId: int, vId: int, m: real, distance: Distance)
    requires Symmetric(g)
    ensures Symmetric(AddPair(g, uId, vId, m, distance))
  {
    var h := AddPair(g, uId, vId, m, distance);
    AddPairExtends(g, uId, vId, m, distance);
    if uId in g && vId in g {
      AddPairLinks(g, uId, vId, m, distance);
      var forward := Forward(g, uId, vId, m, distance);
      var backward := Backward(g, uId, vId, m, distance);
      var g1 := Push(g, uId, forward);
      assert h == Push(g1, vId, backward);
      forall k, i | k in h && 0 <= i < |h[k].neighbors| && h[k].neighbors[i].node in h
        ensures Reverse(h, k, h[k].neighbors[i]) in h[h[k].neighbors[i].node].neighbors
      {
        var n := h[k].neighbors[i];
        if i < |g[k].neighbors| {
          assert n == g[k].neighbors[i];
          assert Reverse(h, k, n) == Reverse(g, k, n);
          assert g[n.node].neighbors <= h[n.node].neighbors;
        } else if k == vId && i == |h[k].neighbors| - 1 {
          assert n == backward;
        } else {
          assert k == uId && i == |g[uId].neighbors|;
          assert g1[uId].neighbors[i] == forward;
          if uId == vId {
            assert h[uId].neighbors == g1[uId].neighbors + [backward];
          } else {
            assert h[uId] == g1[uId];
          }
          assert n == forward;
        }
      }
    }
  }

  lemma AddPairWellFormed(g: NodeMap, uId: int, vId: int, m: real, distance: Distance)
    requires WellFormed(g) && NonNegativeDistance(distance) && 0.8 <= m <= 1.8
    ensures WellFormed(AddPair(g, uId, vId, m, distance))
  {
    AddPairIdsMatch(g, uId, vId, m, distance);
    AddPairClosed(g, uId, vId, m, distance);
    AddPairSymmetric(g, uId, vId, m, distance);
    AddPairScaled(g, uId, vId, m, distance);
  }

  lemma {:induction false} AddPairsWellFormed(g: NodeMap, ids: seq<int>, m: real, n: nat, distance: Distance)
    requires n <= PairCount(ids)
    requires WellFormed(g) && NonNegativeDistance(distance) && 0.8 <= m <= 1.8
    ensures WellFormed(AddPairs(g, ids, m, n, distance)) && Extends(g, AddPairs(g, ids, m, n, distance))
  {
    if n > 0 {
      AddPairsWellFormed(g, ids, m, n - 1, distance);
      var g1 := AddPairs(g, ids, m, n - 1, distance);
      AddPairWellFormed(g1, ids[n - 1], ids[n], m, distance);
      AddPairExtends(g1, ids[n - 1], ids[n], m, distance);
      ExtendsTransitive(g, g1, AddPairs(g, ids, m, n, distance));
    }
  }

  lemma {:induction false} AddWaysWellFormed(g: NodeMap, ways: seq<Way>, distance: Distance)
    requires WellFormed(g) && NonNegativeDistance(distance)
    ensures WellFormed(AddWays(g, ways, distance)) && Extends(g, AddWays(g, ways, distance))
  {
    if ways != [] {
      AddWaysWellFormed(g, ways[..|ways| - 1], distance);
      var g1 := AddWays(g, ways[..|ways| - 1], distance);
      var w := ways[|ways| - 1];
      if Multiplier(w).Fin? {
        DefaultCostBounds(TagsOrEmpty(w.tags));
        AddPairsWellFormed(g1, w.nodeIds, Multiplier(w).r, PairCount(w.nodeIds), distance);
        ExtendsTransitive(g, g1, AddWays(g, ways, distance));
      }
    }
  }

  /**
   * The node pass: a key is present exactly when some node element has that
   * id; its entry is the last such element with no neighbours yet.
   */
  lemma {:induction false} IndexedNodes(elements: seq<Element>)
    ensures forall k :: k in Indexed(elements) <==>
      exists i :: 0 <= i < |elements| && elements[i].NodeElement? && elements[i].id == k
    ensures forall k :: k in Indexed(elements) ==>
      exists i :: (0 <= i < |elements| && elements[i] == NodeElement(k, Indexed(elements)[k].lat, Indexed(elements)[k].lon)
        && forall j :: i < j < |elements| ==> !(elements[j].NodeElement? && elements[j].id == k))
    ensures forall k :: k in Indexed(elements) ==> Indexed(elements)[k].id == k && Indexed(elements)[k].neighbors == []
  {
    if elements != [] {
      var init := elements[..|elements| - 1];
      IndexedNodes(init);
      var el := elements[|elements| - 1];
      forall k ensures k in Indexed(elements) <==>
        exists i :: 0 <= i < |elements| && elements[i].NodeElement? && elements[i].id == k
      {
        if k in Indexed(elements) && !(el.NodeElement? && el.id == k) {
          assert k in Indexed(init);
          var i :| 0 <= i < |init| && init[i].NodeElement? && init[i].id == k;
          assert elements[i] == init[i];
        }
        if exists i :: 0 <= i < |elements| && elements[i].NodeElement? && elements[i].id == k {
          var i :| 0 <= i < |elements| && elements[i].NodeElement? && elements[i].id == k;
          if i < |init| {
            assert init[i] == elements[i];
          }
        }
      }
      forall k | k in Indexed(elements)
        ensures exists i :: (0 <= i < |elements| && elements[i] == NodeElement(k, Indexed(elements)[k].lat, Indexed(elements)[k].lon)
          && forall j :: i < j < |elements| ==> !(elements[j].NodeElement? && elements[j].id == k))
      {
        if el.NodeElement? && el.id == k {
          assert elements[|elements| - 1] == NodeElement(k, Indexed(elements)[k].lat, Indexed(elements)[k].lon);
        } else {
          var i :| 0 <= i < |init| && init[i] == NodeElement(k, Indexed(init)[k].lat, Indexed(init)[k].lon)
            && forall j :: i < j < |init| ==> !(init[j].NodeElement? && init[j].id == k);
          assert elements[i] == init[i];
          forall j | i < j < |elements| ensures !(elements[j].NodeElement? && elements[j].id == k) {
            if j < |init| {
              assert elements[j] == init[j];
            }
          }
        }
      }
    }
  }

  lemma IndexedWellFormed(elements: seq<Element>)
    ensures WellFormed(Indexed(elements))
  {
    IndexedNodes(elements);
  }

  /**
   * The built graph: its keys are exactly the ids of the node elements,
   * each entry keeps the id and position of the last such element, every
   * neighbour references a key of the graph with that node's position,
   * every entry has its reverse entry with the same cost and distance, and
   * every cost lies between 0.8 and 1.8 times a non-negative distance.
   */
  lemma BuiltWellFormed(elements: seq<Element>, distance: Distance)
    requires NonNegativeDistance(distance)
    ensures WellFormed(Built(elements, distance))
    ensures Extends(Indexed(elements), Built(elements, distance))
    ensures forall k :: k in Built(elements, distance) <==>
      exists i :: 0 <= i < |elements| && elements[i].NodeElement? && elements[i].id == k
  {
    IndexedWellFormed(elements);
    IndexedNodes(elements);
    AddWaysWellFormed(Indexed(elements), WaysOf(elements), distance);
  }

  /** Node `k` of `h` holds the neighbour entry `n`. */
  ghost predicate Has(h: NodeMap, k: int, n: Neighbor) {
    k in h && n in h[k].neighbors
  }

  /** Entries already present stay present through later pairs and ways. */
  lemma EntryKept(g: NodeMap, h: NodeMap, k: int, n: Neighbor)
    requires Extends(g, h) && Has(g, k, n)
    ensures Has(h, k, n)
  {
    assert g[k].neighbors == h[k].neighbors[..|g[k].neighbors|];
  }

  /** The two entries an indexed pair `u`, `v` of `g` yields under multiplier `m`. */
  ghost predicate Linked(h: NodeMap, g: NodeMap, u: int, v: int, m: real, distance: Distance)
    requires u in g && v in g
  {
    Has(h, u, Forward(g, u, v, m, distance)) && Has(h, v, Backward(g, u, v, m, distance))
  }

  /** Adding neighbours changes neither entry a later pair of the same nodes yields. */
  lemma EntriesStable(g: NodeMap, h: NodeMap, u: int, v: int, m: real, distance: Distance)
    requires Extends(g, h) && u in g && v in g
    ensures Forward(h, u, v, m, distance) == Forward(g, u, v, m, distance)
    ensures Backward(h, u, v, m, distance) == Backward(g, u, v, m, distance)
  {
    assert Point(h[u]) == Point(g[u]) && Point(h[v]) == Point(g[v]);
  }

  lemma LinkedKept(g: NodeMap, h1: NodeMap, h2: NodeMap, u: int, v: int, m: real, distance: Distance)
    requires u in g && v in g && Linked(h1, g, u, v, m, distance) && Extends(h1, h2)
    ensures Linked(h2, g, u, v, m, distance)
  {
    EntryKept(h1, h2, u, Forward(g, u, v, m, distance));
    EntryKept(h1, h2, v, Backward(g, u, v, m, distance));
  }

  /** Pair `i` of a passable way links both of its indexed nodes, in both directions, at cost = distance × multiplier. */
  lemma {:induction false} AddPairsLinks(g: NodeMap, ids: seq<int>, m: real, n: nat, i: nat, distance: Distance)
    requires n <= PairCount(ids) && i < n
    requires ids[i] in g && ids[i + 1] in g
    ensures Linked(AddPairs(g, ids, m, n, distance), g, ids[i], ids[i + 1], m, distance)
  {
    var g1 := AddPairs(g, ids, m, n - 1, distance);
    var h := AddPairs(g, ids, m, n, distance);
    assert h == AddPair(g1, ids[n - 1], ids[n], m, distance);
    AddPairsExtend(g, ids, m, n - 1, distance);
    if i == n - 1 {
      AddPairLinks(g1, ids[i], ids[i + 1], m, distance);
      EntriesStable(g, g1, ids[i], ids[i + 1], m, distance);
    } else {
      AddPairsLinks(g, ids, m, n - 1, i, distance);
      AddPairExtends(g1, ids[n - 1], ids[n], m, distance);
      LinkedKept(g, g1, h, ids[i], ids[i + 1], m, distance);
    }
  }

  lemma {:induction false} AddPairsExtend(g: NodeMap, ids: seq<int>, m: real, n: nat, distance: Distance)
    requires n <= PairCount(ids)
    ensures Extends(g, AddPairs(g, ids, m, n, distance))
  {
    if n > 0 {
      AddPairsExtend(g, ids, m, n - 1, distance);
      var g1 := AddPairs(g, ids, m, n - 1, distance);
      AddPairExtends(g1, ids[n - 1], ids[n], m, distance);
      ExtendsTransitive(g, g1, AddPairs(g, ids, m, n, distance));
    }
  }

  lemma {:induction false} AddWaysExtend(g: NodeMap, ways: seq<Way>, distance: Distance)
    ensures Extends(g, AddWays(g, ways, distance))
  {
    if ways != [] {
      AddWaysExtend(g, ways[..|ways| - 1], distance);
      var g1 := AddWays(g, ways[..|ways| - 1], distance);
      var w := ways[|ways| - 1];
      if Multiplier(w).Fin? {
        AddPairsExtend(g1, w.nodeIds, Multiplier(w).r, PairCount(w.nodeIds), distance);
        ExtendsTransitive(g, g1, AddWays(g, ways, distance));
      }
    }
  }

  /**
   * Every consecutive pair of indexed nodes on a passable way appears in the
   * graph the ways build as `u → v` and `v → u`, both with the distance
   * between the two nodes and the cost distance × multiplier.
   */
  lemma {:induction false} WayPairsLinked(g: NodeMap, ways: seq<Way>, w: nat, i: nat, distance: Distance)
    requires w < |ways| && Multiplier(ways[w]).Fin? && i + 1 < |ways[w].nodeIds|
    requires ways[w].nodeIds[i] in g && ways[w].nodeIds[i + 1] in g
    ensures Linked(AddWays(g, ways, distance), g, ways[w].nodeIds[i], ways[w].nodeIds[i + 1], Multiplier(ways[w]).r, distance)
  {
    var ids := ways[w].nodeIds;
    var m := Multiplier(ways[w]).r;
    var init := ways[..|ways| - 1];
    var g1 := AddWays(g, init, distance);
    var h := AddWays(g, ways, distance);
    var last := ways[|ways| - 1];
    assert h == AddWay(g1, last, distance);
    if w == |ways| - 1 {
      AddWaysExtend(g, init, distance);
      assert g1.Keys == g.Keys;
      AddPairsLinks(g1, ids, m, PairCount(ids), i, distance);
      EntriesStable(g, g1, ids[i], ids[i + 1], m, distance);
    } else {
      assert init[w] == ways[w];
      WayPairsLinked(g, init, w, i, distance);
      if Multiplier(last).Fin? {
        AddPairsExtend(g1, last.nodeIds, Multiplier(last).r, PairCount(last.nodeIds), distance);
        LinkedKept(g, g1, h, ids[i], ids[i + 1], m, distance);
      }
    }
  }

  /** The ways that are not impassable. */
  function Passable(ways: seq<Way>): (r: seq<Way>)
    ensures forall i :: 0 <= i < |r| ==> Multiplier(r[i]).Fin?
  {
    if ways == [] then []
    else if Multiplier(ways[|ways| - 1]).Inf? then Passable(ways[..|ways| - 1])
    else Passable(ways[..|ways| - 1]) + [ways[|ways| - 1]]
  }

  /** Impassable ways contribute nothing: dropping them all leaves the graph unchanged. */
  lemma {:induction false} ImpassableWaysIgnored(g: NodeMap, ways: seq<Way>, distance: Distance)
    ensures AddWays(g, ways, distance) == AddWays(g, Passable(ways), distance)
  {
    if ways != [] {
      var init := ways[..|ways| - 1];
      ImpassableWaysIgnored(g, init, distance);
      var w := ways[|ways| - 1];
      if Multiplier(w).Fin? {
        var p := Passable(init) + [w];
        assert p[..|p| - 1] == Passable(init);
      }
    }
  }

  // ------------------------------------------------------------ the search area

  /** The padding around the two endpoints, about 500 m. */
  const Margin: real := 0.005

  datatype BBox = BBox(minLat: real, minLon: real, maxLat: real, maxLon: real)

  function Min(a: real, b: real): real {
    if a <= b then a else b
  }

  function Max(a: real, b: real): real {
    if a >= b then a else b
  }

  /** The box `fetchGraphForArea` queries: the extent of the two points padded by the margin on every side. */
  function SearchArea(start: LatLon, end: LatLon): (b: BBox)
    ensures b.minLat < b.maxLat && b.minLon < b.maxLon
    ensures b.minLat + Margin <= start.lat <= b.maxLat - Margin && b.minLat + Margin <= end.lat <= b.maxLat - Margin
    ensures b.minLon + Margin <= start.lon <= b.maxLon - Margin && b.minLon + Margin <= end.lon <= b.maxLon - Margin
    ensures b.minLat + Margin == start.lat || b.minLat + Margin == end.lat
    ensures b.maxLat - Margin == start.lat || b.maxLat - Margin == end.lat
    ensures b.minLon + Margin == start.lon || b.minLon + Margin == end.lon
    ensures b.maxLon - Margin == start.lon || b.maxLon - Margin == end.lon
  {
    BBox(Min(start.lat, end.lat) - Margin, Min(start.lon, end.lon) - Margin,
         Max(start.lat, end.lat) + Margin, Max(start.lon, end.lon) + Margin)
  }
}
