/**
 * The walking router's entry point: build the graph from the processed
 * segments, snap the requested start and end to the nearest graph nodes,
 * run the search, and wrap the route (or its absence) with the snapping
 * details.
 */
module WalkRoute {
  import opened Common
  import opened Paths
  import opened WalkGraph
  import opened WalkSearch

  /** The best node seen so far while scanning the positions: its key (`null` before any) and distance. */
  datatype Best = Best(key: Option<string>, distance: ExtReal)

  /** `findNearestNode`'s result: the key, its distance, and its position (`undefined` when there is no key). */
  datatype NearestNode = NearestNode(key: Option<string>, distance: ExtReal, coord: Option<LatLon>)

  /** Every key of the order has a position. */
  ghost predicate Positioned(nodePositions: map<string, LatLon>, order: seq<string>) {
    forall i :: 0 <= i < |order| ==> order[i] in nodePositions
  }

  /** The insertion order of a graph lists keys with positions. */
  lemma OrderPositioned(g: GraphValue)
    requires OrderListsPositions(g)
    ensures Positioned(g.nodePositions, g.nodeOrder)
  {
    forall i | 0 <= i < |g.nodeOrder| ensures g.nodeOrder[i] in g.nodePositions {
      assert g.nodeOrder[i] in g.nodeOrder;
    }
  }

  /**
   * The scan of the position entries in insertion order: a key replaces the
   * best one only when it is strictly closer, so ties keep the earlier key.
   * (A key without a position cannot occur in a graph's order, see
   * `OrderPositioned`; it is passed over.)
   */
  function NearestOf(coord: LatLon, nodePositions: map<string, LatLon>, order: seq<string>,
                     haversine: (LatLon, LatLon) -> real): Best
  {
    if order == [] then Best(None, Inf)
    else
      var b := NearestOf(coord, nodePositions, order[..|order| - 1], haversine);
      var k := order[|order| - 1];
      if k !in nodePositions then b
      else
        var d := haversine(coord, nodePositions[k]);
        if Fin(d).Less(b.distance) then Best(Some(k), Fin(d)) else b
  }

  /**
   * A key is found exactly when there are positions to scan; it is one of
   * them, at the distance it reports, and no position is strictly closer.
   */
  lemma {:induction false} NearestIsMinimum(coord: LatLon, nodePositions: map<string, LatLon>, order: seq<string>,
                                            haversine: (LatLon, LatLon) -> real)
    requires Positioned(nodePositions, order)
    ensures var b := NearestOf(coord, nodePositions, order, haversine);
      && (b.key.None? <==> order == [])
      && (b.key.None? ==> b.distance == Inf)
      && (b.key.Some? ==> b.key.value in order && b.distance == Fin(haversine(coord, nodePositions[b.key.value])))
      && forall i :: 0 <= i < |order| ==> b.distance.AtMost(Fin(haversine(coord, nodePositions[order[i]])))
    decreases |order|
  {
    if order != [] {
      var init := order[..|order| - 1];
      NearestIsMinimum(coord, nodePositions, init, haversine);
      var b := NearestOf(coord, nodePositions, init, haversine);
      var k := order[|order| - 1];
      var d := Fin(haversine(coord, nodePositions[k]));
      forall i | 0 <= i < |order|
        ensures NearestOf(coord, nodePositions, order, haversine).distance.AtMost(Fin(haversine(coord, nodePositions[order[i]])))
      {
        if i < |init| {
          assert order[i] == init[i];
          if d.Less(b.distance) {
            LessIsStrictOrder(d, b.distance, Fin(haversine(coord, nodePositions[order[i]])));
          }
        }
      }
    }
  }

  /** Among equally near positions the first in insertion order wins: every earlier one is strictly farther. */
  lemma {:induction false} NearestIsFirst(coord: LatLon, nodePositions: map<string, LatLon>, order: seq<string>,
                                          haversine: (LatLon, LatLon) -> real)
    requires Positioned(nodePositions, order)
    ensures var b := NearestOf(coord, nodePositions, order, haversine);
      b.key.Some? ==> (exists i :: 0 <= i < |order| && order[i] == b.key.value
                         && forall j :: 0 <= j < i ==> b.distance.Less(Fin(haversine(coord, nodePositions[order[j]]))))
    decreases |order|
  {
    if order != [] {
      var init := order[..|order| - 1];
      NearestIsFirst(coord, nodePositions, init, haversine);
      NearestIsMinimum(coord, nodePositions, init, haversine);
      var b := NearestOf(coord, nodePositions, init, haversine);
      var k := order[|order| - 1];
      var d := Fin(haversine(coord, nodePositions[k]));
      if d.Less(b.distance) {
        var i := |order| - 1;
        forall j | 0 <= j < i ensures d.Less(Fin(haversine(coord, nodePositions[order[j]]))) {
          assert order[j] == init[j];
          LessIsStrictOrder(d, b.distance, Fin(haversine(coord, nodePositions[order[j]])));
        }
      } else if b.key.Some? {
        var i :| 0 <= i < |init| && init[i] == b.key.value
          && forall j :: 0 <= j < i ==> b.distance.Less(Fin(haversine(coord, nodePositions[init[j]])));
        assert order[i] == init[i];
        forall j | 0 <= j < i ensures b.distance.Less(Fin(haversine(coord, nodePositions[order[j]]))) {
          assert order[j] == init[j];
        }
      }
    }
  }

  /**
   * `findNearestNode(coord, graph.nodePositions)`: one pass over the
   * position entries in insertion order, keeping the strictly closest.
   */
  method FindNearestNode(coord: LatLon, graph: WalkingGraph, haversine: (LatLon, LatLon) -> real)
    returns (n: NearestNode)
    requires Positioned(graph.nodePositions, graph.nodeOrder)
    ensures var b := NearestOf(coord, graph.nodePositions, graph.nodeOrder, haversine);
      n.key == b.key && n.distance == b.distance
    ensures n.coord.Some? <==> n.key.Some?
    ensures n.key.Some? ==> n.key.value in graph.nodePositions && n.coord.value == graph.nodePositions[n.key.value]
  {
    var nearestKey: Option<string> := None;
    var minDist := Inf;
    for i := 0 to |graph.nodeOrder|
      invariant Best(nearestKey, minDist) == NearestOf(coord, graph.nodePositions, graph.nodeOrder[..i], haversine)
      invariant nearestKey.Some? ==> nearestKey.value in graph.nodePositions
    {
      var key := graph.nodeOrder[i];
      var dist := haversine(coord, graph.nodePositions[key]);
      assert graph.nodeOrder[..i + 1][..i] == graph.nodeOrder[..i];
      if Fin(dist).Less(minDist) {
        minDist := Fin(dist);
        nearestKey := Some(key);
      }
    }
    assert graph.nodeOrder[..|graph.nodeOrder|] == graph.nodeOrder;
    var position := if nearestKey.Some? then Some(graph.nodePositions[nearestKey.value]) else None;
    n := NearestNode(nearestKey, minDist, position);
  }

  // ------------------------------------------------------------ the entry point

  /** A snapped end of the route: the nearest node, the requested point, and (on success) the snapping offset. */
  datatype Endpoint = Endpoint(nearest: NearestNode, requested: LatLon, offset: Option<real>)

  /** `findAccessibleWalkingRoute`'s outcomes; `Unprojectable` is the thrown error. */
  datatype WalkingResult =
    | Unprojectable
    | NoPathFound(start: Endpoint, end: Endpoint)
    | RouteFound(start: Endpoint, end: Endpoint, path: seq<Option<LatLon>>, segments: seq<SegmentMeta>,
                 polyline: seq<LatLon>, metrics: Metrics, startDistanceToNetwork: real, endDistanceToNetwork: real)

  /** A key the source treats as truthy: present and not the empty string. */
  predicate Snapped(key: Option<string>) {
    key.Some? && key.value != ""
  }

  /**
   * `findAccessibleWalkingRoute` over already loaded segments. It fails
   * exactly when either end cannot be snapped (no node at all, or a
   * nearest key that is the empty string), reports no path exactly when
   * the snapped end is unreachable from the snapped start, and otherwise
   * returns the route between them with the requested points added to both
   * ends of the polyline. The route's node keys `keys` and edges `edges`
   * form a walk of the graph from the snapped start to the snapped end
   * (when the empty string is not a node key), costing no more than the
   * reported total cost.
   */
  method FindAccessibleWalkingRoute(segments: seq<WalkSegment>, startLatLon: LatLon, endLatLon: LatLon,
                                    options: GraphOptions, coordKey: LatLon -> string,
                                    haversine: (LatLon, LatLon) -> real)
    returns (r: WalkingResult, ghost keys: seq<string>, ghost edges: seq<Edge>)
    requires DistanceNonNegative(haversine)
    ensures var g := Built(segments, options, coordKey, haversine);
      var s := NearestOf(startLatLon, g.nodePositions, g.nodeOrder, haversine);
      var e := NearestOf(endLatLon, g.nodePositions, g.nodeOrder, haversine);
      && (r.Unprojectable? <==> !Snapped(s.key) || !Snapped(e.key))
      && (r.NoPathFound? ==> r.start.nearest.key == s.key && r.end.nearest.key == e.key)
      && (r.NoPathFound? <==> Snapped(s.key) && Snapped(e.key) && !Reachable(g.nodes, s.key.value, e.key.value))
      && (r.RouteFound? ==> r.start.nearest.key == s.key && r.end.nearest.key == e.key)
    ensures r.RouteFound? ==>
      && r.start.nearest.coord.Some? && r.end.nearest.coord.Some?
      && r.polyline == [startLatLon] + Polyline(r.segments) + [endLatLon]
      && r.start.offset == Some(haversine(startLatLon, r.start.nearest.coord.value))
      && r.end.offset == Some(haversine(endLatLon, r.end.nearest.coord.value))
      && r.startDistanceToNetwork == r.start.offset.value && r.endDistanceToNetwork == r.end.offset.value
      && r.metrics.totalDistance == TotalDistance(r.segments) && r.metrics.accessibleRatio == AccessibleRatio(r.segments)
      && r.metrics.averageScore == AverageScore(r.segments)
    ensures var g := Built(segments, options, coordKey, haversine);
      r.RouteFound? ==>
        && keys != [] && keys[0] == r.start.nearest.key.value && r.path == Positions(g.nodePositions, keys)
        && ("" !in g.nodes ==>
              && Walk(g.nodes, keys, r.segments, edges) && keys[|keys| - 1] == r.end.nearest.key.value
              && TotalWeight(edges) <= r.metrics.totalCost)
  {
    var graph := BuildGraph(segments, options, coordKey, haversine);
    BuiltOrder(segments, options, coordKey, haversine);
    BuiltIsClosed(segments, options, coordKey, haversine);
    ArcsNonNegative(graph.Value());
    OrderPositioned(graph.Value());
    var start := FindNearestNode(startLatLon, graph, haversine);
    var end := FindNearestNode(endLatLon, graph, haversine);
    if !Snapped(start.key) || !Snapped(end.key) {
      return Unprojectable, [], [];
    }
    var result;
    result, keys, edges := Dijkstra(graph, start.key.value, end.key.value);
    if result.None? {
      return NoPathFound(Endpoint(start, startLatLon, None), Endpoint(end, endLatLon, None)), keys, edges;
    }
    var route := result.value;
    var startOffset := haversine(startLatLon, start.coord.value);
    var endOffset := haversine(endLatLon, end.coord.value);
    r := RouteFound(Endpoint(start, startLatLon, Some(startOffset)), Endpoint(end, endLatLon, Some(endOffset)),
                    route.path, route.segments, [startLatLon] + route.polyline + [endLatLon],
                    route.metrics, startOffset, endOffset);
  }
}
