/**
 * The walking router's cost model and graph builder: every scored sidewalk
 * segment with a usable line geometry becomes one edge from its first to its
 * last coordinate and one edge back, weighted by length, penalty and a
 * passability multiplier. Nodes are the segment endpoints only, named by a
 * coordinate key function.
 */
module WalkGraph {
  import opened Common

  /** The `attributes` of a processed segment record; `None` where the member is absent or null. */
  datatype SegmentAttributes = SegmentAttributes(
    accessibilityScore: Option<real>,
    isWheelchairPassable: Option<bool>,
    confidence: Option<string>,
    issues: Option<seq<string>>)

  /** A processed segment record as the router loads it. */
  datatype WalkSegment = WalkSegment(segmentId: Option<TagValue>, geometry: Option<Geometry>,
                                     attributes: Option<SegmentAttributes>)

  /**
   * `buildGraph`'s options; only `limitedThreshold` is ever read. Its
   * destructuring default applies when it is missing, not when it is `null`.
   */
  datatype GraphOptions = GraphOptions(limitedThreshold: Arg<real>)

  datatype Direction = Forward | Reverse

  /** The segment record an edge carries. */
  datatype SegmentMeta = SegmentMeta(
    id: Option<TagValue>, score: real, accessible: bool, confidence: string, issues: seq<string>,
    weight: real, length: real, path: seq<LatLon>, direction: Direction)

  /** An adjacency-list entry: the key and position reached, the cost, the length, the segment. */
  datatype Edge = Edge(to: string, toCoord: LatLon, weight: real, distance: real, segment: SegmentMeta)

  /**
   * The graph as a value: adjacency lists, the position of every node key,
   * and the keys in the order they were first inserted (the iteration order
   * of the position map).
   */
  datatype GraphValue = GraphValue(nodes: map<string, seq<Edge>>, nodePositions: map<string, LatLon>,
                                   nodeOrder: seq<string>)

  // ------------------------------------------------------------ coordinates

  /** `toLatLon`: a GeoJSON `[lon, lat]` position in `[lat, lon]` order. */
  function ToLatLon(c: LonLat): (p: LatLon)
    ensures LonLat(p.lon, p.lat) == c
  {
    LatLon(c.lat, c.lon)
  }

  function PathLatLon(coords: seq<LonLat>): (pts: seq<LatLon>)
    ensures |pts| == |coords| && forall i :: 0 <= i < |coords| ==> pts[i] == ToLatLon(coords[i])
  {
    seq(|coords|, i requires 0 <= i < |coords| => ToLatLon(coords[i]))
  }

  /** The points in the opposite order (`slice().reverse()`). */
  function Reversed<T>(s: seq<T>): (r: seq<T>)
    ensures |r| == |s| && forall i :: 0 <= i < |s| ==> r[i] == s[|s| - 1 - i]
  {
    if s == [] then [] else Reversed(s[1..]) + [s[0]]
  }

  /** The length of a polyline: the distances between consecutive points, summed left to right. */
  function PathLength(pts: seq<LatLon>, haversine: (LatLon, LatLon) -> real): real {
    if |pts| < 2 then 0.0 else PathLength(pts[..|pts| - 1], haversine) + haversine(pts[|pts| - 2], pts[|pts| - 1])
  }

  ghost predicate DistanceNonNegative(haversine: (LatLon, LatLon) -> real) {
    forall a, b :: haversine(a, b) >= 0.0
  }

  lemma {:induction false} PathLengthNonNegative(pts: seq<LatLon>, haversine: (LatLon, LatLon) -> real)
    requires DistanceNonNegative(haversine)
    ensures PathLength(pts, haversine) >= 0.0
    decreases |pts|
  {
    if |pts| >= 2 {
      PathLengthNonNegative(pts[..|pts| - 1], haversine);
    }
  }

  /** `computeSegmentLengthMeters`: the polyline length of the converted coordinates. */
  method SegmentLengthMeters(coords: seq<LonLat>, haversine: (LatLon, LatLon) -> real) returns (length: real)
    ensures length == PathLength(PathLatLon(coords), haversine)
  {
    length := 0.0;
    ghost var pts := PathLatLon(coords);
    var i := 1;
    while i < |coords|
      invariant 1 <= i && (|coords| > 0 ==> i <= |coords|)
      invariant length == PathLength(pts[..if |coords| == 0 then 0 else i], haversine)
    {
      var prev := ToLatLon(coords[i - 1]);
      var cur := ToLatLon(coords[i]);
      length := length + haversine(prev, cur);
      assert pts[..i + 1][..i] == pts[..i];
      i := i + 1;
    }
    if |coords| > 0 {
      assert pts[..i] == pts;
    }
  }

  // ------------------------------------------------------------ penalties

  function AttributesOf(s: WalkSegment): SegmentAttributes {
    if s.attributes.Some? then s.attributes.value else SegmentAttributes(None, None, None, None)
  }

  /** `accessibility_score ?? 0.5`. */
  function ScoreOf(a: SegmentAttributes): real {
    if a.accessibilityScore.Some? then a.accessibilityScore.value else 0.5
  }

  /** `issues || []`. */
  function IssuesOf(a: SegmentAttributes): seq<string> {
    if a.issues.Some? then a.issues.value else []
  }

  /** The confidence surcharge: 0.35 for `low`, 0.15 for `medium`, nothing otherwise. */
  function ConfidenceSurcharge(confidence: Option<string>): (c: real)
    ensures c == 0.35 <==> confidence == Some("low")
    ensures c == 0.15 <==> confidence == Some("medium")
    ensures c == 0.0 <==> confidence != Some("low") && confidence != Some("medium")
  {
    if confidence == Some("low") then 0.35
    else if confidence == Some("medium") then 0.15
    else 0.0
  }

  /** The issue penalty table; an issue code it does not list costs nothing. */
  function IssuePenalty(issue: string): (p: real)
    ensures p >= 0.0
    ensures p > 0.0 <==> issue in {"kerb_high", "surface_gravel", "surface_cobblestone", "narrow_width", "steep_incline"}
  {
    if issue == "kerb_high" then 0.3
    else if issue == "surface_gravel" then 0.25
    else if issue == "surface_cobblestone" then 0.3
    else if issue == "narrow_width" then 0.2
    else if issue == "steep_incline" then 0.35
    else 0.0
  }

  function IssuesPenalty(issues: seq<string>): real {
    if issues == [] then 0.0 else IssuesPenalty(issues[..|issues| - 1]) + IssuePenalty(issues[|issues| - 1])
  }

  /** The segment penalty: the missing score, the confidence surcharge, and the listed issues. */
  function Penalty(a: SegmentAttributes): real {
    (if 1.0 - ScoreOf(a) > 0.0 then 1.0 - ScoreOf(a) else 0.0) + ConfidenceSurcharge(a.confidence) + IssuesPenalty(IssuesOf(a))
  }

  lemma {:induction false} IssuesPenaltyNonNegative(issues: seq<string>)
    ensures IssuesPenalty(issues) >= 0.0
    decreases |issues|
  {
    if issues != [] {
      IssuesPenaltyNonNegative(issues[..|issues| - 1]);
    }
  }

  /** The penalty is never negative, whatever the score and issues. */
  lemma PenaltyNonNegative(a: SegmentAttributes)
    ensures Penalty(a) >= 0.0
  {
    IssuesPenaltyNonNegative(IssuesOf(a));
  }

  /** An issue code outside the table leaves the penalty unchanged. */
  lemma UnknownIssueCostsNothing(issues: seq<string>, issue: string)
    requires issue !in {"kerb_high", "surface_gravel", "surface_cobblestone", "narrow_width", "steep_incline"}
    ensures IssuesPenalty(issues + [issue]) == IssuesPenalty(issues)
  {
    assert (issues + [issue])[..|issues|] == issues;
  }

  /** `computePenalty`: starts from the missing score and adds each surcharge in turn. */
  method ComputePenalty(attributes: SegmentAttributes) returns (penalty: real)
    ensures penalty == Penalty(attributes)
  {
    var score := ScoreOf(attributes);
    penalty := if 1.0 - score > 0.0 then 1.0 - score else 0.0;
    var issues := IssuesOf(attributes);
    if attributes.confidence == Some("low") {
      penalty := penalty + 0.35;
    } else if attributes.confidence == Some("medium") {
      penalty := penalty + 0.15;
    }
    ghost var base := penalty;
    for i := 0 to |issues|
      invariant penalty == base + IssuesPenalty(issues[..i])
    {
      assert issues[..i + 1][..i] == issues[..i];
      var p := IssuePenalty(issues[i]);
      if p != 0.0 {
        penalty := penalty + p;
      }
    }
    assert issues[..|issues|] == issues;
  }

  /** 1 for a passable segment; otherwise 10 below the limited threshold and 2.5 at or above it. */
  function Multiplier(accessible: bool, score: real, threshold: real): real {
    if accessible then 1.0 else if score < threshold then 10.0 else 2.5
  }

  lemma MultiplierCases(accessible: bool, score: real, threshold: real)
    ensures Multiplier(accessible, score, threshold) >= 1.0
    ensures accessible <==> Multiplier(accessible, score, threshold) == 1.0
    ensures Multiplier(accessible, score, threshold) == 10.0 <==> !accessible && score < threshold
    ensures Multiplier(accessible, score, threshold) == 2.5 <==> !accessible && score >= threshold
  {
  }

  /** `length * (1 + penalty) * multiplier`. */
  function Weight(length: real, penalty: real, multiplier: real): real {
    length * (1.0 + penalty) * multiplier
  }

  /** With a non-negative penalty and a multiplier of at least 1 an edge costs at least its length. */
  lemma WeightAtLeastLength(length: real, penalty: real, multiplier: real)
    requires length >= 0.0 && penalty >= 0.0 && multiplier >= 1.0
    ensures Weight(length, penalty, multiplier) >= length >= 0.0
  {
    var f := 1.0 + penalty;
    assert length * f >= length * 1.0 by {
      assert length * (f - 1.0) >= 0.0;
    }
    assert length * f * multiplier >= length * f * 1.0 by {
      assert length * f * (multiplier - 1.0) >= 0.0;
    }
  }

  // ------------------------------------------------------------ the graph

  /** A segment the builder uses: a `LineString` with an array of at least two positions. */
  predicate Accepted(s: WalkSegment) {
    && s.geometry.Some? && s.geometry.value.kind == "LineString"
    && s.geometry.value.coordinates.Some? && |s.geometry.value.coordinates.value| >= 2
  }

  /**
   * The number `score < limitedThreshold` compares against: 0.5 when the
   * option is missing, and 0 when it is `null`, which `<` converts to 0.
   */
  function Threshold(options: GraphOptions): (t: real)
    ensures options.limitedThreshold.Undefined? ==> t == 0.5
    ensures options.limitedThreshold.Null? ==> t == 0.0
    ensures options.limitedThreshold.Given? ==> t == options.limitedThreshold.value
  {
    match options.limitedThreshold
    case Undefined => 0.5
    case Null => 0.0
    case Given(t) => t
  }

  /**
   * With a `null` threshold no segment of non-negative score counts as below
   * it: every such segment that is not passable costs 2.5 times, not 10.
   */
  lemma NullThresholdIsLimited(accessible: bool, score: real)
    requires !accessible && score >= 0.0
    ensures Multiplier(accessible, score, Threshold(GraphOptions(Null))) == 2.5
    ensures score < 0.5 ==> Multiplier(accessible, score, Threshold(GraphOptions(Undefined))) == 10.0
  {
  }

  /** The edge record shared by both directions of an accepted segment, before its path is set. */
  function BaseMeta(s: WalkSegment, options: GraphOptions, haversine: (LatLon, LatLon) -> real): (m: SegmentMeta)
    requires Accepted(s)
  {
    var a := AttributesOf(s);
    var accessible := a.isWheelchairPassable == Some(true);
    var length := PathLength(PathLatLon(s.geometry.value.coordinates.value), haversine);
    var weight := Weight(length, Penalty(a), Multiplier(accessible, ScoreOf(a), Threshold(options)));
    SegmentMeta(if Present(s.segmentId) then s.segmentId else None, ScoreOf(a), accessible,
                if a.confidence.Some? && a.confidence.value != "" then a.confidence.value else "low",
                IssuesOf(a), weight, length, [], Forward)
  }

  /** `addEdge` on values: the source node is created with its position on first use, the edge appended. */
  function WithEdge(g: GraphValue, fromCoord: LatLon, toCoord: LatLon, segment: SegmentMeta,
                    weight: real, distance: real, coordKey: LatLon -> string): GraphValue
  {
    var key := coordKey(fromCoord);
    var edge := Edge(coordKey(toCoord), toCoord, weight, distance, segment);
    if key in g.nodes then GraphValue(g.nodes[key := g.nodes[key] + [edge]], g.nodePositions, g.nodeOrder)
    else GraphValue(g.nodes[key := [edge]], g.nodePositions[key := fromCoord], g.nodeOrder + [key])
  }

  /** The two edges of an accepted segment: first to last coordinate, and back along the reversed path. */
  function ForwardEdge(s: WalkSegment, options: GraphOptions, coordKey: LatLon -> string,
                       haversine: (LatLon, LatLon) -> real): Edge
    requires Accepted(s)
  {
    var pts := PathLatLon(s.geometry.value.coordinates.value);
    var m := BaseMeta(s, options, haversine);
    Edge(coordKey(pts[|pts| - 1]), pts[|pts| - 1], m.weight, m.length, m.(path := pts, direction := Forward))
  }

  function ReverseEdge(s: WalkSegment, options: GraphOptions, coordKey: LatLon -> string,
                       haversine: (LatLon, LatLon) -> real): Edge
    requires Accepted(s)
  {
    var pts := PathLatLon(s.geometry.value.coordinates.value);
    var m := BaseMeta(s, options, haversine);
    Edge(coordKey(pts[0]), pts[0], m.weight, m.length, m.(path := Reversed(pts), direction := Reverse))
  }

  /** One iteration of `segments.forEach` in `buildGraph`. */
  function WithSegment(g: GraphValue, s: WalkSegment, options: GraphOptions, coordKey: LatLon -> string,
                       haversine: (LatLon, LatLon) -> real): GraphValue
  {
    if !Accepted(s) then g
    else
      var pts := PathLatLon(s.geometry.value.coordinates.value);
      var fwd := ForwardEdge(s, options, coordKey, haversine);
      var rev := ReverseEdge(s, options, coordKey, haversine);
      var g1 := WithEdge(g, pts[0], pts[|pts| - 1], fwd.segment, fwd.weight, fwd.distance, coordKey);
      WithEdge(g1, pts[|pts| - 1], pts[0], rev.segment, rev.weight, rev.distance, coordKey)
  }

  /** `buildGraph` on values: the segments folded in order into an empty graph. */
  function Built(segments: seq<WalkSegment>, options: GraphOptions, coordKey: LatLon -> string,
                 haversine: (LatLon, LatLon) -> real): GraphValue
  {
    if segments == [] then GraphValue(map[], map[], [])
    else WithSegment(Built(segments[..|segments| - 1], options, coordKey, haversine),
                     segments[|segments| - 1], options, coordKey, haversine)
  }

  /** The adjacency list of `k`, empty when `k` is not a node yet. */
  function EdgesAt(g: GraphValue, k: string): seq<Edge> {
    if k in g.nodes then g.nodes[k] else []
  }

  /** `addEdge` creates the source node when missing and appends exactly one edge to its list. */
  lemma WithEdgeAppends(g: GraphValue, fromCoord: LatLon, toCoord: LatLon, segment: SegmentMeta,
                        weight: real, distance: real, coordKey: LatLon -> string)
    requires g.nodes.Keys == g.nodePositions.Keys
    ensures var g' := WithEdge(g, fromCoord, toCoord, segment, weight, distance, coordKey);
      && g'.nodes.Keys == g.nodes.Keys + {coordKey(fromCoord)}
      && g'.nodePositions.Keys == g'.nodes.Keys
      && forall k :: k in g'.nodes ==>
           g'.nodes[k] == EdgesAt(g, k) + (if k == coordKey(fromCoord) then [Edge(coordKey(toCoord), toCoord, weight, distance, segment)] else [])
  {
  }

  /** Two `addEdge` calls in a row, `a -> b` then `b -> a`. */
  lemma TwoEdgesAppend(g: GraphValue, a: LatLon, b: LatLon, fwd: Edge, rev: Edge, coordKey: LatLon -> string)
    requires g.nodes.Keys == g.nodePositions.Keys
    requires fwd == Edge(coordKey(b), b, fwd.weight, fwd.distance, fwd.segment)
    requires rev == Edge(coordKey(a), a, rev.weight, rev.distance, rev.segment)
    ensures var g' := WithEdge(WithEdge(g, a, b, fwd.segment, fwd.weight, fwd.distance, coordKey),
                               b, a, rev.segment, rev.weight, rev.distance, coordKey);
      && g'.nodes.Keys == g.nodes.Keys + {coordKey(a), coordKey(b)}
      && g'.nodePositions.Keys == g'.nodes.Keys
      && forall k :: k in g'.nodes ==>
           g'.nodes[k] == EdgesAt(g, k) + (if k == coordKey(a) then [fwd] else []) + (if k == coordKey(b) then [rev] else [])
  {
    var g1 := WithEdge(g, a, b, fwd.segment, fwd.weight, fwd.distance, coordKey);
    WithEdgeAppends(g, a, b, fwd.segment, fwd.weight, fwd.distance, coordKey);
    WithEdgeAppends(g1, b, a, rev.segment, rev.weight, rev.distance, coordKey);
  }

  /**
   * The two edges of an accepted segment: forward to the last point's key,
   * back to the first point's key, of equal weight and distance, the reverse
   * edge's path being the forward path reversed.
   */
  lemma SegmentEdgePair(s: WalkSegment, options: GraphOptions, coordKey: LatLon -> string,
                        haversine: (LatLon, LatLon) -> real)
    requires Accepted(s)
    ensures var pts := PathLatLon(s.geometry.value.coordinates.value);
      var fwd, rev := ForwardEdge(s, options, coordKey, haversine), ReverseEdge(s, options, coordKey, haversine);
      && fwd == Edge(coordKey(pts[|pts| - 1]), pts[|pts| - 1], fwd.weight, fwd.distance, fwd.segment)
      && rev == Edge(coordKey(pts[0]), pts[0], rev.weight, rev.distance, rev.segment)
      && fwd.weight == rev.weight && fwd.distance == rev.distance
      && fwd.segment.path == pts && rev.segment.path == Reversed(pts)
      && fwd.segment.direction == Forward && rev.segment.direction == Reverse
  {
  }

  /**
   * A skipped segment adds nothing; an accepted one adds exactly two edges,
   * the forward one appended at its first point's key and the reverse one at
   * its last point's key.
   */
  lemma SegmentAddsTwoEdges(g: GraphValue, s: WalkSegment, options: GraphOptions, coordKey: LatLon -> string,
                            haversine: (LatLon, LatLon) -> real)
    requires g.nodes.Keys == g.nodePositions.Keys
    ensures !Accepted(s) ==> WithSegment(g, s, options, coordKey, haversine) == g
    ensures Accepted(s) ==>
      var g' := WithSegment(g, s, options, coordKey, haversine);
      var pts := PathLatLon(s.geometry.value.coordinates.value);
      var f, t := coordKey(pts[0]), coordKey(pts[|pts| - 1]);
      var fwd, rev := ForwardEdge(s, options, coordKey, haversine), ReverseEdge(s, options, coordKey, haversine);
      && g'.nodes.Keys == g.nodes.Keys + {f, t}
      && g'.nodePositions.Keys == g'.nodes.Keys
      && (forall k :: k in g'.nodes ==>
            g'.nodes[k] == EdgesAt(g, k) + (if k == f then [fwd] else []) + (if k == t then [rev] else []))
  {
    if Accepted(s) {
      var pts := PathLatLon(s.geometry.value.coordinates.value);
      SegmentEdgePair(s, options, coordKey, haversine);
      TwoEdgesAppend(g, pts[0], pts[|pts| - 1], ForwardEdge(s, options, coordKey, haversine),
                     ReverseEdge(s, options, coordKey, haversine), coordKey);
    }
  }

  /** Every edge leads to a node that has a position, and exactly the nodes have positions. */
  ghost predicate Closed(g: GraphValue) {
    && g.nodes.Keys == g.nodePositions.Keys
    && forall k, i :: k in g.nodes && 0 <= i < |g.nodes[k]| ==> g.nodes[k][i].to in g.nodes
  }

  /** Every edge costs at least its (non-negative) length. */
  ghost predicate CostsAtLeastLength(g: GraphValue) {
    forall k, i :: k in g.nodes && 0 <= i < |g.nodes[k]| ==> g.nodes[k][i].weight >= g.nodes[k][i].distance >= 0.0
  }

  /** After appending the pair, every edge is an old edge or one of the two new ones. */
  lemma PairEdge(g: GraphValue, g': GraphValue, f: string, t: string, fwd: Edge, rev: Edge, k: string, i: int)
    requires k in g'.nodes && 0 <= i < |g'.nodes[k]|
    requires g'.nodes[k] == EdgesAt(g, k) + (if k == f then [fwd] else []) + (if k == t then [rev] else [])
    ensures || (k in g.nodes && i < |g.nodes[k]| && g'.nodes[k][i] == g.nodes[k][i])
            || g'.nodes[k][i] == fwd || g'.nodes[k][i] == rev
  {
    var old_ := EdgesAt(g, k);
    var added := (if k == f then [fwd] else []) + (if k == t then [rev] else []);
    assert g'.nodes[k] == old_ + added;
    if i >= |old_| {
      assert g'.nodes[k][i] == added[i - |old_|];
    }
  }

  /** Appending a pair of edges `f -> t` and `t -> f` that cost at least their length keeps both properties. */
  lemma AppendPairKeeps(g: GraphValue, g': GraphValue, f: string, t: string, fwd: Edge, rev: Edge)
    requires Closed(g) && CostsAtLeastLength(g)
    requires g'.nodes.Keys == g.nodes.Keys + {f, t} && g'.nodePositions.Keys == g'.nodes.Keys
    requires forall k :: k in g'.nodes ==>
               g'.nodes[k] == EdgesAt(g, k) + (if k == f then [fwd] else []) + (if k == t then [rev] else [])
    requires fwd.to == t && rev.to == f
    requires fwd.weight >= fwd.distance >= 0.0 && rev.weight >= rev.distance >= 0.0
    ensures Closed(g') && CostsAtLeastLength(g')
  {
    forall k, i | k in g'.nodes && 0 <= i < |g'.nodes[k]|
      ensures g'.nodes[k][i].to in g'.nodes && g'.nodes[k][i].weight >= g'.nodes[k][i].distance >= 0.0
    {
      PairEdge(g, g', f, t, fwd, rev, k, i);
    }
  }

  /** An accepted segment's two edges cost at least their non-negative length. */
  lemma SegmentEdgeCosts(s: WalkSegment, options: GraphOptions, coordKey: LatLon -> string,
                         haversine: (LatLon, LatLon) -> real)
    requires DistanceNonNegative(haversine) && Accepted(s)
    ensures var fwd := ForwardEdge(s, options, coordKey, haversine);
            fwd.weight >= fwd.distance >= 0.0
  {
    var a := AttributesOf(s);
    var m := Multiplier(a.isWheelchairPassable == Some(true), ScoreOf(a), Threshold(options));
    PathLengthNonNegative(PathLatLon(s.geometry.value.coordinates.value), haversine);
    PenaltyNonNegative(a);
    MultiplierCases(a.isWheelchairPassable == Some(true), ScoreOf(a), Threshold(options));
    WeightAtLeastLength(PathLength(PathLatLon(s.geometry.value.coordinates.value), haversine), Penalty(a), m);
  }

  /** Adding one segment keeps both properties. */
  lemma WithSegmentKeeps(g: GraphValue, s: WalkSegment, options: GraphOptions, coordKey: LatLon -> string,
                         haversine: (LatLon, LatLon) -> real)
    requires DistanceNonNegative(haversine) && Closed(g) && CostsAtLeastLength(g)
    ensures Closed(WithSegment(g, s, options, coordKey, haversine))
    ensures CostsAtLeastLength(WithSegment(g, s, options, coordKey, haversine))
  {
    SegmentAddsTwoEdges(g, s, options, coordKey, haversine);
    if Accepted(s) {
      var pts := PathLatLon(s.geometry.value.coordinates.value);
      SegmentEdgePair(s, options, coordKey, haversine);
      SegmentEdgeCosts(s, options, coordKey, haversine);
      AppendPairKeeps(g, WithSegment(g, s, options, coordKey, haversine), coordKey(pts[0]), coordKey(pts[|pts| - 1]),
                      ForwardEdge(s, options, coordKey, haversine), ReverseEdge(s, options, coordKey, haversine));
    }
  }

  /** The insertion order lists exactly the keys that have a position. */
  ghost predicate OrderListsPositions(g: GraphValue) {
    forall k :: k in g.nodePositions <==> k in g.nodeOrder
  }

  lemma WithEdgeKeepsOrder(g: GraphValue, fromCoord: LatLon, toCoord: LatLon, segment: SegmentMeta,
                           weight: real, distance: real, coordKey: LatLon -> string)
    requires g.nodes.Keys == g.nodePositions.Keys && OrderListsPositions(g)
    ensures OrderListsPositions(WithEdge(g, fromCoord, toCoord, segment, weight, distance, coordKey))
  {
  }

  lemma {:induction false} BuiltOrder(segments: seq<WalkSegment>, options: GraphOptions, coordKey: LatLon -> string,
                                      haversine: (LatLon, LatLon) -> real)
    ensures OrderListsPositions(Built(segments, options, coordKey, haversine))
    ensures Built(segments, options, coordKey, haversine).nodes.Keys == Built(segments, options, coordKey, haversine).nodePositions.Keys
    decreases |segments|
  {
    if segments != [] {
      var g := Built(segments[..|segments| - 1], options, coordKey, haversine);
      var s := segments[|segments| - 1];
      BuiltOrder(segments[..|segments| - 1], options, coordKey, haversine);
      SegmentAddsTwoEdges(g, s, options, coordKey, haversine);
      if Accepted(s) {
        var pts := PathLatLon(s.geometry.value.coordinates.value);
        var fwd, rev := ForwardEdge(s, options, coordKey, haversine), ReverseEdge(s, options, coordKey, haversine);
        var g1 := WithEdge(g, pts[0], pts[|pts| - 1], fwd.segment, fwd.weight, fwd.distance, coordKey);
        WithEdgeKeepsOrder(g, pts[0], pts[|pts| - 1], fwd.segment, fwd.weight, fwd.distance, coordKey);
        WithEdgeAppends(g, pts[0], pts[|pts| - 1], fwd.segment, fwd.weight, fwd.distance, coordKey);
        WithEdgeKeepsOrder(g1, pts[|pts| - 1], pts[0], rev.segment, rev.weight, rev.distance, coordKey);
      }
    }
  }

  /** Whatever the segments, the built graph is closed and every edge costs at least its length. */
  lemma {:induction false} BuiltIsClosed(segments: seq<WalkSegment>, options: GraphOptions, coordKey: LatLon -> string,
                                         haversine: (LatLon, LatLon) -> real)
    requires DistanceNonNegative(haversine)
    ensures Closed(Built(segments, options, coordKey, haversine))
    ensures CostsAtLeastLength(Built(segments, options, coordKey, haversine))
    decreases |segments|
  {
    if segments != [] {
      BuiltIsClosed(segments[..|segments| - 1], options, coordKey, haversine);
      WithSegmentKeeps(Built(segments[..|segments| - 1], options, coordKey, haversine),
                       segments[|segments| - 1], options, coordKey, haversine);
    }
  }

  /** The two maps `buildGraph` fills, with `addEdge` as the one operation that changes them. */
  class WalkingGraph {
    var nodes: map<string, seq<Edge>>
    var nodePositions: map<string, LatLon>
    var nodeOrder: seq<string>

    function Value(): GraphValue
      reads this
    {
      GraphValue(nodes, nodePositions, nodeOrder)
    }

    constructor()
      ensures Value() == GraphValue(map[], map[], [])
    {
      nodes := map[];
      nodePositions := map[];
      nodeOrder := [];
    }

    /** `addEdge`: a new source key gets an empty list and its position; the edge is appended. */
    method AddEdge(fromCoord: LatLon, toCoord: LatLon, segment: SegmentMeta, weight: real, distance: real,
                   coordKey: LatLon -> string)
      modifies this
      ensures Value() == WithEdge(old(Value()), fromCoord, toCoord, segment, weight, distance, coordKey)
    {
      var key := coordKey(fromCoord);
      var edge := Edge(coordKey(toCoord), toCoord, weight, distance, segment);
      if key !in nodes {
        nodes := nodes[key := []];
        nodePositions := nodePositions[key := fromCoord];
        nodeOrder := nodeOrder + [key];
      }
      nodes := nodes[key := nodes[key] + [edge]];
      assert [] + [edge] == [edge];
    }
  }

  /** The edge record `buildGraph` computes for an accepted segment: multiplier, length, penalty and weight. */
  method SegmentRecord(segment: WalkSegment, options: GraphOptions, haversine: (LatLon, LatLon) -> real)
    returns (base: SegmentMeta)
    requires Accepted(segment)
    ensures base == BaseMeta(segment, options, haversine)
  {
    var coords := segment.geometry.value.coordinates.value;
    var attributes := AttributesOf(segment);
    var accessible := attributes.isWheelchairPassable == Some(true);
    var score := ScoreOf(attributes);
    var penaltyMultiplier := 1.0;
    if !accessible {
      if score < Threshold(options) {
        penaltyMultiplier := 10.0;
      } else {
        penaltyMultiplier := 2.5;
      }
    }
    var lengthMeters := SegmentLengthMeters(coords, haversine);
    var penalty := ComputePenalty(attributes);
    var weight := Weight(lengthMeters, penalty, penaltyMultiplier);
    assert penaltyMultiplier == Multiplier(accessible, score, Threshold(options));
    base := SegmentMeta(if Present(segment.segmentId) then segment.segmentId else None, score, accessible,
                        if attributes.confidence.Some? && attributes.confidence.value != "" then attributes.confidence.value else "low",
                        IssuesOf(attributes), weight, lengthMeters, [], Forward);
  }

  /** The body of `buildGraph`'s `forEach`: a skipped segment changes nothing, an accepted one adds its two edges. */
  method AddSegment(graph: WalkingGraph, segment: WalkSegment, options: GraphOptions, coordKey: LatLon -> string,
                    haversine: (LatLon, LatLon) -> real)
    modifies graph
    ensures graph.Value() == WithSegment(old(graph.Value()), segment, options, coordKey, haversine)
  {
    if !Accepted(segment) {
      return;
    }
    var pathLatLon := PathLatLon(segment.geometry.value.coordinates.value);
    var base := SegmentRecord(segment, options, haversine);
    var start := pathLatLon[0];
    var end := pathLatLon[|pathLatLon| - 1];
    SegmentEdgePair(segment, options, coordKey, haversine);
    graph.AddEdge(start, end, base.(path := pathLatLon, direction := Forward), base.weight, base.length, coordKey);
    graph.AddEdge(end, start, base.(path := Reversed(pathLatLon), direction := Reverse), base.weight, base.length, coordKey);
  }

  /** `buildGraph`: the segments added in order; the result is the fold `Built`. */
  method BuildGraph(segments: seq<WalkSegment>, options: GraphOptions, coordKey: LatLon -> string,
                    haversine: (LatLon, LatLon) -> real) returns (graph: WalkingGraph)
    ensures fresh(graph)
    ensures graph.Value() == Built(segments, options, coordKey, haversine)
  {
    graph := new WalkingGraph();
    for n := 0 to |segments|
      invariant graph.Value() == Built(segments[..n], options, coordKey, haversine)
    {
      assert segments[..n + 1][..n] == segments[..n];
      AddSegment(graph, segments[n], options, coordKey, haversine);
    }
    assert segments[..|segments|] == segments;
  }
}
