# uOttaMove accessible routing core, modelled in Dafny

uOttaMove plans pedestrian routes for people with reduced mobility. This
project models the decision-making core of the system and proves properties
of it:

- **Segment scorer** (`Aggregator`): turns OpenStreetMap-style tags into an
  accessibility score in [0, 1], a confidence level and a list of issues. It
  also covers the incline and width tag parsers and the normalisation of raw
  segment records, which merges venue accessibility records.
- **Server walking router**:
  - `WalkGraph`: the per-segment penalty and weight, and the bidirectional
    graph built from scored segments. `WalkingGraph` is a class whose maps
    are updated in place by `AddEdge`.
  - `WalkHeap`: the array-backed binary min-heap, a class with in-place
    swaps.
  - `WalkSearch`: Dijkstra's search, path reconstruction, polyline stitching
    and route metrics.
  - `WalkRoute`: snapping to the nearest node, and the result envelope.
- **Geometry helpers** (`Geo`): planar squared distance and the projection of
  a point onto a segment.
- **Back-end A\* router**:
  - `AStarQueue`: the sorted-insertion priority queue.
  - `AStarRouter`: the A\* search with lazy re-insertion, path
    reconstruction and nearest-node snapping.
  - `OsmGraph`: the graph built from OSM node and way elements, and the
    search bounding box.
  - `SidewalkScoring`: the tag-to-cost multiplier, where `Inf` means
    impassable.
- **Result shaping** (`Navigator`): coordinate normalisation, duration
  estimates, issue tallies, legs, the route envelope, warnings and the
  routing-mode dispatch.
- **Turn-by-turn helpers** (`Directions`): turn classification, cardinal
  sectors, distance formatting, time estimates and direction lists.
- **Component analysis** (`GraphComponents`): depth-first enumeration of the
  connected components of the walking graph, sorted by size.
- **Fallback place search** (`FallbackSearch`): filtering and slicing of the
  built-in place list.

Shared definitions live in `Common` and `Text`:

- `Common`:
  - `Option`, latitude/longitude pairs and tag values;
  - `ExtReal`, finite reals plus `Inf`, which stands for JavaScript
    `Infinity`;
  - JavaScript truthiness.
- `Text`: ASCII lower-casing, substring search, trimming and the decimal
  prefix parse used in place of `parseFloat`.

`Paths` is a generic module about walks in a weighted graph. Both shortest-path
searches use it to prove termination and reachability.

Numbers are exact reals; IEEE rounding is not modelled. JavaScript
semantics are written out where they matter:

- `Math.round` is floor(x + 0.5).
- `%` truncates toward zero (`Directions.Rem8`).
- `||` and `??` defaults are `Option` cases.
- A missing value is `None`. Where the code treats a missing argument and
  `null` differently (default parameters, `scoreSegment`'s `properties`,
  `buildGraph`'s `limitedThreshold`), `Common.Arg` keeps `Undefined`, `Null`
  and `Given` apart. A destructuring default applies only to a missing
  value: a `null` threshold reaches the comparison `score < null`, which
  JavaScript evaluates as `score < 0`.

Some helpers are not modelled and are passed in as function parameters,
assumed only to be non-negative where distances are involved:

- great-circle distance (`haversine`);
- `turf.distance`;
- the bearing function;
- the node-key function `coordKey`.

## Model

| member | source | states |
|---|---|---|
| WalkGraph.ToLatLon | server/src/services/routing/walking_router.js:29-35 | a `[lon, lat]` pair becomes the point with the same two coordinates swapped back |
| WalkGraph.PathLatLon | server/src/services/routing/walking_router.js:125 | the path has one converted point per coordinate, in order |
| WalkGraph.Reversed | server/src/services/routing/walking_router.js:146 | the reverse edge's path holds the same points in the opposite order |
| WalkGraph.PathLengthNonNegative | server/src/services/routing/walking_router.js:41-49 | a segment's length, the sum of distances between consecutive points, is never negative |
| WalkGraph.SegmentLengthMeters | server/src/services/routing/walking_router.js:41-49 | the loop computes exactly the sum of consecutive point distances |
| WalkGraph.ConfidenceSurcharge | server/src/services/routing/walking_router.js:54-58 | the surcharge is 0.35 exactly for `low`, 0.15 exactly for `medium`, and 0 for any other confidence |
| WalkGraph.IssuePenalty | server/src/services/routing/walking_router.js:60-66 | an issue costs something exactly when it is one of the five known codes, and never a negative amount |
| WalkGraph.IssuesPenaltyNonNegative | server/src/services/routing/walking_router.js:67-71 | the issue penalties add up to a non-negative amount |
| WalkGraph.PenaltyNonNegative | server/src/services/routing/walking_router.js:51-73 | the total penalty, starting from max(0, 1 - score) with score defaulting to 0.5, is never negative |
| WalkGraph.UnknownIssueCostsNothing | server/src/services/routing/walking_router.js:67-71 | appending an unknown issue code leaves the penalty unchanged |
| WalkGraph.ComputePenalty | server/src/services/routing/walking_router.js:51-73 | the accumulating loop yields the penalty defined by the surcharge and issue table |
| WalkGraph.NullThresholdIsLimited | server/src/services/routing/walking_router.js:79 | with a `null` threshold every non-accessible segment with a non-negative score is limited (multiplier 2.5), while a missing threshold makes scores below 0.5 blocked (multiplier 10) |
| WalkGraph.MultiplierCases | server/src/services/routing/walking_router.js:113-123 | the multiplier is 1 exactly for passable segments; otherwise 10 below the limited threshold and 2.5 at or above it; always at least 1 |
| WalkGraph.WeightAtLeastLength | server/src/services/routing/walking_router.js:126-128 | weight = length * (1 + penalty) * multiplier is at least the length, which is at least 0 |
| WalkGraph.WithEdgeAppends | server/src/services/routing/walking_router.js:85-98 | adding an edge appends it to the source key's list only, and registers the source key in both maps |
| WalkGraph.TwoEdgesAppend | server/src/services/routing/walking_router.js:140-153 | two successive additions append the forward edge at the first key and the reverse edge at the second, and change nothing else |
| WalkGraph.SegmentEdgePair | server/src/services/routing/walking_router.js:125-153 | the forward edge runs first point to last point and the reverse edge back; both have equal weight and distance; the reverse path is the forward path reversed |
| WalkGraph.SegmentAddsTwoEdges | server/src/services/routing/walking_router.js:101-153 | a segment with bad geometry leaves the graph unchanged; an accepted segment adds exactly its two edges and its two endpoint keys |
| WalkGraph.SegmentEdgeCosts | server/src/services/routing/walking_router.js:126-128 | an accepted segment's edge weight is at least its non-negative distance |
| WalkGraph.WithSegmentKeeps | server/src/services/routing/walking_router.js:100-155 | adding a segment keeps every edge target a known node, and keeps every weight at least its distance |
| WalkGraph.BuiltOrder | server/src/services/routing/walking_router.js:82-98 | after building, the node map and the position map have the same keys, and the insertion order lists exactly the positioned keys |
| WalkGraph.BuiltIsClosed | server/src/services/routing/walking_router.js:75-157 | after building, every edge's target is a node key, and every edge weight is at least its distance, which is at least 0 |
| WalkGraph.WalkingGraph.constructor | server/src/services/routing/walking_router.js:82-83 | the graph starts with empty node and position maps |
| WalkGraph.WalkingGraph.AddEdge | server/src/services/routing/walking_router.js:85-98 | the in-place update produces exactly the graph value that adding the edge defines |
| WalkGraph.SegmentRecord | server/src/services/routing/walking_router.js:109-138 | the segment metadata (length, penalty, multiplier, weight, score, flags) is the one the cost model defines |
| WalkGraph.AddSegment | server/src/services/routing/walking_router.js:100-154 | the graph after one segment is the pure one-segment update: skipped or two edges |
| WalkGraph.BuildGraph | server/src/services/routing/walking_router.js:75-157 | a fresh graph equal to folding all segments in order |
| WalkHeap.Parent | server/src/services/routing/walking_router.js:186 | the parent index is the one whose children are 2p+1 and 2p+2 |
| WalkHeap.RootIsMinimum | server/src/services/routing/walking_router.js:173-226 | in a heap-ordered array the first item has minimum priority |
| WalkHeap.Swap | server/src/services/routing/walking_router.js:188 | swapping exchanges two items, leaves the rest in place, and keeps the multiset of items |
| WalkHeap.ClimbStep | server/src/services/routing/walking_router.js:183-191 | one upward swap moves the heap-order defect to the parent |
| WalkHeap.SinkStep | server/src/services/routing/walking_router.js:204-221 | swapping with the smaller child moves the heap-order defect down to that child |
| WalkHeap.SinkDone | server/src/services/routing/walking_router.js:204-221 | when no child is smaller the array is heap-ordered |
| WalkHeap.MinHeap.constructor | server/src/services/routing/walking_router.js:174-176 | a new heap is empty and valid |
| WalkHeap.MinHeap.IsEmpty | server/src/services/routing/walking_router.js:223-225 | empty exactly when the heap holds no items |
| WalkHeap.MinHeap.Insert | server/src/services/routing/walking_router.js:178-181 | insertion keeps the heap order, grows it by one, and adds exactly the item |
| WalkHeap.MinHeap.BubbleUp | server/src/services/routing/walking_router.js:183-191 | restores the heap order, keeping the same items |
| WalkHeap.MinHeap.ExtractMin | server/src/services/routing/walking_router.js:193-202 | null on an empty heap; otherwise removes and returns the old first item, which has minimum priority; the remaining items plus it are the old items; the heap order is kept |
| WalkHeap.MinHeap.SinkDown | server/src/services/routing/walking_router.js:204-221 | restores the heap order, keeping the same items |
| WalkSearch.Improve | server/src/services/routing/walking_router.js:246-251 | a strict improvement lowers the target's distance, records its predecessor and edge, and queues it; the search invariants hold and the measure of improvable paths drops |
| WalkSearch.ScanEdge | server/src/services/routing/walking_router.js:244-252 | examining one edge keeps the search invariants, and afterwards that edge is relaxed |
| WalkSearch.ScanAll | server/src/services/routing/walking_router.js:244-252 | after all edges of the current node are examined, every reached node's edges are relaxed or the node is still queued |
| WalkSearch.Search | server/src/services/routing/walking_router.js:229-253 | the loop terminates; the end node is reached exactly when a path to it exists, given closed edges; predecessors form rooted chains |
| WalkSearch.Reconstruct | server/src/services/routing/walking_router.js:259-272 | following predecessors from the end gives a walk from the start to the end whose weight is at most the end's distance; start equal to end gives `[start]` |
| WalkSearch.DropFirst | server/src/services/routing/walking_router.js:280-286 | later segments lose exactly their first point and nothing else |
| WalkSearch.Stitch | server/src/services/routing/walking_router.js:280-286 | the loop builds the stitched polyline |
| WalkSearch.PolylinePoints | server/src/services/routing/walking_router.js:280-286 | every polyline point is a point of some segment's path |
| WalkSearch.PolylineEnds | server/src/services/routing/walking_router.js:280-286 | the stitched polyline starts at the first segment's first point and ends at the last segment's last point |
| WalkSearch.AccessibleCountBounds | server/src/services/routing/walking_router.js:278 | the accessible count is at most the segment count, equals it exactly when all segments are accessible, and is 0 exactly when none is |
| WalkSearch.AccessibleRatioBounds | server/src/services/routing/walking_router.js:278-300 | the ratio lies in [0, 1]; it is 1 exactly when there are segments and all are accessible, and 0 exactly when none is |
| WalkSearch.ScoreSumBounds | server/src/services/routing/walking_router.js:276 | the score sum lies between n times the lowest and n times the highest bound on scores |
| WalkSearch.AverageScoreBounds | server/src/services/routing/walking_router.js:276-277 | the average is 0 for no segments, otherwise within the scores' bounds |
| WalkSearch.TotalDistanceNonNegative | server/src/services/routing/walking_router.js:275 | the total distance is non-negative when segment lengths are |
| WalkSearch.Positions | server/src/services/routing/walking_router.js:274 | one position per path key, present exactly when the key has a position |
| WalkSearch.ReachedIsLinked | server/src/services/routing/walking_router.js:255-257 | the end has a finite distance exactly when it has a predecessor or is the start |
| WalkSearch.Dijkstra | server/src/services/routing/walking_router.js:228-301 | null only for distinct, unreachable ends; a result is a walk from start to end with the stitched polyline and the distance, average and ratio metrics; start equal to end gives `[start]` with zero metrics |
| WalkRoute.NearestIsMinimum | server/src/services/routing/walking_router.js:159-171 | no node exactly when the graph is empty; otherwise the chosen node's distance is at most every node's distance |
| WalkRoute.NearestIsFirst | server/src/services/routing/walking_router.js:159-171 | the chosen node is the first, in insertion order, with the smallest distance |
| WalkRoute.FindNearestNode | server/src/services/routing/walking_router.js:159-171 | the scan returns the nearest node and its position, present together |
| WalkRoute.FindAccessibleWalkingRoute | server/src/services/routing/walking_router.js:309-350 | projection fails exactly when an end cannot snap; no path exactly when both snap but the ends are unreachable; a route carries requested start + stitched polyline + requested end and the snap offsets; its node keys start at the snapped start, give its path positions and (when the empty string is not a node key) form a graph walk along its segments to the snapped end whose weight is at most the total cost; distance, average score and accessible ratio are those of its segments |
| Aggregator.PercentTextParses | server/src/services/accessibility/aggregator.js:63 | every text made of an optional `-`, one or more digits, optionally `.` and one or more digits, whitespace, then `%` matches, and the captured number is the signed decimal value of those digits |
| Aggregator.ParsedIsPercentText | server/src/services/accessibility/aggregator.js:63 | conversely, every text that matches has exactly that shape |
| Aggregator.NegativeTextParses | server/src/services/accessibility/aggregator.js:63 | a leading `-` before a matching unsigned text negates the captured number |
| Aggregator.PositiveTextParses | server/src/services/accessibility/aggregator.js:63 | an unsigned matching text captures its decimal value |
| Aggregator.ParseIncline | server/src/services/accessibility/aggregator.js:58-72 | absent gives null; a number gives its absolute value; any result is non-negative |
| Aggregator.InclineText | server/src/services/accessibility/aggregator.js:61-71 | every text result is non-negative |
| Aggregator.InclineUpDown | server/src/services/accessibility/aggregator.js:61-62 | `up` and `down`, after trimming and lower-casing, give 0.06 |
| Aggregator.InclinePercent | server/src/services/accessibility/aggregator.js:63-66 | `N%` gives abs(N)/100 |
| Aggregator.InclineFallback | server/src/services/accessibility/aggregator.js:67-71 | other text gives the absolute value of its leading number, or null |
| Aggregator.KeepDigitsAndDots | server/src/services/accessibility/aggregator.js:77 | the filtered text holds only digits and dots and is no longer than the input |
| Aggregator.KeepDigitsAndDotsAppend | server/src/services/accessibility/aggregator.js:77 | the global replace works character by character: filtering a concatenation concatenates the filtered parts |
| Aggregator.KeepDigitsAndDotsChar | server/src/services/accessibility/aggregator.js:77 | a single character is kept exactly when it is a digit or a dot, and is then unchanged |
| Aggregator.KeepDigitsAndDotsKeeps | server/src/services/accessibility/aggregator.js:77 | text made only of digits and dots is left unchanged |
| Aggregator.ParseWidth | server/src/services/accessibility/aggregator.js:74-79 | absent gives null and a number is returned unchanged |
| Aggregator.TextWidthNonNegative | server/src/services/accessibility/aggregator.js:77-78 | a width parsed from text is never negative |
| Aggregator.Apply | server/src/services/accessibility/aggregator.js:98-107 | an adjustment adds its value to the score and counts a signal; exactly a negative one records an issue and a negative signal; exactly a positive one counts a positive signal |
| Aggregator.WheelchairRule | server/src/services/accessibility/aggregator.js:109-120 | adds at most 0.1; `wheelchair=no` subtracts exactly 0.8 |
| Aggregator.KerbRule | server/src/services/accessibility/aggregator.js:122-134 | adds at most 0.05 and keeps issues in step with negative adjustments |
| Aggregator.SurfaceRule | server/src/services/accessibility/aggregator.js:136-146 | adds at most 0.05 and keeps issues in step with negative adjustments |
| Aggregator.SmoothnessRule | server/src/services/accessibility/aggregator.js:148-158 | adds at most 0.05 and keeps issues in step with negative adjustments |
| Aggregator.InclineRule | server/src/services/accessibility/aggregator.js:160-169 | no incline changes nothing; at most 0.06 is a zero adjustment; above 0.08 subtracts 0.4 with `steep_incline`; in between does nothing |
| Aggregator.WidthRule | server/src/services/accessibility/aggregator.js:171-180 | adds at most 0.05 and keeps issues in step with negative adjustments |
| Aggregator.StepsRule | server/src/services/accessibility/aggregator.js:183-185 | steps subtract exactly 0.9; otherwise nothing |
| Aggregator.Rules | server/src/services/accessibility/aggregator.js:89-185 | after all rules, issues are exactly the negative adjustments |
| Aggregator.Clamp | server/src/services/accessibility/aggregator.js:187 | the result lies in [0, 1] and equals the input when it is already there |
| Aggregator.OrNull | server/src/services/accessibility/aggregator.js:213-222 | a relevant tag is kept exactly when it is present |
| Aggregator.ScoreSegment | server/src/services/accessibility/aggregator.js:86-225 | score in [0, 1]; accessible exactly when score >= 0.6; issues are the rules' issues |
| Aggregator.LowConfidenceIffIssues | server/src/services/accessibility/aggregator.js:194-209 | confidence is `low` exactly when there are issues |
| Aggregator.ConfidenceWithoutIssues | server/src/services/accessibility/aggregator.js:194-209 | without issues, confidence is `high` exactly when there are two positive signals or `wheelchair=yes`, and never `low` |
| Aggregator.EmptyProperties | server/scripts/test_scoring.js:9-12 | empty tags give 0.9, accessible, `medium`, no issues |
| Aggregator.BarriersNeverAccessible | server/src/services/accessibility/aggregator.js:109-185 | steps or `wheelchair=no` are never accessible |
| Aggregator.WheelchairYesExample | server/scripts/test_scoring.js:14-19 | `wheelchair=yes` gives 1.0 and `high` |
| Aggregator.GoodSurfacesExample | server/scripts/test_scoring.js:26-31 | paved and good gives 1.0 and `high` |
| Aggregator.OnlySteepIncline | server/src/services/accessibility/aggregator.js:160-169 | a steep incline and no other tags give 0.5, `low`, `[steep_incline]` |
| Aggregator.FifteenPercent | server/src/services/accessibility/aggregator.js:63-66 | the text `15%` parses to 0.15 |
| Aggregator.SteepInclineExample | server/scripts/test_scoring.js:32-37 | `incline=15%` gives 0.5 and `low` |
| Aggregator.StepsExample | server/scripts/test_scoring.js:38-43 | steps give 0.0 and `low` |
| Aggregator.VenueKey | server/src/services/accessibility/aggregator.js:234-245 | only a truthy id keys a venue |
| Aggregator.BuildVenueLookup | server/src/services/accessibility/aggregator.js:234-245 | the lookup has exactly the venue ids as keys, each with its non-empty list of venue scores in order |
| Aggregator.BeforeSlash | server/src/services/accessibility/aggregator.js:258 | the type is the prefix before the first `/` |
| Aggregator.OsmType | server/src/services/accessibility/aggregator.js:258 | the OSM type is the non-empty part of the string id before its first `/`, and `way` when there is no id or that part is empty; it never contains `/` |
| Aggregator.WithVenues | server/src/services/accessibility/aggregator.js:251-254 | no venues keeps confidence; with venues it is `high` exactly when it was `high`, otherwise `medium` |
| Aggregator.Normalize | server/src/services/accessibility/aggregator.js:247-270 | fails exactly when the source throws (`null` properties, a number as `properties.id`, a non-string surface or smoothness); otherwise the record keeps the id and geometry, has the OSM type of the id, the scorer's score, passability, issues and tags, the venue-adjusted confidence, source `opensidewalks` and the venue scores looked up for the id |
| Aggregator.BuildAccessibleSegments | server/src/services/accessibility/aggregator.js:233-271 | fails exactly when some segment makes the callback throw; otherwise one output per input, in order, with id, OSM type, geometry, scored attributes, venue-adjusted confidence, source `opensidewalks` and the venue scores for that id |
| Geo.DistanceSquared | server/src/utils/geo.js:31-35 | never negative |
| Geo.DistanceSquaredPositive | server/src/utils/geo.js:31-35 | positive for distinct points |
| Geo.DistanceSquaredZero | server/src/utils/geo.js:31-35 | zero exactly for equal points |
| Geo.DistanceSquaredSymmetric | server/src/utils/geo.js:31-35 | symmetric in its two points |
| Geo.Clamp01 | server/src/utils/geo.js:47-48 | the parameter is clamped into [0, 1] and kept when already inside |
| Geo.ProjectPointOnSegment | server/src/utils/geo.js:44-53 | a degenerate segment projects to `v`; the result lies on the closed segment |
| Geo.ParameterOfSegmentPoint | server/src/utils/geo.js:47 | the parameter of `v + t(w - v)` is `t` |
| Geo.ProjectSegmentPoint | server/src/utils/geo.js:44-53 | a point on the segment projects to itself |
| Geo.ProjectEndpoints | server/src/utils/geo.js:44-53 | `v` projects to `v` and `w` to `w` |
| SidewalkScoring.GetSegmentCost | back_end/src/services/accessibility/sidewalkScoring.js:8-50 | steps give `Inf` for the default profile and 2.0 otherwise; otherwise the cost is `Inf` exactly for `wheelchair=no` |
| SidewalkScoring.EmptyTagsCost | back_end/src/services/accessibility/sidewalkScoring.js:8-50 | empty tags cost exactly 1.0 |
| SidewalkScoring.CostBounds | back_end/src/services/accessibility/sidewalkScoring.js:8-50 | every finite cost lies in [0.8, 2.0] |
| SidewalkScoring.DefaultCostBounds | back_end/src/services/accessibility/sidewalkScoring.js:8-50 | for the default profile every finite cost lies in [0.8, 1.8] |
| SidewalkScoring.ProfileOnlyForSteps | back_end/src/services/accessibility/sidewalkScoring.js:12-14 | the profile only matters for steps |
| SidewalkScoring.BadSurfaceFactor | back_end/src/services/accessibility/sidewalkScoring.js:23-27 | a bad surface multiplies a finite cost by 1.5 |
| SidewalkScoring.InclineFactor | back_end/src/services/accessibility/sidewalkScoring.js:34-39 | an incline other than `0`/`0%` multiplies a finite cost by 1.2 |
| SidewalkScoring.WheelchairBonus | back_end/src/services/accessibility/sidewalkScoring.js:45-47 | `wheelchair=designated` or `yes` multiplies the cost by 0.8 |
| OsmGraph.BuildGraph | back_end/src/services/map_data/osm.service.js:49-95 | the nested loops build exactly the specified graph: nodes indexed first, then every way's pairs |
| OsmGraph.AddWayEdges | back_end/src/services/map_data/osm.service.js:63-92 | one way's loop adds exactly that way's pair links |
| OsmGraph.IndexedNodes | back_end/src/services/map_data/osm.service.js:54-60 | the index has exactly the node elements' ids, each with the last such element's coordinates and no neighbours |
| OsmGraph.AddPairLinks | back_end/src/services/map_data/osm.service.js:72-90 | for a pair of indexed nodes, u gains the link to v and v the link to u |
| OsmGraph.AddPairClosed | back_end/src/services/map_data/osm.service.js:72 | neighbours only name nodes of the graph |
| OsmGraph.AddPairScaled | back_end/src/services/map_data/osm.service.js:76-82 | every link's cost is its non-negative distance times a multiplier in [0.8, 1.8] |
| OsmGraph.AddPairSymmetric | back_end/src/services/map_data/osm.service.js:88-89 | every link u to v has a matching link v to u with the same cost and distance |
| OsmGraph.AddPairWellFormed | back_end/src/services/map_data/osm.service.js:68-91 | adding a pair keeps the graph well formed (ids, closure, symmetry, scaled costs) |
| OsmGraph.AddPairsWellFormed | back_end/src/services/map_data/osm.service.js:68-91 | adding a way's pairs keeps the graph well formed and only extends neighbour lists |
| OsmGraph.AddWaysWellFormed | back_end/src/services/map_data/osm.service.js:63-92 | adding all ways keeps the graph well formed and only extends neighbour lists |
| OsmGraph.IndexedWellFormed | back_end/src/services/map_data/osm.service.js:54-60 | the indexed nodes form a well-formed graph |
| OsmGraph.BuiltWellFormed | back_end/src/services/map_data/osm.service.js:49-95 | the built graph is well formed, has exactly the node ids, and extends the index |
| OsmGraph.WayPairsLinked | back_end/src/services/map_data/osm.service.js:68-91 | every consecutive pair of indexed nodes of a passable way is linked both ways in the built graph |
| OsmGraph.Passable | back_end/src/services/map_data/osm.service.js:64-66 | only ways with a finite multiplier remain |
| OsmGraph.ImpassableWaysIgnored | back_end/src/services/map_data/osm.service.js:64-66 | ways with an infinite multiplier contribute nothing |
| OsmGraph.SearchArea | back_end/src/services/map_data/osm.service.js:10-14 | the box is the two points' min/max padded by 0.005, so it is non-empty and holds both points |
| AStarQueue.InsertionPoint | back_end/src/services/routing/router.js:10-15 | the new item goes after every item of lower or equal priority and before the first higher one |
| AStarQueue.InsertedContents | back_end/src/services/routing/router.js:8-19 | enqueueing grows the queue by one and adds exactly the item |
| AStarQueue.InsertedAt | back_end/src/services/routing/router.js:10-18 | earlier items stay, the item takes the insertion point, later items shift by one |
| AStarQueue.InsertedSorted | back_end/src/services/routing/router.js:8-19 | enqueueing keeps the queue sorted by priority |
| AStarQueue.InsertedAfterTies | back_end/src/services/routing/router.js:10-15 | items of equal priority stay ahead of the new one |
| AStarQueue.PriorityQueue.constructor | back_end/src/services/routing/router.js:4-7 | a new queue is empty |
| AStarQueue.PriorityQueue.Enqueue | back_end/src/services/routing/router.js:8-19 | the loop performs the sorted insertion and keeps the queue sorted |
| AStarQueue.PriorityQueue.Dequeue | back_end/src/services/routing/router.js:20-22 | returns and removes the front item; an empty queue gives nothing |
| AStarQueue.FrontIsMinimum | back_end/src/services/routing/router.js:20-22 | the front of a sorted queue has minimum priority and the rest stays sorted |
| AStarRouter.OsmArcs | back_end/src/services/routing/router.js:87-99 | the neighbour lists viewed as a weighted graph with the links' costs |
| AStarRouter.ScaledNonNegative | back_end/src/services/map_data/osm.service.js:82 | scaled costs are non-negative |
| AStarRouter.NeighborIds | back_end/src/services/routing/router.js:87-90 | the neighbour ids in list order |
| AStarRouter.Improve | back_end/src/services/routing/router.js:91-98 | a strict improvement lowers gScore, sets `cameFrom` and queues the neighbour; the measure of improvable paths drops |
| AStarRouter.ScanEdge | back_end/src/services/routing/router.js:87-99 | one neighbour is relaxed; gScore only decreases; `cameFrom` changes only on a strict improvement |
| AStarRouter.ScanAll | back_end/src/services/routing/router.js:87-99 | after all neighbours, every reached node's links are relaxed or the node is still queued |
| AStarRouter.Visit | back_end/src/services/routing/router.js:78-100 | one iteration either finds the goal, which is then reachable, or keeps the invariants and makes progress |
| AStarRouter.StartSearch | back_end/src/services/routing/router.js:62-76 | gScore is `Inf` everywhere except 0 at the start, which alone is queued |
| AStarRouter.Explore | back_end/src/services/routing/router.js:62-102 | terminates; the goal is found only if reachable, and always when reachable under the key-comparison goal test |
| AStarRouter.Coordinates | back_end/src/services/routing/router.js:124 | coordinates are `[lon, lat]` of each path id, in order |
| AStarRouter.ReconstructPath | back_end/src/services/routing/router.js:116-139 | ids end at the goal, consecutive ids are linked by `cameFrom` and by graph edges, the path starts at the start, and the feature has distance 0 |
| AStarRouter.ClosestIsNearest | back_end/src/services/routing/router.js:28-46 | none for an empty graph; otherwise a minimum-distance node, the first one in order |
| AStarRouter.FindNearestNode | back_end/src/services/routing/router.js:28-46 | the scan returns that nearest node; none exactly for an empty graph |
| AStarRouter.CalculateRoute | back_end/src/services/routing/router.js:48-103 | with ids compared as keys, a route exists exactly when both ends snap and the goal is reachable; it is a graph walk between the snapped nodes |
| AStarRouter.CalculateRouteAsWritten | back_end/src/services/routing/router.js:48-103 | with the strict goal test, a route is returned exactly when both ends snap to the same node |
| AStarRouter.StrictGoalTestMissesRoute | back_end/src/services/routing/router.js:81-83 | on a two-node graph the goal is reachable, but the strict goal test returns nothing |
| Directions.Round | client/src/utils/directions.js:66 | the rounded value is within one half of the input |
| Directions.Ceil | client/src/utils/directions.js:197 | the smallest integer not below the input |
| Directions.Rem8 | client/src/utils/directions.js:66 | JavaScript remainder by 8: same sign as the input and congruent to it |
| Directions.TurnAngle | client/src/utils/directions.js:36-40 | the angle differs from bearing2 - bearing1 by a multiple of 360 and lies in [-180, 180] for bearings in [0, 360) |
| Directions.TurnDirection | client/src/utils/directions.js:35-56 | one of the six turn kinds |
| Directions.TurnDirectionCases | client/src/utils/directions.js:42-55 | straight exactly when abs(angle) < 20; u-turn exactly when above 160; right/sharp-right for positive angles and left/sharp-left for negative ones, sharp exactly beyond 90 |
| Directions.SameBearingIsStraight | client/src/utils/directions.js:35-56 | equal bearings are straight |
| Directions.ReverseTurnIsMirrored | client/src/utils/directions.js:35-56 | swapping the bearings mirrors left and right |
| Directions.CardinalDirection | client/src/utils/directions.js:63-67 | a non-negative bearing always gets one of the eight labels |
| Directions.CardinalSector | client/src/utils/directions.js:63-67 | a bearing within 22.5 degrees of k*45 gets label k |
| Directions.NearlyFullTurnIsNorth | client/src/utils/directions.js:63-67 | bearings from 337.5 up to 382.5 are `N` |
| Directions.FormatDistance | client/src/utils/directions.js:74-79 | metres branch exactly below 1000, rounded; otherwise kilometres |
| Directions.EstimateWalkingTime | client/src/utils/directions.js:195-198 | 0 for missing or non-positive distance, otherwise the ceiling of the minutes, at least 1 |
| Directions.TurnEntry | client/src/utils/directions.js:122-172 | a turn entry's kind is a turn kind and its text depends only on the kind |
| Directions.GenerateDirections | client/src/utils/directions.js:86-187 | the loop builds exactly the specified direction list |
| Directions.TurnCount | client/src/utils/directions.js:113-174 | one turn entry per eligible segment, so at most n - 1 |
| Directions.TurnMembers | client/src/utils/directions.js:113-174 | the turn entries are exactly those of the eligible segments |
| Directions.NoSegmentsNoDirections | client/src/utils/directions.js:86-89 | null or empty input gives no directions |
| Directions.DirectionsLength | client/src/utils/directions.js:95-186 | the last entry is the arrival with distance 0 and accessible; the length is start + turns + 1, at most the segment count + 1 |
| Directions.DirectionsStart | client/src/utils/directions.js:95-110 | a start entry comes first exactly when the first path has more than one point |
| Directions.DirectionsInstructions | client/src/utils/directions.js:138-159 | every entry's instruction text is determined by its kind |
| Navigator.NormalizeCoordinate | server/src/services/routing/accessible_navigator.js:6-20 | fails unless `lat` and one of `lon`/`lng` are numbers; `lon` wins over `lng`; the label is `label` when present, else `name` when present, else none |
| Navigator.EstimateDurationMinutes | server/src/services/routing/accessible_navigator.js:22-27 | 0 for non-positive distance, otherwise distance / speed / 60; never negative |
| Navigator.IssueCountsAreOccurrences | server/src/services/routing/accessible_navigator.js:29-37 | each issue's count equals its number of occurrences across all segments, and only occurring issues are keys |
| Navigator.TallyIssues | server/src/services/routing/accessible_navigator.js:31-35 | counting one segment's issues extends a correct tally to those issues |
| Navigator.CollectSegmentInsights | server/src/services/routing/accessible_navigator.js:29-37 | the loop yields the occurrence counts |
| Navigator.GuidanceOf | server/src/services/routing/accessible_navigator.js:68-76 | one guidance entry per segment, with index equal to its position, the segment's issues and length, and the caution text exactly for inaccessible segments |
| Navigator.BuildWalkingLeg | server/src/services/routing/accessible_navigator.js:39-78 | the leg carries the route's distance, duration, geometry, segments and ends; its guidance is the per-segment guidance list; its accessibility block holds the average score, the accessible ratio, both snapping distances and the issue counts |
| Navigator.BuildRouteEnvelope | server/src/services/routing/accessible_navigator.js:80-99 | type `accessible-walking` exactly for walking mode; the totals are the sums of the legs' distances (0 when missing) and durations; leg count, legs and warnings are passed through |
| Navigator.TotalsAppend | server/src/services/routing/accessible_navigator.js:81-82 | one more leg adds its distance (or 0) and its duration to the totals and one to the leg count |
| Navigator.OneLegTotals | server/src/services/routing/accessible_navigator.js:80-99 | with one leg, the totals are that leg's distance (0 if missing) and duration |
| Navigator.TotalsNonNegative | server/src/services/routing/accessible_navigator.js:80-99 | totals are non-negative when the legs' values are |
| Navigator.BuildWarnings | server/src/services/routing/accessible_navigator.js:101-120 | the pushes build the specified warnings |
| Navigator.WarningsCases | server/src/services/routing/accessible_navigator.js:101-120 | each of the three warnings appears exactly under its condition (offset above 50, missing segments), at most once, in that order |
| Navigator.HandleWalkingRouting | server/src/services/routing/accessible_navigator.js:129-146 | succeeds exactly when a route exists, otherwise gives the router's error |
| Navigator.PlanAccessibleTrip | server/src/services/routing/transit_router.js:26-57 | no trip exactly when the ends cannot be projected; otherwise a one-leg walking trip with the not-implemented warning |
| Navigator.FallbackLeg | server/src/services/routing/accessible_navigator.js:159-172 | mode defaults to `transit`; distance is present exactly for a found route; no route gives zero duration and empty geometry |
| Navigator.HandleTransitRouting | server/src/services/routing/accessible_navigator.js:148-187 | fails exactly without legs; otherwise one transit leg with the trip's warnings followed by the route's warnings |
| Navigator.TransitMatchesWalking | server/src/services/routing/accessible_navigator.js:148-187 | a found route gives the same legs and summary in transit mode, with the not-implemented warning first |
| Navigator.TransitWithoutPath | server/src/services/routing/accessible_navigator.js:148-187 | without a path, walking fails but transit returns an empty fallback leg |
| Navigator.UnknownModeIsWalking | server/src/services/routing/accessible_navigator.js:209-216 | an unknown mode gives the walking result with one extra warning and mode `walking` |
| Navigator.WalkingOutcomeCases | server/src/services/routing/accessible_navigator.js:122-146 | success exactly when a route exists; `no_accessible_route` exactly when projectable but unreachable; the projection error otherwise |
| Navigator.ModeName | server/src/services/routing/accessible_navigator.js:193-213 | a missing mode is `walking`; `null` is neither walking nor transit and is named `null` in the warning; a given mode is kept |
| Navigator.GenerateAccessibleRoute | server/src/services/routing/accessible_navigator.js:189-217 | bad coordinates fail first; then dispatch on the mode, a missing one defaulting to walking and `null` taking the unknown-mode branch |
| GraphComponents.FlattenAppend | analyze_graph.js:17-29 | flattening one more component appends its keys after the others |
| GraphComponents.InFlattenPrefix | analyze_graph.js:17-29 | every key of every component occurs in the flattened list |
| GraphComponents.PushTarget | analyze_graph.js:22-27 | a node is pushed at most once: visited and stack stay in step, and the target ends up visited |
| GraphComponents.PushUnvisited | analyze_graph.js:22-27 | every edge target of the current node is visited afterwards, and visited nodes and pushed nodes stay in step |
| GraphComponents.Explore | analyze_graph.js:11-28 | the component starts at the node, and every edge target of its members is visited when it closes |
| GraphComponents.FindComponents | analyze_graph.js:10-30 | the components are disjoint, cover every node key, start at a node, and are closed under edges |
| GraphComponents.ClosedAppend | analyze_graph.js:17-29 | appending a closed component keeps the list closed |
| GraphComponents.InsertKeepsOrder | analyze_graph.js:32 | inserting at the right point keeps the order by size |
| GraphComponents.SortBySize | analyze_graph.js:32 | the same components, in non-increasing order of size |
| FallbackSearch.Present | server/src/routes/api.js:112-121 | exactly the non-empty fields remain |
| FallbackSearch.Join | server/src/routes/api.js:122 | each joined field is a substring of the result |
| FallbackSearch.Matching | server/src/routes/api.js:110-125 | never longer than the place list |
| FallbackSearch.Slice | server/src/routes/api.js:125 | a prefix of length `limit`, capped at the length; a negative `limit` drops that many from the end |
| FallbackSearch.SearchFallbackPlaces | server/src/routes/api.js:108-126 | at most `limit` results, 5 by default |
| FallbackSearch.MatchingIsFilter | server/src/routes/api.js:110-125 | the matches are the places that match, in their original order |
| FallbackSearch.KeptInOrder | server/src/routes/api.js:110-125 | the sliced matches are a subsequence of the places, and every kept place matches |
| FallbackSearch.SearchResults | server/src/routes/api.js:108-126 | results are a sublist of the built-in places in the original order, each matching the lower-cased query, and a prefix of all matches |
| FallbackSearch.EverythingMatchesEmpty | server/src/routes/api.js:124 | the empty query matches every place |
| FallbackSearch.EmptyQueryKeepsAll | server/src/routes/api.js:109-125 | with the empty query the result is the first `limit` places |
| FallbackSearch.EmptyQuery | server/src/routes/api.js:108-126 | an empty query returns the first min(limit, 5) built-in places |
| FallbackSearch.FieldPieceMatches | server/src/routes/api.js:111-124 | a place matches any piece of any of its present fields |
| Text.Lower | server/src/routes/api.js:109 | ASCII lower-casing: `A` to `Z` become `a` to `z`, every other character is kept, so the length is preserved |
| Text.LowerIdempotent | server/src/routes/api.js:109-123 | ASCII lower-casing twice is the same as once |

## Left out

- Great-circle distance, `turf.distance`, the bearing function and `coordKey`'s `toFixed(6)` key are function parameters. Only non-negativity is assumed.
- Floating-point rounding, `NaN` and `Infinity` as numbers are not represented. The `Number.isFinite` and `Number.isNaN` checks therefore reduce to their finite cases.
- `formatDistance`'s `toFixed(1)` text is not modelled; only its branch and its rounded metres are.
- File and network input are not modelled, and the segments they would supply are parameters:
  - `loadAccessibleSegments`;
  - `loadOpenSidewalksSegments`;
  - `loadVenueAccessibility`;
  - the Overpass fetch in `fetchGraphForArea`.
- Console output, `Date.now()` leg ids and `async`/`await` plumbing are not modelled.
- The console report of analyze_graph.js:34-44 is not modelled.
- The `details` field of the `no_accessible_route` error is not modelled.
- The `allowLimitedSegments` and `allowNonAccessible` options are read but never used, and the model omits them.
- Only the default walking speeds are modelled.
- `generateDirections` keeps a `totalDistance` accumulator that nothing reads. The model omits it.
- The `tags` argument of `getSegmentCost` is typed as a map of strings. The `way.tags \|\| {}` default is the empty map.
- WalkSearch.Dijkstra: proves termination, that a route exists exactly when the end is reachable, and that the returned walk's weight is at most the end's distance. It does not prove that the distances are shortest.
- AStarRouter.Explore: the heuristic and `fScore` only order the queue, and the proved properties (termination, reachability, walk validity) do not depend on them. Optimality is not proved.
- Geo.ProjectPointOnSegment: proves the result lies on the segment. It does not prove that the result is the nearest such point.
- Navigator.IssueCountsAreOccurrences: states each count as its occurrence count. It does not state separately that the counts sum to the number of issues.
- Navigator.GenerateAccessibleRoute: the in-place overwrite of `route.warnings` and `route.transportationMode` for unknown modes is modelled as building an updated value.
- Navigator.HandleTransitRouting: the `!trip` test is covered by the trip's legs being absent. A trip that is itself null is a projection error reported by the walking router.
- GraphComponents.SortBySize: the in-place `Array.prototype.sort` is modelled as a stable insertion sort on a sequence, so the result does not depend on an unspecified comparison order.
- Aggregator.ScoreSegment: the `apply` closure's step-by-step mutation of local variables is modelled as a chain of pure rule functions over an accumulator value. The function requires `surface` and `smoothness` to be strings when present, because JavaScript would throw on `toLowerCase` of a number.
- The "Explicit Wheelchair No" case in server/scripts/test_scoring.js:20-25 expects 0.2. The code gives 0.9 - 0.8 = 0.1, and the model follows the code.
- Aggregator.ScoreSegment: `null` properties make `scoreSegment` throw. The scorer itself takes a map, and the `null` case is handled by `Aggregator.Normalize`, which fails for it.
- Aggregator.Normalize: a thrown `TypeError` is modelled as `None`. Which exception is thrown, and its message, are not modelled.
- Aggregator.BuildAccessibleSegments: a throw in any callback is modelled as `None` for the whole call. The model does not say which segment threw first.
- Navigator.GenerateAccessibleRoute: a `null` disability type is passed on as `null` in the source. The model's disability type is a string, so it does not represent that case.
- WalkGraph.ToLatLon: coordinates that are not an array, or have fewer than two entries, throw `Invalid coordinate` and abort `buildGraph`. `LonLat` cannot express them, so the model has no such error path.
- Text.Lower: lower-cases ASCII letters only. JavaScript's `toLowerCase` follows full Unicode case mapping: the Kelvin sign U+212A becomes `k`, and `İ` becomes two code units. The model's search therefore differs on such queries, and its length-preserving property does not hold for the source.
- WalkGraph.IssuePenalty: looks issue codes up in a map of the five known codes. The source's object lookup also finds inherited keys such as `constructor`, and adding the inherited function turns the penalty into a string. Such issue codes are not modelled.
- FallbackSearch.SearchFallbackPlaces: takes an integer limit. `Number(req.query.limit)` can be fractional, and `slice` truncates it toward zero; the model stands for the truncated value.
- WalkGraph.SegmentRecord: the record's `tags` field is not modelled, because no modelled cost or step reads it.
- Text.IsSpace: covers the ASCII whitespace, U+00A0 and U+FEFF. JavaScript's `trim` and `\s` also accept U+1680, U+2000 to U+200A, U+2028, U+2029, U+202F, U+205F and U+3000. For example, `5`, U+3000, `%` matches the percent pattern in the source and gives 0.05, while the model falls back to `parseFloat` and gives 5.
- Navigator.CollectSegmentInsights: counts issues in a map that starts empty. The source's plain-object lookup `issues[issue] || 0` also finds inherited keys: an issue named `constructor` starts from the inherited function, so its count becomes a string. Such issue codes are not modelled.
- Regular-expression and `parseFloat` internals are modelled only as far as the branches need: a leading decimal number, an optional fraction and a trailing `%`.

## Findings

| source | as written | input that shows it | evidently intended | confidence | as-written member | corrected member |
|---|---|---|---|---|---|---|
| back_end/src/services/routing/router.js:81-83 | the goal test compares the dequeued id (a string key of the graph object) with `===` against the goal; after the first step the queued ids are numbers from `way.nodes`, so the goal is only ever recognised when start and goal are the same node | a graph of two linked nodes 1 and 2, start at (0, 0) and end at (0, 1), which snap to 1 and 2 | compare ids as keys, so that a reachable goal is found | not executed | AStarRouter.CalculateRouteAsWritten, AStarRouter.StrictGoalTestMissesRoute | AStarRouter.CalculateRoute |
