/**
 * The server's route shaping around the walking router: it checks and
 * normalises the two coordinates, runs the walking router (or the transit
 * planner, which today wraps the same router), turns the router's result
 * into a leg with per-segment guidance and issue counts, adds warnings,
 * and wraps the legs into a route envelope with totals.
 */
module Navigator {
  import opened Common
  import opened WalkGraph
  import opened WalkSearch
  import opened WalkRoute

  const WalkingSpeedMps: real := 1.15

  // ------------------------------------------------------------ coordinates

  /**
   * A request coordinate: any field may be absent or of the wrong type.
   * `caption` is the JSON `label` (a reserved word here).
   */
  datatype Coordinate = Coordinate(lat: Option<TagValue>, lon: Option<TagValue>, lng: Option<TagValue>,
                                   caption: Option<TagValue>, name: Option<TagValue>)

  datatype NormalizedCoordinate = NormalizedCoordinate(lat: real, lon: real, caption: Option<TagValue>)

  /** `typeof v === 'number'`. */
  predicate IsNumber(v: Option<TagValue>) {
    v.Some? && v.value.Num?
  }

  /**
   * `normalizeCoordinate`: `None` is the thrown error. It succeeds exactly
   * when `lat` is a number and `lon` or `lng` is; `lon` wins over `lng`, and
   * the caption is the first truthy one of `label` and `name`.
   */
  function NormalizeCoordinate(coord: Option<Coordinate>): (r: Option<NormalizedCoordinate>)
    ensures r.Some? <==> coord.Some? && IsNumber(coord.value.lat) && (IsNumber(coord.value.lon) || IsNumber(coord.value.lng))
    ensures r.Some? ==> r.value.lat == coord.value.lat.value.n
    ensures r.Some? && IsNumber(coord.value.lon) ==> r.value.lon == coord.value.lon.value.n
    ensures r.Some? && !IsNumber(coord.value.lon) ==> r.value.lon == coord.value.lng.value.n
    ensures r.Some? ==> (r.value.caption.Some? <==> Present(coord.value.caption) || Present(coord.value.name))
    ensures r.Some? && r.value.caption.Some? ==> Present(r.value.caption)
    ensures r.Some? && Present(coord.value.caption) ==> r.value.caption == coord.value.caption
    ensures r.Some? && !Present(coord.value.caption) && Present(coord.value.name) ==> r.value.caption == coord.value.name
  {
    if coord.None? || !IsNumber(coord.value.lat) || (!IsNumber(coord.value.lon) && !IsNumber(coord.value.lng)) then None
    else
      var c := coord.value;
      var caption := if Present(c.caption) then c.caption else if Present(c.name) then c.name else None;
      Some(NormalizedCoordinate(c.lat.value.n, if IsNumber(c.lon) then c.lon.value.n else c.lng.value.n, caption))
  }

  function CoordinateError(which: string): string {
    which + ".lat and " + which + ".lon are required numbers"
  }

  // ------------------------------------------------------------ legs

  /** `estimateDurationMinutes` at the default speed: minutes at 1.15 m/s, 0 for no distance. */
  function EstimateDurationMinutes(distanceMeters: real): (r: real)
    ensures r >= 0.0
    ensures distanceMeters <= 0.0 ==> r == 0.0
    ensures distanceMeters > 0.0 ==> r * 60.0 * WalkingSpeedMps == distanceMeters
  {
    if distanceMeters <= 0.0 then 0.0 else distanceMeters / WalkingSpeedMps / 60.0
  }

  /** Every issue of every segment, in order. */
  function AllIssues(segments: seq<SegmentMeta>): seq<string> {
    if segments == [] then [] else AllIssues(segments[..|segments| - 1]) + segments[|segments| - 1].issues
  }

  /** The count of each issue over all segments. */
  function IssueCounts(segments: seq<SegmentMeta>): map<string, nat> {
    var all := multiset(AllIssues(segments));
    map x | x in all :: all[x]
  }

  /** How often `x` is listed, segment by segment. */
  function Occurrences(segments: seq<SegmentMeta>, x: string): nat {
    if segments == [] then 0 else Occurrences(segments[..|segments| - 1], x) + multiset(segments[|segments| - 1].issues)[x]
  }

  /**
   * An issue is counted exactly when some segment lists it, and its count is
   * the sum of its occurrences over the segments.
   */
  lemma {:induction false} IssueCountsAreOccurrences(segments: seq<SegmentMeta>)
    ensures forall x :: x in IssueCounts(segments) <==> Occurrences(segments, x) > 0
    ensures forall x :: x in IssueCounts(segments) ==> IssueCounts(segments)[x] == Occurrences(segments, x)
    decreases |segments|
  {
    if segments != [] {
      var init := segments[..|segments| - 1];
      IssueCountsAreOccurrences(init);
      assert multiset(AllIssues(segments)) == multiset(AllIssues(init)) + multiset(segments[|segments| - 1].issues);
      forall x ensures multiset(AllIssues(segments))[x] == Occurrences(segments, x) {
        if x !in IssueCounts(init) {
          assert multiset(AllIssues(init))[x] == 0;
        }
      }
    }
  }

  /** `issues` holds, for every issue listed in `xs`, how often it is listed, and nothing else. */
  ghost predicate Tallies(issues: map<string, nat>, xs: seq<string>) {
    forall x :: (x in issues <==> x in multiset(xs)) && (x in issues ==> issues[x] == multiset(xs)[x])
  }

  /** One increment tallies one more listed issue. */
  lemma TallyOne(issues: map<string, nat>, xs: seq<string>, issue: string)
    requires Tallies(issues, xs)
    ensures Tallies(issues[issue := (if issue in issues then issues[issue] else 0) + 1], xs + [issue])
  {
    assert multiset(xs + [issue]) == multiset(xs) + multiset{issue};
  }

  lemma TalliesAreCounts(issues: map<string, nat>, segments: seq<SegmentMeta>)
    requires Tallies(issues, AllIssues(segments))
    ensures issues == IssueCounts(segments)
  {
  }

  /** The inner `forEach` of `collectSegmentInsights`: one increment per issue of one segment. */
  method TallyIssues(issues: map<string, nat>, listed: seq<string>, ghost done: seq<string>)
    returns (issues': map<string, nat>)
    requires Tallies(issues, done)
    ensures Tallies(issues', done + listed)
  {
    issues' := issues;
    for j := 0 to |listed|
      invariant Tallies(issues', done + listed[..j])
    {
      var issue := listed[j];
      TallyOne(issues', done + listed[..j], issue);
      assert done + listed[..j + 1] == done + listed[..j] + [issue];
      issues' := issues'[issue := (if issue in issues' then issues'[issue] else 0) + 1];
    }
    assert listed[..|listed|] == listed;
  }

  /** `collectSegmentInsights`: the count of every issue listed by the route's segments. */
  method CollectSegmentInsights(segments: seq<SegmentMeta>) returns (issues: map<string, nat>)
    ensures issues == IssueCounts(segments)
  {
    issues := map[];
    for i := 0 to |segments|
      invariant Tallies(issues, AllIssues(segments[..i]))
    {
      issues := TallyIssues(issues, segments[i].issues, AllIssues(segments[..i]));
      assert segments[..i + 1][..i] == segments[..i];
    }
    assert segments[..|segments|] == segments;
    TalliesAreCounts(issues, segments);
  }

  datatype Guidance = Guidance(index: nat, summary: string, distance: Option<real>, issues: seq<string>,
                               confidence: Option<string>)

  const AccessibleSummary := "Proceed along accessible segment"
  const CautionSummary := "Proceed with caution (limited accessibility)"

  function GuidanceFor(segment: SegmentMeta, index: nat): Guidance {
    Guidance(index, if segment.accessible then AccessibleSummary else CautionSummary, Some(segment.length),
             segment.issues, if segment.confidence == "" then None else Some(segment.confidence))
  }

  /**
   * `segments.map(...)` into guidance: one entry per segment at its own
   * index, cautious exactly for the segments that are not accessible.
   */
  function GuidanceOf(segments: seq<SegmentMeta>): (g: seq<Guidance>)
    ensures |g| == |segments|
    ensures forall i :: 0 <= i < |g| ==> g[i].index == i && g[i].issues == segments[i].issues
    ensures forall i :: 0 <= i < |g| ==> (g[i].summary == AccessibleSummary <==> segments[i].accessible)
    ensures forall i :: 0 <= i < |g| ==> (g[i].summary == CautionSummary <==> !segments[i].accessible)
    ensures forall i :: 0 <= i < |g| ==> g[i].distance == Some(segments[i].length)
  {
    seq(|segments|, i requires 0 <= i < |segments| => GuidanceFor(segments[i], i))
  }

  datatype Accessibility = Accessibility(averageScore: Option<real>, accessibleRatio: Option<real>,
                                         startDistanceToNetwork: Option<real>, endDistanceToNetwork: Option<real>,
                                         segmentIssues: map<string, nat>)

  /** A leg; the fields a fallback leg does not have are `None`. */
  datatype Leg = Leg(id: string, mode: string, disabilityType: string, distance: Option<real>, duration: real,
                     geometry: seq<LatLon>, start: Option<Endpoint>, end: Option<Endpoint>,
                     accessibility: Accessibility, segments: seq<SegmentMeta>, guidance: Option<seq<Guidance>>)

  /**
   * `buildWalkingLeg` on a successful router result: the router's
   * distance, the walking time for it, the polyline, both snapped ends, the
   * metrics, the issue counts and one guidance entry per segment.
   */
  function BuildWalkingLeg(result: WalkingResult, disabilityType: string): (leg: Leg)
    requires result.RouteFound?
    ensures leg.mode == "walking" && leg.distance == Some(result.metrics.totalDistance)
    ensures result.metrics.totalDistance > 0.0 ==> leg.duration * 60.0 * WalkingSpeedMps == result.metrics.totalDistance
    ensures result.metrics.totalDistance <= 0.0 ==> leg.duration == 0.0
    ensures leg.geometry == result.polyline && leg.segments == result.segments
    ensures leg.start == Some(result.start) && leg.end == Some(result.end)
    ensures leg.accessibility.segmentIssues == IssueCounts(result.segments)
    ensures leg.guidance == Some(GuidanceOf(result.segments))
    ensures leg.accessibility == Accessibility(Some(result.metrics.averageScore), Some(result.metrics.accessibleRatio),
                                               Some(result.startDistanceToNetwork), Some(result.endDistanceToNetwork),
                                               IssueCounts(result.segments))
  {
    var metrics := result.metrics;
    Leg("leg_1", "walking", disabilityType, Some(metrics.totalDistance), EstimateDurationMinutes(metrics.totalDistance),
        result.polyline, Some(result.start), Some(result.end),
        Accessibility(Some(metrics.averageScore), Some(metrics.accessibleRatio), Some(result.startDistanceToNetwork),
                      Some(result.endDistanceToNetwork), IssueCounts(result.segments)),
        result.segments, Some(GuidanceOf(result.segments)))
  }

  // ------------------------------------------------------------ envelope

  datatype RouteEnd = RouteEnd(requested: LatLon, snapped: Option<Endpoint>)

  datatype Summary = Summary(totalDistance: real, totalDuration: real, legs: nat)

  /** The route envelope; `kind` is the JSON `type`. */
  datatype Envelope = Envelope(kind: string, disabilityType: string, transportationMode: string, start: RouteEnd,
                         end: RouteEnd, legs: seq<Leg>, summary: Summary, warnings: seq<string>)

  /** `leg.distance_m || 0` for every leg. */
  function LegDistances(legs: seq<Leg>): (r: seq<real>)
    ensures |r| == |legs|
    ensures forall i :: 0 <= i < |legs| ==> r[i] == if legs[i].distance.Some? then legs[i].distance.value else 0.0
  {
    seq(|legs|, i requires 0 <= i < |legs| => if legs[i].distance.Some? then legs[i].distance.value else 0.0)
  }

  function LegDurations(legs: seq<Leg>): (r: seq<real>)
    ensures |r| == |legs| && forall i :: 0 <= i < |legs| ==> r[i] == legs[i].duration
  {
    seq(|legs|, i requires 0 <= i < |legs| => legs[i].duration)
  }

  /** `buildRouteEnvelope`: the trip type follows the mode, the summary counts and totals the legs. */
  function BuildRouteEnvelope(start: RouteEnd, end: RouteEnd, disabilityType: string, transportationMode: string,
                              legs: seq<Leg>, warnings: seq<string>): (r: Envelope)
    ensures r.kind == "accessible-walking" <==> transportationMode == "walking"
    ensures r.kind == "accessible-trip" <==> transportationMode != "walking"
    ensures r.summary.legs == |legs| && r.legs == legs && r.warnings == warnings
    ensures r.transportationMode == transportationMode && r.start == start && r.end == end
    ensures r.summary.totalDistance == Sum(LegDistances(legs)) && r.summary.totalDuration == Sum(LegDurations(legs))
  {
    Envelope(if transportationMode == "walking" then "accessible-walking" else "accessible-trip", disabilityType,
          transportationMode, start, end, legs,
          Summary(Sum(LegDistances(legs)), Sum(LegDurations(legs)), |legs|), warnings)
  }

  /** With one leg the totals are that leg's distance (0 when absent) and duration. */
  lemma OneLegTotals(start: RouteEnd, end: RouteEnd, disabilityType: string, transportationMode: string,
                     leg: Leg, warnings: seq<string>)
    ensures var r := BuildRouteEnvelope(start, end, disabilityType, transportationMode, [leg], warnings);
      && r.summary.totalDistance == (if leg.distance.Some? then leg.distance.value else 0.0)
      && r.summary.totalDuration == leg.duration
  {
    var d := if leg.distance.Some? then leg.distance.value else 0.0;
    var r := BuildRouteEnvelope(start, end, disabilityType, transportationMode, [leg], warnings);
    assert LegDistances([leg]) == [d] && [d][..0] == [];
    assert LegDurations([leg]) == [leg.duration] && [leg.duration][..0] == [];
    assert Sum([d]) == d && Sum([leg.duration]) == leg.duration;
    assert r.summary.totalDistance == Sum(LegDistances([leg]));
  }

  /** Totals over legs of non-negative distance and duration are non-negative. */
  lemma TotalsNonNegative(start: RouteEnd, end: RouteEnd, disabilityType: string, transportationMode: string,
                          legs: seq<Leg>, warnings: seq<string>)
    requires forall i :: 0 <= i < |legs| ==> legs[i].duration >= 0.0
    requires forall i :: 0 <= i < |legs| ==> legs[i].distance.None? || legs[i].distance.value >= 0.0
    ensures var r := BuildRouteEnvelope(start, end, disabilityType, transportationMode, legs, warnings);
      r.summary.totalDistance >= 0.0 && r.summary.totalDuration >= 0.0
  {
    SumNonNegative(LegDistances(legs));
    SumNonNegative(LegDurations(legs));
  }

  /**
   * The totals are running sums: one more leg adds its distance (0 when
   * absent) and its duration, and the other fields are unaffected.
   */
  lemma {:induction false} TotalsAppend(start: RouteEnd, end: RouteEnd, disabilityType: string, transportationMode: string,
                                        legs: seq<Leg>, leg: Leg, warnings: seq<string>)
    ensures var r := BuildRouteEnvelope(start, end, disabilityType, transportationMode, legs, warnings);
      var r' := BuildRouteEnvelope(start, end, disabilityType, transportationMode, legs + [leg], warnings);
      && r'.summary.totalDistance == r.summary.totalDistance + (if leg.distance.Some? then leg.distance.value else 0.0)
      && r'.summary.totalDuration == r.summary.totalDuration + leg.duration
      && r'.summary.legs == r.summary.legs + 1
  {
    assert LegDistances(legs + [leg])[..|legs|] == LegDistances(legs);
    assert LegDurations(legs + [leg])[..|legs|] == LegDurations(legs);
  }

  // ------------------------------------------------------------ warnings

  const StartFarWarning := "Your current location is far from the accessible network; expect an unsnapped approach."
  const EndFarWarning := "Your destination is far from the accessible network; final meters may be unverified."
  const NoSegmentsWarning := "No detailed segments returned for this route."

  /** `routeResult.metrics?.start_distance_to_network_m`: only a found route has metrics. */
  function StartOffset(result: WalkingResult): Option<real> {
    if result.RouteFound? then Some(result.startDistanceToNetwork) else None
  }

  function EndOffset(result: WalkingResult): Option<real> {
    if result.RouteFound? then Some(result.endDistanceToNetwork) else None
  }

  /** `!routeResult.segments?.length`. */
  predicate NoSegments(result: WalkingResult) {
    !result.RouteFound? || |result.segments| == 0
  }

  /** The warnings `buildWarnings` pushes, in order. */
  function Warnings(result: WalkingResult): seq<string> {
    (if StartOffset(result).Some? && StartOffset(result).value > 50.0 then [StartFarWarning] else [])
    + (if EndOffset(result).Some? && EndOffset(result).value > 50.0 then [EndFarWarning] else [])
    + (if NoSegments(result) then [NoSegmentsWarning] else [])
  }

  /** `buildWarnings`. */
  method BuildWarnings(result: WalkingResult) returns (warnings: seq<string>)
    ensures warnings == Warnings(result)
  {
    warnings := [];
    var startOffset, endOffset := StartOffset(result), EndOffset(result);
    if startOffset.Some? && startOffset.value > 50.0 {
      warnings := warnings + [StartFarWarning];
    }
    if endOffset.Some? && endOffset.value > 50.0 {
      warnings := warnings + [EndFarWarning];
    }
    if !result.RouteFound? || |result.segments| == 0 {
      warnings := warnings + [NoSegmentsWarning];
    }
  }

  /**
   * At most three warnings, none twice: one for a start more than 50 m off
   * the network, one for such an end, one for a result without segments,
   * and they come in that order.
   */
  lemma WarningsCases(result: WalkingResult)
    ensures var w := Warnings(result);
      && |w| <= 3
      && (StartFarWarning in w <==> StartOffset(result).Some? && StartOffset(result).value > 50.0)
      && (EndFarWarning in w <==> EndOffset(result).Some? && EndOffset(result).value > 50.0)
      && (NoSegmentsWarning in w <==> NoSegments(result))
      && (forall i, j :: 0 <= i < j < |w| ==> w[i] != w[j])
      && (StartFarWarning in w ==> w[0] == StartFarWarning)
      && (NoSegmentsWarning in w ==> w[|w| - 1] == NoSegmentsWarning)
  {
  }

  // ------------------------------------------------------------ outcomes

  /** A route, or an error with its `code` (absent on errors that set none) and message. */
  datatype Outcome = Success(route: Envelope) | Failure(code: Option<string>, message: string)

  const NoRouteMessage := "Unable to generate an accessible route between these points."
  const ProjectionMessage := "Unable to project start or end coordinate onto the accessible network."
  const TransitNotImplemented := "Transit integration not yet implemented; falling back to walking route."

  /** `noRouteError` (its `details` are not kept). */
  function NoRouteError(): Outcome {
    Failure(Some("no_accessible_route"), NoRouteMessage)
  }

  /** The route `handleWalkingRouting` returns for a found route. */
  function WalkingEnvelope(startLatLon: LatLon, endLatLon: LatLon, result: WalkingResult, disabilityType: string): Envelope
    requires result.RouteFound?
  {
    BuildRouteEnvelope(RouteEnd(startLatLon, Some(result.start)), RouteEnd(endLatLon, Some(result.end)),
                       disabilityType, "walking", [BuildWalkingLeg(result, disabilityType)], Warnings(result))
  }

  /** What `handleWalkingRouting` makes of each router result. */
  function WalkingOutcome(startLatLon: LatLon, endLatLon: LatLon, result: WalkingResult, disabilityType: string): Outcome {
    match result
    case Unprojectable => Failure(None, ProjectionMessage)
    case NoPathFound(_, _) => NoRouteError()
    case RouteFound(_, _, _, _, _, _, _, _) => Success(WalkingEnvelope(startLatLon, endLatLon, result, disabilityType))
  }

  /** Both ends snap to a node with a non-empty key. */
  ghost predicate Projectable(segments: seq<WalkSegment>, from: LatLon, to: LatLon, options: GraphOptions,
                              coordKey: LatLon -> string, haversine: (LatLon, LatLon) -> real)
  {
    var g := Built(segments, options, coordKey, haversine);
    Snapped(NearestOf(from, g.nodePositions, g.nodeOrder, haversine).key)
    && Snapped(NearestOf(to, g.nodePositions, g.nodeOrder, haversine).key)
  }

  /** Both ends snap, and the end's node is reachable from the start's. */
  ghost predicate RouteExists(segments: seq<WalkSegment>, from: LatLon, to: LatLon, options: GraphOptions,
                              coordKey: LatLon -> string, haversine: (LatLon, LatLon) -> real)
  {
    var g := Built(segments, options, coordKey, haversine);
    && Projectable(segments, from, to, options, coordKey, haversine)
    && Reachable(g.nodes, NearestOf(from, g.nodePositions, g.nodeOrder, haversine).key.value,
                 NearestOf(to, g.nodePositions, g.nodeOrder, haversine).key.value)
  }

  /** What the walking router promises about its result for these inputs. */
  ghost predicate RouterContract(result: WalkingResult, segments: seq<WalkSegment>, from: LatLon, to: LatLon,
                                 options: GraphOptions, coordKey: LatLon -> string, haversine: (LatLon, LatLon) -> real)
  {
    && (result.Unprojectable? <==> !Projectable(segments, from, to, options, coordKey, haversine))
    && (result.RouteFound? <==> RouteExists(segments, from, to, options, coordKey, haversine))
    && (result.RouteFound? ==> result.metrics.totalDistance == TotalDistance(result.segments))
  }

  /**
   * `handleWalkingRouting` over already loaded segments: the router's result,
   * thrown on as `noRouteError` when no path was found, wrapped into a
   * one-leg walking route when one was.
   */
  method HandleWalkingRouting(startLatLon: LatLon, endLatLon: LatLon, disabilityType: string,
                              segments: seq<WalkSegment>, options: GraphOptions, coordKey: LatLon -> string,
                              haversine: (LatLon, LatLon) -> real)
    returns (r: Outcome, ghost result: WalkingResult)
    requires DistanceNonNegative(haversine)
    ensures RouterContract(result, segments, startLatLon, endLatLon, options, coordKey, haversine)
    ensures r == WalkingOutcome(startLatLon, endLatLon, result, disabilityType)
    ensures r.Success? <==> RouteExists(segments, startLatLon, endLatLon, options, coordKey, haversine)
  {
    var found, routeKeys, routeEdges := FindAccessibleWalkingRoute(segments, startLatLon, endLatLon, options, coordKey, haversine);
    result := found;
    if !found.RouteFound? {
      if found.Unprojectable? {
        return Failure(None, ProjectionMessage), result;
      }
      return NoRouteError(), result;
    }
    var leg := BuildWalkingLeg(found, disabilityType);
    var warnings := BuildWarnings(found);
    r := Success(BuildRouteEnvelope(RouteEnd(startLatLon, Some(found.start)), RouteEnd(endLatLon, Some(found.end)),
                                    disabilityType, "walking", [leg], warnings));
  }

  // ------------------------------------------------------------ transit

  /** A planned leg: its `mode` and the walking router's fields spread into it. */
  datatype TripLeg = TripLeg(mode: Option<string>, result: WalkingResult)

  datatype Trip = Trip(warnings: Option<seq<string>>, legs: Option<seq<TripLeg>>)

  /**
   * `planAccessibleTrip` with `useTransit` set: without transit data it runs
   * the walking router and returns one `WALK` leg and a warning; `None` is
   * the router's thrown error passing through.
   */
  method PlanAccessibleTrip(from: LatLon, to: LatLon, segments: seq<WalkSegment>, options: GraphOptions,
                            coordKey: LatLon -> string, haversine: (LatLon, LatLon) -> real)
    returns (trip: Option<Trip>, result: WalkingResult)
    requires DistanceNonNegative(haversine)
    ensures RouterContract(result, segments, from, to, options, coordKey, haversine)
    ensures trip.None? <==> result.Unprojectable?
    ensures trip.Some? ==> trip.value == StubTrip(result)
  {
    var found, routeKeys, routeEdges := FindAccessibleWalkingRoute(segments, from, to, options, coordKey, haversine);
    result := found;
    if found.Unprojectable? {
      return None, result;
    }
    trip := Some(Trip(Some([TransitNotImplemented]), Some([TripLeg(Some("WALK"), found)])));
  }

  function StubTrip(result: WalkingResult): Trip {
    Trip(Some([TransitNotImplemented]), Some([TripLeg(Some("WALK"), result)]))
  }

  /** `walkingLeg.mode || 'transit'`. */
  function ModeOrTransit(mode: Option<string>): string {
    if mode.Some? && mode.value != "" then mode.value else "transit"
  }

  /**
   * The leg built from a planned leg that is not a successful walk: its
   * mode, the router's distance and polyline when there are any, and no
   * snapped ends or guidance.
   */
  function FallbackLeg(leg: TripLeg, disabilityType: string): (r: Leg)
    ensures r.mode == ModeOrTransit(leg.mode) && r.guidance.None? && r.start.None? && r.end.None?
    ensures r.distance.Some? <==> leg.result.RouteFound?
    ensures !leg.result.RouteFound? ==> r.duration == 0.0 && r.geometry == [] && r.segments == []
  {
    var result := leg.result;
    if result.RouteFound? then
      Leg("leg_1", ModeOrTransit(leg.mode), disabilityType, Some(result.metrics.totalDistance),
          EstimateDurationMinutes(result.metrics.totalDistance), result.polyline, None, None,
          Accessibility(Some(result.metrics.averageScore), Some(result.metrics.accessibleRatio), None, None,
                        IssueCounts(result.segments)),
          result.segments, None)
    else
      Leg("leg_1", ModeOrTransit(leg.mode), disabilityType, None, EstimateDurationMinutes(0.0), [], None, None,
          Accessibility(None, None, None, None, IssueCounts([])), [], None)
  }

  /**
   * `handleTransitRouting` once the trip is planned: no legs is
   * `noRouteError`; otherwise a one-leg transit route whose leg is the
   * walking leg when the first planned leg is a successful walk and the
   * fallback leg otherwise, with the trip's warnings followed by the
   * walking warnings of a successful leg.
   */
  function HandleTransitRouting(trip: Trip, startLatLon: LatLon, endLatLon: LatLon, disabilityType: string): (r: Outcome)
    ensures r.Failure? <==> trip.legs.None? || trip.legs.value == []
    ensures r.Failure? ==> r == NoRouteError()
    ensures r.Success? ==> r.route.transportationMode == "transit" && r.route.kind == "accessible-trip"
    ensures r.Success? ==> |r.route.legs| == 1 && r.route.summary.legs == 1
    ensures r.Success? ==>
      var first := trip.legs.value[0];
      && r.route.warnings == (if trip.warnings.Some? then trip.warnings.value else [])
                             + (if first.result.RouteFound? then Warnings(first.result) else [])
      && (first.mode == Some("WALK") && first.result.RouteFound? ==>
            r.route.legs[0] == BuildWalkingLeg(first.result, disabilityType))
      && (first.mode != Some("WALK") || !first.result.RouteFound? ==> r.route.legs[0] == FallbackLeg(first, disabilityType))
  {
    if trip.legs.None? || trip.legs.value == [] then NoRouteError()
    else
      var first := trip.legs.value[0];
      var leg := if first.mode == Some("WALK") && first.result.RouteFound? then BuildWalkingLeg(first.result, disabilityType)
                 else FallbackLeg(first, disabilityType);
      var warnings := (if trip.warnings.Some? then trip.warnings.value else [])
                      + (if first.result.RouteFound? then Warnings(first.result) else []);
      Success(BuildRouteEnvelope(RouteEnd(startLatLon, None), RouteEnd(endLatLon, None), disabilityType, "transit",
                                 [leg], warnings))
  }

  /**
   * For a found route, transit mode returns the walking route's leg and
   * totals, with the planner's warning in front, under the transit type.
   */
  lemma TransitMatchesWalking(startLatLon: LatLon, endLatLon: LatLon, result: WalkingResult, disabilityType: string)
    requires result.RouteFound?
    ensures var walk := WalkingOutcome(startLatLon, endLatLon, result, disabilityType);
      var transit := HandleTransitRouting(StubTrip(result), startLatLon, endLatLon, disabilityType);
      && walk.Success? && transit.Success?
      && transit.route.legs == walk.route.legs
      && transit.route.summary == walk.route.summary
      && transit.route.warnings == [TransitNotImplemented] + walk.route.warnings
      && walk.route.kind == "accessible-walking" && transit.route.kind == "accessible-trip"
  {
  }

  /**
   * When no path is found, walking mode reports `no_accessible_route`
   * while transit mode still returns a route: one `WALK` leg with no
   * distance, no geometry and no segments.
   */
  lemma TransitWithoutPath(startLatLon: LatLon, endLatLon: LatLon, result: WalkingResult, disabilityType: string)
    requires result.NoPathFound?
    ensures WalkingOutcome(startLatLon, endLatLon, result, disabilityType) == NoRouteError()
    ensures var transit := HandleTransitRouting(StubTrip(result), startLatLon, endLatLon, disabilityType);
      && transit.Success? && transit.route.warnings == [TransitNotImplemented]
      && transit.route.legs[0].mode == "WALK" && transit.route.legs[0].distance.None?
      && transit.route.legs[0].geometry == [] && transit.route.summary.totalDistance == 0.0
  {
    var transit := HandleTransitRouting(StubTrip(result), startLatLon, endLatLon, disabilityType);
    OneLegTotals(RouteEnd(startLatLon, None), RouteEnd(endLatLon, None), disabilityType, "transit",
                 transit.route.legs[0], transit.route.warnings);
  }

  // ------------------------------------------------------------ dispatch

  function UnsupportedModeWarning(mode: string): string {
    "Transportation mode \"" + mode + "\" is not supported yet; defaulted to walking."
  }

  /** The fix-up for an unknown mode: one more warning, and the mode set to walking. */
  function DefaultedToWalking(outcome: Outcome, mode: string): Outcome {
    if outcome.Success? then
      Success(outcome.route.(warnings := outcome.route.warnings + [UnsupportedModeWarning(mode)],
                             transportationMode := "walking"))
    else outcome
  }

  /**
   * An unknown mode yields the walking outcome: the same failure, or the
   * same route with the mode set to walking and exactly one more warning,
   * naming the mode, at the end.
   */
  lemma UnknownModeIsWalking(startLatLon: LatLon, endLatLon: LatLon, result: WalkingResult, disabilityType: string,
                             mode: string)
    ensures var walk := WalkingOutcome(startLatLon, endLatLon, result, disabilityType);
      var r := DefaultedToWalking(walk, mode);
      && (r.Success? <==> walk.Success?)
      && (r.Failure? ==> r == walk)
      && (r.Success? ==> r.route.legs == walk.route.legs && r.route.summary == walk.route.summary
                         && r.route.kind == "accessible-walking" && r.route.transportationMode == "walking"
                         && r.route.warnings[..|r.route.warnings| - 1] == walk.route.warnings
                         && r.route.warnings[|r.route.warnings| - 1] == UnsupportedModeWarning(mode))
  {
  }

  /** The router's contract splits its results into the three outcomes. */
  lemma WalkingOutcomeCases(startLatLon: LatLon, endLatLon: LatLon, result: WalkingResult, disabilityType: string,
                            segments: seq<WalkSegment>, options: GraphOptions, coordKey: LatLon -> string,
                            haversine: (LatLon, LatLon) -> real)
    requires RouterContract(result, segments, startLatLon, endLatLon, options, coordKey, haversine)
    ensures var r := WalkingOutcome(startLatLon, endLatLon, result, disabilityType);
      && (r.Success? <==> RouteExists(segments, startLatLon, endLatLon, options, coordKey, haversine))
      && (r == NoRouteError() <==> Projectable(segments, startLatLon, endLatLon, options, coordKey, haversine)
                                   && !RouteExists(segments, startLatLon, endLatLon, options, coordKey, haversine))
      && (r == Failure(None, ProjectionMessage) <==> !Projectable(segments, startLatLon, endLatLon, options, coordKey, haversine))
  {
  }

  /**
   * The mode `generateAccessibleRoute` dispatches on and names in its
   * warning: `walking` when the argument is missing, the text `null` (as the
   * template literal renders it) when it is `null`.
   */
  function ModeName(transportationMode: Arg<string>): (m: string)
    ensures transportationMode.Undefined? ==> m == "walking"
    ensures transportationMode.Null? ==> m != "walking" && m != "transit" && m == "null"
    ensures transportationMode.Given? ==> m == transportationMode.value
  {
    match transportationMode
    case Undefined => "walking"
    case Null => "null"
    case Given(mode) => mode
  }

  /**
   * `generateAccessibleRoute`: both coordinates are normalised first (a bad
   * one fails with its message), a missing mode defaults to walking and a
   * missing disability type to wheelchair; walking and transit have their own
   * handlers, and any other mode is walked with a warning.
   */
  method GenerateAccessibleRoute(start: Option<Coordinate>, end: Option<Coordinate>, disabilityType: Option<string>,
                                 transportationMode: Arg<string>, segments: seq<WalkSegment>,
                                 options: GraphOptions, coordKey: LatLon -> string,
                                 haversine: (LatLon, LatLon) -> real)
    returns (r: Outcome, ghost result: WalkingResult)
    requires DistanceNonNegative(haversine)
    ensures NormalizeCoordinate(start).None? ==> r == Failure(None, CoordinateError("start"))
    ensures NormalizeCoordinate(start).Some? && NormalizeCoordinate(end).None? ==> r == Failure(None, CoordinateError("end"))
    ensures NormalizeCoordinate(start).Some? && NormalizeCoordinate(end).Some? ==>
      var from := LatLon(NormalizeCoordinate(start).value.lat, NormalizeCoordinate(start).value.lon);
      var to := LatLon(NormalizeCoordinate(end).value.lat, NormalizeCoordinate(end).value.lon);
      var kind := if disabilityType.Some? then disabilityType.value else "wheelchair";
      var mode := ModeName(transportationMode);
      && RouterContract(result, segments, from, to, options, coordKey, haversine)
      && (mode == "walking" ==> r == WalkingOutcome(from, to, result, kind))
      && (mode == "transit" ==> r == if result.Unprojectable? then Failure(None, ProjectionMessage)
                                     else HandleTransitRouting(StubTrip(result), from, to, kind))
      && (mode != "walking" && mode != "transit" ==> r == DefaultedToWalking(WalkingOutcome(from, to, result, kind), mode))
  {
    var normalizedStart := NormalizeCoordinate(start);
    if normalizedStart.None? {
      return Failure(None, CoordinateError("start")), Unprojectable;
    }
    var normalizedEnd := NormalizeCoordinate(end);
    if normalizedEnd.None? {
      return Failure(None, CoordinateError("end")), Unprojectable;
    }
    var startLatLon := LatLon(normalizedStart.value.lat, normalizedStart.value.lon);
    var endLatLon := LatLon(normalizedEnd.value.lat, normalizedEnd.value.lon);
    var kind := if disabilityType.Some? then disabilityType.value else "wheelchair";
    var mode := ModeName(transportationMode);
    if mode == "walking" {
      r, result := HandleWalkingRouting(startLatLon, endLatLon, kind, segments, options, coordKey, haversine);
      return;
    }
    if mode == "transit" {
      var trip;
      trip, result := PlanAccessibleTrip(startLatLon, endLatLon, segments, options, coordKey, haversine);
      if trip.None? {
        return Failure(None, ProjectionMessage), result;
      }
      r := HandleTransitRouting(trip.value, startLatLon, endLatLon, kind);
      return;
    }
    r, result := HandleWalkingRouting(startLatLon, endLatLon, kind, segments, options, coordKey, haversine);
    if r.Success? {
      var route := r.route;
      route := route.(warnings := route.warnings + [UnsupportedModeWarning(mode)]);
      route := route.(transportationMode := "walking");
      r := Success(route);
    }
  }
}
