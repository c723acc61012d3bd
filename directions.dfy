/**
 * The client's turn-by-turn helpers: the turn between two bearings, the
 * compass label of a bearing, the distance text, the walking time, and the
 * list of instructions built from a route's segments. Bearings come from a
 * function passed in (the spherical bearing formula is not modelled).
 */
module Directions {
  import opened Common

  /** `Math.round`: halves go up. */
  function Round(x: real): (r: int)
    ensures x - 0.5 < r as real <= x + 0.5
  {
    (x + 0.5).Floor
  }

  /** `Math.ceil`. */
  function Ceil(x: real): (r: int)
    ensures x <= r as real < x + 1.0
  {
    -((-x).Floor)
  }

  /** JavaScript `a % 8`: the remainder takes the sign of the dividend. */
  function Rem8(a: int): (r: int)
    ensures a >= 0 ==> 0 <= r < 8 && (a - r) % 8 == 0
    ensures a < 0 ==> -8 < r <= 0 && (a - r) % 8 == 0
  {
    if a >= 0 then a % 8 else -((-a) % 8)
  }

  function Abs(x: real): real {
    if x < 0.0 then -x else x
  }

  /** The bearing change, brought into [-180, 180] by at most one turn either way. */
  function TurnAngle(bearing1: real, bearing2: real): (angle: real)
    ensures angle == bearing2 - bearing1 || angle == bearing2 - bearing1 - 360.0 || angle == bearing2 - bearing1 + 360.0
    ensures 0.0 <= bearing1 < 360.0 && 0.0 <= bearing2 < 360.0 ==> -180.0 <= angle <= 180.0
  {
    var angle := bearing2 - bearing1;
    var angle' := if angle > 180.0 then angle - 360.0 else angle;
    if angle' < -180.0 then angle' + 360.0 else angle'
  }

  /** `getTurnDirection`. */
  function TurnDirection(bearing1: real, bearing2: real): (r: string)
    ensures r in TurnKinds()
  {
    var angle := TurnAngle(bearing1, bearing2);
    var absAngle := Abs(angle);
    if absAngle < 20.0 then "straight"
    else if absAngle > 160.0 then "u-turn"
    else if angle > 0.0 then (if absAngle > 90.0 then "sharp-right" else "right")
    else if absAngle > 90.0 then "sharp-left"
    else "left"
  }

  function TurnKinds(): set<string> {
    {"straight", "u-turn", "right", "sharp-right", "left", "sharp-left"}
  }

  /**
   * The six turn kinds partition the angle: under 20 degrees either way is
   * straight, over 160 a U-turn, and in between the side is the sign of the
   * angle, sharp beyond 90 degrees.
   */
  lemma TurnDirectionCases(bearing1: real, bearing2: real)
    ensures var angle, r := TurnAngle(bearing1, bearing2), TurnDirection(bearing1, bearing2);
      && (r == "straight" <==> -20.0 < angle < 20.0)
      && (r == "u-turn" <==> angle < -160.0 || angle > 160.0)
      && (r == "right" <==> 20.0 <= angle <= 90.0)
      && (r == "sharp-right" <==> 90.0 < angle <= 160.0)
      && (r == "left" <==> -90.0 <= angle <= -20.0)
      && (r == "sharp-left" <==> -160.0 <= angle < -90.0)
  {
  }

  /** Keeping the same bearing is going straight. */
  lemma SameBearingIsStraight(bearing: real)
    ensures TurnDirection(bearing, bearing) == "straight"
  {
  }

  /** The kind seen with left and right exchanged. */
  function Mirror(kind: string): string {
    match kind
    case "right" => "left"
    case "left" => "right"
    case "sharp-right" => "sharp-left"
    case "sharp-left" => "sharp-right"
    case _ => kind
  }

  /** For compass bearings, turning back the other way is the mirror image. */
  lemma ReverseTurnIsMirrored(bearing1: real, bearing2: real)
    requires 0.0 <= bearing1 < 360.0 && 0.0 <= bearing2 < 360.0
    ensures TurnDirection(bearing2, bearing1) == Mirror(TurnDirection(bearing1, bearing2))
  {
    assert TurnAngle(bearing2, bearing1) == -TurnAngle(bearing1, bearing2);
  }

  function CardinalLabels(): seq<string> {
    ["N", "NE", "E", "SE", "S", "SW", "W", "NW"]
  }

  /** `getCardinalDirection`: `None` is the `undefined` a negative index reads. */
  function CardinalDirection(bearing: real): (r: Option<string>)
    ensures bearing >= 0.0 ==> r.Some? && r.value in CardinalLabels()
  {
    var index := Rem8(Round(bearing / 45.0));
    if 0 <= index < 8 then Some(CardinalLabels()[index]) else None
  }

  /** Each label covers the 45-degree sector centred on its direction, lower edge included. */
  lemma CardinalSector(bearing: real, k: int)
    requires 0 <= k < 8 && bearing >= 0.0
    requires 45.0 * k as real - 22.5 <= bearing < 45.0 * k as real + 22.5
    ensures CardinalDirection(bearing) == Some(CardinalLabels()[k])
  {
    assert k as real - 0.5 <= bearing / 45.0 < k as real + 0.5;
    assert Round(bearing / 45.0) == k;
  }

  /** Bearings just short of a full turn are North again. */
  lemma NearlyFullTurnIsNorth(bearing: real)
    requires 337.5 <= bearing < 382.5
    ensures CardinalDirection(bearing) == Some("N")
  {
    assert 7.5 <= bearing / 45.0 < 8.5;
    assert Round(bearing / 45.0) == 8;
  }

  /** The text `formatDistance` builds: rounded metres, or kilometres (printed to one decimal). */
  datatype DistanceText = Metres(metres: int) | Kilometres(km: real)

  /** `formatDistance`. */
  function FormatDistance(meters: real): (r: DistanceText)
    ensures r.Metres? <==> meters < 1000.0
    ensures r.Metres? ==> meters - 0.5 < r.metres as real <= meters + 0.5
    ensures r.Kilometres? ==> r.km * 1000.0 == meters && r.km >= 1.0
  {
    if meters < 1000.0 then Metres(Round(meters)) else Kilometres(meters / 1000.0)
  }

  const DefaultSpeedMps: real := 1.15

  /** `estimateWalkingTime(distanceMeters)` at the default speed; `None` is a missing distance. */
  function EstimateWalkingTime(distanceMeters: Option<real>): (r: int)
    ensures distanceMeters.None? || distanceMeters.value <= 0.0 ==> r == 0
    ensures distanceMeters.Some? && distanceMeters.value > 0.0 ==>
              var minutes := distanceMeters.value / DefaultSpeedMps / 60.0;
              r >= 1 && r as real - 1.0 < minutes <= r as real
  {
    if distanceMeters.None? || distanceMeters.value <= 0.0 then 0
    else Ceil(distanceMeters.value / DefaultSpeedMps / 60.0)
  }

  /** A route segment as the client receives it; absent fields are `None`. */
  datatype RouteSegment = RouteSegment(path: Option<seq<LatLon>>, length: Option<real>, issues: Option<seq<string>>,
                                       accessible: bool, score: real, confidence: Option<string>)

  /** One instruction; `score` and `confidence` are absent on some kinds. */
  datatype Direction = Direction(kind: string, instruction: string, distance: real, distanceText: DistanceText,
                                 issues: seq<string>, accessible: bool, score: Option<real>, confidence: Option<string>)

  /** `segment.length || 0`. */
  function LengthOrZero(segment: RouteSegment): real {
    if segment.length.Some? then segment.length.value else 0.0
  }

  function IssuesOrEmpty(segment: RouteSegment): seq<string> {
    if segment.issues.Some? then segment.issues.value else []
  }

  /** The `switch` from turn kind to instruction text. */
  function Instruction(kind: string): string {
    match kind
    case "left" => "Turn left"
    case "right" => "Turn right"
    case "sharp-left" => "Turn sharp left"
    case "sharp-right" => "Turn sharp right"
    case "u-turn" => "Make a U-turn"
    case "straight" => "Continue straight"
    case _ => "Continue"
  }

  /** Does the first segment open with a `start` entry? */
  predicate HasStart(segments: seq<RouteSegment>) {
    |segments| > 0 && segments[0].path.Some? && |segments[0].path.value| > 1
  }

  function StartEntry(segment: RouteSegment, bearing: (LatLon, LatLon) -> real): Direction
    requires segment.path.Some? && |segment.path.value| > 1
  {
    var path := segment.path.value;
    var heading := CardinalDirection(bearing(path[0], path[1]));
    Direction("start", "Head " + (if heading.Some? then heading.value else "undefined"),
              LengthOrZero(segment), FormatDistance(LengthOrZero(segment)), IssuesOrEmpty(segment),
              segment.accessible, Some(segment.score), None)
  }

  /** Segment `i` gets a turn entry when it and the segment before both have a path of two points or more. */
  predicate Eligible(segments: seq<RouteSegment>, i: int) {
    && 1 <= i < |segments|
    && segments[i - 1].path.Some? && segments[i].path.Some?
    && |segments[i - 1].path.value| >= 2 && |segments[i].path.value| >= 2
  }

  /** The turn from the last leg of segment `i - 1` onto the first leg of segment `i`. */
  function TurnEntry(segments: seq<RouteSegment>, i: int, bearing: (LatLon, LatLon) -> real): (d: Direction)
    requires Eligible(segments, i)
    ensures d.kind in TurnKinds() && d.instruction == Instruction(d.kind)
  {
    var prevPath, currPath := segments[i - 1].path.value, segments[i].path.value;
    var kind := TurnDirection(bearing(prevPath[|prevPath| - 2], prevPath[|prevPath| - 1]),
                              bearing(currPath[0], currPath[1]));
    var segment := segments[i];
    Direction(kind, Instruction(kind), LengthOrZero(segment), FormatDistance(LengthOrZero(segment)),
              IssuesOrEmpty(segment), segment.accessible, Some(segment.score), segment.confidence)
  }

  /** The turn entries for segments `1 .. n - 1`, in order. */
  function TurnsUpTo(segments: seq<RouteSegment>, n: int, bearing: (LatLon, LatLon) -> real): seq<Direction>
    requires n <= |segments|
    decreases n
  {
    if n <= 1 then []
    else TurnsUpTo(segments, n - 1, bearing)
         + (if Eligible(segments, n - 1) then [TurnEntry(segments, n - 1, bearing)] else [])
  }

  function Arrival(): Direction {
    Direction("arrive", "Arrive at destination", 0.0, Metres(0), [], true, None, None)
  }

  /** What `generateDirections` returns; `None` is a missing segment list. */
  function DirectionsOf(segments: Option<seq<RouteSegment>>, bearing: (LatLon, LatLon) -> real): seq<Direction> {
    if segments.None? || |segments.value| == 0 then []
    else
      var segs := segments.value;
      (if HasStart(segs) then [StartEntry(segs[0], bearing)] else [])
      + TurnsUpTo(segs, |segs|, bearing) + [Arrival()]
  }

  /** `generateDirections`: a start entry, one entry per eligible turn, and the arrival, pushed in that order. */
  method GenerateDirections(segments: Option<seq<RouteSegment>>, bearing: (LatLon, LatLon) -> real)
    returns (directions: seq<Direction>)
    ensures directions == DirectionsOf(segments, bearing)
  {
    if segments.None? || |segments.value| == 0 {
      return [];
    }
    var segs := segments.value;
    directions := [];
    if segs[0].path.Some? && |segs[0].path.value| > 1 {
      directions := directions + [StartEntry(segs[0], bearing)];
    }
    ghost var start := directions;
    for i := 1 to |segs|
      invariant directions == start + TurnsUpTo(segs, i, bearing)
    {
      var prevSegment, currentSegment := segs[i - 1], segs[i];
      if prevSegment.path.None? || currentSegment.path.None? {
        continue;
      }
      if |prevSegment.path.value| < 2 || |currentSegment.path.value| < 2 {
        continue;
      }
      directions := directions + [TurnEntry(segs, i, bearing)];
    }
    directions := directions + [Arrival()];
  }

  /** The indices of the segments that get a turn entry, below `n`. */
  ghost function EligibleBelow(segments: seq<RouteSegment>, n: int): set<int> {
    set i | 1 <= i < n && Eligible(segments, i)
  }

  /** There are as many turn entries as eligible segments, and never more than one per segment after the first. */
  lemma {:induction false} TurnCount(segments: seq<RouteSegment>, n: int, bearing: (LatLon, LatLon) -> real)
    requires n <= |segments|
    ensures |TurnsUpTo(segments, n, bearing)| == |EligibleBelow(segments, n)|
    ensures |TurnsUpTo(segments, n, bearing)| <= if n > 1 then n - 1 else 0
    decreases n
  {
    if n > 1 {
      TurnCount(segments, n - 1, bearing);
      if Eligible(segments, n - 1) {
        assert EligibleBelow(segments, n) == EligibleBelow(segments, n - 1) + {n - 1};
      } else {
        assert EligibleBelow(segments, n) == EligibleBelow(segments, n - 1);
      }
    } else {
      assert EligibleBelow(segments, n) == {};
    }
  }

  /** The turn entries are exactly the turns at the eligible segments. */
  lemma {:induction false} TurnMembers(segments: seq<RouteSegment>, n: int, bearing: (LatLon, LatLon) -> real)
    requires n <= |segments|
    ensures forall i :: 1 <= i < n && Eligible(segments, i) ==> TurnEntry(segments, i, bearing) in TurnsUpTo(segments, n, bearing)
    ensures forall d :: d in TurnsUpTo(segments, n, bearing) ==>
              exists i :: 1 <= i < n && Eligible(segments, i) && d == TurnEntry(segments, i, bearing)
    decreases n
  {
    if n > 1 {
      TurnMembers(segments, n - 1, bearing);
      var before := TurnsUpTo(segments, n - 1, bearing);
      var last := if Eligible(segments, n - 1) then [TurnEntry(segments, n - 1, bearing)] else [];
      assert TurnsUpTo(segments, n, bearing) == before + last;
      forall d | d in before + last
        ensures exists i :: 1 <= i < n && Eligible(segments, i) && d == TurnEntry(segments, i, bearing)
      {
        if d !in before {
          assert Eligible(segments, n - 1) && d == TurnEntry(segments, n - 1, bearing);
        }
      }
    }
  }

  /** No list for no segments. */
  lemma NoSegmentsNoDirections(segments: Option<seq<RouteSegment>>, bearing: (LatLon, LatLon) -> real)
    requires segments.None? || segments.value == []
    ensures DirectionsOf(segments, bearing) == []
  {
  }

  /**
   * For a non-empty segment list the arrival (distance 0, accessible) comes
   * last, after an optional start entry and one turn entry per eligible
   * segment, so there is at most one entry per segment plus the arrival.
   */
  lemma DirectionsLength(segments: Option<seq<RouteSegment>>, bearing: (LatLon, LatLon) -> real)
    requires segments.Some? && segments.value != []
    ensures var r, segs := DirectionsOf(segments, bearing), segments.value;
      && r != []
      && r[|r| - 1] == Arrival() && r[|r| - 1].distance == 0.0 && r[|r| - 1].accessible
      && |r| == (if HasStart(segs) then 1 else 0) + |EligibleBelow(segs, |segs|)| + 1
      && |r| <= |segs| + 1
  {
    TurnCount(segments.value, |segments.value|, bearing);
  }

  /** A `start` entry comes first exactly when the first segment's path has more than one point. */
  lemma DirectionsStart(segments: Option<seq<RouteSegment>>, bearing: (LatLon, LatLon) -> real)
    requires segments.Some? && segments.value != []
    ensures var r := DirectionsOf(segments, bearing);
      r != [] && (r[0].kind == "start" <==> HasStart(segments.value))
  {
    var segs := segments.value;
    var turns := TurnsUpTo(segs, |segs|, bearing);
    if !HasStart(segs) && turns != [] {
      TurnMembers(segs, |segs|, bearing);
      assert turns[0] in turns;
    }
  }

  /**
   * Every entry between the start and the arrival is the turn at an
   * eligible segment, and its instruction is the text of its kind; the
   * `default` branch's plain "Continue" never shows up.
   */
  lemma DirectionsInstructions(segments: Option<seq<RouteSegment>>, bearing: (LatLon, LatLon) -> real)
    requires segments.Some? && segments.value != []
    ensures var r, segs := DirectionsOf(segments, bearing), segments.value;
      && (forall d :: d in r[..|r| - 1] && d.kind != "start" ==>
            exists i :: 1 <= i < |segs| && Eligible(segs, i) && d == TurnEntry(segs, i, bearing))
      && (forall d :: d in r[..|r| - 1] && d.kind != "start" ==> d.instruction == Instruction(d.kind))
      && (forall d :: d in r ==> d.instruction != "Continue")
  {
    var segs := segments.value;
    var r := DirectionsOf(segments, bearing);
    var start := if HasStart(segs) then [StartEntry(segs[0], bearing)] else [];
    var turns := TurnsUpTo(segs, |segs|, bearing);
    TurnMembers(segs, |segs|, bearing);
    assert r[..|r| - 1] == start + turns;
    forall d | d in r ensures d.instruction != "Continue" {
      if d in turns {
        var i :| 1 <= i < |segs| && Eligible(segs, i) && d == TurnEntry(segs, i, bearing);
      }
    }
  }
}
