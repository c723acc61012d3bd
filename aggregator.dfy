/**
 * The sidewalk segment scorer: a fixed rule table from OpenStreetMap /
 * OpenSidewalks tags to an accessibility score in [0, 1], a confidence level
 * and the list of issues found, plus the normalisation of raw segment
 * records (with venue accessibility signals) into the records the walking
 * router reads.
 */
module Aggregator {
  import opened Common
  import opened Text

  /** The `properties` object of a GeoJSON feature; `null` values count as absent. */
  type Properties = map<string, TagValue>

  const GoodSurfaces: set<string> := {"asphalt", "paved", "concrete", "concrete:lanes", "paving_stones"}
  const BadSurfaces: set<string> := {"gravel", "dirt", "ground", "grass", "cobblestone", "sand", "woodchips"}
  const BadSmoothness: set<string> := {"bad", "very_bad", "horrible", "very_horrible", "impassable"}
  const GoodSmoothness: set<string> := {"excellent", "good", "intermediate"}

  datatype Confidence = High | Medium | Low

  // ---------------------------------------------------------------- parsers

  /** `Math.abs`. */
  function Abs(x: real): (a: real)
    ensures a >= 0.0 && (a == x || a == -x)
  {
    if x < 0.0 then -x else x
  }

  /** `s` is a run of whitespace followed by a single `%` that ends the string. */
  predicate SpacesThenPercent(s: string)
    decreases |s|
  {
    s == "%" || (|s| >= 2 && IsSpace(s[0]) && SpacesThenPercent(s[1..]))
  }

  /** Spaces followed by `%` are such a run. */
  lemma {:induction false} SpacesThenPercentOf(spaces: string)
    requires AllSpaces(spaces)
    ensures SpacesThenPercent(spaces + "%")
    decreases |spaces|
  {
    if spaces != [] {
      assert (spaces + "%")[1..] == spaces[1..] + "%";
      SpacesThenPercentOf(spaces[1..]);
    }
  }

  /** A run of whitespace ending in `%` splits into its spaces and the `%`. */
  lemma {:induction false} SpacesThenPercentParts(s: string)
    requires SpacesThenPercent(s)
    ensures |s| >= 1 && s == s[..|s| - 1] + "%" && AllSpaces(s[..|s| - 1])
    decreases |s|
  {
    if s != "%" {
      var t := s[1..];
      SpacesThenPercentParts(t);
      var u := t[..|t| - 1];
      var spaces := s[..|s| - 1];
      assert spaces == [s[0]] + u;
      assert s == [s[0]] + t;
      forall i | 0 <= i < |spaces|
        ensures IsSpace(spaces[i])
      {
        if i > 0 {
          assert spaces[i] == u[i - 1];
        }
      }
    }
  }

  /** The fraction digits after the integer part: a dot and at least one digit, else none. */
  function FractionDigits(rest: string): (f: string)
    ensures AllDigits(f)
  {
    if |rest| >= 2 && rest[0] == '.' then DigitPrefix(rest[1..]) else []
  }

  /** What follows the number: `rest` without its fraction. */
  function AfterFraction(rest: string): string {
    var f := FractionDigits(rest);
    if f == [] then rest else rest[1 + |f|..]
  }

  /** `rest` is its fraction (with the dot) followed by what comes after it. */
  lemma FractionSplit(rest: string)
    ensures rest == (if FractionDigits(rest) == [] then "" else "." + FractionDigits(rest)) + AfterFraction(rest)
  {
    var f := FractionDigits(rest);
    if f != [] {
      assert rest == "." + rest[1..] && rest[1..] == f + rest[1 + |f|..];
    }
  }

  /** The unsigned part of the pattern, `\d+(?:\.\d+)?\s*%`, and the value it captures. */
  function UnsignedPercent(body: string): Option<real> {
    var intPart := DigitPrefix(body);
    var rest := body[|intPart|..];
    if intPart == [] || !SpacesThenPercent(AfterFraction(rest)) then None
    else Some(DecimalValue(intPart, FractionDigits(rest)))
  }

  /**
   * The regular expression `^(-?\d+(?:\.\d+)?)\s*%$`: the signed decimal
   * number it captures, or `None` when `s` does not match.
   */
  function ParsePercent(s: string): Option<real> {
    var negative := s != [] && s[0] == '-';
    match UnsignedPercent(if negative then s[1..] else s)
    case Some(v) => Some(if negative then -v else v)
    case None => None
  }

  /** The text of the unsigned part: integer digits, `.` and fraction digits when there is a fraction, spaces, `%`. */
  function UnsignedText(intPart: string, fracPart: string, spaces: string): string {
    intPart + (if fracPart == [] then "" else "." + fracPart) + spaces + "%"
  }

  /** The text the percent pattern describes: an optional minus before the unsigned part. */
  function PercentText(negative: bool, intPart: string, fracPart: string, spaces: string): string {
    (if negative then "-" else "") + UnsignedText(intPart, fracPart, spaces)
  }

  /** The well-formed parts of a percent text. */
  predicate PercentParts(intPart: string, fracPart: string, spaces: string) {
    intPart != [] && AllDigits(intPart) && AllDigits(fracPart) && AllSpaces(spaces)
  }

  /** What follows the integer digits of a percent text: its fraction, then spaces and `%`. */
  lemma {:induction false} FractionOfText(fracPart: string, spaces: string)
    requires AllDigits(fracPart) && AllSpaces(spaces)
    ensures var after := (if fracPart == [] then "" else "." + fracPart) + (spaces + "%");
      && !IsDigit(after[0])
      && FractionDigits(after) == fracPart
      && AfterFraction(after) == spaces + "%"
  {
    var tail := spaces + "%";
    assert tail[0] == if spaces != [] then spaces[0] else '%';
    if fracPart != [] {
      var after := "." + fracPart + tail;
      assert after[1..] == fracPart + tail;
      DigitPrefixOf(fracPart, tail);
    }
  }

  lemma {:induction false} UnsignedTextParses(intPart: string, fracPart: string, spaces: string)
    requires PercentParts(intPart, fracPart, spaces)
    ensures UnsignedPercent(UnsignedText(intPart, fracPart, spaces)) == Some(DecimalValue(intPart, fracPart))
    ensures var body := UnsignedText(intPart, fracPart, spaces);
      && DigitPrefix(body) == intPart
      && FractionDigits(body[|intPart|..]) == fracPart
      && AfterFraction(body[|intPart|..]) == spaces + "%"
  {
    var after := (if fracPart == [] then "" else "." + fracPart) + (spaces + "%");
    var body := UnsignedText(intPart, fracPart, spaces);
    UnsignedTextOf(body, intPart, after, fracPart, spaces + "%", spaces);
    FractionOfText(fracPart, spaces);
    DigitPrefixOf(intPart, after);
    assert body[|intPart|..] == after;
    SpacesThenPercentOf(spaces);
  }

  /** Text of the unsigned shape parses to its value. */
  lemma UnsignedTextParsesSigned(intPart: string, fracPart: string, spaces: string)
    requires PercentParts(intPart, fracPart, spaces)
    ensures ParsePercent(UnsignedText(intPart, fracPart, spaces)) == Some(DecimalValue(intPart, fracPart))
  {
    var u := UnsignedText(intPart, fracPart, spaces);
    assert u[0] == intPart[0];
    UnsignedTextParses(intPart, fracPart, spaces);
  }

  /** Text that starts with `-` parses as the negated unsigned part after it. */
  lemma ParsePercentNegative(s: string, u: string, v: real)
    requires s == "-" + u
    requires UnsignedPercent(u) == Some(v)
    ensures ParsePercent(s) == Some(-v)
  {
    assert s[1..] == u;
  }

  /** A minus sign before text of the unsigned shape negates its value. */
  lemma NegativeTextParses(intPart: string, fracPart: string, spaces: string)
    requires PercentParts(intPart, fracPart, spaces)
    ensures ParsePercent(PercentText(true, intPart, fracPart, spaces)) == Some(-DecimalValue(intPart, fracPart))
  {
    var u := UnsignedText(intPart, fracPart, spaces);
    var s := PercentText(true, intPart, fracPart, spaces);
    assert s == "-" + u;
    UnsignedTextParses(intPart, fracPart, spaces);
    ParsePercentNegative(s, u, DecimalValue(intPart, fracPart));
  }

  /** Without a minus sign, text of the unsigned shape reads as its value. */
  lemma PositiveTextParses(intPart: string, fracPart: string, spaces: string)
    requires PercentParts(intPart, fracPart, spaces)
    ensures ParsePercent(PercentText(false, intPart, fracPart, spaces)) == Some(DecimalValue(intPart, fracPart))
  {
    UnsignedTextParsesSigned(intPart, fracPart, spaces);
    assert PercentText(false, intPart, fracPart, spaces) == UnsignedText(intPart, fracPart, spaces);
  }

  /** Every text of the pattern's shape parses to its signed decimal value. */
  lemma {:induction false} PercentTextParses(negative: bool, intPart: string, fracPart: string, spaces: string)
    requires PercentParts(intPart, fracPart, spaces)
    ensures var v := DecimalValue(intPart, fracPart);
      ParsePercent(PercentText(negative, intPart, fracPart, spaces)) == Some(if negative then -v else v)
  {
    if negative {
      NegativeTextParses(intPart, fracPart, spaces);
    } else {
      PositiveTextParses(intPart, fracPart, spaces);
    }
  }

  lemma AcceptedUnsigned(body: string)
    requires UnsignedPercent(body).Some?
    ensures DigitPrefix(body) != [] && SpacesThenPercent(AfterFraction(body[|DigitPrefix(body)|..]))
  {
  }

  lemma UnsignedTextOf(body: string, intPart: string, rest: string, fracPart: string, tail: string, spaces: string)
    requires body == intPart + rest
    requires rest == (if fracPart == [] then "" else "." + fracPart) + tail
    requires tail == spaces + "%"
    ensures body == UnsignedText(intPart, fracPart, spaces)
  {
  }

  /** The parts an accepted unsigned text splits into. */
  lemma {:induction false} UnsignedParts(body: string) returns (intPart: string, fracPart: string, spaces: string)
    requires UnsignedPercent(body).Some?
    ensures PercentParts(intPart, fracPart, spaces) && body == UnsignedText(intPart, fracPart, spaces)
  {
    AcceptedUnsigned(body);
    intPart := DigitPrefix(body);
    var rest := body[|intPart|..];
    fracPart := FractionDigits(rest);
    var tail := AfterFraction(rest);
    spaces := tail[..|tail| - 1];
    SpacesThenPercentParts(tail);
    FractionSplit(rest);
    assert body == intPart + rest;
    UnsignedTextOf(body, intPart, rest, fracPart, tail, spaces);
  }

  /** Conversely, every text `ParsePercent` accepts has the pattern's shape. */
  lemma {:induction false} ParsedIsPercentText(s: string)
    requires ParsePercent(s).Some?
    ensures exists negative, intPart, fracPart, spaces ::
      PercentParts(intPart, fracPart, spaces) && s == PercentText(negative, intPart, fracPart, spaces)
  {
    var negative := s != [] && s[0] == '-';
    var body := if negative then s[1..] else s;
    var intPart, fracPart, spaces := UnsignedParts(body);
    assert s == PercentText(negative, intPart, fracPart, spaces);
  }

  /** `parseIncline`: the grade of a slope as a non-negative fraction, `None` for `null`. */
  function ParseIncline(value: Option<TagValue>): (r: Option<real>)
    ensures value.None? ==> r.None?
    ensures r.Some? ==> r.value >= 0.0
    ensures value.Some? && value.value.Num? ==> r == Some(Abs(value.value.n))
  {
    match value
    case None => None
    case Some(Num(n)) => Some(Abs(n))
    case Some(Str(raw)) => InclineText(Lower(Trim(raw)))
  }

  /** `parseIncline` on the trimmed, lower-cased text of a tag. */
  function InclineText(str: string): (r: Option<real>)
    ensures r.Some? ==> r.value >= 0.0
  {
    if str == "up" || str == "down" then Some(0.06)
    else match ParsePercent(str)
      case Some(p) => Some(Abs(p / 100.0))
      case None =>
        match ParseFloat(str)
        case Some(x) => Some(Abs(x))
        case None => None
  }

  /** `up` and `down` without a value read as a 6% grade. */
  lemma InclineUpDown(raw: string)
    requires Lower(Trim(raw)) == "up" || Lower(Trim(raw)) == "down"
    ensures ParseIncline(Some(Str(raw))) == Some(0.06)
  {
  }

  /** A percentage such as `-12.5 %` reads as its magnitude divided by 100. */
  lemma InclinePercent(str: string, p: real)
    requires str != "up" && str != "down"
    requires ParsePercent(str) == Some(p)
    ensures InclineText(str) == Some(Abs(p) / 100.0)
  {
    var q := p / 100.0;
    assert InclineText(str) == Some(Abs(q));
    assert Abs(q) == Abs(p) / 100.0;
  }

  /** A text that is neither a direction nor a percentage falls back to `parseFloat`, made absolute. */
  lemma InclineFallback(str: string)
    requires str != "up" && str != "down"
    requires ParsePercent(str).None?
    ensures InclineText(str) == (if ParseFloat(str).Some? then Some(Abs(ParseFloat(str).value)) else None)
  {
  }

  /** `value.replace(/[^\d.]/g, '')`. */
  function KeepDigitsAndDots(s: string): (r: string)
    ensures forall i :: 0 <= i < |r| ==> IsDigit(r[i]) || r[i] == '.'
    ensures |r| <= |s|
  {
    if s == [] then []
    else
      var rest := KeepDigitsAndDots(s[1..]);
      if IsDigit(s[0]) || s[0] == '.' then [s[0]] + rest else rest
  }

  /** The filter works character by character: it distributes over concatenation. */
  lemma {:induction false} KeepDigitsAndDotsAppend(a: string, b: string)
    ensures KeepDigitsAndDots(a + b) == KeepDigitsAndDots(a) + KeepDigitsAndDots(b)
    decreases |a|
  {
    if a == [] {
      assert a + b == b;
    } else {
      assert (a + b)[1..] == a[1..] + b;
      KeepDigitsAndDotsAppend(a[1..], b);
    }
  }

  /** A single character is kept exactly when it is a digit or a dot. */
  lemma KeepDigitsAndDotsChar(c: char)
    ensures KeepDigitsAndDots([c]) == if IsDigit(c) || c == '.' then [c] else []
  {
  }

  /** Text made only of digits and dots is kept unchanged. */
  lemma {:induction false} KeepDigitsAndDotsKeeps(s: string)
    requires forall i :: 0 <= i < |s| ==> IsDigit(s[i]) || s[i] == '.'
    ensures KeepDigitsAndDots(s) == s
    decreases |s|
  {
    if s != [] {
      KeepDigitsAndDotsKeeps(s[1..]);
    }
  }

  /** `parseWidth`: a width in metres; text is stripped of everything but digits and dots. */
  function ParseWidth(value: Option<TagValue>): (r: Option<real>)
    ensures value.None? ==> r.None?
    ensures value.Some? && value.value.Num? ==> r == Some(value.value.n)
  {
    match value
    case None => None
    case Some(Num(n)) => Some(n)
    case Some(Str(raw)) => ParseFloat(KeepDigitsAndDots(raw))
  }

  /** A width given as text never reads as negative: the sign is stripped before parsing. */
  lemma TextWidthNonNegative(raw: string)
    ensures ParseWidth(Some(Str(raw))).Some? ==> ParseWidth(Some(Str(raw))).value >= 0.0
  {
    ParseFloatUnsigned(KeepDigitsAndDots(raw));
  }

  // ------------------------------------------------------------- the tally

  /** The local state of `scoreSegment`: the running score, the issues and the signal counters. */
  datatype Tally = Tally(score: real, issues: seq<string>, signals: nat, positive: nat, negative: nat) {
    /** One issue was pushed for every negative signal. */
    predicate Consistent() {
      |issues| == negative
    }
  }

  const Start := Tally(0.9, [], 0, 0, 0)

  /**
   * The `apply(val, reason)` closure: adds `val` to the score, pushes
   * `reason` and counts a negative signal when `val < 0`, counts a positive
   * signal when `val > 0`, and always counts a signal.
   */
  function Apply(t: Tally, val: real, reason: string): (r: Tally)
    ensures r.score == t.score + val
    ensures r.signals == t.signals + 1
    ensures r.issues == (if val < 0.0 then t.issues + [reason] else t.issues)
    ensures r.negative == t.negative + (if val < 0.0 then 1 else 0)
    ensures r.positive == t.positive + (if val > 0.0 then 1 else 0)
    ensures t.Consistent() ==> r.Consistent()
  {
    if val < 0.0 then
      t.(score := t.score + val, issues := t.issues + [reason], negative := t.negative + 1, signals := t.signals + 1)
    else if val > 0.0 then
      t.(score := t.score + val, positive := t.positive + 1, signals := t.signals + 1)
    else
      t.(score := t.score + val, signals := t.signals + 1)
  }

  /** The extra `positiveSignals++` of the strong and bonus rules. */
  function Bump(t: Tally): Tally {
    t.(positive := t.positive + 1)
  }

  function Wheelchair(p: Properties): Option<TagValue> {
    Or(Get(p, "wheelchair"), Get(p, "sidewalk:wheelchair"))
  }

  function Kerb(p: Properties): Option<TagValue> {
    Or(Get(p, "kerb"), Get(p, "kerb:height"))
  }

  function Surface(p: Properties): Option<TagValue> {
    Or(Get(p, "surface"), Get(p, "sidewalk:surface"))
  }

  function Smoothness(p: Properties): Option<TagValue> {
    Or(Get(p, "smoothness"), Get(p, "sidewalk:smoothness"))
  }

  function InclineRaw(p: Properties): Option<TagValue> {
    Or(Get(p, "incline"), Get(p, "sidewalk:incline"))
  }

  function WidthRaw(p: Properties): Option<TagValue> {
    Or(Get(p, "width"), Get(p, "sidewalk:width"))
  }

  predicate IsSteps(p: Properties) {
    IsStr(Get(p, "highway"), "steps")
  }

  /**
   * The properties `scoreSegment` can read without a `TypeError`: a truthy
   * surface or smoothness is a string, since `toLowerCase` is called on it.
   */
  predicate WellTyped(p: Properties) {
    (Present(Surface(p)) ==> Surface(p).value.Str?)
    && (Present(Smoothness(p)) ==> Smoothness(p).value.Str?)
  }

  /** The wheelchair rule: `yes` +0.1 (a strong positive), `limited` -0.2, `no` -0.8. */
  function WheelchairRule(t: Tally, w: Option<TagValue>): (r: Tally)
    ensures t.Consistent() ==> r.Consistent()
    ensures r.score <= t.score + 0.1
    ensures IsStr(w, "no") ==> r.score == t.score - 0.8
  {
    if !Present(w) then t
    else if IsStr(w, "yes") then Bump(Apply(t, 0.1, "wheelchair_yes"))
    else if IsStr(w, "limited") then Apply(t, -0.2, "wheelchair_limited")
    else if IsStr(w, "no") then Apply(t, -0.8, "wheelchair_no")
    else t
  }

  /** The kerb rule, for string values only: lowered or flush +0.05, raised or high -0.4. */
  function KerbRule(t: Tally, k: Option<TagValue>): (r: Tally)
    ensures t.Consistent() ==> r.Consistent()
    ensures r.score <= t.score + 0.05
  {
    if !Present(k) || !k.value.Str? then t
    else
      var value := Lower(k.value.s);
      if Contains(value, "lowered") || Contains(value, "flush") || value == "raised:0" then
        Bump(Apply(t, 0.05, "kerb_flush"))
      else if Contains(value, "raised") || Contains(value, "high") then
        Apply(t, -0.4, "kerb_high")
      else t
  }

  /** The surface rule: a good surface +0.05, a bad one -0.3 with issue `surface_<value>`. */
  function SurfaceRule(t: Tally, s: Option<TagValue>): (r: Tally)
    requires Present(s) ==> s.value.Str?
    ensures t.Consistent() ==> r.Consistent()
    ensures r.score <= t.score + 0.05
  {
    if !Present(s) then t
    else
      var normalized := Lower(s.value.s);
      if normalized in GoodSurfaces then Bump(Apply(t, 0.05, "surface_good"))
      else if normalized in BadSurfaces then Apply(t, -0.3, "surface_" + normalized)
      else t
  }

  /** The smoothness rule: good +0.05, bad -0.5 with issue `smoothness_<value>`. */
  function SmoothnessRule(t: Tally, s: Option<TagValue>): (r: Tally)
    requires Present(s) ==> s.value.Str?
    ensures t.Consistent() ==> r.Consistent()
    ensures r.score <= t.score + 0.05
  {
    if !Present(s) then t
    else
      var normalized := Lower(s.value.s);
      if normalized in GoodSmoothness then Bump(Apply(t, 0.05, "smoothness_good"))
      else if normalized in BadSmoothness then Apply(t, -0.5, "smoothness_" + normalized)
      else t
  }

  /**
   * The incline rule: up to 6% is a zero adjustment, above 8% costs 0.4 with
   * issue `steep_incline`, and values in between change nothing.
   */
  function InclineRule(t: Tally, incline: Option<real>): (r: Tally)
    ensures t.Consistent() ==> r.Consistent()
    ensures incline.None? ==> r == t
    ensures incline.Some? && incline.value <= 0.06 ==>
              r.score == t.score && r.issues == t.issues && r.positive == t.positive && r.negative == t.negative
    ensures incline.Some? && incline.value > 0.08 ==>
              r.score == t.score - 0.4 && r.issues == t.issues + ["steep_incline"]
    ensures incline.Some? && 0.06 < incline.value <= 0.08 ==> r == t
  {
    match incline
    case None => t
    case Some(x) =>
      if x <= 0.06 then Apply(t, 0.0, "incline_good")
      else if x > 0.08 then Apply(t, -0.4, "steep_incline")
      else t
  }

  /** The width rule: under 1 m -0.3 with issue `narrow_width`, from 1.5 m +0.05. */
  function WidthRule(t: Tally, width: Option<real>): (r: Tally)
    ensures t.Consistent() ==> r.Consistent()
    ensures r.score <= t.score + 0.05
  {
    match width
    case None => t
    case Some(x) =>
      if x < 1.0 then Apply(t, -0.3, "narrow_width")
      else if x >= 1.5 then Apply(t, 0.05, "width_good")
      else t
  }

  /** The explicit barrier: `highway=steps` costs 0.9. */
  function StepsRule(t: Tally, p: Properties): (r: Tally)
    ensures t.Consistent() ==> r.Consistent()
    ensures r.score == t.score - (if IsSteps(p) then 0.9 else 0.0)
  {
    if IsSteps(p) then Apply(t, -0.9, "steps") else t
  }

  /** All rules of `scoreSegment`, in the order the code applies them, before the clamp. */
  function Rules(p: Properties): (t: Tally)
    requires WellTyped(p)
    ensures t.Consistent()
  {
    var t1 := WheelchairRule(Start, Wheelchair(p));
    var t2 := KerbRule(t1, Kerb(p));
    var t3 := SurfaceRule(t2, Surface(p));
    var t4 := SmoothnessRule(t3, Smoothness(p));
    var t5 := InclineRule(t4, ParseIncline(InclineRaw(p)));
    var t6 := WidthRule(t5, ParseWidth(WidthRaw(p)));
    StepsRule(t6, p)
  }

  // ----------------------------------------------------------- the result

  /** `Math.max(0, Math.min(1, x))`. */
  function Clamp(x: real): (c: real)
    ensures 0.0 <= c <= 1.0
    ensures 0.0 <= x <= 1.0 ==> c == x
    ensures x <= 0.0 ==> c == 0.0
    ensures x >= 1.0 ==> c == 1.0
  {
    if x > 1.0 then 1.0 else if x < 0.0 then 0.0 else x
  }

  /** The `relevantTags` object; `|| null` turns falsy values into `None`. */
  datatype RelevantTags = RelevantTags(
    highway: Option<TagValue>, foot: Option<TagValue>, surface: Option<TagValue>,
    smoothness: Option<TagValue>, kerb: Option<TagValue>, incline: Option<TagValue>,
    width: Option<TagValue>, wheelchair: Option<TagValue>)

  function OrNull(v: Option<TagValue>): (r: Option<TagValue>)
    ensures r.Some? <==> Present(v)
    ensures r.Some? ==> r == v
  {
    if Present(v) then v else None
  }

  datatype Analysis = Analysis(score: real, isAccessible: bool, confidence: Confidence,
                               issues: seq<string>, tags: RelevantTags)

  function ConfidenceOf(t: Tally, wheelchairYes: bool): Confidence {
    if t.negative > 0 then Low
    else if t.positive >= 2 || wheelchairYes then High
    else Medium
  }

  /** `scoreSegment(properties)`. */
  function ScoreSegment(p: Properties): (a: Analysis)
    requires WellTyped(p)
    ensures 0.0 <= a.score <= 1.0
    ensures a.isAccessible <==> a.score >= 0.6
    ensures a.issues == Rules(p).issues
  {
    var t := Rules(p);
    var score := Clamp(t.score);
    var tags := RelevantTags(
      Get(p, "highway"), Get(p, "foot"), OrNull(Surface(p)), OrNull(Smoothness(p)),
      OrNull(Kerb(p)), OrNull(InclineRaw(p)), OrNull(WidthRaw(p)), OrNull(Wheelchair(p)));
    Analysis(score, score >= 0.6, ConfidenceOf(t, IsStr(Wheelchair(p), "yes")), t.issues, tags)
  }

  /** The confidence rule on a consistent tally: issues decide `low`, then the positive signals decide `high`. */
  lemma ConfidenceOfTally(t: Tally, wheelchairYes: bool)
    requires t.Consistent()
    ensures ConfidenceOf(t, wheelchairYes) == Low <==> t.issues != []
    ensures t.issues == [] ==> (ConfidenceOf(t, wheelchairYes) == High <==> t.positive >= 2 || wheelchairYes)
  {
  }

  /** Confidence is `low` exactly when some rule reported an issue. */
  lemma LowConfidenceIffIssues(p: Properties)
    requires WellTyped(p)
    ensures ScoreSegment(p).confidence == Low <==> ScoreSegment(p).issues != []
  {
    ConfidenceOfTally(Rules(p), IsStr(Wheelchair(p), "yes"));
  }

  /**
   * Without issues, confidence is `high` exactly when there were at least two
   * positive signals or the wheelchair tag is `yes`, and `medium` otherwise.
   */
  lemma ConfidenceWithoutIssues(p: Properties)
    requires WellTyped(p)
    requires ScoreSegment(p).issues == []
    ensures ScoreSegment(p).confidence == High <==> Rules(p).positive >= 2 || IsStr(Wheelchair(p), "yes")
    ensures ScoreSegment(p).confidence != Low
  {
    ConfidenceOfTally(Rules(p), IsStr(Wheelchair(p), "yes"));
  }

  /** Untagged segments: score 0.9, medium confidence, no issues, accessible. */
  lemma EmptyProperties()
    ensures WellTyped(map[])
    ensures ScoreSegment(map[]) == Analysis(0.9, true, Medium, [], RelevantTags(None, None, None, None, None, None, None, None))
  {
  }

  /**
   * Stairs and an explicit `wheelchair=no` are never accessible: every
   * bonus together adds at most 0.3, which cannot make up for -0.9 or -0.8.
   */
  lemma BarriersNeverAccessible(p: Properties)
    requires WellTyped(p)
    requires IsSteps(p) || IsStr(Wheelchair(p), "no")
    ensures !ScoreSegment(p).isAccessible
  {
    var t1 := WheelchairRule(Start, Wheelchair(p));
    var t2 := KerbRule(t1, Kerb(p));
    var t3 := SurfaceRule(t2, Surface(p));
    var t4 := SmoothnessRule(t3, Smoothness(p));
    var t5 := InclineRule(t4, ParseIncline(InclineRaw(p)));
    var t6 := WidthRule(t5, ParseWidth(WidthRaw(p)));
    assert t5.score <= t4.score;
    assert Rules(p).score <= 0.3;
  }

  /** The rules in order, for a tag set that only the named rule reacts to. */
  lemma RulesUnfold(p: Properties)
    requires WellTyped(p)
    ensures Rules(p) == StepsRule(WidthRule(InclineRule(SmoothnessRule(SurfaceRule(KerbRule(
              WheelchairRule(Start, Wheelchair(p)), Kerb(p)), Surface(p)), Smoothness(p)),
              ParseIncline(InclineRaw(p))), ParseWidth(WidthRaw(p))), p)
  {
  }

  /** `{ wheelchair: 'yes' }` scores 1.0 with high confidence. */
  lemma WheelchairYesExample()
    ensures WellTyped(map["wheelchair" := Str("yes")])
    ensures ScoreSegment(map["wheelchair" := Str("yes")]).score == 1.0
    ensures ScoreSegment(map["wheelchair" := Str("yes")]).confidence == High
  {
    var p := map["wheelchair" := Str("yes")];
    assert Wheelchair(p) == Some(Str("yes"));
    assert Kerb(p) == None && Surface(p) == None && Smoothness(p) == None;
    assert InclineRaw(p) == None && WidthRaw(p) == None && !IsSteps(p);
    var t1 := WheelchairRule(Start, Wheelchair(p));
    assert t1 == Tally(1.0, [], 1, 2, 0);
    RulesUnfold(p);
    assert Rules(p) == t1;
  }

  /** `{ surface: 'paved', smoothness: 'good' }` scores 1.0 with high confidence. */
  lemma GoodSurfacesExample()
    ensures WellTyped(map["surface" := Str("paved"), "smoothness" := Str("good")])
    ensures ScoreSegment(map["surface" := Str("paved"), "smoothness" := Str("good")]).score == 1.0
    ensures ScoreSegment(map["surface" := Str("paved"), "smoothness" := Str("good")]).confidence == High
  {
    var p := map["surface" := Str("paved"), "smoothness" := Str("good")];
    assert Surface(p) == Some(Str("paved")) && Smoothness(p) == Some(Str("good"));
    assert Wheelchair(p) == None && Kerb(p) == None;
    assert InclineRaw(p) == None && WidthRaw(p) == None && !IsSteps(p);
    assert Lower("paved") == "paved";
    assert Lower("good") == "good";
    var t3 := SurfaceRule(Start, Surface(p));
    assert t3 == Tally(0.95, [], 1, 2, 0);
    var t4 := SmoothnessRule(t3, Smoothness(p));
    assert t4 == Tally(1.0, [], 2, 4, 0);
    RulesUnfold(p);
    assert Rules(p) == t4;
  }

  /**
   * A segment whose only tag is an incline steeper than 8% scores 0.5 with
   * low confidence and the single issue `steep_incline`.
   */
  lemma OnlySteepIncline(p: Properties)
    requires Wheelchair(p) == None && Kerb(p) == None && Surface(p) == None && Smoothness(p) == None
    requires WidthRaw(p) == None && !IsSteps(p)
    requires ParseIncline(InclineRaw(p)).Some? && ParseIncline(InclineRaw(p)).value > 0.08
    ensures WellTyped(p)
    ensures ScoreSegment(p).score == 0.5
    ensures ScoreSegment(p).confidence == Low
    ensures ScoreSegment(p).issues == ["steep_incline"]
  {
    RulesUnfold(p);
  }

  lemma FifteenPercentText()
    ensures Lower(Trim("15%")) == "15%"
  {
    FifteenPercentTrim();
    FifteenPercentLower();
  }

  lemma FifteenPercentTrim()
    ensures Trim("15%") == "15%"
  {
    var s := "15%";
    assert s[0] == '1' && s[|s| - 1] == '%';
    TrimUnchanged(s);
  }

  lemma FifteenPercentLower()
    ensures Lower("15%") == "15%"
  {
    assert Lower("15%")[0] == '1' && Lower("15%")[1] == '5' && Lower("15%")[2] == '%';
  }

  lemma FifteenPercentMatch()
    ensures ParsePercent("15%") == Some(15.0)
  {
    assert PercentText(false, "15", "", "") == "15%";
    PercentTextParses(false, "15", "", "");
    assert DigitsValue("1") == 1;
    assert DigitsValue("15") == 15;
  }

  lemma FifteenPercent(v: Option<TagValue>)
    requires v == Some(Str("15%"))
    ensures ParseIncline(v) == Some(0.15)
  {
    FifteenPercentText();
    FifteenPercentMatch();
    InclinePercent("15%", 15.0);
    assert ParseIncline(v) == InclineText("15%");
  }

  /** `{ incline: '15%' }` scores 0.5 with low confidence and the `steep_incline` issue. */
  lemma SteepInclineExample(p: Properties)
    requires p == map["incline" := Str("15%")]
    ensures WellTyped(p)
    ensures ScoreSegment(p).score == 0.5
    ensures ScoreSegment(p).confidence == Low
    ensures ScoreSegment(p).issues == ["steep_incline"]
  {
    assert InclineRaw(p) == Some(Str("15%"));
    assert Wheelchair(p) == None && Kerb(p) == None && Surface(p) == None && Smoothness(p) == None;
    assert WidthRaw(p) == None && !IsSteps(p);
    FifteenPercent(InclineRaw(p));
    OnlySteepIncline(p);
  }

  /** `{ highway: 'steps' }` scores 0.0 with low confidence. */
  lemma StepsExample()
    ensures WellTyped(map["highway" := Str("steps")])
    ensures ScoreSegment(map["highway" := Str("steps")]).score == 0.0
    ensures ScoreSegment(map["highway" := Str("steps")]).confidence == Low
  {
    var p := map["highway" := Str("steps")];
    assert IsSteps(p);
  }

  // --------------------------------------------------- segment normalisation

  /** A venue accessibility record (Wheelmap / AccessNow). */
  datatype Venue = Venue(segmentId: Option<TagValue>, osmWayId: Option<TagValue>,
                         source: Option<TagValue>, score: Option<TagValue>, wheelchair: Option<TagValue>)

  /** What `venueLookup` stores per venue: its source (default `wheelmap`) and `score ?? wheelchair`. */
  datatype VenueScore = VenueScore(source: TagValue, score: Option<TagValue>)

  /** `venue.segment_id || venue.osm_way_id`, `None` when falsy. */
  function VenueKey(v: Venue): (k: Option<TagValue>)
    ensures k.Some? ==> Truthy(k.value)
  {
    OrNull(Or(v.segmentId, v.osmWayId))
  }

  function ScoreOfVenue(v: Venue): VenueScore {
    VenueScore(if Present(v.source) then v.source.value else Str("wheelmap"),
               if v.score.Some? then v.score else v.wheelchair)
  }

  /** The scores of the venues keyed by `k`, in input order. */
  function ScoresFor(venues: seq<Venue>, k: TagValue): seq<VenueScore> {
    if venues == [] then []
    else
      var rest := ScoresFor(venues[..|venues| - 1], k);
      var v := venues[|venues| - 1];
      if VenueKey(v) == Some(k) then rest + [ScoreOfVenue(v)] else rest
  }

  /** The keys of `venueLookup` after a prefix of the venues. */
  ghost function Keys(venues: seq<Venue>): set<TagValue> {
    set i | 0 <= i < |venues| && VenueKey(venues[i]).Some? :: VenueKey(venues[i]).value
  }

  lemma {:induction false} ScoresForEmpty(venues: seq<Venue>, k: TagValue)
    requires k !in Keys(venues)
    ensures ScoresFor(venues, k) == []
  {
    if venues != [] {
      var init := venues[..|venues| - 1];
      assert Keys(init) <= Keys(venues) by {
        forall x | x in Keys(init) ensures x in Keys(venues) {
          var i :| 0 <= i < |init| && VenueKey(init[i]) == Some(x);
          assert venues[i] == init[i];
        }
      }
      ScoresForEmpty(init, k);
      assert VenueKey(venues[|venues| - 1]) != Some(k);
    }
  }

  /**
   * The `forEach` that fills `venueLookup`: venues without a key are skipped,
   * every other venue's score is appended under its key.
   */
  method BuildVenueLookup(venues: seq<Venue>) returns (lookup: map<TagValue, seq<VenueScore>>)
    ensures forall k :: k in lookup <==> k in Keys(venues)
    ensures forall k :: k in lookup ==> lookup[k] == ScoresFor(venues, k) && lookup[k] != []
  {
    lookup := map[];
    for n := 0 to |venues|
      invariant forall k :: k in lookup <==> k in Keys(venues[..n])
      invariant forall k :: k in lookup ==> lookup[k] == ScoresFor(venues[..n], k) && lookup[k] != []
    {
      var venue := venues[n];
      var id := VenueKey(venue);
      assert venues[..n + 1][..n] == venues[..n];
      assert venues[..n + 1][n] == venue;
      if id.Some? {
        if id.value !in lookup {
          ScoresForEmpty(venues[..n], id.value);
          lookup := lookup[id.value := []];
        }
        lookup := lookup[id.value := lookup[id.value] + [ScoreOfVenue(venue)]];
      }
      assert forall k :: k in Keys(venues[..n + 1]) <==> k in Keys(venues[..n]) || id == Some(k) by {
        forall k ensures k in Keys(venues[..n + 1]) <==> k in Keys(venues[..n]) || id == Some(k) {
          if k in Keys(venues[..n]) {
            var i :| 0 <= i < n && VenueKey(venues[..n][i]) == Some(k);
            assert venues[..n + 1][i] == venues[..n][i];
          }
        }
      }
    }
    assert venues[..|venues|] == venues;
  }

  /** A raw OpenSidewalks feature: its properties (missing, `null` or set), its `id` and its geometry. */
  datatype RawSegment = RawSegment(properties: Arg<Properties>, id: Option<TagValue>, geometry: Geometry)

  datatype Attributes = Attributes(accessibilityScore: real, isWheelchairPassable: bool,
                                   confidence: Confidence, issues: seq<string>, tags: RelevantTags)

  /** A normalised segment record, as the walking router reads it. */
  datatype Segment = Segment(segmentId: Option<TagValue>, osmType: string, geometry: Geometry,
                             attributes: Attributes, sources: seq<string>, venueScores: seq<VenueScore>)

  /** What `scoreSegment` reads: missing properties default to `{}`. */
  function PropertiesOf(s: RawSegment): Properties {
    if s.properties.Given? then s.properties.value else map[]
  }

  /** `segment.properties?.id || segment.id || null`. */
  function SegmentId(s: RawSegment): Option<TagValue> {
    OrNull(Or(if s.properties.Given? then Get(s.properties.value, "id") else None, s.id))
  }

  /** The text before the first `/`. */
  function BeforeSlash(s: string): (r: string)
    ensures |r| <= |s| && r == s[..|r|]
    ensures '/' !in r
    ensures |r| < |s| ==> s[|r|] == '/'
  {
    if s == [] || s[0] == '/' then [] else [s[0]] + BeforeSlash(s[1..])
  }

  /**
   * A raw segment the `map` callback handles without a `TypeError`: its
   * properties are not `null` (`scoreSegment` reads fields of them), its
   * score inputs are well typed and `properties.id`, when set, is a string
   * (`split` is called on it).
   */
  predicate Normalizable(s: RawSegment) {
    !s.properties.Null?
    && WellTyped(PropertiesOf(s))
    && (s.properties.Given? && "id" in s.properties.value ==> s.properties.value["id"].Str?)
  }

  /** `segment.properties?.id?.split('/')?.[0] || 'way'`. */
  function OsmType(s: RawSegment): (t: string)
    requires Normalizable(s)
    ensures t != "" && '/' !in t
    ensures s.properties.Given? && "id" in s.properties.value && BeforeSlash(s.properties.value["id"].s) != ""
            ==> var id := s.properties.value["id"].s;
                |t| <= |id| && t == id[..|t|] && (|t| == |id| || id[|t|] == '/')
    ensures !(s.properties.Given? && "id" in s.properties.value && BeforeSlash(s.properties.value["id"].s) != "")
            ==> t == "way"
  {
    if s.properties.Given? && "id" in s.properties.value then
      var first := BeforeSlash(s.properties.value["id"].s);
      if first == "" then "way" else first
    else "way"
  }

  /** Venue evidence: keeps `high`, turns anything else into `medium`. */
  function WithVenues(c: Confidence, venues: seq<VenueScore>): (r: Confidence)
    ensures venues == [] ==> r == c
    ensures venues != [] ==> (r == High <==> c == High) && r != Low
  {
    if venues != [] then (if c == High then High else Medium) else c
  }

  /**
   * The `map` callback of `buildAccessibleSegments`; `None` where it throws
   * a `TypeError`, which aborts the whole call.
   */
  function Normalize(s: RawSegment, lookup: map<TagValue, seq<VenueScore>>): (r: Option<Segment>)
    ensures r.Some? <==> Normalizable(s)
    ensures r.Some? ==>
      var a := ScoreSegment(PropertiesOf(s));
      var id := SegmentId(s);
      var venues := if id.Some? && id.value in lookup then lookup[id.value] else [];
      && r.value.segmentId == id && r.value.geometry == s.geometry
      && r.value.osmType == OsmType(s)
      && r.value.attributes.accessibilityScore == a.score
      && r.value.attributes.isWheelchairPassable == a.isAccessible
      && r.value.attributes.confidence == WithVenues(a.confidence, venues)
      && r.value.attributes.issues == a.issues
      && r.value.attributes.tags == a.tags
      && r.value.sources == ["opensidewalks"]
      && r.value.venueScores == venues
  {
    if !Normalizable(s) then None
    else
      var id := SegmentId(s);
      var analysis := ScoreSegment(PropertiesOf(s));
      var venues := if id.Some? && id.value in lookup then lookup[id.value] else [];
      Some(Segment(id, OsmType(s), s.geometry,
                   Attributes(analysis.score, analysis.isAccessible, WithVenues(analysis.confidence, venues),
                              analysis.issues, analysis.tags),
                   ["opensidewalks"], venues))
  }

  /**
   * `buildAccessibleSegments`: one record per raw segment, in order, carrying
   * its analysis; the confidence is raised to at least `medium` (kept `high`)
   * when venues reference the segment. `None` when some segment makes the
   * callback throw.
   */
  method BuildAccessibleSegments(segments: seq<RawSegment>, venues: seq<Venue>) returns (out: Option<seq<Segment>>)
    ensures out.None? <==> exists i :: 0 <= i < |segments| && !Normalizable(segments[i])
    ensures out.Some? ==> |out.value| == |segments|
    ensures out.Some? ==> forall i :: 0 <= i < |segments| ==>
              var a := ScoreSegment(PropertiesOf(segments[i]));
              var id := SegmentId(segments[i]);
              var vs := if id.Some? then ScoresFor(venues, id.value) else [];
              && Normalizable(segments[i])
              && out.value[i].segmentId == id
              && out.value[i].osmType == OsmType(segments[i])
              && out.value[i].geometry == segments[i].geometry
              && out.value[i].attributes == Attributes(a.score, a.isAccessible, WithVenues(a.confidence, vs), a.issues, a.tags)
              && out.value[i].sources == ["opensidewalks"]
              && out.value[i].venueScores == vs
  {
    var lookup := BuildVenueLookup(venues);
    if exists i :: 0 <= i < |segments| && !Normalizable(segments[i]) {
      return None;
    }
    out := Some(seq(|segments|, i requires 0 <= i < |segments| => Normalize(segments[i], lookup).value));
    forall i | 0 <= i < |segments|
      ensures var id := SegmentId(segments[i]);
              (if id.Some? && id.value in lookup then lookup[id.value] else [])
              == (if id.Some? then ScoresFor(venues, id.value) else [])
    {
      var id := SegmentId(segments[i]);
      if id.Some? && id.value !in lookup {
        ScoresForEmpty(venues, id.value);
      }
    }
  }
}
