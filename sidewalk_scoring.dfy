/**
 * The back end's way cost model: a multiplier on a way's length from its
 * OpenStreetMap tags, where `Inf` (JavaScript `Infinity`) marks a way as
 * impassable for the profile.
 */
module SidewalkScoring {
  import opened Common

  /** The `tags` object of a way: tag name to tag value. */
  type Tags = map<string, string>

  function Tag(tags: Tags, key: string): Option<string> {
    if key in tags then Some(tags[key]) else None
  }

  /** `if (tags.key)`: present and not the empty string. */
  predicate HasTag(tags: Tags, key: string) {
    key in tags && tags[key] != ""
  }

  predicate BadSurface(surface: string) {
    surface in ["cobblestone", "gravel", "dirt", "sand", "grass"]
  }

  /** The profile `getSegmentCost` uses when none is given. */
  const DefaultProfile: string := "wheelchair"

  /**
   * `getSegmentCost(tags, profile)`: steps end the evaluation (impassable
   * for wheelchairs, 2.0 otherwise); then a bad surface multiplies the
   * running product by 1.5 and a non-flat incline by 1.2; `wheelchair=no`
   * makes the way impassable; `wheelchair=designated` or `yes` multiplies
   * by 0.8.
   */
  function GetSegmentCost(tags: Tags, profile: string): (c: ExtReal)
    ensures Tag(tags, "highway") == Some("steps") ==> c == if profile == DefaultProfile then Inf else Fin(2.0)
    ensures Tag(tags, "highway") != Some("steps") ==> (c == Inf <==> Tag(tags, "wheelchair") == Some("no"))
  {
    if Tag(tags, "highway") == Some("steps") then
      if profile == DefaultProfile then Inf else Fin(2.0)
    else
      var initial := 1.0;
      var surfaced := if HasTag(tags, "surface") && BadSurface(tags["surface"]) then initial * 1.5 else initial;
      var inclined := if HasTag(tags, "incline") && tags["incline"] != "0" && tags["incline"] != "0%"
                      then surfaced * 1.2 else surfaced;
      if Tag(tags, "wheelchair") == Some("no") then Inf
      else if Tag(tags, "wheelchair") == Some("designated") || Tag(tags, "wheelchair") == Some("yes")
      then Fin(inclined * 0.8)
      else Fin(inclined)
  }

  /** A way with no tags costs exactly its length. */
  lemma EmptyTagsCost(profile: string)
    ensures GetSegmentCost(map[], profile) == Fin(1.0)
  {
  }

  /** Every finite multiplier lies in `[0.8, 2.0]`. */
  lemma CostBounds(tags: Tags, profile: string)
    ensures GetSegmentCost(tags, profile).Fin? ==> 0.8 <= GetSegmentCost(tags, profile).r <= 2.0
  {
  }

  /** Under the default profile steps are impassable, so every finite multiplier lies in `[0.8, 1.8]`. */
  lemma DefaultCostBounds(tags: Tags)
    ensures GetSegmentCost(tags, DefaultProfile).Fin? ==> 0.8 <= GetSegmentCost(tags, DefaultProfile).r <= 1.8
  {
  }

  /** The profile matters only for steps. */
  lemma ProfileOnlyForSteps(tags: Tags, p: string, q: string)
    requires Tag(tags, "highway") != Some("steps")
    ensures GetSegmentCost(tags, p) == GetSegmentCost(tags, q)
  {
  }

  /** Setting a bad surface on a way without one multiplies its finite cost by 1.5. */
  lemma BadSurfaceFactor(tags: Tags, profile: string, surface: string)
    requires "surface" !in tags && BadSurface(surface) && Tag(tags, "highway") != Some("steps")
    ensures GetSegmentCost(tags, profile).Fin? <==> GetSegmentCost(tags["surface" := surface], profile).Fin?
    ensures GetSegmentCost(tags, profile).Fin? ==>
      GetSegmentCost(tags["surface" := surface], profile).r == 1.5 * GetSegmentCost(tags, profile).r
  {
    assert Tag(tags["surface" := surface], "highway") == Tag(tags, "highway");
    assert Tag(tags["surface" := surface], "wheelchair") == Tag(tags, "wheelchair");
    assert Tag(tags["surface" := surface], "incline") == Tag(tags, "incline");
  }

  /** Setting a sloped incline on a way without one multiplies its finite cost by 1.2. */
  lemma InclineFactor(tags: Tags, profile: string, incline: string)
    requires "incline" !in tags && incline != "" && incline != "0" && incline != "0%"
    requires Tag(tags, "highway") != Some("steps")
    ensures GetSegmentCost(tags, profile).Fin? <==> GetSegmentCost(tags["incline" := incline], profile).Fin?
    ensures GetSegmentCost(tags, profile).Fin? ==>
      GetSegmentCost(tags["incline" := incline], profile).r == 1.2 * GetSegmentCost(tags, profile).r
  {
    assert Tag(tags["incline" := incline], "highway") == Tag(tags, "highway");
    assert Tag(tags["incline" := incline], "wheelchair") == Tag(tags, "wheelchair");
    assert Tag(tags["incline" := incline], "surface") == Tag(tags, "surface");
  }

  /** Marking a way without a wheelchair tag as `designated` or `yes` multiplies its cost by 0.8. */
  lemma WheelchairBonus(tags: Tags, profile: string, value: string)
    requires "wheelchair" !in tags && (value == "designated" || value == "yes")
    requires Tag(tags, "highway") != Some("steps")
    ensures GetSegmentCost(tags, profile).Fin? && GetSegmentCost(tags["wheelchair" := value], profile).Fin?
    ensures GetSegmentCost(tags["wheelchair" := value], profile).r == 0.8 * GetSegmentCost(tags, profile).r
  {
    assert Tag(tags["wheelchair" := value], "highway") == Tag(tags, "highway");
    assert Tag(tags["wheelchair" := value], "surface") == Tag(tags, "surface");
    assert Tag(tags["wheelchair" := value], "incline") == Tag(tags, "incline");
  }
}
