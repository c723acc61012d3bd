/**
 * Planar helpers over [latitude, longitude] pairs: squared distance and the
 * projection of a point onto a line segment. The great-circle distance is
 * not modelled here; the routers take it as a parameter.
 */
module Geo {
  import opened Common

  lemma SquareNonNegative(x: real)
    ensures x * x >= 0.0
  {
    if x < 0.0 {
      MulPositive(-x, -x);
      assert x * x == (-x) * (-x);
    } else if x > 0.0 {
      MulPositive(x, x);
    }
  }

  lemma MulPositive(a: real, b: real)
    requires a > 0.0 && b > 0.0
    ensures a * b > 0.0
  {
  }

  /** `x * y` for two equal non-zero factors is positive. */
  lemma ProductOfEqualsPositive(x: real, y: real)
    requires x == y && x != 0.0
    ensures x * y > 0.0
  {
    if x < 0.0 {
      MulPositive(-x, -y);
      assert x * y == (-x) * (-y);
    } else {
      MulPositive(x, y);
    }
  }

  /**
   * A positive lower bound `m` for the square of a non-zero number, given
   * as the square written twice (`x * y` with `x == y`).
   */
  lemma SquareBound(x: real, y: real) returns (m: real)
    requires x == y && x != 0.0
    ensures m > 0.0 && x * y >= m
  {
    ProductOfEqualsPositive(x, y);
    m := x * y;
  }

  /** `distanceSquared`: the squared planar distance between two points. */
  function DistanceSquared(a: LatLon, b: LatLon): (d: real)
    ensures d >= 0.0
  {
    SquareNonNegative(a.lat - b.lat);
    SquareNonNegative(a.lon - b.lon);
    (a.lat - b.lat) * (a.lat - b.lat) + (a.lon - b.lon) * (a.lon - b.lon)
  }

  lemma DistanceSquaredPositive(a: LatLon, b: LatLon)
    requires a != b
    ensures DistanceSquared(a, b) > 0.0
  {
    if a.lat != b.lat {
      var m := SquareBound(a.lat - b.lat, a.lat - b.lat);
    } else {
      var m := SquareBound(a.lon - b.lon, a.lon - b.lon);
    }
  }

  /** The squared distance vanishes exactly between equal points. */
  lemma DistanceSquaredZero(a: LatLon, b: LatLon)
    ensures DistanceSquared(a, b) == 0.0 <==> a == b
  {
    if a != b {
      DistanceSquaredPositive(a, b);
    }
  }

  lemma DistanceSquaredSymmetric(a: LatLon, b: LatLon)
    ensures DistanceSquared(a, b) == DistanceSquared(b, a)
  {
    assert (a.lat - b.lat) * (a.lat - b.lat) == (b.lat - a.lat) * (b.lat - a.lat);
    assert (a.lon - b.lon) * (a.lon - b.lon) == (b.lon - a.lon) * (b.lon - a.lon);
  }

  /** The point `v + t * (w - v)`. */
  function Lerp(v: LatLon, w: LatLon, t: real): LatLon {
    LatLon(v.lat + t * (w.lat - v.lat), v.lon + t * (w.lon - v.lon))
  }

  /** `q` lies on the closed segment from `v` to `w`. */
  ghost predicate OnSegment(q: LatLon, v: LatLon, w: LatLon) {
    exists t :: 0.0 <= t <= 1.0 && q == Lerp(v, w, t)
  }

  function Clamp01(x: real): (c: real)
    ensures 0.0 <= c <= 1.0
    ensures 0.0 <= x <= 1.0 ==> c == x
  {
    if x < 0.0 then 0.0 else if x > 1.0 then 1.0 else x
  }

  /** The dot product of `p - v` and `w - v`. */
  function Dot(p: LatLon, v: LatLon, w: LatLon): real {
    (p.lat - v.lat) * (w.lat - v.lat) + (p.lon - v.lon) * (w.lon - v.lon)
  }

  /** The unclamped parameter of the perpendicular foot of `p` on the line through `v` and `w`. */
  function Parameter(p: LatLon, v: LatLon, w: LatLon): real
    requires v != w
  {
    DistanceSquaredZero(v, w);
    Dot(p, v, w) / DistanceSquared(v, w)
  }

  /** `projectPointOnSegment(p, v, w)`. */
  function ProjectPointOnSegment(p: LatLon, v: LatLon, w: LatLon): (q: LatLon)
    ensures v == w ==> q == v
    ensures OnSegment(q, v, w)
  {
    if DistanceSquared(v, w) == 0.0 then
      DistanceSquaredZero(v, w);
      assert v == Lerp(v, w, 0.0);
      v
    else
      var t := Clamp01(Parameter(p, v, w));
      Lerp(v, w, t)
  }

  lemma ParameterOfSegmentPoint(v: LatLon, w: LatLon, t: real)
    requires v != w
    ensures Parameter(Lerp(v, w, t), v, w) == t
  {
    DistanceSquaredZero(v, w);
    var p := Lerp(v, w, t);
    var dl := w.lat - v.lat;
    var dn := w.lon - v.lon;
    assert p.lat - v.lat == t * dl;
    assert p.lon - v.lon == t * dn;
    assert Dot(p, v, w) == t * dl * dl + t * dn * dn;
    assert DistanceSquared(v, w) == dl * dl + dn * dn;
    assert Dot(p, v, w) == t * DistanceSquared(v, w);
  }

  /** A point of the segment projects onto itself; in particular `v` and `w` do. */
  lemma ProjectSegmentPoint(v: LatLon, w: LatLon, t: real)
    requires 0.0 <= t <= 1.0
    ensures ProjectPointOnSegment(Lerp(v, w, t), v, w) == Lerp(v, w, t)
  {
    DistanceSquaredZero(v, w);
    if v != w {
      ParameterOfSegmentPoint(v, w, t);
    }
  }

  lemma ProjectEndpoints(v: LatLon, w: LatLon)
    ensures ProjectPointOnSegment(v, v, w) == v
    ensures ProjectPointOnSegment(w, v, w) == w
  {
    ProjectSegmentPoint(v, w, 0.0);
    ProjectSegmentPoint(v, w, 1.0);
    assert Lerp(v, w, 0.0) == v;
    assert Lerp(v, w, 1.0) == w;
  }
}
