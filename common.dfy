/**
 * Shared value types of the routing code: optional values, coordinates in
 * [latitude, longitude] order, numbers that may be JavaScript's `Infinity`,
 * and the loosely typed tag values of map data with JavaScript truthiness.
 */
module Common {

  datatype Option<+T> = None | Some(value: T)

  /**
   * A JavaScript argument or property that may be missing, `null` or set:
   * default parameters and `= {}` defaults apply only to the missing case.
   */
  datatype Arg<+T> = Undefined | Null | Given(value: T)

  /** A point in [latitude, longitude] order, as the routers use internally. */
  datatype LatLon = LatLon(lat: real, lon: real)

  /** A GeoJSON position: `[longitude, latitude]`, extra members ignored. */
  datatype LonLat = LonLat(lon: real, lat: real)

  /**
   * A GeoJSON geometry as the segment records carry it: its `type` and its
   * `coordinates`, `None` when they are not an array.
   */
  datatype Geometry = Geometry(kind: string, coordinates: Option<seq<LonLat>>)

  /** A number that may be `Infinity` (unreached distance, impassable way). */
  datatype ExtReal = Fin(r: real) | Inf {

    /** `this + w` with `Infinity + w == Infinity`. */
    function Plus(w: real): (s: ExtReal)
      ensures s.Fin? <==> this.Fin?
      ensures s.Fin? ==> s.r == r + w
    {
      match this
      case Fin(x) => Fin(x + w)
      case Inf => Inf
    }

    /** JavaScript `<` on numbers where either side may be `Infinity`. */
    predicate Less(other: ExtReal) {
      match (this, other)
      case (Fin(x), Fin(y)) => x < y
      case (Fin(_), Inf) => true
      case (Inf, _) => false
    }

    predicate AtMost(other: ExtReal) {
      !other.Less(this)
    }
  }

  lemma LessIsStrictOrder(a: ExtReal, b: ExtReal, c: ExtReal)
    ensures !a.Less(a)
    ensures a.Less(b) && b.Less(c) ==> a.Less(c)
    ensures a.Less(b) ==> !b.Less(a)
    ensures a.Less(b) || a == b || b.Less(a)
  {
  }

  /** A map-data tag value: OpenStreetMap tags are strings, GeoJSON may carry numbers. */
  datatype TagValue = Str(s: string) | Num(n: real)

  /** JavaScript truthiness of a tag value: `""` and `0` are falsy. */
  predicate Truthy(v: TagValue) {
    match v
    case Str(s) => s != ""
    case Num(n) => n != 0.0
  }

  /** JavaScript truthiness of a possibly absent tag value. */
  predicate Present(v: Option<TagValue>) {
    v.Some? && Truthy(v.value)
  }

  /** `a || b` on two possibly absent values. */
  function Or(a: Option<TagValue>, b: Option<TagValue>): (r: Option<TagValue>)
    ensures Present(a) ==> r == a
    ensures !Present(a) ==> r == b
  {
    if Present(a) then a else b
  }

  /** The value stored under `key`, `None` when the key is absent. */
  function Get(m: map<string, TagValue>, key: string): (r: Option<TagValue>)
    ensures r.Some? <==> key in m
    ensures r.Some? ==> r.value == m[key]
  {
    if key in m then Some(m[key]) else None
  }

  /** `x === s` for a possibly absent tag value and a string literal. */
  predicate IsStr(v: Option<TagValue>, s: string) {
    v == Some(Str(s))
  }

  /** Sum of a sequence of reals, left to right. */
  function Sum(xs: seq<real>): real {
    if xs == [] then 0.0 else Sum(xs[..|xs| - 1]) + xs[|xs| - 1]
  }

  lemma {:induction false} SumNonNegative(xs: seq<real>)
    requires forall i :: 0 <= i < |xs| ==> xs[i] >= 0.0
    ensures Sum(xs) >= 0.0
  {
    if xs != [] {
      SumNonNegative(xs[..|xs| - 1]);
    }
  }

  lemma {:induction false} SumAppend(xs: seq<real>, ys: seq<real>)
    ensures Sum(xs + ys) == Sum(xs) + Sum(ys)
    decreases |ys|
  {
    if ys == [] {
      assert xs + ys == xs;
    } else {
      assert (xs + ys)[..|xs + ys| - 1] == xs + ys[..|ys| - 1];
      SumAppend(xs, ys[..|ys| - 1]);
    }
  }
}
