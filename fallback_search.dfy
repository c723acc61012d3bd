/**
 * The place search the API falls back to when the geocoder is unavailable:
 * a fixed list of five Toronto places, filtered by a case-insensitive
 * substring match of the query against each place's name fields, then cut
 * to the requested number of results.
 */
module FallbackSearch {
  import opened Common
  import opened Text

  /** The address fields the search reads; absent ones are `None`. */
  datatype Address = Address(attraction: Option<string>, road: Option<string>, city: Option<string>,
                             townhall: Option<string>, railway: Option<string>, mall: Option<string>,
                             museum: Option<string>)

  datatype Place = Place(placeId: string, osmId: int, lat: string, lon: string, displayName: string, address: Address)

  function Named(attraction: string, museum: string, mall: string, railway: string, townhall: string): Address {
    Address(if attraction == "" then None else Some(attraction), None, Some("Toronto"),
            if townhall == "" then None else Some(townhall), if railway == "" then None else Some(railway),
            if mall == "" then None else Some(mall), if museum == "" then None else Some(museum))
  }

  function WithRoad(a: Address, road: string): Address {
    a.(road := Some(road))
  }

  /** `FALLBACK_SEARCH_RESULTS`, in their listed order. */
  function FallbackResults(): seq<Place> {
    [ Place("fallback-harbourfront", 9990001, "43.6376", "-79.3816",
            "Harbourfront Centre, Toronto, Ontario, Canada",
            Named("Harbourfront Centre", "", "", "", "")),
      Place("fallback-rom", 9990002, "43.6677", "-79.3948",
            "Royal Ontario Museum, Bloor Street West, Toronto, Ontario, Canada",
            WithRoad(Named("", "Royal Ontario Museum", "", "", ""), "Bloor Street West")),
      Place("fallback-eaton-centre", 9990003, "43.6544", "-79.3807",
            "CF Toronto Eaton Centre, Yonge Street, Toronto, Ontario, Canada",
            WithRoad(Named("", "", "CF Toronto Eaton Centre", "", ""), "Yonge Street")),
      Place("fallback-union", 9990004, "43.6455", "-79.3807",
            "Union Station, Front Street West, Toronto, Ontario, Canada",
            WithRoad(Named("", "", "", "Union Station", ""), "Front Street West")),
      Place("fallback-city-hall", 9990005, "43.6529", "-79.3849",
            "Toronto City Hall, Queen Street West, Toronto, Ontario, Canada",
            WithRoad(Named("", "", "", "", "Toronto City Hall"), "Queen Street West")) ]
  }

  /** `.filter(Boolean)` on possibly absent strings: drop the absent and the empty ones. */
  function Present(fields: seq<Option<string>>): (r: seq<string>)
    ensures forall s :: s in r <==> s != "" && Some(s) in fields
    ensures |r| <= |fields|
  {
    if fields == [] then []
    else
      var rest := Present(fields[1..]);
      assert forall f :: f in fields <==> f == fields[0] || f in fields[1..];
      if fields[0].Some? && fields[0].value != "" then [fields[0].value] + rest else rest
  }

  /** `.join(sep)`. */
  function Join(parts: seq<string>, sep: string): (r: string)
    ensures forall i :: 0 <= i < |parts| ==> Contains(r, parts[i])
  {
    if parts == [] then ""
    else if |parts| == 1 then ContainsSelf(parts[0]); parts[0]
    else
      var r := parts[0] + sep + Join(parts[1..], sep);
      forall i | 0 <= i < |parts| ensures Contains(r, parts[i]) {
        if i == 0 {
          ContainsSelf(parts[0]);
          ContainsAppend(parts[0], parts[0], sep + Join(parts[1..], sep));
          assert parts[0] + (sep + Join(parts[1..], sep)) == r;
        } else {
          assert parts[1..][i - 1] == parts[i];
          ContainsAppend(sep, parts[i], Join(parts[1..], sep));
          ContainsAppend(parts[0], parts[i], sep + Join(parts[1..], sep));
          assert parts[0] + (sep + Join(parts[1..], sep)) == r;
        }
      }
      r
  }

  /** The name fields of a place, in the order the search lists them. */
  function Fields(place: Place): seq<Option<string>> {
    [Some(place.displayName), place.address.attraction, place.address.road, place.address.city,
     place.address.townhall, place.address.railway, place.address.mall, place.address.museum]
  }

  /** The lower-cased, space-joined, non-empty name fields. */
  function Haystack(place: Place): string {
    Lower(Join(Present(Fields(place)), " "))
  }

  predicate Matches(place: Place, normalized: string) {
    Contains(Haystack(place), normalized)
  }

  /** The places whose haystack contains `normalized`, in their order. */
  function Matching(places: seq<Place>, normalized: string): (r: seq<Place>)
    ensures |r| <= |places|
  {
    if places == [] then []
    else if Matches(places[0], normalized) then [places[0]] + Matching(places[1..], normalized)
    else Matching(places[1..], normalized)
  }

  /** `.slice(0, limit)`: a negative limit counts from the end. */
  function Slice(xs: seq<Place>, limit: int): (r: seq<Place>)
    ensures |r| <= |xs| && r == xs[..|r|]
    ensures limit >= 0 ==> |r| == if limit < |xs| then limit else |xs|
    ensures limit < 0 ==> |r| == if |xs| + limit > 0 then |xs| + limit else 0
  {
    if limit >= 0 then (if limit < |xs| then xs[..limit] else xs)
    else if |xs| + limit > 0 then xs[..|xs| + limit] else []
  }

  /** `searchFallbackPlaces(query, limit = 5)`; `None` stands for an omitted limit. */
  function SearchFallbackPlaces(query: string, limit: Option<int>): (r: seq<Place>)
    ensures |r| <= if limit.Some? && limit.value >= 0 then limit.value else 5
  {
    var n := if limit.Some? then limit.value else 5;
    Slice(Matching(FallbackResults(), Lower(query)), n)
  }

  /** `sub` is `xs` with some entries dropped and the rest in their order. */
  predicate Subsequence(sub: seq<Place>, xs: seq<Place>)
    decreases |xs|
  {
    if sub == [] then true
    else if xs == [] then false
    else if sub[0] == xs[0] then Subsequence(sub[1..], xs[1..])
    else Subsequence(sub, xs[1..])
  }

  /** A place is kept exactly when it matches; the kept ones keep their order. */
  lemma {:induction false} MatchingIsFilter(places: seq<Place>, normalized: string)
    ensures Subsequence(Matching(places, normalized), places)
    ensures forall p :: p in Matching(places, normalized) <==> p in places && Matches(p, normalized)
    decreases |places|
  {
    if places != [] {
      MatchingIsFilter(places[1..], normalized);
      assert forall p :: p in places <==> p == places[0] || p in places[1..];
    }
  }

  lemma {:induction false} PrefixIsSubsequence(sub: seq<Place>, xs: seq<Place>)
    requires Subsequence(sub, xs)
    ensures forall n :: 0 <= n <= |sub| ==> Subsequence(sub[..n], xs)
    decreases |xs|
  {
    forall n | 0 <= n <= |sub| ensures Subsequence(sub[..n], xs) {
      if n > 0 {
        if sub[0] == xs[0] {
          PrefixIsSubsequence(sub[1..], xs[1..]);
          assert sub[..n][1..] == sub[1..][..n - 1];
        } else {
          PrefixIsSubsequence(sub, xs[1..]);
        }
      }
    }
  }

  /** The first `n` matching places are places of the list, in order, and all match. */
  lemma KeptInOrder(places: seq<Place>, normalized: string, n: int)
    ensures var r := Slice(Matching(places, normalized), n);
      && Subsequence(r, places)
      && (forall p :: p in r ==> p in places && Matches(p, normalized))
  {
    var m := Matching(places, normalized);
    MatchingIsFilter(places, normalized);
    PrefixIsSubsequence(m, places);
    var r := Slice(m, n);
    forall p | p in r ensures p in m {
      var i :| 0 <= i < |r| && r[i] == p;
      assert m[i] == p;
    }
  }

  /**
   * The results are fallback places in their listed order, every one of
   * them matches the lower-cased query, and they are the first matching
   * ones (as many as the limit allows, counting from the end for a negative
   * one).
   */
  lemma SearchResults(query: string, limit: Option<int>)
    ensures var r := SearchFallbackPlaces(query, limit);
      && Subsequence(r, FallbackResults())
      && (forall p :: p in r ==> p in FallbackResults() && Matches(p, Lower(query)))
      && r == Matching(FallbackResults(), Lower(query))[..|r|]
  {
    KeptInOrder(FallbackResults(), Lower(query), if limit.Some? then limit.value else 5);
  }

  /** Every place matches the empty query. */
  lemma {:induction false} EverythingMatchesEmpty(places: seq<Place>)
    ensures Matching(places, "") == places
    decreases |places|
  {
    if places != [] {
      ContainsEmpty(Haystack(places[0]));
      EverythingMatchesEmpty(places[1..]);
    }
  }

  /** With no query text every place is kept, so only the limit cuts the list. */
  lemma EmptyQueryKeepsAll(places: seq<Place>, n: int)
    requires n >= 0
    ensures Slice(Matching(places, Lower("")), n) == places[..if n < |places| then n else |places|]
  {
    assert Lower("") == "";
    EverythingMatchesEmpty(places);
  }

  lemma FallbackCount()
    ensures |FallbackResults()| == 5
  {
  }

  /** An empty query returns the first `min(limit, 5)` places (five when the limit is omitted). */
  lemma EmptyQuery(limit: Option<int>)
    ensures var n := if limit.Some? then limit.value else 5;
      n >= 0 ==> SearchFallbackPlaces("", limit) == FallbackResults()[..if n < 5 then n else 5]
  {
    var n := if limit.Some? then limit.value else 5;
    if n >= 0 {
      FallbackCount();
      EmptyQueryKeepsAll(FallbackResults(), n);
    }
  }

  /** A place is found by any piece of one of its name fields, in any letter case. */
  lemma FieldPieceMatches(place: Place, i: nat, piece: string)
    requires i < |Fields(place)| && Fields(place)[i].Some? && Contains(Fields(place)[i].value, piece)
    ensures Matches(place, Lower(piece))
  {
    var field := Fields(place)[i].value;
    var parts := Present(Fields(place));
    var joined := Join(parts, " ");
    if field == "" {
      assert |piece| == 0 && piece == "";
      ContainsEmpty(Haystack(place));
    } else {
      assert field in parts;
      var k :| 0 <= k < |parts| && parts[k] == field;
      ContainsTransitive(joined, field, piece);
      LowerContains(joined, piece);
    }
  }

  /** An occurrence inside an occurrence is an occurrence. */
  lemma ContainsTransitive(s: string, mid: string, sub: string)
    requires Contains(s, mid) && Contains(mid, sub)
    ensures Contains(s, sub)
  {
    var i :| 0 <= i <= |s| && OccursAt(s, mid, i);
    var j :| 0 <= j <= |mid| && OccursAt(mid, sub, j);
    forall k | 0 <= k < |sub| ensures s[i + j + k] == sub[k] {
      assert s[i..i + |mid|][j + k] == mid[j + k] == mid[j..j + |sub|][k];
    }
    assert s[i + j..i + j + |sub|] == sub;
    assert OccursAt(s, sub, i + j);
  }

  /** Lower-casing keeps an occurrence, lower-cased. */
  lemma LowerContains(s: string, sub: string)
    requires Contains(s, sub)
    ensures Contains(Lower(s), Lower(sub))
  {
    var i :| 0 <= i <= |s| && OccursAt(s, sub, i);
    assert Lower(s)[i..i + |sub|] == Lower(sub);
    assert OccursAt(Lower(s), Lower(sub), i);
  }

  lemma ContainsSelf(s: string)
    ensures Contains(s, s)
  {
    assert OccursAt(s, s, 0);
  }
}
