/**
  * Searching ride offers by postal code and city (`search` and `searchApi`).
  * After validating the query and resolving its coordinates, the search is
  * either a radius search, the offers within the radius ordered by distance,
  * or, when the coordinates are unknown, a textual fallback on postal code and
  * city. Only offers with both coordinates are ever returned. The Haversine
  * distance the database evaluates is an abstract function of the search
  * point and the row.
  */
module Search {
  import opened Wrappers
  import opened Attributes
  import opened Validation
  import opened Geocoding

  const DefaultRadius: int := 5

  function SearchRules(): RuleTable
  {
    map[
      "zip_code" := [Required, IsString, Max(10)],
      "city" := [Required, IsString, Max(255)],
      "radius" := [Nullable, IsInteger, Min(1), Max(100)]
    ]
  }

  /**
    * `isset($validated['radius']) ? (int)$validated['radius'] : 5`. Besides an
    * integer and null, the only radius validation lets through is a blank
    * string, which PHP's `(int)` turns into 0.
    */
  function RadiusOf(validated: Row): int
  {
    match Get(validated, "radius")
    case Null => DefaultRadius
    case Int(i) => i
    case _ => 0
  }

  /** `whereNotNull('latitude')->whereNotNull('longitude')`. */
  predicate HasCoordinates(o: Row)
  {
    IsFilled(o, "latitude") && IsFilled(o, "longitude")
  }

  /** `where('zip_code', $zipCode)`. */
  predicate ZipEquals(o: Row, zipCode: string)
  {
    Get(o, "zip_code") == Str(zipCode)
  }

  /** `where('city', 'LIKE', '%' . $city . '%')`. */
  predicate CityContains(o: Row, city: string)
  {
    Get(o, "city").Str? && Contains(Get(o, "city").s, city)
  }

  /** `where('city', 'LIKE', $city . '%')`. */
  predicate CityStartsWith(o: Row, city: string)
  {
    Get(o, "city").Str? && city <= Get(o, "city").s
  }

  /** The grouped condition of the fallback query, clause by clause. */
  predicate FallbackMatch(o: Row, zipCode: string, city: string)
  {
    (ZipEquals(o, zipCode) && CityContains(o, city)) || ZipEquals(o, zipCode) || CityStartsWith(o, city)
  }

  /** A query's `where`: the rows satisfying `p`, in table order. */
  function Where(table: seq<Row>, p: Row -> bool): (r: seq<Row>)
    ensures |r| <= |table|
    ensures forall o :: o in r <==> o in table && p(o)
    ensures forall o :: multiset(r)[o] == (if p(o) then multiset(table)[o] else 0)
  {
    if table == [] then []
    else
      assert table == [table[0]] + table[1..];
      (if p(table[0]) then [table[0]] else []) + Where(table[1..], p)
  }

  lemma {:induction false} WhereAgrees(table: seq<Row>, p: Row -> bool, q: Row -> bool)
    requires forall o :: o in table ==> p(o) == q(o)
    ensures Where(table, p) == Where(table, q)
  {
    if table != [] {
      WhereAgrees(table[1..], p, q);
    }
  }

  /** A row of the radius query: the offer with its computed `distance` column. */
  datatype Hit = Hit(offer: Row, distance: real)

  /** The database's Haversine distance, in kilometres, from a point to an offer row. */
  type Distance = (Point, Row) -> real

  /** The radius query's condition on one offer: it has coordinates and lies within `radius`. */
  predicate InRadius(o: Row, center: Point, radius: int, distance: Distance)
  {
    HasCoordinates(o) && distance(center, o) <= radius as real
  }

  /** The hit a row of the radius query yields: the offer with its distance column. */
  predicate IsHitOf(h: Hit, center: Point, radius: int, distance: Distance)
  {
    h.distance == distance(center, h.offer) && InRadius(h.offer, center, radius, distance)
  }

  /**
    * The radius query's `where`: offers with coordinates whose distance is at
    * most `radius`, each as often as the table holds it.
    */
  function WithinRadius(table: seq<Row>, center: Point, radius: int, distance: Distance): (hits: seq<Hit>)
    ensures |hits| <= |table|
    ensures forall h :: h in hits ==>
      h.offer in table && HasCoordinates(h.offer) &&
      h.distance == distance(center, h.offer) && h.distance <= radius as real
    ensures forall o :: o in table && HasCoordinates(o) && distance(center, o) <= radius as real ==>
      Hit(o, distance(center, o)) in hits
    ensures forall h ::
      multiset(hits)[h] == (if IsHitOf(h, center, radius, distance) then multiset(table)[h.offer] else 0)
  {
    if table == [] then []
    else
      assert table == [table[0]] + table[1..];
      var o := table[0];
      var rest := WithinRadius(table[1..], center, radius, distance);
      if HasCoordinates(o) && distance(center, o) <= radius as real then [Hit(o, distance(center, o))] + rest
      else rest
  }

  /** Each row of a query result with its distance column. */
  function WithDistances(rows: seq<Row>, center: Point, distance: Distance): (hits: seq<Hit>)
    ensures |hits| == |rows|
    ensures forall i :: 0 <= i < |rows| ==> hits[i] == Hit(rows[i], distance(center, rows[i]))
  {
    if rows == [] then [] else [Hit(rows[0], distance(center, rows[0]))] + WithDistances(rows[1..], center, distance)
  }

  /** The radius `where` is the generic `where` on the radius condition, with the distance column added. */
  lemma {:induction false} WithinRadiusIsWhere(table: seq<Row>, center: Point, radius: int, distance: Distance)
    ensures WithinRadius(table, center, radius, distance) ==
      WithDistances(Where(table, o => InRadius(o, center, radius, distance)), center, distance)
  {
    if table != [] {
      WithinRadiusIsWhere(table[1..], center, radius, distance);
      var p := o => InRadius(o, center, radius, distance);
      var w := Where(table[1..], p);
      if p(table[0]) {
        assert Where(table, p) == [table[0]] + w;
        assert ([table[0]] + w)[1..] == w;
      } else {
        assert Where(table, p) == w;
      }
    }
  }

  predicate SortedByDistance(hits: seq<Hit>)
  {
    forall i, j :: 0 <= i < j < |hits| ==> hits[i].distance <= hits[j].distance
  }

  /** A hit no farther than every sorted hit can go in front of them. */
  lemma PrependSorted(first: Hit, rest: seq<Hit>)
    requires SortedByDistance(rest)
    requires forall x :: x in rest ==> first.distance <= x.distance
    ensures SortedByDistance([first] + rest)
  {
    var r := [first] + rest;
    forall i, j | 0 <= i < j < |r|
      ensures r[i].distance <= r[j].distance
    {
      if i > 0 {
        assert r[i] == rest[i - 1] && r[j] == rest[j - 1];
      } else {
        assert r[j] == rest[j - 1];
      }
    }
  }

  function InsertByDistance(h: Hit, hits: seq<Hit>): (r: seq<Hit>)
    requires SortedByDistance(hits)
    ensures SortedByDistance(r)
    ensures multiset(r) == multiset(hits) + multiset{h}
  {
    if hits == [] || h.distance <= hits[0].distance then
      PrependSorted(h, hits);
      [h] + hits
    else
      var rest := InsertByDistance(h, hits[1..]);
      assert hits == [hits[0]] + hits[1..];
      assert forall x :: x in rest ==> x in multiset(hits[1..]) + multiset{h};
      PrependSorted(hits[0], rest);
      [hits[0]] + rest
  }

  /** `orderBy('distance')`. */
  function SortByDistance(hits: seq<Hit>): (r: seq<Hit>)
    ensures SortedByDistance(r)
    ensures multiset(r) == multiset(hits)
  {
    if hits == [] then []
    else
      assert hits == [hits[0]] + hits[1..];
      InsertByDistance(hits[0], SortByDistance(hits[1..]))
  }

  /** The radius branch: every offer with coordinates within the radius, nearest first. */
  function RadiusSearch(table: seq<Row>, center: Point, radius: int, distance: Distance): (r: seq<Hit>)
    ensures SortedByDistance(r)
    ensures |r| <= |table|
    ensures forall h :: h in r ==>
      h.offer in table && HasCoordinates(h.offer) &&
      h.distance == distance(center, h.offer) && h.distance <= radius as real
    ensures forall o :: o in table && HasCoordinates(o) && distance(center, o) <= radius as real ==>
      Hit(o, distance(center, o)) in r
    ensures forall h ::
      multiset(r)[h] == (if IsHitOf(h, center, radius, distance) then multiset(table)[h.offer] else 0)
  {
    var within := WithinRadius(table, center, radius, distance);
    var r := SortByDistance(within);
    assert |r| == |multiset(r)| == |multiset(within)| == |within|;
    assert forall h :: h in r <==> h in multiset(within);
    r
  }

  /** The fallback branch: offers with coordinates matching the grouped condition. */
  function FallbackSearch(table: seq<Row>, zipCode: string, city: string): seq<Row>
  {
    Where(table, o => HasCoordinates(o) && FallbackMatch(o, zipCode, city))
  }

  /**
    * The first clause of the fallback condition is subsumed by the second: the
    * fallback returns exactly the offers with coordinates whose postal code
    * equals the query's or whose city starts with the query's city.
    */
  lemma FallbackIsZipOrCityPrefix(table: seq<Row>, zipCode: string, city: string)
    ensures FallbackSearch(table, zipCode, city) ==
      Where(table, o => HasCoordinates(o) && (ZipEquals(o, zipCode) || CityStartsWith(o, city)))
  {
    WhereAgrees(table, o => HasCoordinates(o) && FallbackMatch(o, zipCode, city),
                o => HasCoordinates(o) && (ZipEquals(o, zipCode) || CityStartsWith(o, city)));
  }

  datatype Found = Ranked(hits: seq<Hit>) | Listed(rows: seq<Row>)

  function Offers(found: Found): seq<Row>
  {
    match found
    case Ranked(hits) => seq(|hits|, i requires 0 <= i < |hits| => hits[i].offer)
    case Listed(rows) => rows
  }

  /** The `rideOffers`, `searchParams` and `searchCoordinates` a search responds with. */
  datatype SearchView = SearchView(rideOffers: Found, searchParams: Row, searchCoordinates: Option<Point>)

  datatype SearchReply = Rendered(view: SearchView) | Invalid(fields: set<string>)

  /** The search geocodes postal code and city only, without a street. */
  function SearchLookup(validated: Row): Lookup
  {
    CoordinateLookup(TextOf(Get(validated, "zip_code")), TextOf(Get(validated, "city")), None)
  }

  /** Everything after validation: radius, geocoding, the choice of branch, the response data. */
  function RunSearch(validated: Row, table: seq<Row>, service: Service, distance: Distance): SearchView
  {
    var radius := RadiusOf(validated);
    var coords := Resolve(SearchLookup(validated), service).coords;
    var found :=
      if coords.Some? && radius > 0 then Ranked(RadiusSearch(table, coords.value, radius, distance))
      else Listed(FallbackSearch(table, TextOf(Get(validated, "zip_code")), TextOf(Get(validated, "city"))));
    SearchView(found, validated["radius" := Int(radius)], coords)
  }

  /** `searchApi`: validate, then search. */
  function SearchApi(input: Row, table: seq<Row>, service: Service, distance: Distance): (reply: SearchReply)
    ensures reply.Invalid? <==> !Passes(SearchRules(), input, NoEmailRule)
    ensures reply.Invalid? ==> reply.fields != {} && reply.fields <= {"zip_code", "city", "radius"}
    ensures reply.Invalid? ==> forall f :: f in reply.fields <==>
      f in SearchRules() && !FieldPasses(SearchRules()[f], input, f, NoEmailRule)
  {
    match Validate(SearchRules(), input, NoEmailRule)
    case Err(fields) => Invalid(fields)
    case Ok(validated) => Rendered(RunSearch(validated, table, service, distance))
  }

  /** `search`: the empty form when neither postal code nor city is given, otherwise as `searchApi`. */
  function SearchPage(input: Row, table: seq<Row>, service: Service, distance: Distance): (reply: SearchReply)
    ensures "zip_code" !in input && "city" !in input ==>
      reply == Rendered(SearchView(Listed([]), map["radius" := Int(DefaultRadius)], None))
    ensures "zip_code" in input || "city" in input ==> reply == SearchApi(input, table, service, distance)
  {
    if "zip_code" !in input && "city" !in input then
      Rendered(SearchView(Listed([]), map["radius" := Int(DefaultRadius)], None))
    else SearchApi(input, table, service, distance)
  }

  /** The radius parameter: omitted, or an integer from 1 to 100. */
  lemma {:induction false} RadiusRule(input: Row)
    ensures FieldPasses(SearchRules()["radius"], input, "radius", NoEmailRule) <==>
      (Omitted(input, "radius") || (Get(input, "radius").Int? && 1 <= Get(input, "radius").i <= 100))
  {
    var rules := SearchRules()["radius"];
    if FieldPasses(rules, input, "radius", NoEmailRule) && !Omitted(input, "radius") {
      assert rules[1] in rules && rules[2] in rules && rules[3] in rules;
    }
  }

  /** A search query is valid exactly when it has a postal code of at most 10 and a city of at most 255 characters and a radius from 1 to 100, if any. */
  lemma SearchRulesMeaning(input: Row)
    ensures Passes(SearchRules(), input, NoEmailRule) <==>
      RequiredText(input, "zip_code", 10) && RequiredText(input, "city", 255) &&
      (Omitted(input, "radius") || (Get(input, "radius").Int? && 1 <= Get(input, "radius").i <= 100))
  {
    RequiredTextRule(input, "zip_code", 10, NoEmailRule);
    RequiredTextRule(input, "city", 255, NoEmailRule);
    RadiusRule(input);
    var table := SearchRules();
    assert table["zip_code"] == [Required, IsString, Max(10)];
    assert table["city"] == [Required, IsString, Max(255)];
  }

  /**
    * The radius searched with is the one given, else 5. A blank-string radius
    * is the one value that slips through validation; any other valid query has
    * a radius from 1 to 100, so `radius > 0` always holds for it.
    */
  lemma EffectiveRadius(input: Row)
    requires Passes(SearchRules(), input, NoEmailRule)
    ensures var radius := RadiusOf(Validated(SearchRules(), input));
      (Get(input, "radius").Int? ==> radius == Get(input, "radius").i) &&
      (Get(input, "radius") == Null ==> radius == DefaultRadius) &&
      (Get(input, "radius").Str? ==> radius == 0) &&
      (!Get(input, "radius").Str? ==> 1 <= radius <= 100)
  {
    SearchRulesMeaning(input);
    assert Get(Validated(SearchRules(), input), "radius") == Get(input, "radius");
  }

  /** The search as a whole, once its query is valid. */
  function Searched(input: Row, table: seq<Row>, service: Service, distance: Distance): SearchView
    requires Passes(SearchRules(), input, NoEmailRule)
  {
    RunSearch(Validated(SearchRules(), input), table, service, distance)
  }

  /** A valid query is geocoded on its postal code and city, without a street. */
  lemma SearchGeocodesQuery(input: Row, table: seq<Row>, service: Service, distance: Distance)
    requires Passes(SearchRules(), input, NoEmailRule)
    ensures SearchApi(input, table, service, distance) == Rendered(Searched(input, table, service, distance))
    ensures Searched(input, table, service, distance).searchCoordinates ==
      Resolve(CoordinateLookup(TextOf(Get(input, "zip_code")), TextOf(Get(input, "city")), None), service).coords
  {
    SearchRulesMeaning(input);
    var v := Validated(SearchRules(), input);
    ValidatedKeeps(SearchRules(), input);
    assert SearchLookup(v) == CoordinateLookup(TextOf(Get(input, "zip_code")), TextOf(Get(input, "city")), None);
  }

  /**
    * Unless the radius is a blank string, the radius search runs exactly when
    * geocoding found the query's coordinates, and the fallback otherwise.
    */
  lemma StrategyFollowsGeocoding(input: Row, table: seq<Row>, service: Service, distance: Distance)
    requires Passes(SearchRules(), input, NoEmailRule)
    requires !Get(input, "radius").Str?
    ensures var view := Searched(input, table, service, distance);
      view.rideOffers.Ranked? <==> view.searchCoordinates.Some?
  {
    EffectiveRadius(input);
  }

  /** A blank radius reaches the search as 0, so even a geocoded query falls back to text matching. */
  lemma BlankRadiusFallsBack(input: Row, table: seq<Row>, service: Service, distance: Distance)
    requires Passes(SearchRules(), input, NoEmailRule)
    requires Get(input, "radius").Str?
    ensures var view := Searched(input, table, service, distance);
      view.rideOffers.Listed? && view.searchParams["radius"] == Int(0)
  {
    EffectiveRadius(input);
  }

  lemma {:induction false} OffersOfRanked(hits: seq<Hit>, o: Row)
    ensures o in Offers(Ranked(hits)) <==> exists h :: h in hits && h.offer == o
  {
    var rows := Offers(Ranked(hits));
    if o in rows {
      var i :| 0 <= i < |rows| && rows[i] == o;
      assert hits[i] in hits;
    }
    if exists h :: h in hits && h.offer == o {
      var h :| h in hits && h.offer == o;
      var i :| 0 <= i < |hits| && hits[i] == h;
      assert rows[i] == o;
    }
  }

  /** Whatever the branch, every offer a search returns is a stored offer with both coordinates. */
  lemma SearchResultsLocated(input: Row, table: seq<Row>, service: Service, distance: Distance)
    ensures var reply := SearchPage(input, table, service, distance);
      reply.Rendered? ==> forall o :: o in Offers(reply.view.rideOffers) ==> o in table && HasCoordinates(o)
  {
    var reply := SearchPage(input, table, service, distance);
    if reply.Rendered? && reply.view.rideOffers.Ranked? {
      forall o | o in Offers(reply.view.rideOffers)
        ensures o in table && HasCoordinates(o)
      {
        OffersOfRanked(reply.view.rideOffers.hits, o);
      }
    }
  }

  /**
    * The radius branch returns every stored offer with coordinates whose
    * distance to the search point is at most the radius, each with that
    * distance, nothing else, in ascending order of distance.
    */
  lemma RadiusBranch(input: Row, table: seq<Row>, service: Service, distance: Distance)
    requires Passes(SearchRules(), input, NoEmailRule)
    ensures var view := Searched(input, table, service, distance);
      var radius := RadiusOf(Validated(SearchRules(), input));
      view.rideOffers.Ranked? ==>
        view.searchCoordinates.Some? && radius > 0 &&
        var center := view.searchCoordinates.value;
        var hits := view.rideOffers.hits;
        SortedByDistance(hits) &&
        (forall h :: h in hits ==>
           h.offer in table && HasCoordinates(h.offer) &&
           h.distance == distance(center, h.offer) && h.distance <= radius as real) &&
        (forall o :: o in table && HasCoordinates(o) && distance(center, o) <= radius as real ==>
           Hit(o, distance(center, o)) in hits) &&
        (forall h :: multiset(hits)[h] ==
           (if IsHitOf(h, center, radius, distance) then multiset(table)[h.offer] else 0))
  {
  }

  /**
    * The fallback branch returns the stored offers with coordinates whose postal
    * code equals the query's or whose city starts with the query's city, in
    * table order.
    */
  lemma FallbackBranch(input: Row, table: seq<Row>, service: Service, distance: Distance)
    requires Passes(SearchRules(), input, NoEmailRule)
    ensures var view := Searched(input, table, service, distance);
      var zipCode := TextOf(Get(input, "zip_code"));
      var city := TextOf(Get(input, "city"));
      view.rideOffers.Listed? ==>
        view.rideOffers.rows ==
          Where(table, o => HasCoordinates(o) && (ZipEquals(o, zipCode) || CityStartsWith(o, city)))
  {
    var v := Validated(SearchRules(), input);
    ValidatedKeeps(SearchRules(), input);
    var zipCode := TextOf(Get(input, "zip_code"));
    var city := TextOf(Get(input, "city"));
    assert TextOf(Get(v, "zip_code")) == zipCode && TextOf(Get(v, "city")) == city;
    FallbackIsZipOrCityPrefix(table, zipCode, city);
  }

  /** An offer with the query's postal code but another city is found by the fallback. */
  lemma ExactZipFindsOtherCity(offer: Row, service: Service, distance: Distance)
    requires offer == map["zip_code" := Str("80331"), "city" := Str("Muenchen-Altstadt"),
                          "latitude" := Num(48.137), "longitude" := Num(11.575)]
    requires Resolve(CoordinateLookup("80331", "Munich", None), service).coords.None?
    ensures var input := map["zip_code" := Str("80331"), "city" := Str("Munich")];
      SearchApi(input, [offer], service, distance) ==
        Rendered(SearchView(Listed([offer]), input["radius" := Int(DefaultRadius)], None))
  {
    var input := map["zip_code" := Str("80331"), "city" := Str("Munich")];
    assert !IsTrimmable(input["zip_code"].s[0]) && !IsTrimmable(input["city"].s[0]);
    SearchRulesMeaning(input);
    ValidatedKeeps(SearchRules(), input);
    assert Validated(SearchRules(), input) == input;
    assert ZipEquals(offer, "80331");
    assert FallbackSearch([offer], "80331", "Munich") == [offer];
  }
}
