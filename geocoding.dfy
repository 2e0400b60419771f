/**
  * Address lookups against the OpenStreetMap Nominatim search service:
  * the retrying structured lookup that yields coordinates (`getCoordinates`)
  * and the single free-text lookup that feeds address suggestions (`geocode`).
  * The service is an oracle that answers the n-th attempt of a lookup;
  * `usleep` becomes a log of the microseconds slept.
  */
module Geocoding {
  import opened Wrappers
  import opened Attributes
  import opened Validation

  /** The `address` object of a search result; every part may be missing. */
  datatype AddressDetails = AddressDetails(
    road: Option<string>,
    houseNumber: Option<string>,
    city: Option<string>,
    town: Option<string>,
    village: Option<string>,
    municipality: Option<string>,
    postcode: Option<string>)

  /** One search result: position, display name and address details. */
  datatype Place = Place(lat: real, lon: real, displayName: string, address: AddressDetails)

  /** The query parameters of a request to the search endpoint. */
  datatype Lookup =
    | Structured(street: Option<string>, city: string, postalCode: string, limit: nat)
    | FreeText(q: string, limit: nat, countryCodes: string)

  /** What one request yields: a response with a status and a JSON list, or an exception. */
  datatype Reply = Response(status: int, body: seq<Place>) | Thrown(message: string)

  /** The service's reply to the given attempt (numbered from 1) of a lookup. */
  type Service = (Lookup, nat) -> Reply

  predicate Successful(reply: Reply)
  {
    reply.Response? && 200 <= reply.status < 300
  }

  datatype Point = Point(latitude: real, longitude: real)

  /** What a run of the retry loop returns and what it did: requests sent, microseconds slept. */
  datatype Trace = Trace(coords: Option<Point>, calls: nat, sleeps: seq<nat>)

  const MaxRetries: nat := 3
  const InitialRetryDelay: nat := 1000   // milliseconds
  const SuggestionLimit: nat := 5

  /** The structured lookup `getCoordinates` sends: one result at most. */
  function CoordinateLookup(zipCode: string, city: string, street: Option<string>): Lookup
  {
    Structured(street, city, zipCode, 1)
  }

  function PointOf(p: Place): Point
  {
    Point(p.lat, p.lon)
  }

  /** The retry loop from attempt `attempt` on, with `retryDelay` milliseconds before the next one. */
  function Attempts(q: Lookup, service: Service, attempt: nat, retryDelay: nat): Trace
    requires 1 <= attempt <= MaxRetries
    decreases MaxRetries - attempt
  {
    var reply := service(q, attempt);
    if Successful(reply) && |reply.body| > 0 then Trace(Some(PointOf(reply.body[0])), attempt, [])
    else if Successful(reply) then Trace(None, attempt, [])
    else if attempt < MaxRetries then
      var rest := Attempts(q, service, attempt + 1, retryDelay * 2);
      Trace(rest.coords, rest.calls, [retryDelay * 1000] + rest.sleeps)
    else Trace(None, attempt, [])
  }

  /** The whole retry loop. */
  function Resolve(q: Lookup, service: Service): Trace
  {
    Attempts(q, service, 1, InitialRetryDelay)
  }

  function Pow2(n: nat): nat
  {
    if n == 0 then 1 else 2 * Pow2(n - 1)
  }

  lemma {:induction false} AttemptsSpec(q: Lookup, service: Service, attempt: nat, retryDelay: nat)
    requires 1 <= attempt <= MaxRetries
    decreases MaxRetries - attempt
    ensures var t := Attempts(q, service, attempt, retryDelay);
      attempt <= t.calls <= MaxRetries &&
      (forall j :: attempt <= j < t.calls ==> !Successful(service(q, j))) &&
      (t.calls < MaxRetries ==> Successful(service(q, t.calls))) &&
      (t.coords.Some? <==> Successful(service(q, t.calls)) && |service(q, t.calls).body| > 0) &&
      (t.coords.Some? ==> t.coords.value == PointOf(service(q, t.calls).body[0])) &&
      |t.sleeps| == t.calls - attempt &&
      (forall i :: 0 <= i < |t.sleeps| ==> t.sleeps[i] == retryDelay * 1000 * Pow2(i))
  {
    var reply := service(q, attempt);
    if !Successful(reply) && attempt < MaxRetries {
      AttemptsSpec(q, service, attempt + 1, retryDelay * 2);
      var rest := Attempts(q, service, attempt + 1, retryDelay * 2);
      forall i | 0 <= i < |rest.sleeps|
        ensures rest.sleeps[i] == retryDelay * 1000 * Pow2(i + 1)
      {
        assert rest.sleeps[i] == retryDelay * 2 * 1000 * Pow2(i);
      }
    }
  }

  /**
    * The retry loop sends between one and three requests. It stops at the first
    * successful response, with the first result's position if there is one and
    * with nothing otherwise; it gives up after three failures. It sleeps 1 s
    * and then 2 s, only between attempts.
    */
  lemma ResolveSpec(q: Lookup, service: Service)
    ensures var t := Resolve(q, service);
      1 <= t.calls <= MaxRetries &&
      (forall j :: 1 <= j < t.calls ==> !Successful(service(q, j))) &&
      (t.calls < MaxRetries ==> Successful(service(q, t.calls))) &&
      (t.coords.Some? <==> Successful(service(q, t.calls)) && |service(q, t.calls).body| > 0) &&
      (t.coords.Some? ==> t.coords.value == PointOf(service(q, t.calls).body[0])) &&
      t.sleeps == [1000000, 2000000][..t.calls - 1]
  {
    AttemptsSpec(q, service, 1, InitialRetryDelay);
    var t := Resolve(q, service);
    assert Pow2(0) == 1 && Pow2(1) == 2;
  }

  function Sum(xs: seq<nat>): nat
  {
    if xs == [] then 0 else xs[0] + Sum(xs[1..])
  }

  /** Backing off never blocks the request for more than three seconds in all. */
  lemma TotalDelayBound(q: Lookup, service: Service)
    ensures Sum(Resolve(q, service).sleeps) <= 3000000
  {
    ResolveSpec(q, service);
    var s := Resolve(q, service).sleeps;
    assert s == [] || s == [1000000] || s == [1000000, 2000000];
  }

  /** Two failures and then an answer: three requests, sleeps of 1 s and 2 s, the answer's position. */
  lemma FailTwiceThenAnswer(q: Lookup, p: Place)
    ensures var service := (l: Lookup, n: nat) => if n < 3 then Thrown("timeout") else Response(200, [p]);
      Resolve(q, service) == Trace(Some(PointOf(p)), 3, [1000000, 2000000])
  {
  }

  /** `getCoordinates($zipCode, $city, $street)`. */
  method GetCoordinates(zipCode: string, city: string, street: Option<string>, service: Service)
    returns (coords: Option<Point>, calls: nat, sleeps: seq<nat>)
    ensures Trace(coords, calls, sleeps) == Resolve(CoordinateLookup(zipCode, city, street), service)
  {
    var q := CoordinateLookup(zipCode, city, street);
    var retryDelay := InitialRetryDelay;
    sleeps := [];
    calls := 0;
    var attempt := 1;
    while attempt <= MaxRetries
      invariant 1 <= attempt <= MaxRetries + 1
      invariant attempt <= MaxRetries ==>
        var t := Attempts(q, service, attempt, retryDelay);
        Resolve(q, service) == Trace(t.coords, t.calls, sleeps + t.sleeps)
      invariant attempt > MaxRetries ==> Resolve(q, service) == Trace(None, MaxRetries, sleeps)
      decreases MaxRetries + 1 - attempt
    {
      calls := attempt;
      var reply := service(q, attempt);
      if Successful(reply) && |reply.body| > 0 {
        coords := Some(PointOf(reply.body[0]));
        return;
      }
      if Successful(reply) {
        coords := None;
        return;
      }
      if attempt < MaxRetries {
        ghost var rest := Attempts(q, service, attempt + 1, retryDelay * 2);
        assert sleeps + ([retryDelay * 1000] + rest.sleeps) == (sleeps + [retryDelay * 1000]) + rest.sleeps;
        sleeps := sleeps + [retryDelay * 1000];
        retryDelay := retryDelay * 2;
      }
      attempt := attempt + 1;
    }
    coords := None;
    calls := MaxRetries;
  }

  /** One entry of the suggestion list the `geocode` endpoint returns. */
  datatype Suggestion = Suggestion(
    displayName: string,
    street: string,
    city: string,
    zipCode: string,
    latitude: real,
    longitude: real)

  /** `$a ?? $b ?? … ?? $fallback`: the first value present. */
  function FirstPresent(candidates: seq<Option<string>>, fallback: string): (r: string)
    ensures (forall i :: 0 <= i < |candidates| ==> candidates[i].None?) ==> r == fallback
    ensures forall i :: (0 <= i < |candidates| && candidates[i].Some? &&
                         forall j :: 0 <= j < i ==> candidates[j].None?) ==> r == candidates[i].value
  {
    if candidates == [] then fallback
    else if candidates[0].Some? then candidates[0].value
    else FirstPresent(candidates[1..], fallback)
  }

  /** The street line: the road, followed by a space and the house number when there is one. */
  function StreetLine(a: AddressDetails): string
  {
    match a.road
    case None => ""
    case Some(road) => road + (match a.houseNumber case Some(n) => " " + n case None => "")
  }

  /** The place name: city, else town, else village, else municipality, else "". */
  function PlaceName(a: AddressDetails): string
  {
    FirstPresent([a.city, a.town, a.village, a.municipality], "")
  }

  function ToSuggestion(p: Place): Suggestion
  {
    Suggestion(p.displayName, StreetLine(p.address), PlaceName(p.address),
               match p.address.postcode case Some(z) => z case None => "",
               p.lat, p.lon)
  }

  /** The street line can be split back into the road and the house number. */
  lemma StreetLineSplits(a: AddressDetails)
    ensures a.road.None? ==> StreetLine(a) == ""
    ensures a.road.Some? ==> StreetLine(a)[..|a.road.value|] == a.road.value
    ensures a.road.Some? && a.houseNumber.None? ==> StreetLine(a) == a.road.value
    ensures a.road.Some? && a.houseNumber.Some? ==>
      |StreetLine(a)| == |a.road.value| + 1 + |a.houseNumber.value| &&
      StreetLine(a)[|a.road.value|] == ' ' &&
      StreetLine(a)[|a.road.value| + 1..] == a.houseNumber.value
  {
  }

  /** The place name is the first of city, town, village, municipality that is present, else "". */
  lemma PlaceNameFallsBack(a: AddressDetails)
    ensures a.city.Some? ==> PlaceName(a) == a.city.value
    ensures a.city.None? && a.town.Some? ==> PlaceName(a) == a.town.value
    ensures a.city.None? && a.town.None? && a.village.Some? ==> PlaceName(a) == a.village.value
    ensures a.city.None? && a.town.None? && a.village.None? && a.municipality.Some? ==>
      PlaceName(a) == a.municipality.value
    ensures a.city.None? && a.town.None? && a.village.None? && a.municipality.None? ==> PlaceName(a) == ""
  {
    var c := [a.city, a.town, a.village, a.municipality];
    assert c[0] == a.city && c[1] == a.town && c[2] == a.village && c[3] == a.municipality;
  }

  datatype GeocodeReply =
    | Suggestions(items: seq<Suggestion>)
    | Unavailable                            // HTTP 503
    | InvalidQuery(fields: set<string>)      // validation error

  function QueryRules(): RuleTable
  {
    map["query" := [Required, IsString, Min(3), Max(255)]]
  }

  /**
    * `geocode`: one free-text lookup, no retry. An exception becomes 503; an
    * unsuccessful status becomes an empty list; every result of a successful
    * response becomes one suggestion, in order.
    */
  function Geocode(input: Row, service: Service): (reply: GeocodeReply)
    ensures reply.InvalidQuery? <==> !Passes(QueryRules(), input, NoEmailRule)
    ensures reply.InvalidQuery? ==> reply.fields == {"query"}
    ensures !reply.InvalidQuery? ==>
      var r := service(FreeText(TextOf(Get(input, "query")), SuggestionLimit, "de"), 1);
      (reply.Unavailable? <==> r.Thrown?) &&
      (r.Response? && !Successful(r) ==> reply == Suggestions([])) &&
      (Successful(r) ==>
         reply.Suggestions? && |reply.items| == |r.body| &&
         forall i :: 0 <= i < |r.body| ==> reply.items[i] == ToSuggestion(r.body[i]))
  {
    match Validate(QueryRules(), input, NoEmailRule)
    case Err(fields) => InvalidQuery(fields)
    case Ok(validated) =>
      var reply := service(FreeText(TextOf(Get(validated, "query")), SuggestionLimit, "de"), 1);
      match reply
      case Thrown(_) => Unavailable
      case Response(_, body) =>
        if Successful(reply) then Suggestions(seq(|body|, i requires 0 <= i < |body| => ToSuggestion(body[i])))
        else Suggestions([])
  }
}
