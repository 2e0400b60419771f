# Ride-share board: geocoded search and offer writes

This project models the core of a small community ride-share board. People post carpool offers, each identified by a postal code and a city. An offer can be edited only with the secret edit code handed out when it is created. Offers are placed on a map by asking the OpenStreetMap Nominatim service for the coordinates of their address. The model covers:

- **Search** (`search`, `searchApi`). A query of postal code, city and optional radius is validated and geocoded. Then either:
  - a radius search returns the stored offers within the radius, ordered by ascending distance, or
  - when geocoding found nothing, a textual fallback matches on postal code and city.

  Only offers with both coordinates are returned.
- **Geocoding.** `getCoordinates` retries up to three times with exponential backoff. `geocode` is a single free-text lookup whose results become address suggestions.
- **Writing offers** (`store`, `update`). The address is geocoded, on update only when it changed. Coordinates are written both together, and only when geocoding found them.
- **The `RideOffer` model:**
  - the mass-assignment whitelist;
  - the unique edit-code generator;
  - the `creating` hook that fills in the validity window and the edit code.
- **The form request**: its rule table, read as a predicate over the submitted fields.

## How the world outside is represented

- **Rows and inputs.** Request input, validated arrays, model attributes and table rows are all `Row = map<string, Value>`. A missing key reads as `null` (`Attributes.Get`). Values arrive already typed: integers as `Int`, dates as `Day` numbers. The framework's parsing of request strings is not modelled.
- **Validation.** The Laravel validator is modelled for the rules the board uses:
  - `required` is the only implicit rule;
  - every other rule is skipped for a missing key, a blank string, or a null under `nullable`;
  - `min`/`max` measure strings by length and integers by value.

  Email syntax is an abstract predicate `isEmail`.
- **The geocoding service.** It is an oracle `Service = (Lookup, attempt) -> Reply`. A `Reply` is a response (status and list of places) or a thrown exception. `usleep` becomes a log of the microseconds slept, and the number of requests sent is returned alongside.
- **Distance.** The Haversine distance is evaluated by the database. Here it is an abstract function `Distance = (Point, Row) -> real`.
- **Randomness and time.** `Str::random(10)` becomes a sequence of drawn codes. The codes already in use are a set. `now()` is a day number, and `addMonths` is an abstract function on day numbers.

## Behaviour worth knowing

All line numbers below refer to `app/Http/Controllers/RideOfferController.php`.

- **A radius of 0 never reaches the fallback.** The comments at lines 195 and 211 say that a radius of 0 selects the fallback. The rule `min:1` at line 179 rejects 0, though. The test `$radius > 0` fails only for a blank-string radius: that value skips every rule and becomes `(int) "" = 0` (`Search.BlankRadiusFallsBack`). Laravel's default middleware turns blank strings into null before validation, so a normal request never gets there.
- **The distance formula is not clamped.** The SQL at line 202 passes its expression straight to `acos`. Rounding can push that argument just past 1 for an offer at the query point. SQLite and MySQL then return NULL, so `distance <= ?` is not true and that offer is dropped from the radius results. The model's distance is a total function, so such an offer is one whose distance exceeds every radius.
- **Backoff waits 1 s, then 2 s.** The loop at lines 427-432 sleeps only between attempts, so a lookup waits at most 3 s in total (`Geocoding.ResolveSpec`, `Geocoding.TotalDelayBound`).
- **Failed suggestion lookups answer 200.** In `geocode`, an unsuccessful HTTP status gives an empty list with status 200 (line 378). Only an exception gives 503 (lines 379-381).
- **Stale coordinates on update.** Suppose an update changes the address and geocoding then fails (lines 110-117). The offer keeps its previous coordinates, which belong to the old address (`OfferWrites.Update`, `OfferWrites.UpdateCoordinates`).

## Model

| member | source | states |
|---|---|---|
| `Validation.Validate` | app/Http/Controllers/RideOfferController.php:176-180 | validation succeeds exactly when every field passes its rules; it then yields the input restricted to the fields with rules; otherwise it names exactly the fields with rules that fail, and at least one |
| `Validation.ValidatedKeeps` | app/Http/Controllers/RideOfferController.php:49 | the validated array holds exactly the input's fields that have rules, with unchanged values |
| `RideOfferRequest.Authorize` | app/Http/Requests/RideOfferRequest.php:12-15 | every request is authorised |
| `RideOfferRequest.ZipCodeRule` | app/Http/Requests/RideOfferRequest.php:25 | `zip_code` passes iff it is a non-blank string of at most 10 characters |
| `RideOfferRequest.CityAndLastNameRules` | app/Http/Requests/RideOfferRequest.php:26-28 | `city` and `last_name` pass iff each is a non-blank string of at most 255 characters |
| `RideOfferRequest.EmailRule` | app/Http/Requests/RideOfferRequest.php:30 | `email` passes iff it is a non-blank, well-formed string of at most 255 characters |
| `RideOfferRequest.OptionalFieldRules` | app/Http/Requests/RideOfferRequest.php:27-32 | `street`, `first_name`, `class` and `phone` pass iff omitted (missing, null or blank) or a string of at most 255 characters |
| `RideOfferRequest.ValidityRules` | app/Http/Requests/RideOfferRequest.php:33-34 | `valid_from` passes iff omitted or a date; `valid_until` passes iff omitted, or a date that is not before `valid_from` when that is a date |
| `RideOfferRequest.FreeTextRules` | app/Http/Requests/RideOfferRequest.php:35-36 | `cost_info` and `additional_info` pass iff omitted or a string of any length |
| `RideOfferRequest.RulesMeaning` | app/Http/Requests/RideOfferRequest.php:22-37 | a form passes the whole rule table iff every field meets its rule above |
| `RideOfferRequest.ValidatedOmitsServerColumns` | app/Http/Requests/RideOfferRequest.php:22-37 | a validated form never carries `latitude`, `longitude` or `edit_code` |
| `RideOfferModel.MassAssign` | app/Models/RideOffer.php:18-33 | mass assignment copies exactly the fillable keys of the input and keeps every other attribute as it was |
| `RideOfferModel.EditCodeNotFillable` | app/Models/RideOffer.php:18-33 | no input can change `edit_code` through mass assignment |
| `RideOfferModel.FirstUnused` | app/Models/RideOffer.php:55-60 | the index of the first drawn code not already in use; every earlier draw collides |
| `RideOfferModel.GenerateEditCode` | app/Models/RideOffer.php:53-63 | the loop returns a 10-character code that no existing offer holds, namely the first unused draw |
| `RideOfferModel.RideOffer.constructor` | app/Models/RideOffer.php:18-33 | a new model holds exactly the fillable part of its input |
| `RideOfferModel.RideOffer.Fill` | app/Http/Controllers/RideOfferController.php:120 | filling the model mass-assigns the input onto the current attributes |
| `RideOfferModel.RideOffer.Creating` | app/Models/RideOffer.php:73-84 | an empty `valid_from` becomes today and a supplied one is kept; an empty `valid_until` becomes today plus six months and a supplied one is kept; `edit_code` is always replaced by a fresh code; no other attribute changes |
| `RideOfferModel.Create` | app/Models/RideOffer.php:68-85 | creating fills a fresh model from the input and then applies the `creating` defaults and edit code |
| `Geocoding.AttemptsSpec` | app/Http/Controllers/RideOfferController.php:394-433 | from any attempt on, the loop stops at the first successful response or after the last attempt; it returns the first result's position iff that response has results; the k-th sleep is the current delay times 2^k |
| `Geocoding.ResolveSpec` | app/Http/Controllers/RideOfferController.php:391-436 | one to three requests; all before the last failed; stopping early means a successful response; a position iff that response is non-empty, and then its first result's; sleeps of 1 000 000 µs then 2 000 000 µs, only before another attempt |
| `Geocoding.TotalDelayBound` | app/Http/Controllers/RideOfferController.php:427-432 | the backoff sleeps at most 3 s in total |
| `Geocoding.FailTwiceThenAnswer` | app/Http/Controllers/RideOfferController.php:394-432 | two failures then an answer give three requests, sleeps of 1 s and 2 s, and the answer's position |
| `Geocoding.GetCoordinates` | app/Http/Controllers/RideOfferController.php:389-437 | the imperative retry loop returns exactly the coordinates, request count and sleeps that `Resolve` specifies for its structured lookup |
| `Geocoding.FirstPresent` | app/Http/Controllers/RideOfferController.php:368 | a `??` chain yields the first present candidate, or the fallback when none is present |
| `Geocoding.StreetLineSplits` | app/Http/Controllers/RideOfferController.php:365-367 | the suggested street is empty without a road; otherwise it is the road, then a space and the house number when there is one |
| `Geocoding.PlaceNameFallsBack` | app/Http/Controllers/RideOfferController.php:368 | the suggested city is the city, else the town, else the village, else the municipality, else "" |
| `Geocoding.Geocode` | app/Http/Controllers/RideOfferController.php:340-383 | an invalid query is refused, naming `query`; otherwise one free-text lookup is made, with no retry; an exception gives "unavailable", an unsuccessful status an empty list, and success one suggestion per result, in order |
| `Search.Where` | app/Http/Controllers/RideOfferController.php:215-225 | a `where` keeps exactly the rows that satisfy its condition, each as often as the table holds it |
| `Search.WithinRadius` | app/Http/Controllers/RideOfferController.php:192-206 | the radius filter yields exactly the stored offers with coordinates within the radius, each with its distance and as often as the table holds it |
| `Search.WithinRadiusIsWhere` | app/Http/Controllers/RideOfferController.php:192-206 | the radius filter is the generic `where` on "has coordinates and lies within the radius", each kept row paired with its distance, in table order |
| `Search.InsertByDistance` | app/Http/Controllers/RideOfferController.php:207 | inserting into a distance-sorted list keeps it sorted and adds exactly the one hit |
| `Search.SortByDistance` | app/Http/Controllers/RideOfferController.php:207 | ordering by distance yields a sorted permutation of its input |
| `Search.RadiusSearch` | app/Http/Controllers/RideOfferController.php:196-207 | the radius branch is sorted by distance; every hit is a stored offer with coordinates within the radius; every such offer is a hit, as often as the table holds it |
| `Search.FallbackIsZipOrCityPrefix` | app/Http/Controllers/RideOfferController.php:215-225 | the three-way OR selects the same offers, in the same order, as "postal code equal OR city starts with the query city" |
| `Search.SearchApi` | app/Http/Controllers/RideOfferController.php:255-320 | the API search is refused exactly when the query is invalid, naming exactly the query fields that fail |
| `Search.SearchPage` | app/Http/Controllers/RideOfferController.php:164-250 | without `zip_code` and `city` the page shows no offers, radius 5 and no coordinates; otherwise it answers as the API search |
| `Search.RadiusRule` | app/Http/Controllers/RideOfferController.php:179 | the radius passes iff omitted or an integer from 1 to 100 |
| `Search.SearchRulesMeaning` | app/Http/Controllers/RideOfferController.php:176-180 | a query is valid iff it has a non-blank postal code of at most 10 characters, a non-blank city of at most 255, and a radius that is omitted or from 1 to 100 |
| `Search.EffectiveRadius` | app/Http/Controllers/RideOfferController.php:182-184 | the radius used is the integer given, else 5; unless it is a blank string it lies in [1, 100] |
| `Search.SearchGeocodesQuery` | app/Http/Controllers/RideOfferController.php:189 | a valid query is searched, and its coordinates are those of the postal code and city, looked up without a street |
| `Search.StrategyFollowsGeocoding` | app/Http/Controllers/RideOfferController.php:196 | for a valid query without a blank radius, the radius branch runs iff geocoding found coordinates |
| `Search.BlankRadiusFallsBack` | app/Http/Controllers/RideOfferController.php:183-211 | a blank radius reaches the search as 0, and the fallback runs even when coordinates were found |
| `Search.SearchResultsLocated` | app/Http/Controllers/RideOfferController.php:192-193 | every offer either branch returns is a stored offer with both latitude and longitude |
| `Search.RadiusBranch` | app/Http/Controllers/RideOfferController.php:196-207 | a radius result has coordinates and a positive radius; it is sorted; it contains only offers within the radius, with their distances, and all of them, each as often as the table holds it |
| `Search.FallbackBranch` | app/Http/Controllers/RideOfferController.php:210-225 | a fallback result is exactly the stored offers with coordinates whose postal code equals the query's or whose city starts with the query city, in table order |
| `Search.ExactZipFindsOtherCity` | app/Http/Controllers/RideOfferController.php:221-222 | when geocoding fails, an offer with the query's postal code and a different city is still found |
| `OfferWrites.WithCoordinates` | app/Http/Controllers/RideOfferController.php:54-57 | found coordinates set latitude and longitude together and change nothing else; missing coordinates change nothing |
| `OfferWrites.UpdateCoordinates` | app/Http/Controllers/RideOfferController.php:114-120 | after filling a stored offer, found coordinates replace both stored ones; without them both stay; the edit code is untouched; paired coordinates stay paired |
| `OfferWrites.CreateCoordinates` | app/Http/Controllers/RideOfferController.php:52-59 | a new offer has both coordinates when geocoding found them and neither otherwise |
| `OfferWrites.FormFieldsFill` | app/Http/Controllers/RideOfferController.php:59 | every validated field reaches the model unchanged |
| `OfferWrites.Store` | app/Http/Controllers/RideOfferController.php:49-59 | creating always geocodes the full address (at least one request); coordinates are stored both or neither; the edit code is the fresh generated one; a supplied `valid_from`/`valid_until` is kept and an empty one becomes today / today plus six months; every other column is exactly the mass-assigned submitted fields plus coordinates, and columns not submitted stay empty |
| `OfferWrites.Update` | app/Http/Controllers/RideOfferController.php:103-120 | geocoding runs iff the postal code, city or street changed; if it is skipped or finds nothing, the stored coordinates stay; otherwise both are replaced; the edit code never changes |

## Left out

- **Rate limiting** (the `RateLimiter` calls in `store`, `update` and `destroy`). It depends on an external cache.
- **The Haversine arithmetic.** It is floating point evaluated by the database, so distance is an abstract function. No symmetry or zero self-distance is claimed.
- **SQL comparison details.** `ZipEquals` compares postal codes exactly, and the `LIKE` matches are case-sensitive and treat `%`/`_` in the query as ordinary characters. In the database, both the `=` on `zip_code` (`RideOfferController.php:218`, `:222`) and `LIKE` depend on the collation: case folding, and under MySQL's PAD SPACE collations the `=` also ignores trailing spaces.
- **Order of equal distances and of fallback rows.** The model sorts stably and lists fallback rows in table order. SQL leaves both unspecified.
- **Parsing and rounding.**
  - The decimal strings Nominatim returns are already numbers here.
  - Rounding to the `decimal(10,7)` columns is not modelled.
  - The `User-Agent` header and the `format=json` parameter are not modelled.
- **Logging** (`\Log` calls). It has no behavioural effect.
- **Rendering and dispatch.** Inertia rendering, redirects, JSON encoding and routing are not modelled. The page and API search return the same data.
- **Thin actions.** `index` (with `paginate(10)`), `create`, `show`, `edit`, `confirmation`, `overview` and `destroy` are lookups, renders or deletes.
- **Lookup by edit code.** `firstOrFail` is not modelled: `Update` is given the offer.
- **Persistence.**
  - Saving to the database is not modelled.
  - Timestamps and ids are not modelled.
  - The unique index on `edit_code` is not modelled.
  - Two concurrent creations racing for one code are not modelled.
- **Casts.** The model's `$casts` (dates, decimals) are not modelled.
- **Framework validation internals.**
  - Email syntax is an abstract predicate.
  - Date parsing is not modelled.
  - Coercion of numeric strings by the `integer` rule is not modelled.
  - Input-normalising middleware is not modelled.
- `RideOfferModel.GenerateEditCode`: the random source is a finite sequence of draws that contains an unused code. The source loop draws until it finds one, so its termination rests on randomness.
- `Geocoding.GetCoordinates`, `Geocoding.Geocode`: a reply is either an exception or a status with a well-formed list of places, so two error paths of the source are not modelled.
  - A successful body that is not a JSON array makes `count(null)` at `RideOfferController.php:406` throw a `TypeError`. `catch (\Exception $e)` at line 423 does not catch it, so `store`, `update` and `search` abort.
  - A result without `lat`/`lon` (lines 409-410) or `display_name` (line 364) raises an `ErrorException`. `getCoordinates` counts that as a failed attempt and retries; `geocode` answers 503.
- `Geocoding.Geocode`: the results are not truncated to five. The limit is a request parameter, and the service honours it.
- **Front-end code.** `resources/js/utils/debounce.ts` is timer-based and `resources/js/composables/useAppearance.ts` is UI state. Neither is part of this model.
- **The migration.** `database/migrations/2024_03_31_000000_create_ride_offers_table.php` only declares the schema. It informs the row shape.
