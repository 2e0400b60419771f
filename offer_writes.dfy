/**
  * The write path of the ride-offer controller (`store` and `update`): the
  * submitted address is geocoded, on update only when it changed, and the
  * coordinates are added to the validated array together, and only when
  * geocoding found them. Rate limiting and the redirect that follows are not
  * part of this model.
  */
module OfferWrites {
  import opened Wrappers
  import opened Attributes
  import opened Validation
  import opened Geocoding
  import RideOfferRequest
  import opened RideOfferModel

  /** `if ($coordinates) { $validated['latitude'] = …; $validated['longitude'] = …; }` */
  function WithCoordinates(validated: Row, coords: Option<Point>): (r: Row)
    ensures forall k :: k != "latitude" && k != "longitude" ==> Get(r, k) == Get(validated, k)
    ensures coords.None? ==> r == validated
    ensures coords.Some? ==>
      Get(r, "latitude") == Num(coords.value.latitude) && Get(r, "longitude") == Num(coords.value.longitude)
  {
    match coords
    case None => validated
    case Some(p) => validated["latitude" := Num(p.latitude)]["longitude" := Num(p.longitude)]
  }

  /** An offer's coordinates are both set or both missing. */
  predicate CoordinatesPaired(row: Row)
  {
    IsFilled(row, "latitude") <==> IsFilled(row, "longitude")
  }

  /** The stored postal code, city or street differs (`!==`) from the submitted one. */
  predicate AddressChanged(stored: Row, validated: Row)
  {
    Get(stored, "zip_code") != Get(validated, "zip_code") ||
    Get(stored, "city") != Get(validated, "city") ||
    Get(stored, "street") != Get(validated, "street")
  }

  /** `getCoordinates($validated['zip_code'], $validated['city'], $validated['street'] ?? null)`. */
  function AddressLookup(validated: Row): Lookup
  {
    CoordinateLookup(TextOf(Get(validated, "zip_code")), TextOf(Get(validated, "city")),
                     TextOrNone(Get(validated, "street")))
  }

  /**
    * Filling a stored offer from a validated form: found coordinates replace
    * both stored ones, missing coordinates leave both as they were, the edit
    * code is never touched, and coordinates that were paired stay paired.
    */
  lemma UpdateCoordinates(stored: Row, input: Row, coords: Option<Point>)
    ensures var after := MassAssign(stored, WithCoordinates(Validated(RideOfferRequest.Rules(), input), coords));
      (coords.Some? ==>
         Get(after, "latitude") == Num(coords.value.latitude) &&
         Get(after, "longitude") == Num(coords.value.longitude)) &&
      (coords.None? ==>
         Get(after, "latitude") == Get(stored, "latitude") &&
         Get(after, "longitude") == Get(stored, "longitude")) &&
      Get(after, "edit_code") == Get(stored, "edit_code") &&
      (CoordinatesPaired(stored) ==> CoordinatesPaired(after))
  {
    var v := Validated(RideOfferRequest.Rules(), input);
    RideOfferRequest.ValidatedOmitsServerColumns(input);
    var w := WithCoordinates(v, coords);
    assert "edit_code" !in w;
    if coords.None? {
      assert "latitude" !in w && "longitude" !in w;
    } else {
      assert "latitude" in w && "longitude" in w;
    }
  }

  /** A new offer built from a validated form has both coordinates when geocoding found them and neither otherwise. */
  lemma CreateCoordinates(input: Row, coords: Option<Point>)
    ensures var filled := MassAssign(map[], WithCoordinates(Validated(RideOfferRequest.Rules(), input), coords));
      (coords.Some? ==>
         Get(filled, "latitude") == Num(coords.value.latitude) &&
         Get(filled, "longitude") == Num(coords.value.longitude)) &&
      (coords.None? ==> !IsFilled(filled, "latitude") && !IsFilled(filled, "longitude")) &&
      CoordinatesPaired(filled)
  {
    UpdateCoordinates(map[], input, coords);
  }

  /** Every submitted field of a validated form is fillable and reaches the model unchanged. */
  lemma FormFieldsFill(attributes: Row, input: Row, coords: Option<Point>)
    ensures var v := Validated(RideOfferRequest.Rules(), input);
      var filled := MassAssign(attributes, WithCoordinates(v, coords));
      forall k :: k in v ==> Get(filled, k) == v[k]
  {
    var v := Validated(RideOfferRequest.Rules(), input);
    RideOfferRequest.ValidatedOmitsServerColumns(input);
    var w := WithCoordinates(v, coords);
    forall k | k in v
      ensures Get(MassAssign(attributes, w), k) == v[k]
    {
      assert k in RideOfferRequest.Rules();
      assert k in Fillable;
      assert k != "latitude" && k != "longitude";
      assert Get(w, k) == v[k];
    }
  }

  /**
    * `store`: geocode the submitted address, add the coordinates if found,
    * and create the offer.
    */
  method Store(input: Row, isEmail: string -> bool, service: Service,
               today: int, addMonths: (int, int) -> int, used: set<string>, draws: seq<string>)
    returns (offer: RideOffer, geocodeCalls: nat)
    requires Passes(RideOfferRequest.Rules(), input, isEmail)
    requires HasUnused(draws, used)
    requires forall i :: 0 <= i < |draws| ==> |draws[i]| == EditCodeLength
    ensures fresh(offer)
    ensures var v := Validated(RideOfferRequest.Rules(), input);
      var t := Resolve(AddressLookup(v), service);
      geocodeCalls == t.calls && 1 <= geocodeCalls &&
      (t.coords.Some? ==>
         Get(offer.attributes, "latitude") == Num(t.coords.value.latitude) &&
         Get(offer.attributes, "longitude") == Num(t.coords.value.longitude)) &&
      (t.coords.None? ==> !IsFilled(offer.attributes, "latitude") && !IsFilled(offer.attributes, "longitude")) &&
      CoordinatesPaired(offer.attributes) &&
      Get(offer.attributes, "edit_code") == Str(draws[FirstUnused(draws, used)]) &&
      (forall k :: k in v && k != "valid_from" && k != "valid_until" ==> Get(offer.attributes, k) == v[k])
    ensures var v := Validated(RideOfferRequest.Rules(), input);
      var filled := MassAssign(map[], WithCoordinates(v, Resolve(AddressLookup(v), service).coords));
      Get(offer.attributes, "valid_from") ==
        (if Falsy(Get(filled, "valid_from")) then Day(today) else Get(filled, "valid_from")) &&
      Get(offer.attributes, "valid_until") ==
        (if Falsy(Get(filled, "valid_until")) then Day(addMonths(today, ValidityMonths)) else Get(filled, "valid_until")) &&
      (forall k :: k != "valid_from" && k != "valid_until" && k != "edit_code" ==>
         Get(offer.attributes, k) == Get(filled, k))
  {
    var validated := Validated(RideOfferRequest.Rules(), input);
    var coords, calls, sleeps := GetCoordinates(TextOf(Get(validated, "zip_code")), TextOf(Get(validated, "city")),
                                                TextOrNone(Get(validated, "street")), service);
    ResolveSpec(AddressLookup(validated), service);
    CreateCoordinates(input, coords);
    FormFieldsFill(map[], input, coords);
    RideOfferRequest.ValidatedOmitsServerColumns(input);
    ghost var v := validated;
    validated := WithCoordinates(validated, coords);
    offer := Create(validated, today, addMonths, used, draws);
    geocodeCalls := calls;
    assert forall k :: k in v ==> k != "edit_code";
  }

  /**
    * `update`: geocode again only if the postal code, city or street changed;
    * the stored coordinates are replaced, both together, only when that
    * geocoding found new ones. Everything outside the fillable columns, the
    * edit code included, is left as it was.
    */
  method Update(offer: RideOffer, input: Row, isEmail: string -> bool, service: Service)
    returns (geocodeCalls: nat)
    requires Passes(RideOfferRequest.Rules(), input, isEmail)
    modifies offer
    ensures var v := Validated(RideOfferRequest.Rules(), input);
      var changed := AddressChanged(old(offer.attributes), v);
      var t := Resolve(AddressLookup(v), service);
      var coords := if changed then t.coords else None;
      (geocodeCalls > 0 <==> changed) &&
      (changed ==> geocodeCalls == t.calls) &&
      offer.attributes == MassAssign(old(offer.attributes), WithCoordinates(v, coords)) &&
      (coords.None? ==>
         Get(offer.attributes, "latitude") == Get(old(offer.attributes), "latitude") &&
         Get(offer.attributes, "longitude") == Get(old(offer.attributes), "longitude")) &&
      (coords.Some? ==>
         Get(offer.attributes, "latitude") == Num(coords.value.latitude) &&
         Get(offer.attributes, "longitude") == Num(coords.value.longitude)) &&
      Get(offer.attributes, "edit_code") == Get(old(offer.attributes), "edit_code") &&
      (CoordinatesPaired(old(offer.attributes)) ==> CoordinatesPaired(offer.attributes))
  {
    var validated := Validated(RideOfferRequest.Rules(), input);
    UpdateCoordinates(offer.attributes, input, None);
    geocodeCalls := 0;
    if AddressChanged(offer.attributes, validated) {
      var coords, calls, sleeps := GetCoordinates(TextOf(Get(validated, "zip_code")), TextOf(Get(validated, "city")),
                                                  TextOrNone(Get(validated, "street")), service);
      ResolveSpec(AddressLookup(validated), service);
      UpdateCoordinates(offer.attributes, input, coords);
      validated := WithCoordinates(validated, coords);
      geocodeCalls := calls;
    }
    offer.Fill(validated);
  }
}
