/**
  * The `RideOffer` Eloquent model: mass assignment restricted to the
  * fillable columns, the unique edit-code generator, and the `creating`
  * hook that fills in the validity window and the edit code.
  * `Str::random(10)` is a sequence of drawn codes, the existing edit codes a
  * set, `now()` a day number and `addMonths` a function on day numbers.
  */
module RideOfferModel {
  import opened Attributes

  const EditCodeLength: nat := 10
  const ValidityMonths: int := 6

  /** `$fillable`: the columns `create` and `update` accept from an array. */
  const Fillable: set<string> := {
    "zip_code", "city", "street", "last_name", "first_name", "email", "class", "phone",
    "valid_from", "valid_until", "cost_info", "additional_info", "latitude", "longitude"
  }

  /** `fill($input)`: fillable keys of `input` overwrite, everything else is kept. */
  function MassAssign(attributes: Row, input: Row): (r: Row)
    ensures r.Keys == attributes.Keys + (input.Keys * Fillable)
    ensures forall k :: k in input && k in Fillable ==> Get(r, k) == input[k]
    ensures forall k :: k !in input || k !in Fillable ==> Get(r, k) == Get(attributes, k)
  {
    attributes + map k | k in input.Keys * Fillable :: input[k]
  }

  /** The edit code cannot be set through mass assignment, whatever the input holds. */
  lemma EditCodeNotFillable(attributes: Row, input: Row)
    ensures Get(MassAssign(attributes, input), "edit_code") == Get(attributes, "edit_code")
  {
  }

  /** Some drawn code is not in use yet. */
  predicate HasUnused(draws: seq<string>, used: set<string>)
  {
    exists i :: 0 <= i < |draws| && draws[i] !in used
  }

  lemma UnusedInTail(draws: seq<string>, used: set<string>)
    requires HasUnused(draws, used) && draws[0] in used
    ensures HasUnused(draws[1..], used)
  {
    var i :| 0 <= i < |draws| && draws[i] !in used;
    assert draws[1..][i - 1] == draws[i];
  }

  /** The index of the first drawn code not in use. */
  function FirstUnused(draws: seq<string>, used: set<string>): (k: nat)
    requires HasUnused(draws, used)
    ensures k < |draws| && draws[k] !in used
    ensures forall j :: 0 <= j < k ==> draws[j] in used
  {
    if draws[0] !in used then 0
    else
      UnusedInTail(draws, used);
      1 + FirstUnused(draws[1..], used)
  }

  /**
    * `generateEditCode()`: draws until a code is not in use and returns that
    * code; the colliding draws before it are discarded.
    */
  method GenerateEditCode(used: set<string>, draws: seq<string>) returns (code: string)
    requires HasUnused(draws, used)
    requires forall i :: 0 <= i < |draws| ==> |draws[i]| == EditCodeLength
    ensures code !in used && |code| == EditCodeLength
    ensures code == draws[FirstUnused(draws, used)]
  {
    ghost var k := FirstUnused(draws, used);
    var i := 0;
    code := draws[0];
    while code in used
      invariant 0 <= i <= k
      invariant code == draws[i]
      decreases k - i
    {
      i := i + 1;
      code := draws[i];
    }
  }

  class RideOffer {
    var attributes: Row

    /** `new RideOffer($input)`. */
    constructor (input: Row)
      ensures attributes == MassAssign(map[], input)
    {
      attributes := MassAssign(map[], input);
    }

    /** `fill($input)`, as `update($input)` does before saving. */
    method Fill(input: Row)
      modifies this
      ensures attributes == MassAssign(old(attributes), input)
    {
      attributes := MassAssign(attributes, input);
    }

    /**
      * The `creating` hook: an empty `valid_from` becomes today, an empty
      * `valid_until` today plus six months, and `edit_code` is always replaced
      * by a freshly generated code. Nothing else changes.
      */
    method Creating(today: int, addMonths: (int, int) -> int, used: set<string>, draws: seq<string>)
      requires HasUnused(draws, used)
      requires forall i :: 0 <= i < |draws| ==> |draws[i]| == EditCodeLength
      modifies this
      ensures Get(attributes, "valid_from") ==
        if Falsy(Get(old(attributes), "valid_from")) then Day(today) else Get(old(attributes), "valid_from")
      ensures Get(attributes, "valid_until") ==
        if Falsy(Get(old(attributes), "valid_until")) then Day(addMonths(today, ValidityMonths))
        else Get(old(attributes), "valid_until")
      ensures Get(attributes, "edit_code") == Str(draws[FirstUnused(draws, used)])
      ensures Get(attributes, "edit_code").s !in used
      ensures forall k :: k != "valid_from" && k != "valid_until" && k != "edit_code" ==>
        Get(attributes, k) == Get(old(attributes), k)
    {
      if Falsy(Get(attributes, "valid_from")) {
        attributes := attributes["valid_from" := Day(today)];
      }
      if Falsy(Get(attributes, "valid_until")) {
        attributes := attributes["valid_until" := Day(addMonths(today, ValidityMonths))];
      }
      var code := GenerateEditCode(used, draws);
      attributes := attributes["edit_code" := Str(code)];
    }
  }

  /** `RideOffer::create($input)`: fill a new model, then run the `creating` hook. */
  method Create(input: Row, today: int, addMonths: (int, int) -> int, used: set<string>, draws: seq<string>)
    returns (offer: RideOffer)
    requires HasUnused(draws, used)
    requires forall i :: 0 <= i < |draws| ==> |draws[i]| == EditCodeLength
    ensures fresh(offer)
    ensures var filled := MassAssign(map[], input);
      Get(offer.attributes, "valid_from") ==
        (if Falsy(Get(filled, "valid_from")) then Day(today) else Get(filled, "valid_from")) &&
      Get(offer.attributes, "valid_until") ==
        (if Falsy(Get(filled, "valid_until")) then Day(addMonths(today, ValidityMonths))
         else Get(filled, "valid_until")) &&
      Get(offer.attributes, "edit_code") == Str(draws[FirstUnused(draws, used)]) &&
      forall k :: k != "valid_from" && k != "valid_until" && k != "edit_code" ==>
        Get(offer.attributes, k) == Get(filled, k)
  {
    offer := new RideOffer(input);
    offer.Creating(today, addMonths, used, draws);
  }
}
