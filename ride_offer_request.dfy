/**
  * The form request that guards creating and updating a ride offer: a
  * constant rule table, read here as a predicate over the submitted fields,
  * and an authorisation check that always admits.
  */
module RideOfferRequest {
  import opened Attributes
  import opened Validation

  /** Every visitor may submit an offer; the edit code is the only access control. */
  function Authorize(): (allowed: bool)
    ensures allowed
  {
    true
  }

  function Rules(): RuleTable
  {
    map[
      "zip_code" := [Required, IsString, Max(10)],
      "city" := [Required, IsString, Max(255)],
      "street" := [Nullable, IsString, Max(255)],
      "last_name" := [Required, IsString, Max(255)],
      "first_name" := [Nullable, IsString, Max(255)],
      "email" := [Required, Email, Max(255)],
      "class" := [Nullable, IsString, Max(255)],
      "phone" := [Nullable, IsString, Max(255)],
      "valid_from" := [Nullable, IsDate],
      "valid_until" := [Nullable, IsDate, AfterOrEqual("valid_from")],
      "cost_info" := [Nullable, IsString],
      "additional_info" := [Nullable, IsString]
    ]
  }

  /** `zip_code` is required and holds at most 10 characters. */
  lemma ZipCodeRule(input: Row, isEmail: string -> bool)
    ensures FieldPasses(Rules()["zip_code"], input, "zip_code", isEmail) <==> RequiredText(input, "zip_code", 10)
  {
    RequiredTextRule(input, "zip_code", 10, isEmail);
  }

  /** `city` and `last_name` are required and hold at most 255 characters. */
  lemma CityAndLastNameRules(input: Row, isEmail: string -> bool)
    ensures FieldPasses(Rules()["city"], input, "city", isEmail) <==> RequiredText(input, "city", 255)
    ensures FieldPasses(Rules()["last_name"], input, "last_name", isEmail) <==> RequiredText(input, "last_name", 255)
  {
    RequiredTextRule(input, "city", 255, isEmail);
    RequiredTextRule(input, "last_name", 255, isEmail);
  }

  /** A required, well-formed email address of at most 255 characters. */
  predicate RequiredEmail(input: Row, isEmail: string -> bool)
  {
    Get(input, "email").Str? && !IsBlank(Get(input, "email").s) &&
    isEmail(Get(input, "email").s) && |Get(input, "email").s| <= 255
  }

  /** `email` is required, well formed and at most 255 characters long. */
  lemma {:induction false} EmailRule(input: Row, isEmail: string -> bool)
    ensures FieldPasses(Rules()["email"], input, "email", isEmail) <==> RequiredEmail(input, isEmail)
  {
    var rules := Rules()["email"];
    if FieldPasses(rules, input, "email", isEmail) {
      assert rules[0] in rules && rules[1] in rules && rules[2] in rules;
    }
  }

  /** `street`, `first_name`, `class` and `phone` may be omitted; given, they are strings of at most 255 characters. */
  lemma OptionalFieldRules(input: Row, isEmail: string -> bool)
    ensures FieldPasses(Rules()["street"], input, "street", isEmail) <==> OptionalText(input, "street", 255)
    ensures FieldPasses(Rules()["first_name"], input, "first_name", isEmail) <==> OptionalText(input, "first_name", 255)
    ensures FieldPasses(Rules()["class"], input, "class", isEmail) <==> OptionalText(input, "class", 255)
    ensures FieldPasses(Rules()["phone"], input, "phone", isEmail) <==> OptionalText(input, "phone", 255)
  {
    OptionalTextRule(input, "street", 255, isEmail);
    OptionalTextRule(input, "first_name", 255, isEmail);
    OptionalTextRule(input, "class", 255, isEmail);
    OptionalTextRule(input, "phone", 255, isEmail);
  }

  /** `cost_info` and `additional_info` may be omitted; given, they are strings of any length. */
  lemma {:induction false} FreeTextRules(input: Row, isEmail: string -> bool)
    ensures FieldPasses(Rules()["cost_info"], input, "cost_info", isEmail) <==> OptionalString(input, "cost_info")
    ensures FieldPasses(Rules()["additional_info"], input, "additional_info", isEmail) <==>
      OptionalString(input, "additional_info")
  {
    var rules := [Nullable, IsString];
    assert rules[1] in rules;
  }

  /** `valid_from` omitted or a date. */
  predicate ValidFrom(input: Row)
  {
    Omitted(input, "valid_from") || Get(input, "valid_from").Day?
  }

  /** `valid_until` omitted, or a date not before `valid_from` when that is a date. */
  predicate ValidUntil(input: Row)
  {
    Omitted(input, "valid_until") ||
    (Get(input, "valid_until").Day? &&
     (Get(input, "valid_from").Day? ==> Get(input, "valid_until").d >= Get(input, "valid_from").d))
  }

  /** `valid_from` is an optional date; `valid_until` is an optional date not before a given `valid_from`. */
  lemma {:induction false} ValidityRules(input: Row, isEmail: string -> bool)
    ensures FieldPasses(Rules()["valid_from"], input, "valid_from", isEmail) <==> ValidFrom(input)
    ensures FieldPasses(Rules()["valid_until"], input, "valid_until", isEmail) <==> ValidUntil(input)
  {
    var fromRules := Rules()["valid_from"];
    assert fromRules[1] in fromRules;
    var untilRules := Rules()["valid_until"];
    assert untilRules[1] in untilRules && untilRules[2] in untilRules;
  }

  /** The validated array never carries the columns the server sets itself. */
  lemma ValidatedOmitsServerColumns(input: Row)
    ensures var v := Validated(Rules(), input);
      "latitude" !in v && "longitude" !in v && "edit_code" !in v
  {
  }

  /** The whole rule table, field by field. */
  predicate OfferFormValid(input: Row, isEmail: string -> bool)
  {
    RequiredText(input, "zip_code", 10) &&
    RequiredText(input, "city", 255) &&
    OptionalText(input, "street", 255) &&
    RequiredText(input, "last_name", 255) &&
    OptionalText(input, "first_name", 255) &&
    RequiredEmail(input, isEmail) &&
    OptionalText(input, "class", 255) &&
    OptionalText(input, "phone", 255) &&
    ValidFrom(input) &&
    ValidUntil(input) &&
    OptionalString(input, "cost_info") &&
    OptionalString(input, "additional_info")
  }

  /** A submitted offer passes validation exactly when every field meets its rule. */
  lemma RulesMeaning(input: Row, isEmail: string -> bool)
    ensures Passes(Rules(), input, isEmail) <==> OfferFormValid(input, isEmail)
  {
    ZipCodeRule(input, isEmail);
    CityAndLastNameRules(input, isEmail);
    EmailRule(input, isEmail);
    OptionalFieldRules(input, isEmail);
    FreeTextRules(input, isEmail);
    ValidityRules(input, isEmail);
    var table := Rules();
    if OfferFormValid(input, isEmail) {
      forall f | f in table
        ensures FieldPasses(table[f], input, f, isEmail)
      {
      }
    }
  }
}
