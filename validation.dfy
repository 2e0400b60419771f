/**
  * The part of Laravel's validator that the rule tables of the ride-offer
  * board use: a table maps each field to its list of rules; `required` is the
  * only implicit rule, every other rule is skipped for a missing key, for a
  * blank string, and for a null under `nullable`.
  */
module Validation {
  import opened Wrappers
  import opened Attributes

  datatype Rule =
    | Required
    | Nullable
    | IsString
    | IsInteger
    | Email
    | IsDate
    | Min(n: int)
    | Max(n: int)
    | AfterOrEqual(other: string)

  type RuleTable = map<string, seq<Rule>>

  /** What `required` rejects: null (also a missing key) and a string that trims to "". */
  predicate Empty(v: Value)
  {
    v.Null? || (v.Str? && IsBlank(v.s))
  }

  /** Whether the validator runs rule `r` of `field` at all. */
  predicate Applies(r: Rule, rules: seq<Rule>, input: Row, field: string)
  {
    r == Required ||
    (field in input &&
     !(input[field].Str? && IsBlank(input[field].s)) &&
     !(Nullable in rules && input[field].Null?))
  }

  /** Rule `r` accepts value `v`; `min`/`max` measure a string by its length, an integer by its value. */
  predicate Holds(r: Rule, v: Value, input: Row, isEmail: string -> bool)
  {
    match r
    case Required => !Empty(v)
    case Nullable => true
    case IsString => v.Str?
    case IsInteger => v.Int?
    case Email => v.Str? && isEmail(v.s)
    case IsDate => v.Day?
    case Min(n) => (v.Str? && |v.s| >= n) || (v.Int? && v.i >= n)
    case Max(n) => (v.Str? && |v.s| <= n) || (v.Int? && v.i <= n)
    case AfterOrEqual(other) =>
      v.Day? && (Get(input, other).Day? ==> v.d >= Get(input, other).d)
  }

  predicate FieldPasses(rules: seq<Rule>, input: Row, field: string, isEmail: string -> bool)
  {
    forall r :: r in rules && Applies(r, rules, input, field) ==> Holds(r, Get(input, field), input, isEmail)
  }

  predicate Passes(table: RuleTable, input: Row, isEmail: string -> bool)
  {
    forall f :: f in table ==> FieldPasses(table[f], input, f, isEmail)
  }

  /** `$request->validated()`: the input restricted to the fields that have rules. */
  function Validated(table: RuleTable, input: Row): Row
  {
    map f | f in table && f in input :: input[f]
  }

  /** The validated array keeps exactly the input's fields that have rules, unchanged. */
  lemma ValidatedKeeps(table: RuleTable, input: Row)
    ensures Validated(table, input).Keys == table.Keys * input.Keys
    ensures forall f :: f in table ==> Get(Validated(table, input), f) == Get(input, f)
  {
  }

  /** The check a table without an `email` rule is given; it is never consulted. */
  function NoEmailRule(s: string): bool
  {
    false
  }

  /** `$request->validate($rules)`: the validated array, or the fields whose rules failed. */
  function Validate(table: RuleTable, input: Row, isEmail: string -> bool): (r: Result<Row, set<string>>)
    ensures r.Ok? <==> Passes(table, input, isEmail)
    ensures r.Ok? ==> r.value == Validated(table, input)
    ensures r.Err? ==> r.error != {} && r.error <= table.Keys
    ensures r.Err? ==> forall f :: f in r.error <==> f in table && !FieldPasses(table[f], input, f, isEmail)
  {
    var failed := set f | f in table && !FieldPasses(table[f], input, f, isEmail);
    if failed == {} then
      assert forall f :: f in table ==> f !in failed;
      Ok(Validated(table, input))
    else Err(failed)
  }

  /** A value the validator skips for a `nullable` field. */
  predicate Omitted(input: Row, field: string)
  {
    Get(input, field) == Null || (Get(input, field).Str? && IsBlank(Get(input, field).s))
  }

  /** A required string field: present, not blank, at most `bound` characters. */
  predicate RequiredText(input: Row, field: string, bound: nat)
  {
    Get(input, field).Str? && !IsBlank(Get(input, field).s) && |Get(input, field).s| <= bound
  }

  /** An optional string field without a length bound: omitted, or a string. */
  predicate OptionalString(input: Row, field: string)
  {
    Omitted(input, field) || Get(input, field).Str?
  }

  /** An optional string field: omitted, or a string of at most `bound` characters. */
  predicate OptionalText(input: Row, field: string, bound: nat)
  {
    Omitted(input, field) || (Get(input, field).Str? && |Get(input, field).s| <= bound)
  }

  lemma {:induction false} RequiredTextRule(input: Row, field: string, bound: nat, isEmail: string -> bool)
    ensures FieldPasses([Required, IsString, Max(bound)], input, field, isEmail) <==> RequiredText(input, field, bound)
  {
    var rules := [Required, IsString, Max(bound)];
    if FieldPasses(rules, input, field, isEmail) {
      assert rules[0] in rules && rules[1] in rules && rules[2] in rules;
    }
  }

  lemma {:induction false} OptionalTextRule(input: Row, field: string, bound: nat, isEmail: string -> bool)
    ensures FieldPasses([Nullable, IsString, Max(bound)], input, field, isEmail) <==> OptionalText(input, field, bound)
  {
    var rules := [Nullable, IsString, Max(bound)];
    if FieldPasses(rules, input, field, isEmail) && !Omitted(input, field) {
      assert rules[1] in rules && rules[2] in rules;
    }
  }
}
