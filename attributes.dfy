/**
  * Attribute rows: the shape shared by a request's input, a validated
  * array, an Eloquent model's `$attributes` and a row of the `ride_offers`
  * table. PHP arrays keyed by column name become maps from strings to values.
  */
module Attributes {
  import opened Wrappers

  /** A column or input value. Dates are already parsed to a day number. */
  datatype Value = Null | Str(s: string) | Int(i: int) | Num(r: real) | Day(d: int)

  type Row = map<string, Value>

  /** `$row[$key] ?? null`: a missing key reads as null. */
  function Get(row: Row, key: string): Value
  {
    if key in row then row[key] else Null
  }

  /** `whereNotNull($key)` / `isset($row[$key])`. */
  predicate IsFilled(row: Row, key: string)
  {
    Get(row, key) != Null
  }

  /** PHP's falsy values among those a row can hold (a date object is never falsy). */
  predicate Falsy(v: Value)
  {
    v == Null || v == Str("") || v == Str("0") || v == Int(0) || v == Num(0.0)
  }

  /** The characters PHP's `trim` removes. */
  predicate IsTrimmable(c: char)
  {
    c == ' ' || c == '\t' || c == '\n' || c == '\r' || c == '\0' || c == 11 as char
  }

  /** `trim($s) === ''`. */
  predicate IsBlank(s: string)
  {
    forall i :: 0 <= i < |s| ==> IsTrimmable(s[i])
  }

  /** The string a value holds, `""` for any other value. */
  function TextOf(v: Value): string
  {
    if v.Str? then v.s else ""
  }

  /** `$row[$key] ?? null` for a string column passed on as an optional string. */
  function TextOrNone(v: Value): Option<string>
  {
    if v.Str? then Some(v.s) else None
  }

  /** `$s` occurs in `$hay`: SQL `LIKE '%s%'` without wildcards in `$s`. */
  predicate Contains(hay: string, s: string)
  {
    s <= hay || (|hay| > 0 && Contains(hay[1..], s))
  }
}
