/** The part of schema validation that the dashboard's forms rely on. A field
    schema is a chain of checks; every failing check contributes an issue, and
    the form library keeps the FIRST issue of each field as that field's
    error. A form validates when no field has an error. */
module Zod {
  import opened Js

  /** Issue messages. `Custom` carries a message written in the schema;
      the other constructors stand for the library's built-in messages,
      whose exact wording is not part of this model. */
  datatype Message =
    | Custom(text: string)
    | RequiredValue        // the value is `undefined`
    | NotANumber           // numeric coercion produced NaN
    | NotAnInteger         // `.int()`
    | NotPositive          // `.positive()` without a message
    | TooSmall(min: real)  // `.min(n)` on a number, without a message
    | TooBig(max: real)    // `.max(n)` on a number, without a message
    | NotInEnum            // `z.enum([...])`
    | NotAnEmail           // `.email()` without a message
    | NotAUrl              // `.url()` without a message

  /** A form input after `z.coerce.number()`: absent, `NaN`, or a number.
      Coercing an absent value also gives `NaN`. */
  datatype NumInput = Missing | NaN | Number(value: real)

  /** One link of a check chain: the field's error is `message` when this
      check fails, otherwise the error of the checks after it. */
  function Then(ok: bool, message: Message, rest: Option<Message>): (r: Option<Message>)
    ensures r.None? <==> ok && rest.None?
    ensures !ok ==> r == Some(message)
  {
    if ok then rest else Some(message)
  }

  predicate IsInteger(x: real) {
    x.Floor as real == x
  }

  /** `z.coerce.number().int().positive().min(1, message)`: the "whole number
      of sats, at least one" chain several forms share. A missing or NaN value
      stops at the type check. */
  function PositiveInt(v: NumInput, minMessage: string): (r: Option<Message>)
    ensures r.None? <==> v.Number? && IsInteger(v.value) && v.value >= 1.0
    ensures !v.Number? ==> r == Some(NotANumber)
  {
    match v
    case Number(x) =>
      Then(IsInteger(x), NotAnInteger, Then(x > 0.0, NotPositive, Then(x >= 1.0, Custom(minMessage), None)))
    case _ => Some(NotANumber)
  }

  /** `z.string().min(1, a).max(n, b)`; a missing value fails the type check. */
  function BoundedText(s: Option<string>, max: nat, emptyMessage: string, longMessage: string): (r: Option<Message>)
    ensures r.None? <==> s.Some? && 1 <= Utf16Length(s.value) <= max
    ensures s == Some("") ==> r == Some(Custom(emptyMessage))
  {
    match s
    case None => Some(RequiredValue)
    case Some(t) => Then(Utf16Length(t) >= 1, Custom(emptyMessage), Then(Utf16Length(t) <= max, Custom(longMessage), None))
  }

  /** `z.string().max(n, message).optional()`. */
  function OptionalText(s: Option<string>, max: nat, longMessage: string): (r: Option<Message>)
    ensures r.None? <==> s.None? || Utf16Length(s.value) <= max
  {
    match s
    case None => None
    case Some(t) => Then(Utf16Length(t) <= max, Custom(longMessage), None)
  }

  /** `z.string().min(1, message)`. */
  function NonEmptyText(s: Option<string>, emptyMessage: string): (r: Option<Message>)
    ensures r.None? <==> s.Some? && s.value != ""
  {
    match s
    case None => Some(RequiredValue)
    case Some(t) => Then(t != "", Custom(emptyMessage), None)
  }
}
