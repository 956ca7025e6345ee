/** Shared vocabulary of the booking model: identifiers, calendar days,
    timestamps, and the optional / success-or-error values the actions return. */
module Common {

  /** A record identifier (the stores' generated ids). */
  type Id = nat

  /** A calendar date (`yyyy-MM-dd`) as a day number; the order of day
      numbers is the order of the ISO strings. */
  type Day = int

  /** An instant (`toISOString()` / `new Date()`), as a number. */
  type Time = int

  datatype Option<+T> = None | Some(value: T)

  /** What an action that returns `{ success: true }` or `{ error }` gives back. */
  datatype Outcome<+E> = Pass | Fail(error: E)

  /** What an action that returns a value or an error gives back. */
  datatype Result<+T, +E> = Ok(value: T) | Err(error: E)

  /** JavaScript truthiness of a form field (`null` and `''` are falsy). */
  predicate Truthy(field: Option<string>)
  {
    field.Some? && field.value != ""
  }

  /** The idiom `field || null`: an absent or empty field becomes `null`. */
  function OrNull(field: Option<string>): (r: Option<string>)
    ensures r.Some? <==> Truthy(field)
    ensures r.Some? ==> r == field
  {
    if Truthy(field) then field else None
  }

  /** The idiom `field || fallback`. */
  function OrElse(field: Option<string>, fallback: string): (r: string)
    ensures Truthy(field) ==> r == field.value
    ensures !Truthy(field) ==> r == fallback
  {
    if Truthy(field) then field.value else fallback
  }
}
