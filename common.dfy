/** Values shared by every part of the model. */
module Common {

  /** A nullable SQL value, or a JavaScript value that may be `undefined`. */
  datatype Option<T> = None | Some(value: T)

  /** A SQLite DATETIME reduced to what the application looks at: the
      calendar day (`date(x)`, as a day number) and the minute of that day. */
  datatype DateTime = DateTime(day: int, minute: int)

  /** ISO date-time texts compare as (day, minute) pairs. */
  predicate Earlier(a: DateTime, b: DateTime)
  {
    a.day < b.day || (a.day == b.day && a.minute < b.minute)
  }

  /** A calendar date as `strftime` splits it (`%Y`, `%m`, `%d`). */
  datatype CivilDate = CivilDate(year: int, month: nat, day: nat)

  predicate ValidCivil(d: CivilDate)
  {
    1 <= d.month <= 12 && 1 <= d.day <= 31
  }

  /** JavaScript truthiness of a string that may be `undefined`. */
  predicate Truthy(s: Option<string>)
  {
    s.Some? && s.value != ""
  }

  /** `x || null` for a form field: the empty text is stored as NULL. */
  function NullIfEmpty(s: string): (r: Option<string>)
    ensures r.None? <==> s == ""
    ensures r.Some? ==> r.value == s
  {
    if s == "" then None else Some(s)
  }
}

/** What a route handler sends back, reduced to what the application
    decides: a redirect (with the one-shot flash message it queued, if any)
    or a rendered view (with the error text passed to the view, if any). */
module Http {
  import opened Common

  datatype Flash = NoFlash | SuccessFlash(message: string) | ErrorFlash(message: string)

  datatype Response =
    | Redirect(location: string, flash: Flash)
    | Render(view: string, error: Option<string>)
}
