/** Small value wrappers shared by every module of the model. */
module Common {

  /** A value that may be absent: JavaScript's `null` / `undefined`. */
  datatype Option<+T> = None | Some(value: T)

  /**
   * What every server action returns: `{ success: true }` or `{ error: message }`.
   */
  datatype ActionResult = Ok | Err(message: string)

  /** The outcome of an input check: the accepted value, or the error message shown. */
  datatype Checked<+T> = Accepted(value: T) | Rejected(message: string)

  /** `value || null`: an empty text is stored as no text. */
  function NullIfEmpty(s: Option<string>): (r: Option<string>)
    ensures r.None? <==> s.None? || s.value == []
    ensures r.Some? ==> r == s
  {
    if s.Some? && s.value != [] then s else None
  }

  const NotAuthenticated := "Not authenticated"
}
