/** Nullable values and the JavaScript truthiness idioms the pages use on them. */
module Nullable {

  /** A column or argument that may be `null` / `undefined`. */
  datatype Option<+T> = None | Some(value: T)

  /** A string value is truthy in JavaScript iff it is present and not empty. */
  predicate Truthy(s: Option<string>) {
    s.Some? && s.value != ""
  }

  /** `s || ""`: a null string shown in a text field as the empty string. */
  function OrEmpty(s: Option<string>): (r: string)
    ensures Truthy(s) ==> r == s.value
    ensures !Truthy(s) ==> r == ""
  {
    match s
    case None => ""
    case Some(v) => v
  }

  /** `text || null`: an empty text field written back as `null`. */
  function NullIfEmpty(text: string): (r: Option<string>)
    ensures r == None <==> text == ""
    ensures r.Some? ==> r.value == text
  {
    if text == "" then None else Some(text)
  }

  /** `error.message || fallback`: the notice shown when a backend call fails. */
  function MessageOr(message: string, fallback: string): string {
    if message != "" then message else fallback
  }

  /** A nullable string written to a form field and read back loses only the distinction between
      `null` and `""`, and a second trip changes nothing. */
  lemma NullEmptyRoundTrip(s: Option<string>)
    ensures NullIfEmpty(OrEmpty(s)) == (if Truthy(s) then s else None)
    ensures OrEmpty(NullIfEmpty(OrEmpty(s))) == OrEmpty(s)
  {
  }
}
