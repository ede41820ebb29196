/** Values shared by every component: optional DOM attributes and JavaScript's
    truthiness on strings. */
module Values {

  /** An attribute or form field that may be absent (`null`/`undefined`). */
  datatype Option<+T> = None | Some(value: T)

  /** `a || d` for a possibly-missing string `a`: both a missing value and the
      empty string are falsy in JavaScript, so both fall back to `d`. */
  function OrDefault(a: Option<string>, d: string): string
  {
    if a.Some? && a.value != "" then a.value else d
  }

  lemma OrDefaultFallsBack(a: Option<string>, d: string)
    ensures OrDefault(a, d) == d <==> (a.None? || a.value == "" || a.value == d)
    ensures a.Some? && a.value != "" ==> OrDefault(a, d) == a.value
  {
  }
}
