/** Optional and failure-carrying values, and the JavaScript notion of a
    "falsy" string that the application's `x || default` fallbacks rely on. */
module Values {

  /** A value that may be absent: `null`/`undefined` in the application. */
  datatype Option<+T> = None | Some(value: T)

  /** An outcome that either carries a value or an error. */
  datatype Result<+T, +E> = Ok(value: T) | Err(error: E)

  /** A string is truthy in JavaScript exactly when it is not empty. */
  predicate Truthy(s: string) {
    s != ""
  }

  /** A nullable string is truthy when it is present and not empty. */
  predicate PresentText(s: Option<string>) {
    s.Some? && Truthy(s.value)
  }

  /** `s || fallback` for a nullable string. */
  function TextOr(s: Option<string>, fallback: string): (r: string)
    ensures PresentText(s) ==> r == s.value
    ensures !PresentText(s) ==> r == fallback
  {
    if s.Some? && s.value != "" then s.value else fallback
  }

  /** `s || null` for a nullable string: the empty string collapses to null. */
  function TextOrNull(s: Option<string>): (r: Option<string>)
    ensures r.Some? <==> PresentText(s)
    ensures r.Some? ==> r == s
  {
    if s.Some? && s.value != "" then s else None
  }

  /** `n || fallback` for an optional number: both absence and 0 are falsy. */
  function NumberOr(n: Option<int>, fallback: int): (r: int)
    ensures n.Some? && n.value != 0 ==> r == n.value
    ensures n.None? || n.value == 0 ==> r == fallback
  {
    if n.Some? && n.value != 0 then n.value else fallback
  }
}
