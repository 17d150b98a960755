/** JavaScript value conventions the session code relies on: optional
    values (`null`/`undefined` versus a present value) and string
    truthiness, where the empty string counts as absent. */
module Js {

  /** A value that may be missing, as `localStorage.getItem` or an
      optional object field returns it. */
  datatype Option<+T> = None | Some(value: T)

  /** A string-valued lookup is truthy when it is present and non-empty. */
  predicate Truthy(o: Option<string>) {
    o.Some? && o.value != ""
  }

  /** The expression `o || fallback` on a possibly missing string. */
  function Or(o: Option<string>, fallback: string): (r: string)
    ensures Truthy(o) ==> r == o.value
    ensures !Truthy(o) ==> r == fallback
    ensures fallback != "" ==> r != ""
  {
    if Truthy(o) then o.value else fallback
  }
}
