/** The optional values of the data snapshot, and JavaScript's `a || b` on them. */
module Wrappers {

  datatype Option<T> = None | Some(value: T)

  /**
   * `x || fallback` for a string that may be null: null and the empty string
   * are falsy and give the fallback, any other string is kept.
   */
  function OrElse(x: Option<string>, fallback: string): (r: string)
    ensures (x.None? || x.value == []) ==> r == fallback
    ensures (x.Some? && x.value != []) ==> r == x.value
  {
    match x
    case Some(v) => if v != [] then v else fallback
    case None => fallback
  }
}
