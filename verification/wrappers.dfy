/** Optional values and results with an error, the two shapes the application
    uses for "absent or null" fields and for HTTP error responses. */
module Wrappers {

  /** A value that may be missing (`undefined`/`null` in the browser code, `None` on the server). */
  datatype Option<+T> = None | Some(value: T) {

    /** The value, or `default` when it is missing. */
    function GetOr(default: T): T {
      match this
      case Some(v) => v
      case None => default
    }
  }

  /** JavaScript `x || fallback` and Python `x or fallback` on an optional text or list:
      a missing or empty value gives way to the fallback, any other value is kept. */
  function OrElse<T>(s: Option<seq<T>>, fallback: seq<T>): (r: seq<T>)
    ensures s.Some? && s.value != [] ==> r == s.value
    ensures s.None? || s.value == [] ==> r == fallback
    ensures fallback != [] ==> r != []
  {
    if s.Some? && s.value != [] then s.value else fallback
  }

  /** The outcome of a request handler: a value, or an error response. */
  datatype Result<+R, +E> = Ok(value: R) | Err(error: E)
}
