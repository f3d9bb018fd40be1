/** Optional values and error-or-value results shared by the controllers. */
module Basics {

  /** A value that may be absent (a missing request field, a failed lookup). */
  datatype Option<+T> = None | Some(value: T) {
    function GetOr(default: T): T {
      match this
      case Some(v) => v
      case None => default
    }
  }

  /** The outcome of a handler: a response value or one of its error kinds. */
  datatype Result<+T, +E> = Ok(value: T) | Err(error: E)

  /** A string request field that is absent or empty (falsy in JavaScript) is missing. */
  predicate Missing(v: Option<string>) {
    v.None? || v.value == ""
  }

  function Min(a: int, b: int): int { if a <= b then a else b }

  function Max(a: int, b: int): int { if a <= b then b else a }
}
