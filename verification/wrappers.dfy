/** Failure-carrying datatypes shared by the other modules. */
module Wrappers {

  /** An optional value: the result of a parse that may fail. */
  datatype Option<+T> = None | Some(value: T)

  /** Rust's `Result`: a value on success, an error on failure. */
  datatype Result<+R, +E> = Ok(value: R) | Err(error: E)

  /** The value of an optional string, or the empty string when absent
      (the `Default` of a Rust `String`). */
  function OrEmpty(o: Option<string>): (s: string)
    ensures o.Some? ==> s == o.value
    ensures o.None? ==> s == []
  {
    match o
    case Some(v) => v
    case None => []
  }
}
