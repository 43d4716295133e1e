/** Option and Result, the two failure-carrying shapes the rest of the model uses. */
module Wrappers {

  datatype Option<+T> = None | Some(value: T)

  /** The outcome of an operation that either produces a value or fails with an error. */
  datatype Result<+T, +E> = Ok(value: T) | Err(error: E)

  /** An HTTP error response: its status code and the message of its body. */
  datatype ApiError = ApiError(status: int, message: string)

  /** A request parameter counts as given when it is present and not the empty string
      (Python truthiness of a string that may be None). */
  predicate Given(p: Option<string>)
  {
    p.Some? && p.value != ""
  }
}
