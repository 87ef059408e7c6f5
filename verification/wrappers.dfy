/** Failure-carrying wrappers used throughout the model: an optional value
    (PHP's nullable injected options) and a success/failure result (PHP's
    thrown exceptions, made explicit). */
module Wrappers {

  /** An optional value; `None` stands for PHP's `null`. */
  datatype Option<+T> = None | Some(value: T)

  /** Either a computed value or the error the source would throw. */
  datatype Result<+R, +E> = Success(value: R) | Failure(error: E)
}
