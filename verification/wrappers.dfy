/** Option and Result: the absent value and the thrown error of the modelled code. */
module Wrappers {

  /** A value that may be absent (JavaScript `null` or `undefined`). */
  datatype Option<+T> = None | Some(value: T)

  /** Either a value or the error the JavaScript code would throw. */
  datatype Result<+R, +E> = Success(value: R) | Failure(error: E)
}
