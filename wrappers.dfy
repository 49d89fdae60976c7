/** Option and Result: a nullable value (SQL NULL, a JavaScript `null`) and the
    outcome of an operation that can fail with an error. */
module Wrappers {

  datatype Option<+T> = None | Some(value: T)

  datatype Result<+R, +E> = Success(value: R) | Failure(error: E)
}
