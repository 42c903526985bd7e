/** Option and Result: the absent value (PHP `null`/`false`) and the error path (a thrown exception). */
module Wrappers {

  datatype Option<+T> = None | Some(value: T)

  datatype Result<+R, +E> = Success(value: R) | Failure(error: E)
}
