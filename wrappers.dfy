/** Failure-carrying values: a Java `null` argument becomes `None`, a thrown
    exception becomes `Failure`. */
module Wrappers {

  datatype Option<+T> = None | Some(value: T)

  datatype Result<+R, +E> = Success(value: R) | Failure(error: E)
}
