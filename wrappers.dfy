/** Option and Result, the two failure-carrying shapes the rest of the model uses:
    an absent JSON field or environment variable is `None`, and a thrown error is
    `Failure` carrying the error's message. */
module Wrappers {

  datatype Option<+T> = None | Some(value: T)

  datatype Result<+R, +E> = Success(value: R) | Failure(error: E)
}
