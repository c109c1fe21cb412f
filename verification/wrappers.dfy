/** Failure-carrying datatypes shared by the model: `Option` for a lookup
    that may find nothing, `Result` for a check that may reject its input. */
module Wrappers {

  datatype Option<+T> = None | Some(value: T)

  datatype Result<+R, +E> = Success(value: R) | Failure(error: E)
}
