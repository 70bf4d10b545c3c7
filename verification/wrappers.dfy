/** Option and Result datatypes used for the absent current slip, the NaN of a
    failed number parse, and the operations that refuse with a message. */
module Wrappers {

  datatype Option<+T> = None | Some(value: T)

  datatype Result<+R, +E> = Success(value: R) | Failure(error: E)
}
