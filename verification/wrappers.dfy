/** Failure-carrying results for the operations whose Java code throws on its normal path. */
module Wrappers {

  datatype Option<+T> = None | Some(value: T)

  /** The Java runtime exceptions the modelled code can raise. */
  datatype JavaError =
    | IndexOutOfBounds(index: int, size: nat)  // ArrayList.get past the end
    | IllegalCapacity(capacity: int)           // new ArrayList(n) with n < 0

  datatype Result<+R> = Success(value: R) | Failure(error: JavaError)
}
