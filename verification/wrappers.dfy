/** The two failure-carrying datatypes used throughout the model: an optional
    value (a nullable column, an absent query parameter) and a result that is
    either a value or the error a PHP exception would have carried. */
module Wrappers {

  datatype Option<+T> = None | Some(value: T)

  datatype Result<+R, +E> = Success(value: R) | Failure(error: E)
}
