/** Option and Result values used for absent XML text, lookups that miss and
    operations that report an error to their caller. */
module Wrappers {

  datatype Option<+T> = None | Some(value: T)

  datatype Result<+R, +E> = Success(value: R) | Failure(error: E)
}
