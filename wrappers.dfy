/** Optional values and success-or-error results, used for nullable
    columns and for the errors the ledger's operations raise. */
module Wrappers {

  datatype Option<+T> = None | Some(value: T)

  datatype Result<+R, +E> = Success(value: R) | Failure(error: E)
}
