/** Optional-value and result datatypes used throughout the model: an
    optional value (a provider that may have no quote) and a result that
    carries either a value or the error get_price raises. */
module Wrappers {

  datatype Option<+T> = None | Some(value: T)

  datatype Result<+R, +E> = Success(value: R) | Failure(error: E)
}
