/** Optional values and results with an error, for the places where the source
    dereferences something that may be absent or aborts on a failed assertion. */
module Wrappers {

  datatype Option<+T> = None | Some(value: T)

  datatype Result<+R, +E> = Success(value: R) | Failure(error: E)
}
