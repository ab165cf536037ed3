/** Optional values and error-carrying results, used for Python's `None` returns and raised exceptions. */
module Wrappers {

  /** `None` stands for Python's `None`; `Some(v)` for a present value. */
  datatype Option<+T> = None | Some(value: T)

  /** `Err(e)` stands for a raised exception of kind `e`; `Ok(v)` for a normal return of `v`. */
  datatype Result<+T, +E> = Ok(value: T) | Err(error: E)
}
