/** Optional values and results with an error case, shared by the other modules. */
module Outcomes {

  /** A value that may be missing: an empty column has no quantile. */
  datatype Option<T> = None | Some(value: T)

  /** The outcome of an operation that can fail with an error of type E. */
  datatype Result<T, E> = Ok(value: T) | Err(error: E)
}
