/** Optional values and results shared by the rest of the model. */
module Wrappers {

  /** A value that may be absent; `None` stands for `std::string::npos` in searches. */
  datatype Option<T> = None | Some(value: T)

  /** A computation that either yields a value or stops with an error. */
  datatype Result<T, E> = Success(value: T) | Failure(error: E)
}
