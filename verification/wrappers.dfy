/** Kotlin nullables and Fuel results, shared by the cache and HTTP models. */
module Wrappers {

  /** A Kotlin nullable value: `None` stands for `null`. */
  datatype Option<+T> = None | Some(value: T)

  /** Fuel's `Result<V, E>`: a decoded value or a failure. */
  datatype Result<+V, +E> = Success(value: V) | Failure(error: E)
}
