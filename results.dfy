/** Optional values and success/failure results, used for the error paths of the profiler. */
module Results {

  datatype Option<+T> = None | Some(value: T)

  /** The outcome of an operation that the source either completes or aborts with an exception. */
  datatype Result<+T, +E> = Success(value: T) | Failure(error: E)
}
