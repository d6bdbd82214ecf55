/** Results and optional arguments for the sampler's error paths. */
module Results {

  /** Either a value or the reason the source would raise instead. */
  datatype Result<+T, +E> = Success(value: T) | Failure(error: E)

  /** An optional argument such as `x_T=None`. */
  datatype Option<+T> = None | Some(value: T)
}
