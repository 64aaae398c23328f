/** Failure-carrying values shared by the watcher and the viewer models. */
module Results {

  datatype Option<+T> = None | Some(value: T)

  /** The outcome of an operation that in the source either returns normally,
      or throws / calls exit(1) with a diagnostic. */
  datatype Result<+T, +E> = Ok(value: T) | Err(error: E)
}
