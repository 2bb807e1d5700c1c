/** Optional values and error-carrying results, used wherever the script would
    return `None` or raise. */
module Results {

  /** A value that may be absent, as `re.match` returns a match or `None`. */
  datatype Option<+T> = None | Some(value: T)

  /** A computed value, or the error that would have aborted the run. */
  datatype Result<+T, +E> = Ok(value: T) | Err(error: E)
}
