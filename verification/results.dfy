/** Failure-carrying wrappers shared by the loaders and the ingester. */
module Results {

  /** An optional value: `None` stands for "absent" (a missing file, a failed parse). */
  datatype Option<+T> = None | Some(value: T) {
    function GetOr(default: T): T {
      match this
      case Some(v) => v
      case None => default
    }
  }

  /** The outcome of an operation the source may abort by raising an exception. */
  datatype Result<+T, +E> = Ok(value: T) | Err(error: E)
}
