/** Optional values and success/failure results shared by the server and client models. */
module Options {

  /** A value that may be absent: a missing request field, a JSON `null`, a lookup that found nothing. */
  datatype Option<+T> = None | Some(value: T) {

    /** The carried value, or `default` when absent (Python's `dict.get(key, default)`). */
    function GetOr(default: T): T {
      match this
      case Some(v) => v
      case None => default
    }
  }

  /** The outcome of a server-side save: the saved product's id, or the validation error raised. */
  datatype Result<+T, +E> = Success(value: T) | Failure(error: E)
}
