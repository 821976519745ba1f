/** Failure-carrying value types shared by every module of the model. */
module Results {

  /** An optional value: Go's nil-able pointers, error values and absent JSON fields. */
  datatype Option<+T> = None | Some(value: T) {
    function GetOr(default: T): T {
      match this
      case Some(v) => v
      case None => default
    }
  }

  /** A value or an error: Go's `(T, error)` return pairs. */
  datatype Result<+T, +E> = Ok(value: T) | Err(error: E) {
    function ErrorOf(): Option<E> {
      match this
      case Ok(_) => None
      case Err(e) => Some(e)
    }
  }
}
