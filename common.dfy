/** Small wrapper datatypes shared by the whole model. */
module Common {

  /** A value that may be absent; `None` also stands for a .NET `null` reference. */
  datatype Option<+T> = None | Some(value: T) {
    function GetOr(default: T): T {
      match this
      case Some(v) => v
      case None => default
    }
  }

  /** A computation that either succeeds with a value or fails with an error. */
  datatype Result<+R, +E> = Success(value: R) | Failure(error: E) {
    function ToOption(): Option<R> {
      match this
      case Success(v) => Some(v)
      case Failure(_) => None
    }
  }

  /**
   * How a call that may dereference `null` ends: it returns a value, or it
   * throws a NullReferenceException.
   */
  datatype Outcome<+T> = Returns(value: T) | ThrowsNullReference
}
