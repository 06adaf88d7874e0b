/** Small failure-carrying datatypes shared by every module of the model. */
module Common {

  /** A value that may be absent (Python's Optional, TypeScript's `?:`). */
  datatype Option<T> = None | Some(value: T) {
    function GetOr(default: T): T {
      match this
      case Some(v) => v
      case None => default
    }
  }

  /** The outcome of an operation that can fail with an error value. */
  datatype Result<T, E> = Success(value: T) | Failure(error: E)

  /** One field of a partial update: pydantic's `model_dump(exclude_unset=True)`
      keeps exactly the fields that were `Set`. */
  datatype Field<T> = Unset | Set(value: T) {
    /** The field's new value: the one given, or the current one when unset. */
    function Merge(current: T): T {
      if Set? then value else current
    }
  }
}
