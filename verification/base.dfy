/** Small failure-compatible wrappers and the model of a numeric form field.

    Every numeric input of the application is an `<input type="number">`, whose
    value is either the empty string or a well-formed decimal; a `Field` is
    therefore either `Blank` or an `Entered` number. */
module Base {

  datatype Option<+T> = None | Some(value: T) {
    function GetOr(default: T): T {
      match this
      case Some(v) => v
      case None => default
    }
  }

  datatype Result<+R, +E> = Success(value: R) | Failure(error: E)

  /** The value of a numeric form input. */
  datatype Field = Blank | Entered(value: real) {

    /** JavaScript's `Number(field)`: the empty string converts to 0. */
    function ToNumber(): real {
      match this
      case Blank => 0.0
      case Entered(v) => v
    }

    /** JavaScript truthiness of the raw string: only the empty string is falsy,
        so an entered "0" is truthy. */
    predicate IsFilled() {
      Entered?
    }
  }
}
