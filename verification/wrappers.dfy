/** Option and the Java exception outcomes of the modelled calls. */
module Wrappers {

  datatype Option<+T> = None | Some(value: T) {
    /** `Optional.orElse`. */
    function GetOr(default: T): T {
      match this
      case Some(v) => v
      case None => default
    }
  }

  /** The exceptions the core raises for programming and state errors. */
  datatype JavaException =
    | IllegalState(message: string)
    | NullPointer(message: string)
    | IllegalArgument(message: string)
    | NoSuchElement(message: string)

  /** A call that either returns a value or throws. */
  datatype Try<+T> = Returned(value: T) | Threw(exception: JavaException) {
    /** A call that runs after this one: it returns `value` unless this one threw. */
    function Then<U>(value: U): Try<U> {
      match this
      case Returned(_) => Returned(value)
      case Threw(e) => Threw(e)
    }
  }
}
