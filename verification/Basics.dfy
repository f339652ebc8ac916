/** Shared result types and units. */
module Basics {

  // Instants are counted in microseconds.
  const SECOND := 1_000_000
  const DAY := 86_400_000_000

  /** A value that may be absent: Python's `None`, or a row that does not exist. */
  datatype Option<+T> = None | Some(value: T)

  /** A value, or the refusal that was raised instead of producing one. */
  datatype Result<+T, +E> = Ok(value: T) | Refused(error: E) {
    predicate IsFailure() {
      Refused?
    }

    function PropagateFailure<U>(): Result<U, E>
      requires Refused?
    {
      Refused(error)
    }

    function Extract(): T
      requires Ok?
    {
      value
    }
  }
}
