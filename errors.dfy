/** The exceptions the handler can raise, as values.
    Python raises KeyError for a missing dictionary key, ValueError when
    strptime rejects a date or time and when the header row is missing,
    and IndexError when the first character of an empty string is taken. */
module Errors {

  datatype Error =
    | KeyError(key: string)
    | ValueError(message: string)
    | IndexError

  /** A computation that either produces a value or raises one of the errors above.
      Usable with `:-`, so that the first error ends the computation as an exception would. */
  datatype Result<+T> = Ok(value: T) | Err(error: Error) {

    predicate IsFailure() {
      Err?
    }

    function PropagateFailure<U>(): Result<U>
      requires Err?
    {
      Err(error)
    }

    function Extract(): T
      requires Ok?
    {
      value
    }
  }
}
