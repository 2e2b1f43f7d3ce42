/** Failure-compatible wrappers used throughout the model: an optional value
    (Python's `None`) and a success-or-error outcome (a raised exception). */
module Wrappers {

  datatype Option<+T> = None | Some(value: T)

  datatype Result<+T, +E> = Success(value: T) | Failure(error: E) {

    predicate IsFailure() {
      Failure?
    }

    function PropagateFailure<U>(): Result<U, E>
      requires Failure?
    {
      Failure(error)
    }

    function Extract(): T
      requires Success?
    {
      value
    }
  }
}

/** The exceptions the converter can raise; each aborts the whole conversion. */
module Errors {

  datatype Error =
    /** `d[key]` on a key that is absent (KeyError). */
    | MissingKey(key: string)
    /** `int(...)` or `.split(...)` applied to a parameter whose value is `None`. */
    | NoneValue(key: string)
    /** `int(text)` on a string that is not a decimal integer (ValueError). */
    | NotAnInteger(key: string, text: string)
    /** `<group>_identifier[0]` on an identifier list that is absent or empty. */
    | MissingIdentifier(group: string)
}
