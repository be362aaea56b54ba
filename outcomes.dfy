/** The ways a checker or evaluator pass can end: the error classes of src/Error.js,
    the JavaScript built-in errors the core relies on, and a successful result. */
module Outcomes {

  datatype Error =
    /** Error.js ReferenceError: an identifier that is not bound; `reference` is its name. */
    | ReferenceError(reference: string)
    /** A JavaScript TypeError: thrown explicitly, or raised by reading a member of
        undefined / calling a method a value does not have. */
    | TypeError(message: string)
    /** Error.js RuntimeError: a string that does not parse as an integer. */
    | RuntimeError(message: string)
    /** A plain JavaScript Error: an implicit cast, an unimplemented case. */
    | PlainError(message: string)
    /** The call stack ran out (deep or unbounded recursion in the evaluated program). */
    | StackExhausted

  datatype Result<+T> = Ok(value: T) | Err(error: Error) {
    predicate IsFailure() { Err? }
    function PropagateFailure<U>(): Result<U> requires Err? { Err(error) }
    function Extract(): T requires Ok? { value }
  }

  datatype Option<+T> = None | Some(value: T)
}
