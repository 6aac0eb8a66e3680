/** Outcomes of the validator's steps, mirroring how the Python code exits. */
module Wrappers {

  datatype Option<+T> = None | Some(value: T)

  /** How a step of the validator ends.
      - Ok: it returned normally with `value`.
      - Invalid: it raised the validator's own exception (SeisProvValidationException
        in validator.py, ValidationError in validate_definitions.py) carrying `message`;
        this is the exception that `validate` turns into an entry of `errors`.
      - Raised: it raised any other Python exception (NotImplementedError,
        AttributeError, AssertionError, ...), which nothing in the core catches. */
  datatype Outcome<+T> = Ok(value: T) | Invalid(message: string) | Raised(exception: string) {

    predicate IsFailure() {
      !Ok?
    }

    function PropagateFailure<U>(): Outcome<U>
      requires !Ok?
    {
      if Invalid? then Invalid(message) else Raised(exception)
    }

    function Extract(): T
      requires Ok?
    {
      value
    }
  }
}
