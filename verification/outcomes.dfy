/** Python's `None` and the exceptions that the stability code can raise, as values. */
module Outcomes {

  /** An optional value: `None` is Python's `None` in a tuple slot. */
  datatype Option<+T> = None | Some(value: T)

  /** The exceptions a stability call can end in. */
  datatype Error =
    | NotImplemented       // rohf_external raises NotImplementedError
    | ShapeMismatch        // numpy reshape, boolean indexing or dot on arrays of incompatible shape
    | EmptyArgMin          // numpy.argmin of an empty array
    | AmbiguousTruthValue  // `if array:` on an array holding more than one element

  /** Either a value or the exception that ended the call. */
  datatype Result<+T> = Success(value: T) | Failure(error: Error) {

    predicate IsFailure() {
      Failure?
    }

    function PropagateFailure<U>(): Result<U>
      requires Failure?
    {
      Failure(error)
    }

    function Extract(): T
      requires Success?
    {
      value
    }
  }
}
