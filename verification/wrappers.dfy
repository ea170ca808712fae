/** Failure-carrying result types shared by the splitter model. */
module Wrappers {

  /** A value that may be missing: `None` stands for a step that ran out of
      the random draws it was given before it could finish. */
  datatype Option<+T> = None | Some(value: T) {

    predicate IsFailure() {
      None?
    }

    function PropagateFailure<U>(): Option<U>
      requires None?
    {
      None
    }

    function Extract(): T
      requires Some?
    {
      value
    }
  }

  /** Either a value or the reason there is none. */
  datatype Result<+T, +E> = Ok(value: T) | Err(error: E)
}
