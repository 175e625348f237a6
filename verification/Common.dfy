/** Outcome types shared by every component. The source reports failures through
    `Status` and `ErrorOr<T>`; here they are values of `Result<T>`. */
module Common {

  /** The status codes the modelled code returns. */
  datatype Error = InvalidArgument | NotFound | AlreadyExists | IoError | Corruption

  datatype Option<+T> = None | Some(value: T)

  datatype Result<+T> = Ok(value: T) | Err(error: Error) {
    predicate IsFailure() {
      Err?
    }

    function PropagateFailure<U>(): (r: Result<U>)
      requires Err?
    {
      Err(error)
    }

    function Extract(): T
      requires Ok?
    {
      value
    }
  }
}
