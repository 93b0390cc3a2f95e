// Outcome types shared by every module.
module Wrappers {

  datatype Option<+T> = None | Some(value: T)

  // `Err` stands for any of the program's error returns; `kind` keeps apart the
  // errors whose difference matters to a caller.
  datatype Result<+T> = Ok(value: T) | Err(kind: Failure) {
    predicate IsFailure() {
      Err?
    }

    function PropagateFailure<U>(): Result<U>
      requires Err?
    {
      Err(kind)
    }

    function Extract(): T
      requires Ok?
    {
      value
    }
  }

  datatype Failure = Corrupt | Invalid | TooLarge | NotFound | ResourceExhausted
}
