/** Values that may be absent, and values that may be refused. */
module Options {
  datatype Option<+T> = None | Some(value: T)

  datatype Result<+T> = Ok(value: T) | Error {
    predicate IsFailure() { Error? }
    function PropagateFailure<U>(): Result<U>
      requires Error?
    {
      Error
    }
    function Extract(): T
      requires Ok?
    {
      value
    }
  }
}
