/** Option and Result values shared by every module of the model.
    A C++ exception is modelled as an Err carrying the exception's message. */
module Wrappers {
  datatype Option<T> = None | Some(value: T)

  datatype Result<T> = Ok(value: T) | Err(error: string)
  {
    predicate IsOk() { this.Ok? }
  }
}
