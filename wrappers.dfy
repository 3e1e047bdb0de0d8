// Option, Result and Outcome: how the model spells out the C++ exceptions
// (a thrown error becomes Failure/Fail carrying its message).
module Wrappers {

  datatype Option<+T> = None | Some(value: T)

  datatype Result<+T, +E> = Success(value: T) | Failure(error: E)

  datatype Outcome<+E> = Pass | Fail(error: E)
}
