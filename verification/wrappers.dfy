/** Failure-carrying datatypes shared by the session, upload and prediction
    modules. `Option` stands for a nullable value, `Result` for a computation
    that either produces a value or reports why it did not, and `Outcome` for
    a promise that resolves with nothing or rejects with an error. */
module Wrappers {

  datatype Option<+T> = None | Some(value: T)

  datatype Result<+R, +E> = Success(value: R) | Failure(error: E)

  datatype Outcome<+E> = Pass | Fail(error: E)
}
