/** Option and Result wrappers shared by the service models. */
module Base {

  datatype Option<+T> = None | Some(value: T)

  /** The exception classes the services throw, with the message they carry. */
  datatype Failure =
    | NotFound(message: string)
    | BadRequest(message: string)
    | Conflict(message: string)

  /** A service call either returns a value or throws one of the exceptions above. */
  datatype Result<+T> = Success(value: T) | Error(failure: Failure)
}
