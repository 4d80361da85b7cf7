/** Reply shapes shared by the back-end handlers and the practice page. */
module Replies {

  datatype Option<+T> = None | Some(value: T)

  /** The body `{ success: false, message }` together with its HTTP status code. */
  datatype Failure = Failure(status: nat, message: string)

  /** A handler either answers `{ success: true, ... }` with a value or fails. */
  datatype Result<+T> = Ok(value: T) | Err(failure: Failure)
}
