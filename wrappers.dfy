/** Success and failure values shared by the whole model. */
module Wrappers {

  /** A field or document that may be absent. */
  datatype Option<+T> = None | Some(value: T)

  /** The outcome of a request handler or of a schema validation. */
  datatype Result<+R, +E> = Success(value: R) | Failure(error: E)
}
