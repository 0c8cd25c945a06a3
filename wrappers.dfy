/** Failure-carrying wrappers shared by every stage of the pipeline. */
module Wrappers {

  /** A nullable value (the source's null pointers and "not found"). */
  datatype Option<+T> = None | Some(value: T)

  /** The outcome of an operation that the source may abort with an exception;
      `Err` carries the exception's message text. */
  datatype Result<+T> = Ok(value: T) | Err(msg: string)
}
