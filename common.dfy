/** Failure-carrying wrappers shared by every module of the model. */
module Common {

  /** A value that may be absent: JavaScript `undefined`, Python `None`, an ORM lookup that found nothing. */
  datatype Option<+T> = None | Some(value: T)

  /** A computation that either returns a value or raises an error carrying a message. */
  datatype Result<+T> = Ok(value: T) | Err(message: string)
}
