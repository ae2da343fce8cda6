/** Small shared types. */
module Basics {
  datatype Option<+T> = None | Some(value: T)

  datatype Result<+T> = Ok(value: T) | Err(error: string)

  /**
   * What one statement sent to the database came to: it took effect and said so, it took effect and the answer was
   * lost (the caller sees an error), or it had no effect (the caller sees an error).
   */
  datatype Reply = Acked | Lost | Failed
}
