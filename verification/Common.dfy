/** Result types shared by the modules of the model. */
module Common {
  datatype Option<+T> = None | Some(value: T)

  /** A TypeScript call that either returns a value or throws. */
  datatype Result<+T> = Ok(value: T) | Err(message: string)
}
