// Small value types shared by the other modules.
module Options {

  /** The value-and-flag pairs the Go code returns ("x, found"). */
  datatype Option<+T> = None | Some(value: T)

  /** The value-or-error pairs the Go code returns ("x, err"). */
  datatype Result<+T, +E> = Ok(value: T) | Err(error: E)
}
