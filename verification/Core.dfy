/** Value types shared by every part of the model. */
module Core {

  datatype Option<+T> = None | Some(value: T)

  /** The error codes of `Status`; messages and source locations are not modelled. */
  datatype ErrorCode =
    | InvalidArgument
    | OutOfRange
    | Overflow
    | AlreadyExists
    | Unavailable
    | ResourceExhausted

  /** `Result<T>`: a value, or the code of a failed `Status`. */
  datatype Result<+T> = Ok(value: T) | Err(code: ErrorCode)

  const SIZE_MAX: nat := 0xFFFF_FFFF_FFFF_FFFF
}
