/** Failure-compatible wrappers shared by every module: Python's `None`
    and raised exceptions, Go's `(value, error)` pairs. */
module Outcomes {

  /** A value that may be absent (Python `None`). */
  datatype Option<+T> = None | Some(value: T)

  /** A value or the error that was raised instead of producing it. */
  datatype Result<+T, +E> = Ok(value: T) | Err(error: E)

  /** An 8-bit byte, the unit of audio payloads and UTF-8 bodies. */
  newtype byte = b: int | 0 <= b < 256

  type Bytes = seq<byte>
}
