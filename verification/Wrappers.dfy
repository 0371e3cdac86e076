/** Result types and error codes shared by every module. */
module Wrappers {

  datatype Option<+T> = None | Some(value: T)

  datatype Result<+T, +E> = Ok(value: T) | Err(error: E)

  /** `foxglove_error` (c/src/lib.rs): the codes that the modelled calls return. */
  datatype Code =
    | Success
    | ValueError
    | Utf8Error
    | SinkClosed
    | IoError
    | McapError
    | EncodeError
    | BufferTooShort
    | Base64DecodeError

  /** A byte of a C buffer or of a UTF-8 string. */
  type byte = n: int | 0 <= n < 256

  /** A `size_t` that the caller owns. */
  class SizeCell {
    var value: nat

    constructor (value: nat)
      ensures this.value == value
    {
      this.value := value;
    }
  }
}
