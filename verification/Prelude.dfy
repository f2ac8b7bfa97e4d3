/** Machine integers, byte strings and the error type shared by every module. */
module Prelude {

  type byte = x: int | 0 <= x < 0x100
  type u16 = x: int | 0 <= x < 0x1_0000
  type u32 = x: int | 0 <= x < 0x1_0000_0000

  /** A Rust string, as the bytes of its UTF-8 encoding. */
  type Text = seq<byte>

  datatype Option<+T> = None | Some(value: T)

  /** The failures the codec reports. */
  datatype Error = EndOfBuffer | TooManyJumps | LabelTooLong

  datatype Result<+T> = Ok(value: T) | Err(error: Error) {
    predicate IsFailure() {
      Err?
    }

    function PropagateFailure<U>(): Result<U>
      requires Err?
    {
      Err(error)
    }

    function Extract(): T
      requires Ok?
    {
      value
    }
  }
}
