/** Types shared by the whole model: optional values, results, the errors of the
    transport, and the machine integers the source computes with. */
module Prelude {

  type byte = x: int | 0 <= x < 256

  datatype Option<+T> = None | Some(value: T)

  /** The error codes that the modelled operations can return. */
  datatype Error =
    | Done
    | FlowControl
    | FinalSize
    | InvalidFrame
    | InvalidPacket
    | InvalidStreamState
    | StreamLimit
    | BufferTooShort

  datatype Result<+T> = Ok(value: T) | Err(error: Error) {
    predicate IsFailure() {
      Err?
    }
    function PropagateFailure<U>(): Result<U>
      requires Err?
    {
      Err(error)
    }
    function Extract(): T
      requires Ok?
    {
      value
    }
  }

  const U64_MAX: nat := 0xFFFF_FFFF_FFFF_FFFF

  function Min(a: int, b: int): int {
    if a <= b then a else b
  }

  function Max(a: int, b: int): int {
    if a <= b then b else a
  }

  /** Addition that stops at the largest 64-bit value. */
  function SaturatingAdd(a: nat, b: nat): nat {
    Min(a + b, U64_MAX)
  }
}
