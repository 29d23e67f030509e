/** Value types shared by the decoder wrapper and the loopback demo. */
module Primitives {

  /** An unsigned 8-bit value: C#'s `byte`. */
  newtype byte = x: int | 0 <= x < 256

  /** 2^64. Arithmetic on C#'s `ulong` outside a `checked` block is taken modulo this number. */
  const ULongModulus: nat := 0x1_0000_0000_0000_0000

  /** A value that may be absent: a C# reference that may be null. */
  datatype Option<+T> = None | Some(value: T)

  /** The value an operation returns, or the exception it throws instead. */
  datatype Result<+T, +E> = Success(value: T) | Failure(error: E)

  /** Whether an operation without a result completed or threw. */
  datatype Outcome<+E> = Pass | Fail(error: E)
}
