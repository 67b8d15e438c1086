/** Shared vocabulary: optional values and the fixed-width integers of the lifter. */
module Prelude {

  datatype Option<+T> = None | Some(value: T)
  {
    predicate IsFailure()
    {
      None?
    }

    function PropagateFailure<U>(): Option<U>
      requires None?
    {
      None
    }

    function Extract(): T
      requires Some?
    {
      value
    }
  }

  /** An unsigned byte, as used for node indices, offsets and lengths. */
  type U8 = n: int | 0 <= n < 256

  /** `as u8`: keeps the low eight bits. */
  function ToU8(n: int): (r: U8)
  {
    n % 256
  }

  /** Unsigned 64-bit addresses and offsets. */
  const TWO_64: int := 0x1_0000_0000_0000_0000

  type U64 = n: int | 0 <= n < 0x1_0000_0000_0000_0000

  function ToU64(n: int): (r: U64)
  {
    n % TWO_64
  }

  /** The signed reading of 64 bits. */
  function Signed64(a: U64): int
  {
    if a < 0x8000_0000_0000_0000 then a else a - TWO_64
  }

  /** The marker of a missing handle, node or operand block. */
  const INVALID_HANDLE: U8 := 0xff

  function Max(a: int, b: int): (r: int)
  {
    if a < b then b else a
  }
}
