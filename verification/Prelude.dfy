/** Types shared by every other module: options, fixed-width integers and Go's wrap-around. */
module Prelude {

  datatype Option<+T> = None | Some(value: T)

  datatype Result<+T, +E> = Ok(value: T) | Err(error: E)

  const TWO_63: int := 0x8000_0000_0000_0000
  const TWO_64: int := 0x1_0000_0000_0000_0000
  const MAX_U64: int := 0xFFFF_FFFF_FFFF_FFFF

  type U64 = x: int | 0 <= x < 0x1_0000_0000_0000_0000

  type byte = x: int | 0 <= x < 256

  type Bytes = seq<byte>

  /** Conversion to `uint64`, which also gives Go's wrapping `uint64` arithmetic. */
  function ToU64(x: int): (r: U64)
    ensures 0 <= x < TWO_64 ==> r == x
  {
    x % 0x1_0000_0000_0000_0000
  }

  /** Conversion to `int64`, which also gives Go's wrapping `int64` arithmetic. */
  function ToI64(x: int): (r: int)
    ensures -TWO_63 <= r < TWO_63
    ensures -TWO_63 <= x < TWO_63 ==> r == x
  {
    (x + 0x8000_0000_0000_0000) % 0x1_0000_0000_0000_0000 - 0x8000_0000_0000_0000
  }

  /** Conversion to `int32`. */
  function ToI32(x: int): (r: int)
    ensures -0x8000_0000 <= r < 0x8000_0000
    ensures -0x8000_0000 <= x < 0x8000_0000 ==> r == x
  {
    (x + 0x8000_0000) % 0x1_0000_0000 - 0x8000_0000
  }

  /** Go's integer division, which truncates toward zero. */
  function Quo(x: int, y: int): (r: int)
    requires y > 0
    ensures x >= 0 ==> r == x / y
  {
    if x >= 0 then x / y else -((-x) / y)
  }

  function Max(a: int, b: int): (r: int) {
    if a < b then b else a
  }

  function Min(a: int, b: int): (r: int) {
    if b < a then b else a
  }
}
