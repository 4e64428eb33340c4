/** The fixed-width values that the broker's records are made of. */
module Types {
  newtype byte = x: int | 0 <= x < 0x100
  type Bytes = seq<byte>
  type uint32 = x: int | 0 <= x < 0x1_0000_0000
  type int64 = x: int | -0x8000_0000_0000_0000 <= x < 0x8000_0000_0000_0000

  datatype Option<+T> = None | Some(value: T)

  /** A uint32 increment, which wraps. */
  function Inc32(n: uint32): uint32 {
    (n + 1) % 0x1_0000_0000
  }

  /** An int64 subtraction, which wraps. */
  function Sub64(a: int64, b: int64): int64 {
    var d := a - b;
    if d >= 0x8000_0000_0000_0000 then d - 0x1_0000_0000_0000_0000
    else if d < -0x8000_0000_0000_0000 then d + 0x1_0000_0000_0000_0000
    else d
  }
}
