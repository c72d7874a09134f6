/** Machine integers of the client: bytes, and the two's-complement views of 32- and 64-bit words. */
module Words {

  const TWO_31: int := 0x8000_0000
  const TWO_32: int := 0x1_0000_0000
  const TWO_63: int := 0x8000_0000_0000_0000
  const TWO_64: int := 0x1_0000_0000_0000_0000

  type byte = x: int | 0 <= x < 0x100
  type uint16 = x: int | 0 <= x < 0x1_0000
  type uint32 = x: int | 0 <= x < 0x1_0000_0000
  type uint64 = x: int | 0 <= x < 0x1_0000_0000_0000_0000
  type int32 = x: int | -0x8000_0000 <= x < 0x8000_0000
  type int64 = x: int | -0x8000_0000_0000_0000 <= x < 0x8000_0000_0000_0000

  type Bytes = seq<byte>

  /** Go's uint32(v) for an int32 v, and back. */
  function ToUint32(v: int32): uint32 {
    if v < 0 then v + TWO_32 else v
  }

  function ToInt32(u: uint32): int32 {
    if u < TWO_31 then u else u - TWO_32
  }

  /** Go's uint64(v) for an int64 v, and back. */
  function ToUint64(v: int64): uint64 {
    if v < 0 then v + TWO_64 else v
  }

  function ToInt64(u: uint64): int64 {
    if u < TWO_63 then u else u - TWO_64
  }

  /** A bit test on a byte; every mask used here is a single bit. */
  predicate HasBit(c: byte, mask: byte)
    requires mask > 0
  {
    (c / mask) % 2 == 1
  }
}
