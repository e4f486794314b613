/** Shared vocabulary: optional values, bytes as numbers, and flattening. */
module Prelude {

  datatype Option<+T> = None | Some(value: T)

  type Byte = x: int | 0 <= x < 256

  /** The firmware's `uint32_t` counters wrap at this value. */
  const TWO_32 := 0x1_0000_0000

  type UInt32 = x: int | 0 <= x < TWO_32

  function Flatten<T>(parts: seq<seq<T>>): seq<T> {
    if parts == [] then [] else parts[0] + Flatten(parts[1..])
  }
}
