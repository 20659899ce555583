/** Values shared by every component: optional values, outcomes and a saturating difference. */
module Basics {

  datatype Option<+T> = None | Some(value: T)

  datatype Result<+T, +E> = Ok(value: T) | Err(error: E)

  /** `a.saturating_sub(b)` on unsigned durations. */
  function SatSub(a: nat, b: nat): nat {
    if a <= b then 0 else a - b
  }

  function Max(a: int, b: int): int {
    if a <= b then b else a
  }

  newtype Byte = b: int | 0 <= b < 256
  type Bytes = seq<Byte>

  const I32_MAX := 0x7fff_ffff
  const I64_MAX := 0x7fff_ffff_ffff_ffff
  const U64_MAX := 0xffff_ffff_ffff_ffff
}
