/** Shared value types: optional values, results, bytes and unsigned 64-bit arithmetic. */
module Common {

  datatype Option<+T> = None | Some(value: T)

  datatype Result<+T, +E> = Ok(value: T) | Err(error: E)

  /** One octet, as an integer so that the encoders can use plain arithmetic. */
  type Byte = b: int | 0 <= b < 256

  type Bytes = seq<Byte>

  const U64_MAX: nat := 0xFFFF_FFFF_FFFF_FFFF

  function Min(a: int, b: int): int {
    if a <= b then a else b
  }

  /** `u64::saturating_add`. */
  function SaturatingAdd(a: nat, b: nat): nat {
    Min(a + b, U64_MAX)
  }

  /** `u64::saturating_sub`. */
  function SaturatingSub(a: nat, b: nat): nat {
    if a <= b then 0 else a - b
  }
}
