/** Values shared by every part of the model: optional and fallible results,
    octets, machine widths and saturating elapsed time. */
module Base {

  datatype Option<+T> = None | Some(value: T)

  datatype Result<+T, +E> = Ok(value: T) | Err(error: E)

  type Byte = bv8
  type Bytes = seq<Byte>

  const U16_MAX: nat := 0xFFFF
  const U32_MAX: nat := 0xFFFF_FFFF
  const U64_MAX: nat := 0xFFFF_FFFF_FFFF_FFFF
  const I32_MAX: nat := 0x7FFF_FFFF
  const I64_MAX: nat := 0x7FFF_FFFF_FFFF_FFFF

  predicate FitsI32(value: int) {
    -0x8000_0000 <= value <= 0x7FFF_FFFF
  }

  /** Elapsed boot time in nanoseconds. */
  type Elapsed = nat

  const SECOND: nat := 1_000_000_000

  /** `Duration::MAX`: the largest number of seconds and 999_999_999 nanoseconds. */
  const ELAPSED_MAX: nat := (U64_MAX + 1) * SECOND - 1

  /** `Duration::saturating_add`. */
  function SaturatingAdd(time: Elapsed, extra: Elapsed): Elapsed {
    if time + extra <= ELAPSED_MAX then time + extra else ELAPSED_MAX
  }

  /** `u64::saturating_add(1)`. */
  function NextU64(value: nat): nat {
    if value < U64_MAX then value + 1 else value
  }
}
