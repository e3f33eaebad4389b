/**
 What every contract module takes from the ledger host: identifiers, machine-integer
 bounds, saturating arithmetic and the outcome of a call.
 */
module Host {

  /** An account address; only its identity matters. */
  datatype Address = Address(id: nat)

  /** A short name used for namespaces, resources, roles and event types. */
  datatype Symbol = Symbol(text: string)

  datatype Option<+T> = None | Some(value: T)

  datatype Result<+T, +E> = Ok(value: T) | Err(error: E)

  const U32_MAX: int := 0xFFFF_FFFF
  const U64_MAX: int := 0xFFFF_FFFF_FFFF_FFFF
  const I128_MAX: int := 0x7FFF_FFFF_FFFF_FFFF_FFFF_FFFF_FFFF_FFFF
  const I128_MIN: int := -0x8000_0000_0000_0000_0000_0000_0000_0000

  function Min(a: int, b: int): int {
    if a <= b then a else b
  }

  function Max(a: int, b: int): int {
    if a >= b then a else b
  }

  function Abs(a: int): int {
    if a < 0 then -a else a
  }

  /** `clamp` of the standard library; the caller owes `lo <= hi`. */
  function Clamp(v: int, lo: int, hi: int): int
    requires lo <= hi
  {
    if v < lo then lo else if v > hi then hi else v
  }

  predicate IsI128(v: int) {
    I128_MIN <= v <= I128_MAX
  }

  /** Saturation to the range of a signed 128-bit integer. */
  function SatI128(v: int): int {
    Clamp(v, I128_MIN, I128_MAX)
  }

  /** `saturating_sub` on an unsigned type. */
  function MinusOrZero(a: nat, b: nat): nat {
    if a >= b then a - b else 0
  }

  /** Division that truncates toward zero, as the source language does. */
  function TruncDiv(a: int, b: int): int
    requires b > 0
  {
    if a >= 0 then a / b else -((-a) / b)
  }
}
