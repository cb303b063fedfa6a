/** Values shared by the models: optional and fallible results, and the unsigned machine
    arithmetic the sources use (saturating and wrapping, written out explicitly). */
module Common {

  datatype Option<+T> = None | Some(value: T)

  datatype Result<+T, +E> = Ok(value: T) | Err(error: E)

  const U16_MAX: int := 0xFFFF
  const U32_MAX: int := 0xFFFF_FFFF
  const U64_MAX: int := 0xFFFF_FFFF_FFFF_FFFF

  type U16 = x: int | 0 <= x <= U16_MAX
  type U32 = x: int | 0 <= x <= U32_MAX
  type U64 = x: int | 0 <= x <= U64_MAX

  function Min(a: int, b: int): int { if a <= b then a else b }

  function Max(a: int, b: int): int { if a >= b then a else b }

  /** `u64::saturating_sub`. */
  function SatSub(a: U64, b: U64): U64 { if a < b then 0 else a - b }

  /** `u64::saturating_add`. */
  function SatAdd(a: U64, b: U64): U64 { if a + b > U64_MAX then U64_MAX else a + b }

  /** `u64::wrapping_sub`. */
  function WrapSub(a: U64, b: U64): U64 { if a < b then a - b + U64_MAX + 1 else a - b }

  /** `u64::wrapping_add`. */
  function WrapAdd(a: U64, b: U64): U64 { if a + b > U64_MAX then a + b - U64_MAX - 1 else a + b }

  /** Elements of `s` that satisfy `keep`, in order. */
  function Filter<T>(s: seq<T>, keep: T -> bool): (r: seq<T>)
  {
    if s == [] then []
    else if keep(s[0]) then [s[0]] + Filter(s[1..], keep)
    else Filter(s[1..], keep)
  }
}
