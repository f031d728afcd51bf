/**
 * Fixed-width integers, raw bytes and a symbolic double. Floating-point arithmetic never happens in
 * the modelled code; doubles are only carried around, converted from integers and checked
 * for being finite.
 */
module Numbers {

  type U32 = x: int | 0 <= x < 0x1_0000_0000
  type U64 = x: int | 0 <= x < 0x1_0000_0000_0000_0000
  type I64 = x: int | -0x8000_0000_0000_0000 <= x < 0x8000_0000_0000_0000

  /** Raw bytes, as yrs encodes updates and state vectors. */
  type Bytes = seq<bv8>

  const U32_MODULUS: int := 0x1_0000_0000
  const I64_MAX: int := 0x7FFF_FFFF_FFFF_FFFF

  /** Rust's `n as u32` on a `u64`: keeps the low 32 bits. */
  function TruncateToU32(n: U64): (r: U32)
    ensures n < U32_MODULUS ==> r == n
    ensures (r - n) % U32_MODULUS == 0
  {
    n % U32_MODULUS
  }

  /**
   * An IEEE 754 double, kept symbolic: either the double an integer converts to
   * (`i as f64`, always finite for 64-bit integers) or a double given by its bit pattern.
   */
  datatype F64 = FromInt(i: int) | FromBits(bits: bv64)

  /** A double is finite unless its exponent field is all ones (infinity or NaN). */
  predicate IsFinite(f: F64)
  {
    match f
    case FromInt(_) => true
    case FromBits(b) => (b >> 52) & 0x7FF != 0x7FF
  }
}
