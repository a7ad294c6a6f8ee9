/** Splitting fixed-width unsigned words into halves and joining them back:
    the bit manipulation behind the fixed-point time values. Each law is a
    lemma of its own, stated on plain bit-vectors. */
module Words {
  // -------------------------------------------------------------------
  // 64-bit words as 32-bit halves

  /** `(x >> 32) as u32`. */
  function High32(x: bv64): bv32 {
    (x >> 32) as bv32
  }

  /** The truncating cast `x as u32`. */
  function Low32(x: bv64): bv32 {
    (x & 0xFFFF_FFFF) as bv32
  }

  /** `(hi as u64) << 32 | lo as u64`. */
  function Join32(hi: bv32, lo: bv32): bv64 {
    (hi as bv64 << 32) | lo as bv64
  }

  /** `x | lo as u64`: ORs into the low half. */
  function OrLow32(x: bv64, lo: bv32): bv64 {
    x | lo as bv64
  }

  lemma High32Quotient(x: bv64)
    ensures High32(x) as bv64 == x / 0x1_0000_0000
  {
  }

  lemma Low32Remainder(x: bv64)
    ensures Low32(x) as bv64 == x % 0x1_0000_0000
  {
  }

  lemma Join32Halves(x: bv64)
    ensures Join32(High32(x), Low32(x)) == x
  {
  }

  lemma High32Join(hi: bv32, lo: bv32)
    ensures High32(Join32(hi, lo)) == hi
  {
  }

  lemma Low32Join(hi: bv32, lo: bv32)
    ensures Low32(Join32(hi, lo)) == lo
  {
  }

  lemma High32OrLow(x: bv64, lo: bv32)
    ensures High32(OrLow32(x, lo)) == High32(x)
  {
  }

  lemma Low32OrLow(x: bv64, lo: bv32)
    ensures Low32(OrLow32(x, lo)) == Low32(x) | lo
  {
  }

  lemma OrExact32(a: bv32, b: bv32)
    ensures a | b == b <==> a & !b == 0
  {
  }

  lemma OrLow32OnZero(x: bv64, lo: bv32)
    ensures Low32(x) == 0 ==> OrLow32(x, lo) == Join32(High32(x), lo)
  {
  }

  // -------------------------------------------------------------------
  // 32-bit words as 16-bit halves

  function High16(x: bv32): bv16 {
    (x >> 16) as bv16
  }

  function Low16(x: bv32): bv16 {
    (x & 0xFFFF) as bv16
  }

  function Join16(hi: bv16, lo: bv16): bv32 {
    (hi as bv32 << 16) | lo as bv32
  }

  function OrLow16(x: bv32, lo: bv16): bv32 {
    x | lo as bv32
  }

  lemma High16Quotient(x: bv32)
    ensures High16(x) as bv32 == x / 0x1_0000
  {
  }

  lemma Low16Remainder(x: bv32)
    ensures Low16(x) as bv32 == x % 0x1_0000
  {
  }

  lemma Join16Halves(x: bv32)
    ensures Join16(High16(x), Low16(x)) == x
  {
  }

  lemma High16Join(hi: bv16, lo: bv16)
    ensures High16(Join16(hi, lo)) == hi
  {
  }

  lemma Low16Join(hi: bv16, lo: bv16)
    ensures Low16(Join16(hi, lo)) == lo
  {
  }

  lemma High16OrLow(x: bv32, lo: bv16)
    ensures High16(OrLow16(x, lo)) == High16(x)
  {
  }

  lemma Low16OrLow(x: bv32, lo: bv16)
    ensures Low16(OrLow16(x, lo)) == Low16(x) | lo
  {
  }

  lemma OrExact16(a: bv16, b: bv16)
    ensures a | b == b <==> a & !b == 0
  {
  }

  lemma OrLow16OnZero(x: bv32, lo: bv16)
    ensures Low16(x) == 0 ==> OrLow16(x, lo) == Join16(High16(x), lo)
  {
  }
}
