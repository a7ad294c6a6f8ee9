/** Rust's `i8`, the type of the poll and precision fields, kept as the
    byte that goes on the wire. */
module SignedBytes {

  /** `i8`: a byte read as two's complement. */
  datatype I8 = I8(bits: bv8)
  {
    /** The signed reading of the byte. */
    function Value(): (v: int)
      ensures -128 <= v < 128
      ensures (v < 0) == (bits >= 0x80)
    {
      if bits < 0x80 then bits as int else bits as int - 256
    }

  }
}
