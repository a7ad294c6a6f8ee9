/** Big-endian fixed-width integers on the wire: the byte-level effect of
    nom's `number::complete::u32/u64/u128(Endianness::Big)` readers and of
    byteorder's `write_u32/u64/u128::<BigEndian>` writers. */
module Bytes {

  /** `[u8; 4]`: the reference identifier and the kiss codes. */
  type Bytes4 = s: seq<bv8> | |s| == 4 witness [0, 0, 0, 0]

  function FromBeU32(s: seq<bv8>): bv32
    requires |s| == 4
  {
    (s[0] as bv32 << 24) | (s[1] as bv32 << 16) | (s[2] as bv32 << 8) | s[3] as bv32
  }

  function ToBeU32(x: bv32): (r: seq<bv8>)
    ensures |r| == 4
  {
    [(x >> 24) as bv8, ((x >> 16) & 0xFF) as bv8, ((x >> 8) & 0xFF) as bv8, (x & 0xFF) as bv8]
  }

  function FromBeU64(s: seq<bv8>): bv64
    requires |s| == 8
  {
    (FromBeU32(s[..4]) as bv64 << 32) | FromBeU32(s[4..]) as bv64
  }

  function ToBeU64(x: bv64): (r: seq<bv8>)
    ensures |r| == 8
  {
    ToBeU32((x >> 32) as bv32) + ToBeU32((x & 0xFFFF_FFFF) as bv32)
  }

  function FromBeU128(s: seq<bv8>): bv128
    requires |s| == 16
  {
    (FromBeU64(s[..8]) as bv128 << 64) | FromBeU64(s[8..]) as bv128
  }

  function ToBeU128(x: bv128): (r: seq<bv8>)
    ensures |r| == 16
  {
    ToBeU64((x >> 64) as bv64) + ToBeU64((x & 0xFFFF_FFFF_FFFF_FFFF) as bv64)
  }

  /** `n` zero bytes. */
  function Zeros(n: nat): (r: seq<bv8>)
    ensures |r| == n
    ensures forall i :: 0 <= i < n ==> r[i] == 0
  {
    seq(n, _ => 0)
  }

  lemma BeU32RoundTrip(x: bv32)
    ensures FromBeU32(ToBeU32(x)) == x
  {
  }

  lemma BeU32Bytes(s: seq<bv8>)
    requires |s| == 4
    ensures ToBeU32(FromBeU32(s)) == s
  {
  }

  lemma BeU64RoundTrip(x: bv64)
    ensures FromBeU64(ToBeU64(x)) == x
  {
    var w := ToBeU64(x);
    assert w[..4] == ToBeU32((x >> 32) as bv32);
    assert w[4..] == ToBeU32((x & 0xFFFF_FFFF) as bv32);
    BeU32RoundTrip((x >> 32) as bv32);
    BeU32RoundTrip((x & 0xFFFF_FFFF) as bv32);
  }

  lemma BeU64Bytes(s: seq<bv8>)
    requires |s| == 8
    ensures ToBeU64(FromBeU64(s)) == s
  {
    BeU32Bytes(s[..4]);
    BeU32Bytes(s[4..]);
    assert s == s[..4] + s[4..];
  }

  lemma BeU128RoundTrip(x: bv128)
    ensures FromBeU128(ToBeU128(x)) == x
  {
    var w := ToBeU128(x);
    assert w[..8] == ToBeU64((x >> 64) as bv64);
    assert w[8..] == ToBeU64((x & 0xFFFF_FFFF_FFFF_FFFF) as bv64);
    BeU64RoundTrip((x >> 64) as bv64);
    BeU64RoundTrip((x & 0xFFFF_FFFF_FFFF_FFFF) as bv64);
  }

  lemma BeU128Bytes(s: seq<bv8>)
    requires |s| == 16
    ensures ToBeU128(FromBeU128(s)) == s
  {
    BeU64Bytes(s[..8]);
    BeU64Bytes(s[8..]);
    assert s == s[..8] + s[8..];
  }
}
