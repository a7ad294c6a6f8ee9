/** The header types of an NTP packet (src/ntp/types.rs): the 32:32 and
    16:16 fixed-point time values of section 6 of RFC 5905, the header
    enumerations of section 7.3, the kiss codes of section 7.4 and the
    in-memory packet with its on-wire size. */
module NtpTypes {
  import opened Wrappers
  import opened Bytes
  import opened SignedBytes
  import opened Words

  // ---------------------------------------------------------------------
  // Kiss-o'-Death codes

  datatype KoD =
    | ACST | AUTH | AUTO | BCST | CRYP | DENY | DROP
    | RSTR | INIT | MCST | NKEY | RATE | RMOT | STEP
    | Unknown(data: Bytes4)
  {
    /** `Into<[u8; 4]>`: the four ASCII letters of a named code (the bytes
        of the string literal the source converts), or the carried bytes of
        an unknown one. */
    function Into(): Bytes4 {
      match this
      case ACST => [0x41, 0x43, 0x53, 0x54] // "ACST"
      case AUTH => [0x41, 0x55, 0x54, 0x48] // "AUTH"
      case AUTO => [0x41, 0x55, 0x54, 0x4F] // "AUTO"
      case BCST => [0x42, 0x43, 0x53, 0x54] // "BCST"
      case CRYP => [0x43, 0x52, 0x59, 0x50] // "CRYP"
      case DENY => [0x44, 0x45, 0x4E, 0x59] // "DENY"
      case DROP => [0x44, 0x52, 0x4F, 0x50] // "DROP"
      case RSTR => [0x52, 0x53, 0x54, 0x52] // "RSTR"
      case INIT => [0x49, 0x4E, 0x49, 0x54] // "INIT"
      case MCST => [0x4D, 0x43, 0x53, 0x54] // "MCST"
      case NKEY => [0x4E, 0x4B, 0x45, 0x59] // "NKEY"
      case RATE => [0x52, 0x41, 0x54, 0x45] // "RATE"
      case RMOT => [0x52, 0x4D, 0x4F, 0x54] // "RMOT"
      case STEP => [0x53, 0x54, 0x45, 0x50] // "STEP"
      case Unknown(data) => data
    }
  }

  /** An ASCII capital letter, 'A' (0x41) to 'Z' (0x5A). */
  predicate IsUpperAscii(b: bv8) {
    0x41 <= b <= 0x5A
  }

  /** Reads four bytes back as a kiss code; a left inverse of `Into`. */
  function KoDFromCode(code: Bytes4): KoD {
    if code == KoD.ACST.Into() then KoD.ACST
    else if code == KoD.AUTH.Into() then KoD.AUTH
    else if code == KoD.AUTO.Into() then KoD.AUTO
    else if code == KoD.BCST.Into() then KoD.BCST
    else if code == KoD.CRYP.Into() then KoD.CRYP
    else if code == KoD.DENY.Into() then KoD.DENY
    else if code == KoD.DROP.Into() then KoD.DROP
    else if code == KoD.RSTR.Into() then KoD.RSTR
    else if code == KoD.INIT.Into() then KoD.INIT
    else if code == KoD.MCST.Into() then KoD.MCST
    else if code == KoD.NKEY.Into() then KoD.NKEY
    else if code == KoD.RATE.Into() then KoD.RATE
    else if code == KoD.RMOT.Into() then KoD.RMOT
    else if code == KoD.STEP.Into() then KoD.STEP
    else KoD.Unknown(code)
  }

  /** Each named code is four upper-case ASCII letters, no two named codes
      share their bytes, and an unknown code is passed through unchanged. */
  lemma KoDCodes(k: KoD)
    ensures k.Unknown? ==> k.Into() == k.data
    ensures !k.Unknown? ==> forall i :: 0 <= i < 4 ==> IsUpperAscii(k.Into()[i])
    ensures !k.Unknown? ==> KoDFromCode(k.Into()) == k
  {
    match k
    case ACST =>
    case AUTH =>
    case AUTO =>
    case BCST =>
    case CRYP =>
    case DENY =>
    case DROP =>
    case RSTR =>
    case INIT =>
    case MCST =>
    case NKEY =>
    case RATE =>
    case RMOT =>
    case STEP =>
    case Unknown(_) =>
  }

  /** `b` is `s.as_bytes()[..4]` for a four-letter ASCII string `s`: byte
      by byte, the code points agree. */
  predicate Spells(b: Bytes4, s: string) {
    |s| == 4 && b[0] as int == s[0] as int && b[1] as int == s[1] as int
    && b[2] as int == s[2] as int && b[3] as int == s[3] as int
  }

  /** Each named code is the bytes of its own name. */
  lemma KoDNames()
    ensures Spells(KoD.ACST.Into(), "ACST") && Spells(KoD.AUTH.Into(), "AUTH")
    ensures Spells(KoD.AUTO.Into(), "AUTO") && Spells(KoD.BCST.Into(), "BCST")
    ensures Spells(KoD.CRYP.Into(), "CRYP") && Spells(KoD.DENY.Into(), "DENY")
    ensures Spells(KoD.DROP.Into(), "DROP") && Spells(KoD.RSTR.Into(), "RSTR")
    ensures Spells(KoD.INIT.Into(), "INIT") && Spells(KoD.MCST.Into(), "MCST")
    ensures Spells(KoD.NKEY.Into(), "NKEY") && Spells(KoD.RATE.Into(), "RATE")
    ensures Spells(KoD.RMOT.Into(), "RMOT") && Spells(KoD.STEP.Into(), "STEP")
  {
  }

  lemma KoDNamedCodesDistinct(k1: KoD, k2: KoD)
    requires !k1.Unknown? && !k2.Unknown? && k1 != k2
    ensures k1.Into() != k2.Into()
  {
    KoDCodes(k1);
    KoDCodes(k2);
  }

  // ---------------------------------------------------------------------
  // Leap indicator (2 bits) and mode (3 bits)

  datatype LeapIndicator = NoWarning | LastMinute61Seconds | LastMinute59Seconds | Unknown
  {
    /** `IntoPrimitive`: the `#[repr(u8)]` discriminant. */
    function Into(): bv8 {
      match this
      case NoWarning => 0
      case LastMinute61Seconds => 1
      case LastMinute59Seconds => 2
      case Unknown => 3
    }

    /** `TryFromPrimitive`: defined exactly on the four discriminants. */
    static function TryFrom(b: bv8): (r: Result<LeapIndicator>)
      ensures r.Ok? <==> b < 4
      ensures r.Ok? ==> r.value.Into() == b
    {
      if b == 0 then Ok(NoWarning)
      else if b == 1 then Ok(LastMinute61Seconds)
      else if b == 2 then Ok(LastMinute59Seconds)
      else if b == 3 then Ok(LeapIndicator.Unknown)
      else Err("invalid LeapIndicator value")
    }
  }

  lemma LeapIndicatorRoundTrip(li: LeapIndicator)
    ensures li.Into() < 4
    ensures LeapIndicator.TryFrom(li.Into()) == Ok(li)
  {
  }

  datatype Mode =
    | Reserved | SymmetricActive | SymmetricPassive | Client
    | Server | Broadcast | NTPControlMessage | ReservedForPrivate
  {
    function Into(): bv8 {
      match this
      case Reserved => 0
      case SymmetricActive => 1
      case SymmetricPassive => 2
      case Client => 3
      case Server => 4
      case Broadcast => 5
      case NTPControlMessage => 6
      case ReservedForPrivate => 7
    }

    static function TryFrom(b: bv8): (r: Result<Mode>)
      ensures r.Ok? <==> b < 8
      ensures r.Ok? ==> r.value.Into() == b
    {
      if b == 0 then Ok(Mode.Reserved)
      else if b == 1 then Ok(SymmetricActive)
      else if b == 2 then Ok(SymmetricPassive)
      else if b == 3 then Ok(Client)
      else if b == 4 then Ok(Server)
      else if b == 5 then Ok(Broadcast)
      else if b == 6 then Ok(NTPControlMessage)
      else if b == 7 then Ok(ReservedForPrivate)
      else Err("invalid Mode value")
    }
  }

  lemma ModeRoundTrip(m: Mode)
    ensures m.Into() < 8
    ensures Mode.TryFrom(m.Into()) == Ok(m)
  {
  }

  // ---------------------------------------------------------------------
  // Stratum

  datatype Stratum =
    | Unspecified
    | PrimaryServer
    | SecondaryServer(level: bv8)
    | Unsynchronized
    | Reserved(level: bv8)
  {
    /** `TryFrom<u8>`: every byte names a stratum, and encoding it again
        gives the byte back. */
    static function TryFrom(value: bv8): (r: Result<Stratum>)
      ensures r.Ok?
      ensures r.value.TryInto() == Ok(value)
    {
      Ok(if value == 0 then Unspecified
         else if value == 1 then PrimaryServer
         else if value <= 15 then SecondaryServer(value)
         else if value == 16 then Unsynchronized
         else Stratum.Reserved(value))
    }

    /** `TryInto<u8>`: fails for a level outside the variant's range. */
    function TryInto(): Result<bv8> {
      match this
      case Unspecified => Ok(0)
      case PrimaryServer => Ok(1)
      case SecondaryServer(v) =>
        if 2 <= v <= 15 then Ok(v) else Err("invalid SecondaryServer value")
      case Unsynchronized => Ok(16)
      case Reserved(v) =>
        if 17 <= v then Ok(v) else Err("invalid Reserved value")
    }
  }

  /** Encoding fails exactly for an out-of-range level; when it succeeds,
      decoding the byte gives the same variant back. */
  lemma StratumEncoding(s: Stratum)
    ensures s.TryInto().Err? <==>
      (s.SecondaryServer? && !(2 <= s.level <= 15)) || (s.Reserved? && s.level < 17)
    ensures s.TryInto().Ok? ==> Stratum.TryFrom(s.TryInto().value) == Ok(s)
  {
  }

  // ---------------------------------------------------------------------
  // Fixed-point time values (gen_timestamp_trait!)

  /** `Timestamp(u64)`: 32 bits of seconds, 32 bits of fraction. */
  datatype Timestamp = Timestamp(raw: bv64)
  {
    function GetSeconds(): bv32 {
      High32(raw)
    }

    /** The truncating cast `u64 as u32`. */
    function GetFraction(): bv32 {
      Low32(raw)
    }

    function SetSeconds(seconds: bv32): Timestamp {
      Timestamp(Join32(seconds, GetFraction()))
    }

    /** As written: ORs the new fraction into the old value. */
    function SetFraction(fraction: bv32): Timestamp {
      Timestamp(OrLow32(raw, fraction))
    }

    /** Corrected `set_fraction`: replaces the fraction, keeps the seconds. */
    function ReplaceFraction(fraction: bv32): Timestamp {
      Timestamp(Join32(GetSeconds(), fraction))
    }
  }

  /** The halves are the quotient and remainder by 2^32 and recompose the value. */
  lemma TimestampHalves(t: Timestamp)
    ensures t.GetSeconds() as bv64 == t.raw / 0x1_0000_0000
    ensures t.GetFraction() as bv64 == t.raw % 0x1_0000_0000
    ensures t.raw == (t.GetSeconds() as bv64 << 32) | t.GetFraction() as bv64
  {
    High32Quotient(t.raw);
    Low32Remainder(t.raw);
    Join32Halves(t.raw);
  }

  /** `set_seconds` replaces the seconds and keeps the fraction. */
  lemma TimestampSetSeconds(t: Timestamp, s: bv32)
    ensures t.SetSeconds(s).GetSeconds() == s
    ensures t.SetSeconds(s).GetFraction() == t.GetFraction()
  {
    High32Join(s, t.GetFraction());
    Low32Join(s, t.GetFraction());
  }

  /** What `set_fraction` does: the seconds stay, the fraction becomes the
      bitwise OR, which is the new fraction only if the old one had no bits
      outside it; on a zero fraction it coincides with the corrected setter. */
  lemma TimestampSetFraction(t: Timestamp, f: bv32)
    ensures t.SetFraction(f).GetSeconds() == t.GetSeconds()
    ensures t.SetFraction(f).GetFraction() == t.GetFraction() | f
    ensures t.SetFraction(f).GetFraction() == f <==> t.GetFraction() & !f == 0
    ensures t.GetFraction() == 0 ==> t.SetFraction(f) == t.ReplaceFraction(f)
  {
    High32OrLow(t.raw, f);
    Low32OrLow(t.raw, f);
    OrExact32(t.GetFraction(), f);
    OrLow32OnZero(t.raw, f);
  }

  /** The corrected setter replaces the fraction, keeps the seconds, and
      commutes with `set_seconds`. */
  lemma TimestampReplaceFraction(t: Timestamp, f: bv32, s: bv32)
    ensures t.ReplaceFraction(f).GetSeconds() == t.GetSeconds()
    ensures t.ReplaceFraction(f).GetFraction() == f
    ensures t.SetSeconds(s).ReplaceFraction(f) == t.ReplaceFraction(f).SetSeconds(s)
  {
    High32Join(t.GetSeconds(), f);
    Low32Join(t.GetSeconds(), f);
    High32Join(s, t.GetFraction());
    Low32Join(s, f);
    High32Join(s, f);
  }

  /** The unit test's timestamp case: every expectation holds except the
      two for `set_fraction`'s value and fraction, which see 0x52141 ORed
      into 0x9abcdef0. */
  lemma TimestampTestCase()
    ensures Timestamp(0x12345678_9abcdef0).GetSeconds() == 0x12345678
    ensures Timestamp(0x12345678_9abcdef0).GetFraction() == 0x9abcdef0
    ensures Timestamp(0x12345678_9abcdef0).SetSeconds(0x731) == Timestamp(0x731_9abcdef0)
    ensures Timestamp(0x12345678_9abcdef0).SetFraction(0x52141).GetSeconds() == 0x12345678
    ensures Timestamp(0x12345678_9abcdef0).SetFraction(0x52141) == Timestamp(0x12345678_9abdfff1)
    ensures Timestamp(0x12345678_9abcdef0).SetFraction(0x52141) != Timestamp(0x12345678_00052141)
    ensures Timestamp(0x12345678_9abcdef0).SetFraction(0x52141).GetFraction() == 0x9abdfff1
    ensures Timestamp(0x12345678_9abcdef0).ReplaceFraction(0x52141) == Timestamp(0x12345678_00052141)
  {
  }

  /** `Short(u32)`: 16 bits of seconds, 16 bits of fraction. */
  datatype Short = Short(raw: bv32)
  {
    function GetSeconds(): bv16 {
      High16(raw)
    }

    function GetFraction(): bv16 {
      Low16(raw)
    }

    function SetSeconds(seconds: bv16): Short {
      Short(Join16(seconds, GetFraction()))
    }

    /** As written: ORs the new fraction into the old value. */
    function SetFraction(fraction: bv16): Short {
      Short(OrLow16(raw, fraction))
    }

    /** Corrected `set_fraction`. */
    function ReplaceFraction(fraction: bv16): Short {
      Short(Join16(GetSeconds(), fraction))
    }
  }

  /** The halves are the quotient and remainder by 2^16 and recompose the value. */
  lemma ShortHalves(t: Short)
    ensures t.GetSeconds() as bv32 == t.raw / 0x1_0000
    ensures t.GetFraction() as bv32 == t.raw % 0x1_0000
    ensures t.raw == (t.GetSeconds() as bv32 << 16) | t.GetFraction() as bv32
  {
    High16Quotient(t.raw);
    Low16Remainder(t.raw);
    Join16Halves(t.raw);
  }

  /** `set_seconds` replaces the seconds and keeps the fraction. */
  lemma ShortSetSeconds(t: Short, s: bv16)
    ensures t.SetSeconds(s).GetSeconds() == s
    ensures t.SetSeconds(s).GetFraction() == t.GetFraction()
  {
    High16Join(s, t.GetFraction());
    Low16Join(s, t.GetFraction());
  }

  /** What `set_fraction` does on a `Short`; as for `Timestamp`. */
  lemma ShortSetFraction(t: Short, f: bv16)
    ensures t.SetFraction(f).GetSeconds() == t.GetSeconds()
    ensures t.SetFraction(f).GetFraction() == t.GetFraction() | f
    ensures t.SetFraction(f).GetFraction() == f <==> t.GetFraction() & !f == 0
    ensures t.GetFraction() == 0 ==> t.SetFraction(f) == t.ReplaceFraction(f)
  {
    High16OrLow(t.raw, f);
    Low16OrLow(t.raw, f);
    OrExact16(t.GetFraction(), f);
    OrLow16OnZero(t.raw, f);
  }

  /** The corrected setter on a `Short`; as for `Timestamp`. */
  lemma ShortReplaceFraction(t: Short, f: bv16, s: bv16)
    ensures t.ReplaceFraction(f).GetSeconds() == t.GetSeconds()
    ensures t.ReplaceFraction(f).GetFraction() == f
    ensures t.SetSeconds(s).ReplaceFraction(f) == t.ReplaceFraction(f).SetSeconds(s)
  {
    High16Join(t.GetSeconds(), f);
    Low16Join(t.GetSeconds(), f);
    High16Join(s, t.GetFraction());
    Low16Join(s, f);
    High16Join(s, f);
  }

  /** The unit test's short case: every expectation holds except the two
      for `set_fraction`'s value and fraction, which see 0x5214 ORed into
      0x5678. */
  lemma ShortTestCase()
    ensures Short(0x1234_5678).GetSeconds() == 0x1234
    ensures Short(0x1234_5678).GetFraction() == 0x5678
    ensures Short(0x1234_5678).SetSeconds(0x731) == Short(0x731_5678)
    ensures Short(0x1234_5678).SetFraction(0x5214).GetSeconds() == 0x1234
    ensures Short(0x1234_5678).SetFraction(0x5214) == Short(0x1234_567c)
    ensures Short(0x1234_5678).SetFraction(0x5214) != Short(0x1234_5214)
    ensures Short(0x1234_5678).SetFraction(0x5214).GetFraction() == 0x567c
    ensures Short(0x1234_5678).ReplaceFraction(0x5214) == Short(0x1234_5214)
  {
  }

  // ---------------------------------------------------------------------
  // The packet

  /** The authenticator trailer: a 32-bit key id and a 128-bit digest. */
  datatype Auth = Auth(keyIdentifier: bv32, digest: bv128)

  const BASE_SIZE: nat := 48
  const AUTH_SIZE: nat := 20

  /** One NTP message. The source names the transmit timestamp
      `transit_timestamp`; the name is kept. */
  datatype Packet = Packet(
    leapIndicator: LeapIndicator,
    version: bv8,
    mode: Mode,
    stratum: Stratum,
    poll: I8,
    precision: I8,
    rootDelay: Short,
    rootDispersion: Short,
    referenceId: Bytes4,
    referenceTimestamp: Timestamp,
    originTimestamp: Timestamp,
    receiveTimestamp: Timestamp,
    transitTimestamp: Timestamp,
    auth: Option<Auth>)
  {
    /** `Packet::size`: the base header plus the trailer when present. */
    function Size(): nat {
      var size := BASE_SIZE;
      if auth.Some? then size + AUTH_SIZE else size
    }
  }
}
