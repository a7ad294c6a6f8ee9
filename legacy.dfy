/** The older single-file copy of the types and codec, src/ntp.rs. Its
    enumerations, kiss codes, `Auth`, `parse_header` and `parse_auth` are
    the same text as in src/ntp/types.rs and src/ntp/parser.rs and are
    shared with that model; what differs is that `Timestamp` and `Short` are
    bare `u64` and `u32` aliases with the accessors as free functions.
    Everything here is proved to agree with the newer model. */
module NtpLegacy {
  import opened Wrappers
  import opened Bytes
  import opened SignedBytes
  import opened Words
  import T = NtpTypes
  import P = NtpParser

  // ---------------------------------------------------------------------
  // Time values as bare integers

  type Timestamp = bv64
  type Short = bv32

  function TimestampGetSeconds(t: Timestamp): bv32 {
    High32(t)
  }

  function TimestampGetFraction(t: Timestamp): bv32 {
    Low32(t)
  }

  function TimestampSetSeconds(t: Timestamp, seconds: bv32): Timestamp {
    Join32(seconds, TimestampGetFraction(t))
  }

  function TimestampSetFraction(t: Timestamp, fraction: bv32): Timestamp {
    OrLow32(t, fraction)
  }

  function ShortGetSeconds(t: Short): bv16 {
    High16(t)
  }

  function ShortGetFraction(t: Short): bv16 {
    Low16(t)
  }

  function ShortSetSeconds(t: Short, seconds: bv16): Short {
    Join16(seconds, ShortGetFraction(t))
  }

  function ShortSetFraction(t: Short, fraction: bv16): Short {
    OrLow16(t, fraction)
  }

  /** The hand-written 64-bit accessors compute what the newer ones do,
      `set_fraction`'s OR included. */
  lemma TimestampAccessorsAgree(t: Timestamp, s: bv32, f: bv32)
    ensures TimestampGetSeconds(t) == T.Timestamp(t).GetSeconds()
    ensures TimestampGetFraction(t) == T.Timestamp(t).GetFraction()
    ensures TimestampSetSeconds(t, s) == T.Timestamp(t).SetSeconds(s).raw
    ensures TimestampSetFraction(t, f) == T.Timestamp(t).SetFraction(f).raw
  {
  }

  /** The same for the 32-bit accessors. */
  lemma ShortAccessorsAgree(t: Short, s: bv16, f: bv16)
    ensures ShortGetSeconds(t) == T.Short(t).GetSeconds()
    ensures ShortGetFraction(t) == T.Short(t).GetFraction()
    ensures ShortSetSeconds(t, s) == T.Short(t).SetSeconds(s).raw
    ensures ShortSetFraction(t, f) == T.Short(t).SetFraction(f).raw
  {
  }

  /** So the laws carry over: `set_seconds` replaces the high half and
      keeps the fraction, `set_fraction` keeps the seconds and ORs the
      fraction in. */
  lemma TimestampLaws(t: Timestamp, s: bv32, f: bv32)
    ensures TimestampGetSeconds(TimestampSetSeconds(t, s)) == s
    ensures TimestampGetFraction(TimestampSetSeconds(t, s)) == TimestampGetFraction(t)
    ensures TimestampGetSeconds(TimestampSetFraction(t, f)) == TimestampGetSeconds(t)
    ensures TimestampGetFraction(TimestampSetFraction(t, f)) == TimestampGetFraction(t) | f
  {
    TimestampAccessorsAgree(t, s, f);
    TimestampAccessorsAgree(TimestampSetSeconds(t, s), s, f);
    TimestampAccessorsAgree(TimestampSetFraction(t, f), s, f);
    T.TimestampSetSeconds(T.Timestamp(t), s);
    T.TimestampSetFraction(T.Timestamp(t), f);
  }

  lemma ShortLaws(t: Short, s: bv16, f: bv16)
    ensures ShortGetSeconds(ShortSetSeconds(t, s)) == s
    ensures ShortGetFraction(ShortSetSeconds(t, s)) == ShortGetFraction(t)
    ensures ShortGetSeconds(ShortSetFraction(t, f)) == ShortGetSeconds(t)
    ensures ShortGetFraction(ShortSetFraction(t, f)) == ShortGetFraction(t) | f
  {
    ShortAccessorsAgree(t, s, f);
    ShortAccessorsAgree(ShortSetSeconds(t, s), s, f);
    ShortAccessorsAgree(ShortSetFraction(t, f), s, f);
    T.ShortSetSeconds(T.Short(t), s);
    T.ShortSetFraction(T.Short(t), f);
  }

  // ---------------------------------------------------------------------
  // The packet

  datatype Packet = Packet(
    leapIndicator: T.LeapIndicator,
    version: bv8,
    mode: T.Mode,
    stratum: T.Stratum,
    poll: I8,
    precision: I8,
    rootDelay: Short,
    rootDispersion: Short,
    referenceId: Bytes4,
    referenceTimestamp: Timestamp,
    originTimestamp: Timestamp,
    receiveTimestamp: Timestamp,
    transitTimestamp: Timestamp,
    auth: Option<T.Auth>)
  {
    /** The private `size`, with the base length written as a literal. */
    function Size(): nat {
      var size := 48;
      if auth.Some? then size + 20 else size
    }
  }

  /** The same packet with its time values wrapped in the newer types. */
  function Upgrade(p: Packet): T.Packet {
    T.Packet(p.leapIndicator, p.version, p.mode, p.stratum, p.poll, p.precision,
      T.Short(p.rootDelay), T.Short(p.rootDispersion), p.referenceId,
      T.Timestamp(p.referenceTimestamp), T.Timestamp(p.originTimestamp),
      T.Timestamp(p.receiveTimestamp), T.Timestamp(p.transitTimestamp), p.auth)
  }

  /** The inverse of `Upgrade`. */
  function Downgrade(p: T.Packet): Packet {
    Packet(p.leapIndicator, p.version, p.mode, p.stratum, p.poll, p.precision,
      p.rootDelay.raw, p.rootDispersion.raw, p.referenceId,
      p.referenceTimestamp.raw, p.originTimestamp.raw,
      p.receiveTimestamp.raw, p.transitTimestamp.raw, p.auth)
  }

  /** The two packet types are in one-to-one correspondence, and agree on
      their size: 48, or 68 with a trailer. */
  lemma UpgradeBijective(p: Packet, q: T.Packet)
    ensures Downgrade(Upgrade(p)) == p
    ensures Upgrade(Downgrade(q)) == q
    ensures Upgrade(p).Size() == p.Size()
    ensures p.Size() == if p.auth.Some? then 68 else 48
  {
  }

  // ---------------------------------------------------------------------
  // The parsers whose output types differ

  /** `parse_metadata`, with the root delay and dispersion as bare words.
      It reads what the newer parser reads. */
  function ParseMetadata(input: seq<bv8>): (r: P.IResult<(bv8, I8, I8, Short, Short, Bytes4)>)
    ensures r.Done? <==> |input| >= 15
    ensures r.Done? ==>
      P.ParseMetadata(input) ==
      P.Done(r.rest, (r.output.0, r.output.1, r.output.2, T.Short(r.output.3), T.Short(r.output.4), r.output.5))
  {
    if |input| < 15 then P.Error(P.Eof)
    else
      var id: Bytes4 := input[11..15];
      P.Done(input[15..], (input[0], I8(input[1]), I8(input[2]),
        FromBeU32(input[3..7]), FromBeU32(input[7..11]), id))
  }

  /** `parse_timedata`, with the timestamps as bare words. */
  function ParseTimedata(input: seq<bv8>): (r: P.IResult<(Timestamp, Timestamp, Timestamp, Timestamp)>)
    ensures r.Done? <==> |input| >= 32
    ensures r.Done? ==>
      P.ParseTimedata(input) ==
      P.Done(r.rest, (T.Timestamp(r.output.0), T.Timestamp(r.output.1),
                      T.Timestamp(r.output.2), T.Timestamp(r.output.3)))
  {
    if |input| < 32 then P.Error(P.Eof)
    else
      P.Done(input[32..], (FromBeU64(input[..8]), FromBeU64(input[8..16]),
        FromBeU64(input[16..24]), FromBeU64(input[24..32])))
  }

  function BuildPacket(header: (bv8, bv8, bv8), m: (bv8, I8, I8, Short, Short, Bytes4),
                       t: (Timestamp, Timestamp, Timestamp, Timestamp), auth: Option<T.Auth>): (r: Result<Packet>)
    ensures var upgraded := P.BuildPacket(header, (m.0, m.1, m.2, T.Short(m.3), T.Short(m.4), m.5),
        (T.Timestamp(t.0), T.Timestamp(t.1), T.Timestamp(t.2), T.Timestamp(t.3)), auth);
      r.Ok? == upgraded.Ok? && (r.Ok? ==> upgraded.value == Upgrade(r.value)) &&
      (r.Err? ==> upgraded.message == r.message)
  {
    match T.LeapIndicator.TryFrom(header.0)
    case Err(_) => Err("invalid leap_indicator")
    case Ok(leapIndicator) =>
      match T.Mode.TryFrom(header.2)
      case Err(_) => Err("invalid mode")
      case Ok(mode) =>
        match T.Stratum.TryFrom(m.0)
        case Err(e) => Err(e)
        case Ok(stratum) =>
          Ok(Packet(leapIndicator, header.1, mode, stratum, m.1, m.2, m.3, m.4, m.5,
                    t.0, t.1, t.2, t.3, auth))
  }

  /** `parse_packet` of src/ntp.rs. */
  function ParsePacket(input: seq<bv8>): (r: P.IResult<Result<Packet>>)
  {
    match P.ParseHeader(input)
    case Error(e) => P.Error(e)
    case Done(rest0, header) =>
      match ParseMetadata(rest0)
      case Error(e) => P.Error(e)
      case Done(rest1, m) =>
        match ParseTimedata(rest1)
        case Error(e) => P.Error(e)
        case Done(rest2, t) =>
          var auth := P.ParseAuth(rest2);
          P.Done(auth.rest, BuildPacket(header, m, t, auth.output))
  }

  /** The older parser accepts the same inputs as the newer one, consumes
      as much, and yields the same packet; so it too fails exactly below 48
      bytes, never yields an inner error, places fields at the same offsets
      and reads a trailer under the same rule. */
  lemma ParsePacketAgrees(input: seq<bv8>)
    ensures ParsePacket(input).Error? <==> P.ParsePacket(input).Error?
    ensures ParsePacket(input).Error? <==> |input| < T.BASE_SIZE
    ensures ParsePacket(input).Done? ==>
      ParsePacket(input).output.Ok? &&
      P.ParsePacket(input) == P.Done(ParsePacket(input).rest, Ok(Upgrade(ParsePacket(input).output.value)))
  {
    if |input| >= T.BASE_SIZE {
      P.ParsePacketSteps(input);
    }
  }

  // ---------------------------------------------------------------------
  // The serializer

  /** `serialize_packet` of src/ntp.rs: the same writes in the same order. */
  method SerializePacket(p: Packet) returns (r: Result<seq<bv8>>)
    ensures r.Err? <==> p.stratum.TryInto().Err?
    ensures r.Err? ==> r.message == p.stratum.TryInto().message
    ensures r.Ok? ==> r.value == P.Wire(Upgrade(p))
  {
    var data: seq<bv8> := [];
    var header := P.HeaderByte(p.leapIndicator.Into(), p.version, p.mode.Into());
    data := data + [header];
    assert data == [header];
    var stratum := p.stratum.TryInto();
    if stratum.Err? {
      return Err(stratum.message);
    }
    data := data + [stratum.value];
    data := data + [p.poll.bits];
    data := data + [p.precision.bits];
    data := data + ToBeU32(p.rootDelay);
    data := data + ToBeU32(p.rootDispersion);
    ghost var prefix := data;
    for i := 0 to 4
      invariant data == prefix + p.referenceId[..i]
    {
      data := data + [p.referenceId[i]];
    }
    assert p.referenceId[..4] == p.referenceId;
    data := data + ToBeU64(p.referenceTimestamp);
    data := data + ToBeU64(p.originTimestamp);
    data := data + ToBeU64(p.receiveTimestamp);
    data := data + ToBeU64(p.transitTimestamp);
    ghost var timed := data;
    if p.auth.Some? {
      data := data + ToBeU32(p.auth.value.keyIdentifier);
      data := data + ToBeU128(p.auth.value.digest);
      assert data == timed + (ToBeU32(p.auth.value.keyIdentifier) + ToBeU128(p.auth.value.digest));
    } else {
      assert data == timed + [];
    }
    assert data == timed + P.AuthBytes(p.auth);
    UpgradeWire(p);
    return Ok(data);
  }

  /** The newer wire image of an upgraded packet, written in the older
      packet's own fields. */
  lemma UpgradeWire(p: Packet)
    requires p.stratum.TryInto().Ok?
    ensures P.Wire(Upgrade(p)) ==
      [P.HeaderByte(p.leapIndicator.Into(), p.version, p.mode.Into())] + [p.stratum.TryInto().value]
      + [p.poll.bits] + [p.precision.bits] + ToBeU32(p.rootDelay) + ToBeU32(p.rootDispersion)
      + p.referenceId + ToBeU64(p.referenceTimestamp) + ToBeU64(p.originTimestamp)
      + ToBeU64(p.receiveTimestamp) + ToBeU64(p.transitTimestamp) + P.AuthBytes(p.auth)
  {
  }

  /** The serialized length is the private `size()`. */
  lemma SerializedLength(p: Packet)
    requires p.stratum.TryInto().Ok?
    ensures |P.Wire(Upgrade(p))| == p.Size()
  {
    P.WireLength(Upgrade(p));
  }

  /** The newer round trips hold for the older codec: a parsed packet
      serializes back to the bytes read ... */
  lemma ParseSerialize(input: seq<bv8>)
    requires |input| >= T.BASE_SIZE
    ensures ParsePacket(input).Done? && ParsePacket(input).output.Ok? &&
      P.Wire(Upgrade(ParsePacket(input).output.value)) ==
      if |input| >= T.BASE_SIZE + T.AUTH_SIZE then input[..68] else input[..48]
  {
    ParsePacketAgrees(input);
    P.ParseSerialize(input);
  }

  /** ... and a packet whose version fits in three bits parses back from
      its bytes. */
  lemma SerializeParse(p: Packet)
    requires p.stratum.TryInto().Ok? && p.version < 8
    ensures ParsePacket(P.Wire(Upgrade(p))) == P.Done([], Ok(p))
  {
    var w := P.Wire(Upgrade(p));
    P.WireLength(Upgrade(p));
    ParsePacketAgrees(w);
    P.SerializeParse(Upgrade(p));
    UpgradeBijective(p, Upgrade(p));
    UpgradeBijective(ParsePacket(w).output.value, Upgrade(p));
  }
}
