/** The wire codec of src/ntp/parser.rs: the nom parsers of the 48-byte
    header of section 7.3 of RFC 5905 and its optional 20-byte authenticator
    trailer, specified by their byte-level effect, and the serializer that
    appends the same fields in the same order. */
module NtpParser {
  import opened Wrappers
  import opened Bytes
  import opened SignedBytes
  import opened NtpTypes

  // ---------------------------------------------------------------------
  // Parser results

  /** The only error kind the parsers used here raise: every primitive
      reader fails with `Eof` when too few bytes (or bits) remain. */
  datatype ErrorKind = Eof

  /** nom's `IResult`: the unconsumed input with the output, or an error.
      The bit offset of the outer parser is always 0 on success and is not
      kept. */
  datatype IResult<T> = Done(rest: seq<bv8>, output: T) | Error(code: ErrorKind)

  /** The outputs of `parse_metadata`: stratum byte, poll, precision, root
      delay, root dispersion and reference id. */
  type Metadata = (bv8, I8, I8, Short, Short, Bytes4)

  /** The outputs of `parse_timedata`: reference, origin, receive and
      transmit timestamps. */
  type Timedata = (Timestamp, Timestamp, Timestamp, Timestamp)

  // ---------------------------------------------------------------------
  // The bytes of each section, as written by serialize_packet

  /** The first byte, `(li << 6) | (version << 3) | mode` computed in `u8`:
      bits shifted out of the byte are lost and `version` is not masked. */
  function HeaderByte(li: bv8, version: bv8, mode: bv8): bv8 {
    (li << 6) | (version << 3) | mode
  }

  function MetadataBytes(m: Metadata): (r: seq<bv8>)
    ensures |r| == 15
  {
    [m.0, m.1.bits, m.2.bits] + ToBeU32(m.3.raw) + ToBeU32(m.4.raw) + m.5
  }

  function TimedataBytes(t: Timedata): (r: seq<bv8>)
    ensures |r| == 32
  {
    ToBeU64(t.0.raw) + ToBeU64(t.1.raw) + ToBeU64(t.2.raw) + ToBeU64(t.3.raw)
  }

  function AuthBytes(auth: Option<Auth>): (r: seq<bv8>)
    ensures |r| == if auth.Some? then AUTH_SIZE else 0
  {
    match auth
    case None => []
    case Some(a) => ToBeU32(a.keyIdentifier) + ToBeU128(a.digest)
  }

  /** The metadata section of a packet whose stratum encodes. */
  function MetadataOf(p: Packet): Metadata
    requires p.stratum.TryInto().Ok?
  {
    (p.stratum.TryInto().value, p.poll, p.precision, p.rootDelay, p.rootDispersion, p.referenceId)
  }

  function TimedataOf(p: Packet): Timedata {
    (p.referenceTimestamp, p.originTimestamp, p.receiveTimestamp, p.transitTimestamp)
  }

  /** The bytes `serialize_packet` produces for a packet whose stratum
      encodes, one write after another. */
  function Wire(p: Packet): seq<bv8>
    requires p.stratum.TryInto().Ok?
  {
    [HeaderByte(p.leapIndicator.Into(), p.version, p.mode.Into())]
      + [p.stratum.TryInto().value] + [p.poll.bits] + [p.precision.bits]
      + ToBeU32(p.rootDelay.raw) + ToBeU32(p.rootDispersion.raw) + p.referenceId
      + ToBeU64(p.referenceTimestamp.raw) + ToBeU64(p.originTimestamp.raw)
      + ToBeU64(p.receiveTimestamp.raw) + ToBeU64(p.transitTimestamp.raw)
      + AuthBytes(p.auth)
  }

  /** Regrouping a concatenation of twelve pieces into header, metadata,
      timedata and trailer. */
  lemma Regroup(h: seq<bv8>, a: seq<bv8>, b: seq<bv8>, c: seq<bv8>, d: seq<bv8>, e: seq<bv8>, f: seq<bv8>,
                t1: seq<bv8>, t2: seq<bv8>, t3: seq<bv8>, t4: seq<bv8>, z: seq<bv8>)
    ensures h + a + b + c + d + e + f + t1 + t2 + t3 + t4 + z
      == h + ((a + b + c + d + e + f) + ((t1 + t2 + t3 + t4) + z))
  {
  }

  /** The serialized bytes are the header byte followed by the three
      sections the parser reads. */
  lemma WireSections(p: Packet)
    requires p.stratum.TryInto().Ok?
    ensures Wire(p) == [HeaderByte(p.leapIndicator.Into(), p.version, p.mode.Into())]
      + (MetadataBytes(MetadataOf(p)) + (TimedataBytes(TimedataOf(p)) + AuthBytes(p.auth)))
  {
    Regroup([HeaderByte(p.leapIndicator.Into(), p.version, p.mode.Into())],
      [p.stratum.TryInto().value], [p.poll.bits], [p.precision.bits],
      ToBeU32(p.rootDelay.raw), ToBeU32(p.rootDispersion.raw), p.referenceId,
      ToBeU64(p.referenceTimestamp.raw), ToBeU64(p.originTimestamp.raw),
      ToBeU64(p.receiveTimestamp.raw), ToBeU64(p.transitTimestamp.raw),
      AuthBytes(p.auth));
  }

  // ---------------------------------------------------------------------
  // The parsers

  /** `parse_header`: two, three and three bits of the first byte. */
  function ParseHeader(input: seq<bv8>): (r: IResult<(bv8, bv8, bv8)>)
    ensures r.Error? <==> |input| == 0
    ensures r.Done? ==>
      r.rest == input[1..] && r.output.0 < 4 && r.output.1 < 8 && r.output.2 < 8 &&
      HeaderByte(r.output.0, r.output.1, r.output.2) == input[0]
  {
    if |input| == 0 then Error(Eof)
    else Done(input[1..], (input[0] >> 6, (input[0] >> 3) & 7, input[0] & 7))
  }

  /** `parse_metadata`: fifteen bytes at fixed offsets. */
  function ParseMetadata(input: seq<bv8>): (r: IResult<Metadata>)
    ensures r.Done? <==> |input| >= 15
    ensures r.Done? ==> r.rest == input[15..] && MetadataBytes(r.output) == input[..15]
  {
    if |input| < 15 then Error(Eof)
    else
      BeU32Bytes(input[3..7]);
      BeU32Bytes(input[7..11]);
      var m: Metadata := (input[0], I8(input[1]), I8(input[2]),
        Short(FromBeU32(input[3..7])), Short(FromBeU32(input[7..11])), input[11..15]);
      assert MetadataBytes(m) == input[..15];
      Done(input[15..], m)
  }

  /** `parse_timedata`: four big-endian 64-bit timestamps. */
  function ParseTimedata(input: seq<bv8>): (r: IResult<Timedata>)
    ensures r.Done? <==> |input| >= 32
    ensures r.Done? ==> r.rest == input[32..] && TimedataBytes(r.output) == input[..32]
  {
    if |input| < 32 then Error(Eof)
    else
      BeU64Bytes(input[..8]);
      BeU64Bytes(input[8..16]);
      BeU64Bytes(input[16..24]);
      BeU64Bytes(input[24..32]);
      var t: Timedata := (Timestamp(FromBeU64(input[..8])), Timestamp(FromBeU64(input[8..16])),
        Timestamp(FromBeU64(input[16..24])), Timestamp(FromBeU64(input[24..32])));
      assert TimedataBytes(t) == input[..32];
      Done(input[32..], t)
  }

  /** `parse_auth`: `opt` of a key id and a digest. When fewer than twenty
      bytes remain the inner reader fails and `opt` turns that into `None`
      without consuming anything, so this parser never fails. */
  function ParseAuth(input: seq<bv8>): (r: IResult<Option<Auth>>)
    ensures r.Done?
    ensures r.output.Some? <==> |input| >= AUTH_SIZE
    ensures r.output.Some? ==> r.rest == input[AUTH_SIZE..] && AuthBytes(r.output) == input[..AUTH_SIZE]
    ensures r.output.None? ==> r.rest == input
  {
    if |input| < AUTH_SIZE then Done(input, None)
    else
      BeU32Bytes(input[..4]);
      BeU128Bytes(input[4..20]);
      var a := Some(Auth(FromBeU32(input[..4]), FromBeU128(input[4..20])));
      assert AuthBytes(a) == input[..20];
      Done(input[20..], a)
  }

  /** The closure `parse_packet` maps over the parsed fields: the
      primitive conversions, in the order the source writes them, with its
      error messages. The reference id slice always has four bytes, so its
      conversion cannot fail and is not written out. */
  function BuildPacket(header: (bv8, bv8, bv8), m: Metadata, t: Timedata, auth: Option<Auth>): (r: Result<Packet>)
    ensures r.Ok? <==> header.0 < 4 && header.2 < 8
    ensures r.Err? ==> r.message == if header.0 < 4 then "invalid mode" else "invalid leap_indicator"
    ensures r.Ok? ==>
      r.value.leapIndicator.Into() == header.0 && r.value.version == header.1 &&
      r.value.mode.Into() == header.2 && r.value.stratum.TryInto() == Ok(m.0) &&
      MetadataOf(r.value) == m && TimedataOf(r.value) == t && r.value.auth == auth
  {
    match LeapIndicator.TryFrom(header.0)
    case Err(_) => Err("invalid leap_indicator")
    case Ok(leapIndicator) =>
      match Mode.TryFrom(header.2)
      case Err(_) => Err("invalid mode")
      case Ok(mode) =>
        match Stratum.TryFrom(m.0)
        case Err(e) => Err(e)
        case Ok(stratum) =>
          Ok(Packet(leapIndicator, header.1, mode, stratum, m.1, m.2, m.3, m.4, m.5,
                    t.0, t.1, t.2, t.3, auth))
  }

  /** `parse_packet`: the header bits, then metadata, timedata and the
      optional trailer. It fails exactly on input shorter than the 48-byte
      base header, and the inner result is never an error, because the
      conversions only see 2-bit, 3-bit and 8-bit values. */
  function ParsePacket(input: seq<bv8>): (r: IResult<Result<Packet>>)
    ensures r.Error? <==> |input| < BASE_SIZE
    ensures r.Done? ==> r.output.Ok?
  {
    match ParseHeader(input)
    case Error(e) => Error(e)
    case Done(rest0, header) =>
      match ParseMetadata(rest0)
      case Error(e) => Error(e)
      case Done(rest1, m) =>
        match ParseTimedata(rest1)
        case Error(e) => Error(e)
        case Done(rest2, t) =>
          var auth := ParseAuth(rest2);
          Done(auth.rest, BuildPacket(header, m, t, auth.output))
  }

  // ---------------------------------------------------------------------
  // The serializer

  /** `serialize_packet`: appends the fields one write at a time; the only
      write that can fail is the stratum's encoding. */
  method SerializePacket(p: Packet) returns (r: Result<seq<bv8>>)
    ensures r.Err? <==> p.stratum.TryInto().Err?
    ensures r.Err? ==> r.message == p.stratum.TryInto().message
    ensures r.Ok? ==> r.value == Wire(p)
  {
    var data: seq<bv8> := [];
    var header := HeaderByte(p.leapIndicator.Into(), p.version, p.mode.Into());
    data := data + [header];
    assert data == [header];
    var stratum := p.stratum.TryInto();
    if stratum.Err? {
      return Err(stratum.message);
    }
    data := data + [stratum.value];
    data := data + [p.poll.bits];
    data := data + [p.precision.bits];
    data := data + ToBeU32(p.rootDelay.raw);
    data := data + ToBeU32(p.rootDispersion.raw);
    ghost var prefix := data;
    for i := 0 to 4
      invariant data == prefix + p.referenceId[..i]
    {
      data := data + [p.referenceId[i]];
    }
    assert p.referenceId[..4] == p.referenceId;
    data := data + ToBeU64(p.referenceTimestamp.raw);
    data := data + ToBeU64(p.originTimestamp.raw);
    data := data + ToBeU64(p.receiveTimestamp.raw);
    data := data + ToBeU64(p.transitTimestamp.raw);
    ghost var timed := data;
    if p.auth.Some? {
      data := data + ToBeU32(p.auth.value.keyIdentifier);
      data := data + ToBeU128(p.auth.value.digest);
      assert data == timed + (ToBeU32(p.auth.value.keyIdentifier) + ToBeU128(p.auth.value.digest));
    } else {
      assert data == timed + [];
    }
    assert data == timed + AuthBytes(p.auth);
    return Ok(data);
  }

  // ---------------------------------------------------------------------
  // Properties of the codec

  /** The serialized length is `Packet::size`: 48, or 68 with a trailer. */
  lemma WireLength(p: Packet)
    requires p.stratum.TryInto().Ok?
    ensures |Wire(p)| == p.Size()
    ensures |Wire(p)| == if p.auth.Some? then 68 else 48
  {
  }

  /** Reading back a header byte: mode comes back whole, the version keeps
      its low three bits and its next two are ORed into the leap
      indicator, because `version` is shifted without being masked. */
  lemma HeaderBits(li: bv8, version: bv8, mode: bv8)
    requires li < 4 && mode < 8
    ensures var b := HeaderByte(li, version, mode);
      (b >> 6, (b >> 3) & 7, b & 7) == (li | ((version >> 3) & 3), version & 7, mode)
  {
  }

  /** So the header fields come back exactly when the version fits in three bits. */
  lemma HeaderRoundTrip(li: bv8, version: bv8, mode: bv8)
    requires li < 4 && mode < 8
    ensures ParseHeader([HeaderByte(li, version, mode)]).output == (li, version, mode) <==> version < 8
  {
    HeaderBits(li, version, mode);
    VersionLowBits(version);
  }

  lemma MetadataBytesFields(m: Metadata)
    ensures MetadataBytes(m)[0] == m.0 && MetadataBytes(m)[1] == m.1.bits && MetadataBytes(m)[2] == m.2.bits
    ensures MetadataBytes(m)[3..7] == ToBeU32(m.3.raw)
    ensures MetadataBytes(m)[7..11] == ToBeU32(m.4.raw)
    ensures MetadataBytes(m)[11..] == m.5
  {
  }

  lemma TimedataBytesFields(t: Timedata)
    ensures TimedataBytes(t)[..8] == ToBeU64(t.0.raw)
    ensures TimedataBytes(t)[8..16] == ToBeU64(t.1.raw)
    ensures TimedataBytes(t)[16..24] == ToBeU64(t.2.raw)
    ensures TimedataBytes(t)[24..] == ToBeU64(t.3.raw)
  {
  }

  lemma AuthBytesFields(a: Auth)
    ensures AuthBytes(Some(a))[..4] == ToBeU32(a.keyIdentifier)
    ensures AuthBytes(Some(a))[4..] == ToBeU128(a.digest)
  {
  }

  lemma MetadataRoundTrip(m: Metadata, rest: seq<bv8>)
    ensures ParseMetadata(MetadataBytes(m) + rest) == Done(rest, m)
  {
    var input := MetadataBytes(m) + rest;
    MetadataBytesFields(m);
    assert input[..15] == MetadataBytes(m);
    assert input[3..7] == ToBeU32(m.3.raw);
    assert input[7..11] == ToBeU32(m.4.raw);
    BeU32RoundTrip(m.3.raw);
    BeU32RoundTrip(m.4.raw);
    assert input[11..15] == m.5;
    assert input[15..] == rest;
  }

  lemma TimedataRoundTrip(t: Timedata, rest: seq<bv8>)
    ensures ParseTimedata(TimedataBytes(t) + rest) == Done(rest, t)
  {
    var input := TimedataBytes(t) + rest;
    TimedataBytesFields(t);
    assert input[..8] == ToBeU64(t.0.raw);
    assert input[8..16] == ToBeU64(t.1.raw);
    assert input[16..24] == ToBeU64(t.2.raw);
    assert input[24..32] == ToBeU64(t.3.raw);
    BeU64RoundTrip(t.0.raw);
    BeU64RoundTrip(t.1.raw);
    BeU64RoundTrip(t.2.raw);
    BeU64RoundTrip(t.3.raw);
    assert input[32..] == rest;
  }

  lemma AuthRoundTrip(auth: Option<Auth>)
    ensures ParseAuth(AuthBytes(auth)) == Done([], auth)
  {
    if auth.Some? {
      AuthBytesFields(auth.value);
      BeU32RoundTrip(auth.value.keyIdentifier);
      BeU128RoundTrip(auth.value.digest);
    }
  }

  /** `parse_packet` on enough input is its four parsers in sequence. */
  lemma ParsePacketSteps(input: seq<bv8>)
    requires |input| >= BASE_SIZE
    ensures ParseHeader(input).Done?
    ensures ParseMetadata(ParseHeader(input).rest).Done?
    ensures ParseTimedata(ParseMetadata(ParseHeader(input).rest).rest).Done?
    ensures
      var h := ParseHeader(input);
      var m := ParseMetadata(h.rest);
      var t := ParseTimedata(m.rest);
      var a := ParseAuth(t.rest);
      ParsePacket(input) == Done(a.rest, BuildPacket(h.output, m.output, t.output, a.output))
  {
  }

  /** Each section starts where the previous one ended. */
  lemma SectionOffsets(input: seq<bv8>)
    requires |input| >= BASE_SIZE
    ensures ParseHeader(input).rest == input[1..]
    ensures ParseMetadata(ParseHeader(input).rest).rest == input[16..]
    ensures ParseTimedata(ParseMetadata(ParseHeader(input).rest).rest).rest == input[BASE_SIZE..]
  {
  }

  lemma MetadataAt(input: seq<bv8>, rest: seq<bv8>)
    requires |input| >= BASE_SIZE && rest == input[1..]
    ensures ParseMetadata(rest).Done? && MetadataBytes(ParseMetadata(rest).output) == input[1..16]
  {
    assert rest[..15] == input[1..16];
  }

  lemma TimedataAt(input: seq<bv8>, rest: seq<bv8>)
    requires |input| >= BASE_SIZE && rest == input[16..]
    ensures ParseTimedata(rest).Done? && TimedataBytes(ParseTimedata(rest).output) == input[16..48]
  {
    assert rest[..32] == input[16..48];
  }

  lemma AuthAt(input: seq<bv8>, rest: seq<bv8>)
    requires |input| >= BASE_SIZE && rest == input[BASE_SIZE..]
    ensures ParseAuth(rest).output.Some? <==> |input| >= BASE_SIZE + AUTH_SIZE
    ensures AuthBytes(ParseAuth(rest).output) ==
      if |input| >= BASE_SIZE + AUTH_SIZE then input[48..68] else []
    ensures ParseAuth(rest).rest ==
      if |input| >= BASE_SIZE + AUTH_SIZE then input[68..] else input[48..]
  {
    if |input| >= 68 {
      assert rest[..20] == input[48..68];
      assert rest[20..] == input[68..];
    }
  }

  /** The parsed header fields are the header parser's outputs. */
  lemma ParsedHeader(input: seq<bv8>)
    requires |input| >= BASE_SIZE
    ensures var p := ParsePacket(input).output.value;
      (p.leapIndicator.Into(), p.version, p.mode.Into()) == ParseHeader(input).output
  {
    ParsePacketSteps(input);
  }

  /** The parsed metadata are the metadata parser's outputs. */
  lemma ParsedMetadata(input: seq<bv8>)
    requires |input| >= BASE_SIZE
    ensures ParsePacket(input).output.value.stratum.TryInto().Ok?
    ensures MetadataOf(ParsePacket(input).output.value) == ParseMetadata(ParseHeader(input).rest).output
  {
    ParsePacketSteps(input);
  }

  /** The parsed timestamps are the timedata parser's outputs. */
  lemma ParsedTimedata(input: seq<bv8>)
    requires |input| >= BASE_SIZE
    ensures TimedataOf(ParsePacket(input).output.value) ==
      ParseTimedata(ParseMetadata(ParseHeader(input).rest).rest).output
  {
    ParsePacketSteps(input);
  }

  /** The parsed trailer and the unconsumed input are the trailer parser's. */
  lemma ParsedAuth(input: seq<bv8>)
    requires |input| >= BASE_SIZE
    ensures var a := ParseAuth(ParseTimedata(ParseMetadata(ParseHeader(input).rest).rest).rest);
      ParsePacket(input).output.value.auth == a.output && ParsePacket(input).rest == a.rest
  {
    ParsePacketSteps(input);
  }

  /** The inner conversions succeed on the fields of a packet, so rebuilding
      it from its own header and sections gives it back. */
  lemma BuildPacketOf(p: Packet)
    requires p.stratum.TryInto().Ok?
    ensures BuildPacket((p.leapIndicator.Into(), p.version, p.mode.Into()),
      MetadataOf(p), TimedataOf(p), p.auth) == Ok(p)
  {
    LeapIndicatorRoundTrip(p.leapIndicator);
    ModeRoundTrip(p.mode);
    StratumEncoding(p.stratum);
  }

  lemma VersionLowBits(v: bv8)
    ensures v & 7 == v <==> v < 8
  {
  }

  /** A header byte followed by the three sections parses to those
      sections, with nothing left over. */
  lemma ParseSections(hb: bv8, m: Metadata, t: Timedata, auth: Option<Auth>)
    ensures ParsePacket([hb] + (MetadataBytes(m) + (TimedataBytes(t) + AuthBytes(auth)))) ==
      Done([], BuildPacket((hb >> 6, (hb >> 3) & 7, hb & 7), m, t, auth))
  {
    var w := [hb] + (MetadataBytes(m) + (TimedataBytes(t) + AuthBytes(auth)));
    assert w[1..] == MetadataBytes(m) + (TimedataBytes(t) + AuthBytes(auth));
    MetadataRoundTrip(m, TimedataBytes(t) + AuthBytes(auth));
    TimedataRoundTrip(t, AuthBytes(auth));
    AuthRoundTrip(auth);
    ParsePacketSteps(w);
  }

  /** What parsing a serialized packet reads: its own sections, and the
      header fields as the header byte recombined them. */
  lemma WireParse(p: Packet)
    requires p.stratum.TryInto().Ok?
    ensures ParsePacket(Wire(p)) == Done([], BuildPacket(
      (p.leapIndicator.Into() | ((p.version >> 3) & 3), p.version & 7, p.mode.Into()),
      MetadataOf(p), TimedataOf(p), p.auth))
  {
    var hb := HeaderByte(p.leapIndicator.Into(), p.version, p.mode.Into());
    WireSections(p);
    ParseSections(hb, MetadataOf(p), TimedataOf(p), p.auth);
    LeapIndicatorRoundTrip(p.leapIndicator);
    ModeRoundTrip(p.mode);
    HeaderBits(p.leapIndicator.Into(), p.version, p.mode.Into());
  }

  /** Parsing a serialized packet gives it back, whole and with nothing
      left over, exactly when its version fits in three bits. */
  lemma SerializeParse(p: Packet)
    requires p.stratum.TryInto().Ok?
    ensures p.version < 8 ==> ParsePacket(Wire(p)) == Done([], Ok(p))
    ensures ParsePacket(Wire(p)).Done? && ParsePacket(Wire(p)).output == Ok(p) ==> p.version < 8
  {
    WireParse(p);
    VersionLowBits(p.version);
    LeapIndicatorRoundTrip(p.leapIndicator);
    if p.version < 8 {
      BuildPacketOf(p);
    }
  }

  /** The sections of a parsed packet, written out again, are the bytes
      they were read from. */
  lemma ParsedSections(input: seq<bv8>)
    requires |input| >= BASE_SIZE
    ensures var p := ParsePacket(input).output.value;
      p.stratum.TryInto().Ok? && p.version < 8 &&
      HeaderByte(p.leapIndicator.Into(), p.version, p.mode.Into()) == input[0] &&
      MetadataBytes(MetadataOf(p)) == input[1..16] &&
      TimedataBytes(TimedataOf(p)) == input[16..48] &&
      AuthBytes(p.auth) == if |input| >= BASE_SIZE + AUTH_SIZE then input[48..68] else []
  {
    SectionOffsets(input);
    ParsedHeader(input);
    ParsedMetadata(input);
    ParsedTimedata(input);
    ParsedAuth(input);
    var h := ParseHeader(input);
    var m := ParseMetadata(h.rest);
    var t := ParseTimedata(m.rest);
    MetadataAt(input, h.rest);
    TimedataAt(input, m.rest);
    AuthAt(input, t.rest);
  }

  lemma JoinBase(input: seq<bv8>)
    requires |input| >= BASE_SIZE
    ensures input[..48] == [input[0]] + (input[1..16] + (input[16..48] + []))
    ensures |input| >= BASE_SIZE + AUTH_SIZE ==>
      input[..68] == [input[0]] + (input[1..16] + (input[16..48] + input[48..68]))
  {
  }

  /** Serializing a parsed packet reproduces the bytes it was read from:
      the first 48, or the first 68 when a trailer was present. */
  lemma ParseSerialize(input: seq<bv8>)
    requires |input| >= BASE_SIZE
    ensures ParsePacket(input).output.value.stratum.TryInto().Ok?
    ensures ParsePacket(input).output.value.version < 8
    ensures Wire(ParsePacket(input).output.value) ==
      if |input| >= BASE_SIZE + AUTH_SIZE then input[..68] else input[..48]
  {
    var p := ParsePacket(input).output.value;
    ParsedSections(input);
    WireSections(p);
    JoinBase(input);
  }

  lemma SliceOfSlice(s: seq<bv8>, i: nat, j: nat, k: nat, l: nat)
    requires i <= j <= |s| && k <= l <= j - i
    ensures s[i..j][k..l] == s[i + k..i + l]
  {
    assert forall n :: 0 <= n < l - k ==> s[i..j][k..l][n] == s[i + k..i + l][n];
  }

  lemma MetadataFieldsAt(m: Metadata, input: seq<bv8>)
    requires |input| >= BASE_SIZE && MetadataBytes(m) == input[1..16]
    ensures m.0 == input[1] && m.1 == I8(input[2]) && m.2 == I8(input[3])
    ensures ToBeU32(m.3.raw) == input[4..8] && ToBeU32(m.4.raw) == input[8..12] && m.5 == input[12..16]
  {
    MetadataBytesFields(m);
    SliceOfSlice(input, 1, 16, 3, 7);
    SliceOfSlice(input, 1, 16, 7, 11);
    SliceOfSlice(input, 1, 16, 11, 15);
  }

  lemma TimedataFieldsAt(t: Timedata, input: seq<bv8>)
    requires |input| >= BASE_SIZE && TimedataBytes(t) == input[16..48]
    ensures ToBeU64(t.0.raw) == input[16..24] && ToBeU64(t.1.raw) == input[24..32]
    ensures ToBeU64(t.2.raw) == input[32..40] && ToBeU64(t.3.raw) == input[40..48]
  {
    TimedataBytesFields(t);
    SliceOfSlice(input, 16, 48, 0, 8);
    SliceOfSlice(input, 16, 48, 8, 16);
    SliceOfSlice(input, 16, 48, 16, 24);
    SliceOfSlice(input, 16, 48, 24, 32);
  }

  lemma AuthFieldsAt(a: Auth, input: seq<bv8>)
    requires |input| >= BASE_SIZE + AUTH_SIZE && AuthBytes(Some(a)) == input[48..68]
    ensures ToBeU32(a.keyIdentifier) == input[48..52] && ToBeU128(a.digest) == input[52..68]
  {
    AuthBytesFields(a);
  }

  /** Where the base header's fields sit: the first byte split 2+3+3 bits,
      then big-endian fields at fixed offsets. */
  lemma ParseFieldLayout(input: seq<bv8>)
    requires |input| >= BASE_SIZE
    ensures ParsePacket(input).output.Ok?
    ensures var p := ParsePacket(input).output.value;
      p.leapIndicator.Into() == input[0] >> 6 &&
      p.version == (input[0] >> 3) & 7 &&
      p.mode.Into() == input[0] & 7
    ensures var p := ParsePacket(input).output.value;
      p.stratum == Stratum.TryFrom(input[1]).value &&
      p.poll == I8(input[2]) && p.precision == I8(input[3]) &&
      ToBeU32(p.rootDelay.raw) == input[4..8] &&
      ToBeU32(p.rootDispersion.raw) == input[8..12] &&
      p.referenceId == input[12..16]
    ensures var p := ParsePacket(input).output.value;
      ToBeU64(p.referenceTimestamp.raw) == input[16..24] &&
      ToBeU64(p.originTimestamp.raw) == input[24..32] &&
      ToBeU64(p.receiveTimestamp.raw) == input[32..40] &&
      ToBeU64(p.transitTimestamp.raw) == input[40..48]
  {
    var p := ParsePacket(input).output.value;
    ParsedHeader(input);
    ParsedSections(input);
    MetadataFieldsAt(MetadataOf(p), input);
    TimedataFieldsAt(TimedataOf(p), input);
    StratumEncoding(p.stratum);
  }

  /** The trailer is read exactly when at least twenty bytes follow the
      base header, as a key id at 48 and a digest at 52; whatever follows it
      (or the base header, without one) is left unconsumed. */
  lemma ParseAuthLayout(input: seq<bv8>)
    requires |input| >= BASE_SIZE
    ensures var p := ParsePacket(input).output.value;
      (p.auth.Some? <==> |input| >= BASE_SIZE + AUTH_SIZE) &&
      (p.auth.Some? ==>
        ToBeU32(p.auth.value.keyIdentifier) == input[48..52] &&
        ToBeU128(p.auth.value.digest) == input[52..68] &&
        ParsePacket(input).rest == input[68..]) &&
      (p.auth.None? ==> ParsePacket(input).rest == input[48..])
  {
    SectionOffsets(input);
    ParsedAuth(input);
    var t := ParseTimedata(ParseMetadata(ParseHeader(input).rest).rest);
    AuthAt(input, t.rest);
    var a := ParseAuth(t.rest).output;
    if a.Some? {
      AuthFieldsAt(a.value, input);
    }
  }

  // ---------------------------------------------------------------------
  // The unit tests' packets

  /** The server packet of the parser tests, one field per piece. */
  const SERVER_PACKET: seq<bv8> := [0x24] + [0x02] + [0x03] + [0xe8]
    + [0x00, 0x00, 0x0f, 0x8e] + [0x00, 0x00, 0x05, 0x4a] + [0x84, 0xa3, 0x60, 0x04]
    + [0xe3, 0x8c, 0x4e, 0xf1, 0x3f, 0x42, 0x7c, 0xcc] + [0xe3, 0x8c, 0x4f, 0xd4, 0xd7, 0x47, 0x2d, 0xcd]
    + [0xe3, 0x8c, 0x4f, 0xd4, 0xe9, 0xb0, 0xee, 0x14] + [0xe3, 0x8c, 0x4f, 0xd4, 0xe9, 0xb1, 0xd8, 0x45]

  /** The client packet of the parser tests, one field per piece. */
  const CLIENT_PACKET: seq<bv8> := [0xe3] + [0x00] + [0x03] + [0xfa]
    + [0x00, 0x01, 0x00, 0x00] + [0x00, 0x01, 0x00, 0x00] + [0x00, 0x00, 0x00, 0x00]
    + [0, 0, 0, 0, 0, 0, 0, 0] + [0, 0, 0, 0, 0, 0, 0, 0] + [0, 0, 0, 0, 0, 0, 0, 0]
    + [0xe3, 0x8c, 0x4f, 0xd4, 0xd7, 0x47, 0x2d, 0xcd]

  /** The values the server packet test expects. */
  const SERVER_EXPECTED: Packet := Packet(
    LeapIndicator.NoWarning, 4, Mode.Server, Stratum.SecondaryServer(2),
    I8(3), I8(0xe8), Short(0x0000_0f8e), Short(0x0000_054a),
    [0x84, 0xa3, 0x60, 0x04],
    Timestamp(0xe38c4ef1_3f427ccc), Timestamp(0xe38c4fd4_d7472dcd),
    Timestamp(0xe38c4fd4_e9b0ee14), Timestamp(0xe38c4fd4_e9b1d845),
    None)

  /** The values the client packet test expects. */
  const CLIENT_EXPECTED: Packet := Packet(
    LeapIndicator.Unknown, 4, Mode.Client, Stratum.Unspecified,
    I8(3), I8(0xfa), Short(0x0001_0000), Short(0x0001_0000),
    [0, 0, 0, 0],
    Timestamp(0), Timestamp(0), Timestamp(0), Timestamp(0xe38c4fd4_d7472dcd),
    None)

  /** The expected values, written as the tests build them: the setters
      applied to zero, where ORing in the fraction is the same as
      replacing it. */
  lemma ExpectedAsTestsBuildThem()
    ensures SERVER_EXPECTED.rootDelay == Short(0).SetSeconds(0).SetFraction(0x0f8e)
    ensures SERVER_EXPECTED.rootDispersion == Short(0).SetSeconds(0).SetFraction(0x054a)
    ensures SERVER_EXPECTED.referenceTimestamp == Timestamp(0).SetSeconds(0xe38c4ef1).SetFraction(0x3f427ccc)
    ensures SERVER_EXPECTED.originTimestamp == Timestamp(0).SetSeconds(0xe38c4fd4).SetFraction(0xd7472dcd)
    ensures SERVER_EXPECTED.receiveTimestamp == Timestamp(0).SetSeconds(0xe38c4fd4).SetFraction(0xe9b0ee14)
    ensures SERVER_EXPECTED.transitTimestamp == Timestamp(0).SetSeconds(0xe38c4fd4).SetFraction(0xe9b1d845)
    ensures CLIENT_EXPECTED.rootDelay == Short(0).SetSeconds(1).SetFraction(0)
    ensures CLIENT_EXPECTED.transitTimestamp == Timestamp(0).SetSeconds(0xe38c4fd4).SetFraction(0xd7472dcd)
  {
  }

  lemma ServerPacketWire()
    ensures SERVER_EXPECTED.stratum.TryInto().Ok?
    ensures Wire(SERVER_EXPECTED) == SERVER_PACKET
  {
    var p := SERVER_EXPECTED;
    assert HeaderByte(p.leapIndicator.Into(), p.version, p.mode.Into()) == 0x24;
    assert ToBeU32(p.rootDelay.raw) == [0x00, 0x00, 0x0f, 0x8e];
    assert ToBeU32(p.rootDispersion.raw) == [0x00, 0x00, 0x05, 0x4a];
    assert ToBeU64(p.referenceTimestamp.raw) == [0xe3, 0x8c, 0x4e, 0xf1, 0x3f, 0x42, 0x7c, 0xcc];
    assert ToBeU64(p.originTimestamp.raw) == [0xe3, 0x8c, 0x4f, 0xd4, 0xd7, 0x47, 0x2d, 0xcd];
    assert ToBeU64(p.receiveTimestamp.raw) == [0xe3, 0x8c, 0x4f, 0xd4, 0xe9, 0xb0, 0xee, 0x14];
    assert ToBeU64(p.transitTimestamp.raw) == [0xe3, 0x8c, 0x4f, 0xd4, 0xe9, 0xb1, 0xd8, 0x45];
    assert Wire(p) == [0x24] + [0x02] + [0x03] + [0xe8]
      + [0x00, 0x00, 0x0f, 0x8e] + [0x00, 0x00, 0x05, 0x4a] + [0x84, 0xa3, 0x60, 0x04]
      + [0xe3, 0x8c, 0x4e, 0xf1, 0x3f, 0x42, 0x7c, 0xcc] + [0xe3, 0x8c, 0x4f, 0xd4, 0xd7, 0x47, 0x2d, 0xcd]
      + [0xe3, 0x8c, 0x4f, 0xd4, 0xe9, 0xb0, 0xee, 0x14] + [0xe3, 0x8c, 0x4f, 0xd4, 0xe9, 0xb1, 0xd8, 0x45]
      + [];
    assert SERVER_PACKET + [] == SERVER_PACKET;
  }

  lemma ClientPacketWire()
    ensures CLIENT_EXPECTED.stratum.TryInto().Ok?
    ensures Wire(CLIENT_EXPECTED) == CLIENT_PACKET
  {
    var p := CLIENT_EXPECTED;
    assert HeaderByte(p.leapIndicator.Into(), p.version, p.mode.Into()) == 0xe3;
    assert ToBeU32(p.rootDelay.raw) == [0x00, 0x01, 0x00, 0x00];
    assert ToBeU64(0) == [0, 0, 0, 0, 0, 0, 0, 0];
    assert ToBeU64(p.transitTimestamp.raw) == [0xe3, 0x8c, 0x4f, 0xd4, 0xd7, 0x47, 0x2d, 0xcd];
    assert Wire(p) == [0xe3] + [0x00] + [0x03] + [0xfa]
      + [0x00, 0x01, 0x00, 0x00] + [0x00, 0x01, 0x00, 0x00] + [0x00, 0x00, 0x00, 0x00]
      + [0, 0, 0, 0, 0, 0, 0, 0] + [0, 0, 0, 0, 0, 0, 0, 0] + [0, 0, 0, 0, 0, 0, 0, 0]
      + [0xe3, 0x8c, 0x4f, 0xd4, 0xd7, 0x47, 0x2d, 0xcd]
      + [];
    assert CLIENT_PACKET + [] == CLIENT_PACKET;
  }

  /** The server packet decodes to the values the test expects (precision
      0xe8 reads as -24) and serializes back to itself. */
  lemma ServerPacketExample()
    ensures ParsePacket(SERVER_PACKET) == Done([], Ok(SERVER_EXPECTED))
    ensures SERVER_EXPECTED.precision.Value() == -24
    ensures Wire(ParsePacket(SERVER_PACKET).output.value) == SERVER_PACKET
  {
    ServerPacketWire();
    SerializeParse(SERVER_EXPECTED);
  }

  /** The client packet decodes to the values the test expects (precision
      0xfa reads as -6) and serializes back to itself. */
  lemma ClientPacketExample()
    ensures ParsePacket(CLIENT_PACKET) == Done([], Ok(CLIENT_EXPECTED))
    ensures CLIENT_EXPECTED.precision.Value() == -6
    ensures Wire(ParsePacket(CLIENT_PACKET).output.value) == CLIENT_PACKET
  {
    ClientPacketWire();
    SerializeParse(CLIENT_EXPECTED);
  }
}
