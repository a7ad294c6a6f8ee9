# chaos-ntp in Dafny

A model of the core of chaos-ntp, an NTP server that answers deliberately
wrong times, with proofs about that model. The model covers four parts:

- **The header types.** These are the 32:32 `Timestamp` and 16:16 `Short`
  fixed-point values with their accessors, and the `Stratum`,
  `LeapIndicator`, `Mode` and kiss-code conversions. The packet and its
  on-wire size are modelled too. This follows sections 6, 7.3 and 7.4 of
  RFC 5905.
- **The wire codec.** `parse_packet` reads the 48-byte header and an
  optional 20-byte key-id/digest trailer. `serialize_packet` writes the
  same fields back out. Both exist twice: in the `ntp` module and in the
  older single-file copy that uses bare `u64`/`u32` time values.
- **The response strategies.**
  - `default_packet` is the fixed reply header.
  - `SingleOffset` is a stateful object whose offset and counter grow by
    one per request.
  - `TransitTimestamp` builds its reply from the request's transmit time
    alone.
  - `CurrentTime` reads the clock.

  The model has the daemon's copies of these, the older library copies,
  and the first server of `src/main.rs`.
- **One pass of the daemon's receive loop.** The loop zero-pads a short
  datagram in place in the fixed 65527-byte buffer, then parses the
  request slice. The strategy answers, and the answer is serialized and
  sent.

Representation:

- Every fixed-width integer is a bit-vector: `u8` is `bv8`, `u32` is
  `bv32`, and so on.
- `i8` is `SignedBytes.I8`, a byte read as two's complement.
- `i64` (the offset) is a `bv64` read as two's complement.
- Arithmetic wraps as in a release build. The cases where a debug build
  would panic are described by a predicate or a lemma.
- The wall clock is a parameter: `now` / `Clock`. An `Instant` the code
  only stores is a `nat`.
- Sending is the method's `sent` result.

| file | module | models |
|---|---|---|
| wrappers.dfy | Wrappers | `Option`, `Result` |
| bytes.dfy | Bytes | big-endian `u32`/`u64`/`u128` bytes (`byteorder`, nom's number parsers) |
| signed.dfy | SignedBytes | `i8` |
| words.dfy | Words | the shifts, masks and ORs of the accessors, on bare bit-vectors |
| types.dfy | NtpTypes | src/ntp/types.rs |
| parser.dfy | NtpParser | src/ntp/parser.rs |
| legacy.dfy | NtpLegacy | the accessors and codec of src/ntp.rs |
| strategy.dfy | ResponseStrategy | src/bin/chaos-ntpd/response_strategy.rs |
| legacy_strategy.dfy | LegacyStrategy | src/response_strategy.rs |
| main_server.dfy | MainServer | `Server` in src/main.rs |
| server.dfy | DaemonServer | the per-datagram body of `start_server`, src/bin/chaos-ntpd/server.rs |

The two strategy files and `src/main.rs` all build `ntp::types::Packet`,
the packet of src/ntp/types.rs, so they are modelled over
`NtpTypes.Packet`. The older src/ntp.rs has no `types` module. Its
bare-integer packet is `NtpLegacy.Packet`, and the lemma
`NtpLegacy.UpgradeBijective` proves the two packet types correspond one
to one.

## Model

| member | source | states |
|---|---|---|
| Bytes.BeU32RoundTrip | src/ntp/parser.rs:26-27 | reading back the four big-endian bytes of a `u32` gives the value |
| Bytes.BeU32Bytes | src/ntp/parser.rs:109-110 | writing a `u32` read from four bytes gives the same bytes |
| Bytes.BeU64RoundTrip | src/ntp/parser.rs:37-40 | the same for the eight bytes of a `u64` |
| Bytes.BeU64Bytes | src/ntp/parser.rs:112-115 | the same, bytes first |
| Bytes.BeU128RoundTrip | src/ntp/parser.rs:52 | the same for the sixteen bytes of a `u128` |
| Bytes.BeU128Bytes | src/ntp/parser.rs:121 | the same, bytes first |
| SignedBytes.I8.Value | src/ntp/types.rs:219-220 | the signed reading of the byte lies in -128..127 and is negative exactly when the top bit is set |
| Words.Join32Halves | src/ntp/types.rs:157-160 | joining the high and low 32-bit halves of a `u64` gives it back |
| Words.OrExact32 | src/ntp/types.rs:161 | ORing `b` into `a` yields `b` exactly when `a` has no bits outside `b` |
| NtpTypes.KoDCodes | src/ntp/types.rs:33-52 | an unknown code yields its own bytes; each named code yields four upper-case ASCII letters and is read back as itself |
| NtpTypes.KoDNames | src/ntp/types.rs:36-49 | each named kiss code yields the ASCII bytes of its own name: ACST gives "ACST", and so on for all fourteen |
| NtpTypes.KoDNamedCodesDistinct | src/ntp/types.rs:36-49 | no two named kiss codes share their bytes |
| NtpTypes.LeapIndicator.TryFrom | src/ntp/types.rs:55-62 | it succeeds exactly on 0..3, and then the discriminant is the byte |
| NtpTypes.LeapIndicatorRoundTrip | src/ntp/types.rs:55-62 | every leap indicator is below 4 and is read back from its discriminant |
| NtpTypes.Mode.TryFrom | src/ntp/types.rs:104-115 | it succeeds exactly on 0..7, and then the discriminant is the byte |
| NtpTypes.ModeRoundTrip | src/ntp/types.rs:104-115 | every mode is below 8 and is read back from its discriminant |
| NtpTypes.Stratum.TryFrom | src/ntp/types.rs:73-85 | it is total over all 256 bytes, and encoding the result gives the byte back |
| NtpTypes.StratumEncoding | src/ntp/types.rs:88-102 | encoding fails exactly for `SecondaryServer(v)` with v outside 2..15 and for `Reserved(v)` with v below 17; on success, decoding gives the same variant |
| NtpTypes.TimestampHalves | src/ntp/types.rs:157-158 | the seconds are the value divided by 2^32, the fraction is the remainder, and together they recompose the value |
| NtpTypes.TimestampSetSeconds | src/ntp/types.rs:159-160 | `set_seconds` replaces the seconds and keeps the fraction |
| NtpTypes.TimestampSetFraction | src/ntp/types.rs:161 | `set_fraction` keeps the seconds and makes the fraction the OR of old and new; that equals the new fraction exactly when the old one has no bits outside it; on a zero fraction it is the corrected setter |
| NtpTypes.TimestampReplaceFraction | src/ntp/tests/types.rs:13-15 | the corrected setter keeps the seconds, makes the fraction the new one, and commutes with `set_seconds` |
| NtpTypes.TimestampTestCase | src/ntp/tests/types.rs:5-15 | on 0x12345678_9abcdef0 every expectation of the test holds except lines 14-15; `set_fraction(0x52141)` gives 0x12345678_9abdfff1, whose fraction reads back as 0x9abdfff1 |
| NtpTypes.ShortHalves | src/ntp/types.rs:204 | the same split of a `Short` at 2^16 |
| NtpTypes.ShortSetSeconds | src/ntp/types.rs:204 | `set_seconds` on a `Short` replaces the seconds and keeps the fraction |
| NtpTypes.ShortSetFraction | src/ntp/types.rs:204 | `set_fraction` on a `Short` ORs in the fraction, as for `Timestamp` |
| NtpTypes.ShortReplaceFraction | src/ntp/tests/types.rs:28-30 | the corrected setter on a `Short`, as for `Timestamp` |
| NtpTypes.ShortTestCase | src/ntp/tests/types.rs:20-30 | on 0x1234_5678 every expectation holds except lines 29-30; `set_fraction(0x5214)` gives 0x1234_567c, whose fraction reads back as 0x567c |
| NtpParser.ParseHeader | src/ntp/parser.rs:8-17 | it fails exactly on empty input; otherwise it consumes one byte whose 2+3+3 bit fields it returns |
| NtpParser.ParseMetadata | src/ntp/parser.rs:19-31 | it succeeds exactly on 15 or more bytes, consumes 15, and they are the bytes of its outputs |
| NtpParser.ParseTimedata | src/ntp/parser.rs:33-43 | it succeeds exactly on 32 or more bytes, consumes 32, and they are the bytes of the four timestamps |
| NtpParser.ParseAuth | src/ntp/parser.rs:45-58 | it never fails; the trailer is present exactly when at least 20 bytes remain, and then it consumes 20; otherwise it consumes nothing |
| NtpParser.BuildPacket | src/ntp/parser.rs:74-94 | the packet is built exactly when the leap indicator and mode are in range, with the source's error messages otherwise, and keeps every field |
| NtpParser.ParsePacket | src/ntp/parser.rs:60-97 | the outer parse fails exactly on fewer than 48 bytes, and the inner `Result` is never `Err` |
| NtpParser.SerializePacket | src/ntp/parser.rs:99-125 | it fails exactly when the stratum does not encode, with that error, and otherwise returns the byte layout `Wire` |
| NtpParser.WireLength | src/ntp/parser.rs:99-125 | the serialized length is `Packet::size`: 48, or 68 with a trailer |
| NtpParser.HeaderRoundTrip | src/ntp/parser.rs:104 | the unmasked header byte decodes to the packet's own fields exactly when the version is below 8 |
| NtpParser.MetadataRoundTrip | src/ntp/parser.rs:19-31 | parsing the metadata bytes gives the metadata and leaves the rest |
| NtpParser.TimedataRoundTrip | src/ntp/parser.rs:33-43 | parsing the timestamp bytes gives the timestamps and leaves the rest |
| NtpParser.AuthRoundTrip | src/ntp/parser.rs:45-58 | parsing the trailer bytes, or none, gives the trailer back |
| NtpParser.ParsePacketSteps | src/ntp/parser.rs:60-97 | on 48 or more bytes the packet parser runs the four section parsers in sequence and builds from their outputs |
| NtpParser.ParseSections | src/ntp/parser.rs:60-97 | a header byte followed by section bytes parses to the packet built from the header's bit fields and the sections |
| NtpParser.WireParse | src/ntp/parser.rs:60-125 | serialized bytes parse back with every field intact except the version's high bits: bits 3-4 spill into the leap indicator, and bits 5-7 are shifted out of the byte and lost |
| NtpParser.SerializeParse | src/ntp/parser.rs:60-125 | `parse(serialize(p)) == p` exactly when the version is below 8 |
| NtpParser.ParseSerialize | src/ntp/parser.rs:60-125 | serializing a parsed packet gives back the first 48 input bytes, or the first 68 when a trailer was read |
| NtpParser.ParseFieldLayout | src/ntp/parser.rs:8-43 | the header bits are `b0>>6`, `(b0>>3)&7` and `b0&7`; the other fields are big-endian at offsets 1, 2, 3, 4, 8, 12, 16, 24, 32 and 40 |
| NtpParser.ParseAuthLayout | src/ntp/parser.rs:45-58 | the trailer is present exactly when 20 bytes follow offset 48; its key id is 48..52 and its digest 52..68; further bytes are left unconsumed |
| NtpParser.ExpectedAsTestsBuildThem | src/ntp/tests/parser.rs:34-40 | the tests' expected values built with the setters from zero are the raw values of the packet |
| NtpParser.ServerPacketWire | src/ntp/tests/parser.rs:51 | the expected server packet serializes to the test's bytes |
| NtpParser.ClientPacketWire | src/ntp/tests/parser.rs:86 | the expected client packet serializes to the test's bytes |
| NtpParser.ServerPacketExample | src/ntp/tests/parser.rs:10-52 | the server test packet parses to the expected values, including precision -24, and serializes back |
| NtpParser.ClientPacketExample | src/ntp/tests/parser.rs:54-87 | the client test packet parses to the expected values, including leap Unknown, mode Client and precision -6, and serializes back |
| NtpLegacy.TimestampAccessorsAgree | src/ntp.rs:147-152 | the bare-`u64` accessors compute what the `Timestamp` accessors do, including the OR of `set_fraction` |
| NtpLegacy.ShortAccessorsAgree | src/ntp.rs:154-159 | the bare-`u32` accessors compute what the `Short` accessors do |
| NtpLegacy.TimestampLaws | src/ntp.rs:147-152 | `set_seconds` replaces the seconds and keeps the fraction; `set_fraction` keeps the seconds and ORs the fraction |
| NtpLegacy.ShortLaws | src/ntp.rs:154-159 | the same laws at 16:16 |
| NtpLegacy.UpgradeBijective | src/ntp.rs:169-197 | the bare-integer packet corresponds one to one with the `types` packet, and both have size 48, or 68 with a trailer |
| NtpLegacy.ParseMetadata | src/ntp.rs:210-222 | it succeeds exactly on 15 or more bytes, with the result of the `types` parser |
| NtpLegacy.ParseTimedata | src/ntp.rs:224-234 | it succeeds exactly on 32 or more bytes, with the result of the `types` parser |
| NtpLegacy.BuildPacket | src/ntp.rs:265-285 | it succeeds or fails, with the same message, exactly as the `types` builder, on the same fields |
| NtpLegacy.ParsePacketAgrees | src/ntp.rs:199-288 | the old parser fails exactly on fewer than 48 bytes, never yields `Err` inside, and yields the `types` parser's packet |
| NtpLegacy.SerializePacket | src/ntp.rs:290-316 | it fails exactly when the stratum does not encode, with that error, and otherwise writes the bytes of the `types` serializer |
| NtpLegacy.UpgradeWire | src/ntp.rs:293-313 | those bytes are the header byte, the stratum, poll and precision, and the big-endian fields in order |
| NtpLegacy.SerializedLength | src/ntp.rs:188-197 | the serialized length is the private `size()` |
| NtpLegacy.ParseSerialize | src/ntp.rs:251-316 | serializing a parsed packet gives back the first 48 input bytes, or the first 68 with a trailer |
| NtpLegacy.SerializeParse | src/ntp.rs:251-316 | a packet with an encodable stratum and a version below 8 parses back from its bytes |
| ResponseStrategy.DefaultPacketValues | src/bin/chaos-ntpd/response_strategy.rs:7-25 | `default_packet` is NoWarning, version 4, Server, SecondaryServer(4), poll 6, precision byte 0xF0, delay and dispersion raw 1000, zero reference id, no trailer and zero timestamps |
| ResponseStrategy.DefaultHeaderValues | src/bin/chaos-ntpd/response_strategy.rs:13-16 | those bytes mean poll 6 and precision -16, and delay and dispersion are 0 seconds and 1000/65536 |
| ResponseStrategy.DefaultHeaderWire | src/bin/chaos-ntpd/response_strategy.rs:12 | a reply with the default header encodes its stratum as 4, starts with byte 0x24 and is 48 bytes long |
| ResponseStrategy.DefaultHeaderRoundTrip | src/bin/chaos-ntpd/response_strategy.rs:7-25 | a reply with the default header parses back from its bytes to itself |
| ResponseStrategy.UnixToNtp | src/bin/chaos-ntpd/response_strategy.rs:73 | 70·365·86400 + 17·86400 is 2208988800 |
| ResponseStrategy.SubtractingBranchAgrees | src/bin/chaos-ntpd/response_strategy.rs:75 | for an offset that is not positive, subtracting its absolute value gives the same wrapping sum as adding it |
| ResponseStrategy.BumpIsPositive | src/bin/chaos-ntpd/response_strategy.rs:69-72 | bumping a non-negative offset below `i64::MAX` makes it positive |
| ResponseStrategy.CounterTracksOffset | src/bin/chaos-ntpd/response_strategy.rs:69-70 | a counter equal to the offset's low half stays equal to it after both grow by one |
| ResponseStrategy.SingleOffsetReply | src/bin/chaos-ntpd/response_strategy.rs:98-109 | the reply has the default header, origin = request transmit, and reference = receive = transmit, with seconds `time mod 2^32` and fraction 0 |
| ResponseStrategy.SingleOffsetConsecutive | src/bin/chaos-ntpd/response_strategy.rs:68-77 | on the same clock reading, offsets one apart give transmit seconds exactly one apart (mod 2^32), whatever the request |
| ResponseStrategy.Low32Succ | src/bin/chaos-ntpd/response_strategy.rs:99 | the low 32 bits of `x + 1` are the low 32 bits of `x` plus one |
| ResponseStrategy.TransitTimestampReply | src/bin/chaos-ntpd/response_strategy.rs:114-124 | the reply has the default header, origin = request transmit, and receive = transmit |
| ResponseStrategy.TransitReference | src/bin/chaos-ntpd/response_strategy.rs:118 | the reference seconds are the request's minus 5 (mod 2^32), with the fraction kept |
| ResponseStrategy.TransitReceive | src/bin/chaos-ntpd/response_strategy.rs:119-120 | the receive and transmit seconds are the request's plus 1 (mod 2^32), with the fraction kept |
| ResponseStrategy.TransitArithmetic | src/bin/chaos-ntpd/response_strategy.rs:118-120 | the `u32` arithmetic overflows (a debug-build panic) exactly when the request seconds are below 5 or equal 2^32-1 |
| ResponseStrategy.CurrentTimeReply | src/bin/chaos-ntpd/response_strategy.rs:129-143 | the reply has the default header, origin = request transmit, and the clock's three readings as reference, receive and transmit |
| ResponseStrategy.BumpedTracks | src/bin/chaos-ntpd/response_strategy.rs:69-70 | one step of `get_time` keeps the counter equal to the offset's low half |
| ResponseStrategy.BumpedPositive | src/bin/chaos-ntpd/response_strategy.rs:69-73 | from a state whose offset is non-negative and below `i64::MAX`, the bumped offset is positive, so `get_time` takes the adding branch |
| ResponseStrategy.ClockTimeForward | src/bin/chaos-ntpd/response_strategy.rs:72-73 | with a positive offset, `get_time` returns `now + 2208988800 + offset` |
| ResponseStrategy.SingleOffset.constructor | src/bin/chaos-ntpd/response_strategy.rs:82-87 | a new object starts with offset 0 and counter 0 |
| ResponseStrategy.SingleOffset.GetTime | src/bin/chaos-ntpd/response_strategy.rs:68-77 | offset and counter each grow by one, and the result is the clock moved by the new offset; from an offset that is non-negative and below `i64::MAX`, the new offset is positive |
| ResponseStrategy.SingleOffset.ProcessPacket | src/bin/chaos-ntpd/response_strategy.rs:98-109 | one `get_time` step, and the reply is `SingleOffsetReply` at the clock it returned |
| ResponseStrategy.Process | src/bin/chaos-ntpd/response_strategy.rs:33-35 | every strategy answers with the default header and origin = request transmit; each answers with its own reply, and only `SingleOffset` changes state |
| LegacyStrategy.DefaultPacket | src/response_strategy.rs:7-25 | the older `default_packet` is the daemon's |
| LegacyStrategy.SingleOffsetReply | src/response_strategy.rs:72-83 | the older `SingleOffset` reply is the daemon's, so it has all of that reply's properties |
| LegacyStrategy.TransitTimestampAgrees | src/response_strategy.rs:88-97 | the older `TransitTimestamp` reply is the daemon's |
| LegacyStrategy.InitialRange | src/response_strategy.rs:41 | the offset range is 0..172800 |
| LegacyStrategy.SingleOffsetResponseStrategy.constructor | src/response_strategy.rs:40-50 | offset 0, counter 0, range 0..172800, and the creation instant stored |
| LegacyStrategy.SingleOffsetResponseStrategy.GetTime | src/response_strategy.rs:58-67 | offset and counter grow by one, the range and instant stay, and the result is the clock moved by the new offset; from an offset that is non-negative and below `i64::MAX`, the new offset is positive |
| LegacyStrategy.SingleOffsetResponseStrategy.ProcessPacket | src/response_strategy.rs:72-83 | one `get_time` step, and the reply is the `SingleOffset` reply at that clock |
| MainServer.ServerReply | src/main.rs:43-62 | the field-by-field header is the daemon's `SingleOffset` reply at the same clock |
| MainServer.Server.constructor | src/main.rs:16-26 | offset 0, counter 0, range 0..172800, and the creation instant stored |
| MainServer.Server.GetTime | src/main.rs:32-41 | offset and counter grow by one, the range and instant stay, and the result is the clock moved by the new offset; from an offset that is non-negative and below `i64::MAX`, the new offset is positive |
| MainServer.Server.ProcessPacket | src/main.rs:43-63 | one `get_time` step, and the reply is `ServerReply` at that clock |
| DaemonServer.PadBuffer | src/bin/chaos-ntpd/server.rs:31-35 | in place: when `amt < 48`, `buf[amt..49]` becomes zero (49 because of the `+1`); every other byte is unchanged |
| DaemonServer.PaddedShape | src/bin/chaos-ntpd/server.rs:31-35 | padding keeps `buf[..amt]` and `buf[49..]`, and leaves the buffer as it was when `amt >= 48` |
| DaemonServer.RequestSlice | src/bin/chaos-ntpd/server.rs:36-37 | the slice is the buffer's first `max(amt, 48)` bytes |
| DaemonServer.SliceParses | src/bin/chaos-ntpd/server.rs:36-39 | parsing the slice never fails and `packet.1.unwrap()` never panics |
| DaemonServer.NoStaleBytes | src/bin/chaos-ntpd/server.rs:29-37 | after padding, a short datagram reaches the parser as its own bytes followed by zeros, so no byte of an earlier one leaks in |
| DaemonServer.Sent | src/bin/chaos-ntpd/server.rs:56-60 | bytes are sent exactly when serialization succeeded, and they are the serialized bytes |
| DaemonServer.ReadRequest | src/bin/chaos-ntpd/server.rs:31-39 | pads in place, then returns the packet parsed from the request slice |
| DaemonServer.SendReply | src/bin/chaos-ntpd/server.rs:55-60 | a reply with the default header always serializes, and the 48 bytes of `serialize_packet` are sent |
| DaemonServer.HandleDatagram | src/bin/chaos-ntpd/server.rs:31-60 | one datagram: the buffer padded, the request parsed from the slice, the strategy's reply, and exactly that reply's serialized 48 bytes sent |

## Left out

- Socket I/O is not modelled. This covers `UdpSocket::bind`, `recv_from` and `send_to`, the infinite loops of src/bin/chaos-ntpd/server.rs, src/server.rs and src/main.rs:67-108, and the `Err` arm of `recv_from`. The received bytes are the buffer and `amt`; what is sent is a result.
- Logging, configuration, the CLI client and the link-time strategy registry are not modelled: they are I/O or glue with no logic to verify. This includes `log_all_requests`, `name` and `new_boxed` lookup by name.
- `SystemTime::now` and `Utc::now` are parameters. `CurrentTime`'s timestamps come from `from_utc_datetime`, which is not part of this model. They are therefore opaque readings in `Clock`, and only the origin and the default header are stated about them.
- `into_utc_datetime`, `from_utc_datetime` and `into_duration` are left out: they are not part of this model, because no shown file defines them.
- Extension fields are left out. The shown `Packet` has none, and the shown codec neither reads nor writes them. The strategies' `extensions: None` has no counterpart, and the extension tests in src/ntp/tests/parser.rs:92-154 exercise code that is not part of this model.
- The `Date` struct is left out because nothing uses it. `Display for Timestamp` is left out because it recurses without end.
- src/ntp/constants.rs is left out: it holds named constants with no behaviour.
- nom's combinators and `byteorder` are modelled by their effect on bytes only. nom's context labels, bit-level input positions and error kinds other than end of input are not modelled.
- Debug-build overflow panics are not modelled as failures. Arithmetic wraps, and the panicking inputs of `TransitTimestamp` are characterised by `ResponseStrategy.TransitArithmetic`. The `u32` request counter (`counter += 1`) wraps in the model; a debug build panics there after 2^32 - 1 requests. The `i64` offset overflows only after 2^63 - 1 requests, as `ResponseStrategy.BumpIsPositive` bounds.
- ResponseStrategy.ClockTimeForward: states `get_time`'s result as `now + 2208988800 + offset` only for a positive offset. For the other branch, `ResponseStrategy.SubtractingBranchAgrees` states the same sum separately, on the branch's own expression. One lemma over `ClockTime` for both branches is not stated.
- ResponseStrategy.SingleOffsetConsecutive: is stated on the clock values `now + 2208988800 + offset` of two successive calls rather than on two calls of `GetTime`. `ClockTimeForward` connects the two while the offset is positive.
- The parse-failure branch of the receive loop (server.rs:62) and the serialization-failure branch (server.rs:58-59) are not modelled as reachable: `SliceParses` and `SendReply` prove that neither can happen.
- The older strategy file's `TransitTimestampResponseStrategy` has no object of its own: it holds no state, and its reply is `LegacyStrategy.TransitTimestampReply`.
- `last_update` and `offset_range` are stored but never read by the source, so only their preservation is stated.

## Findings

| source | as written | input that shows it | evidently intended | confidence | as-written member | corrected member |
|---|---|---|---|---|---|---|
| src/ntp/types.rs:161 | `set_fraction` ORs the new fraction into the old value | `Timestamp(0x12345678_9abcdef0).set_fraction(0x52141)` gives 0x12345678_9abdfff1, not the 0x12345678_00052141 that src/ntp/tests/types.rs:14 expects, and its fraction is 0x9abdfff1, not the 0x52141 of line 15 | replace the low half, keep the seconds | high; not executed | NtpTypes.TimestampTestCase | NtpTypes.TimestampReplaceFraction |
| src/ntp/types.rs:204 | the same OR at 16:16 for `Short` | `Short(0x1234_5678).set_fraction(0x5214)` gives 0x1234_567c, not the 0x1234_5214 that src/ntp/tests/types.rs:29 expects, and its fraction is 0x567c, not the 0x5214 of line 30 | replace the low half, keep the seconds | high; not executed | NtpTypes.ShortTestCase | NtpTypes.ShortReplaceFraction |

Every call site in the strategies and in src/main.rs applies `set_fraction`
to a value whose fraction is zero. There `NtpTypes.TimestampSetFraction`
and `NtpTypes.ShortSetFraction` prove that the as-written setter equals
the corrected one. The replies are therefore the same under either
definition.
