/** The response strategies of the daemon, src/bin/chaos-ntpd/response_strategy.rs:
    how a reply is built from a request. The wall clock is a parameter:
    `Clock` carries the reading of `SystemTime::now` in whole seconds since
    the Unix epoch and the three timestamps `CurrentTime` obtains from
    `Utc::now`. All arithmetic wraps as in a release build. */
module ResponseStrategy {
  import opened Wrappers
  import opened Bytes
  import opened SignedBytes
  import opened Words
  import opened NtpTypes
  import NtpParser

  // ---------------------------------------------------------------------
  // The shared reply header

  /** `default_packet`: the header every strategy answers with. */
  function DefaultPacket(): Packet {
    Packet(NoWarning, 4, Server, SecondaryServer(4), I8(6), I8(0xF0),
      Short(0).SetFraction(1000), Short(0).SetFraction(1000), [0, 0, 0, 0],
      Timestamp(0), Timestamp(0), Timestamp(0), Timestamp(0), None)
  }

  /** A reply carries the default header: everything but the origin,
      reference, receive and transmit timestamps is fixed. */
  predicate DefaultHeader(p: Packet) {
    p.leapIndicator == NoWarning && p.version == 4 && p.mode == Server
    && p.stratum == SecondaryServer(4) && p.poll == I8(6) && p.precision == I8(0xF0)
    && p.rootDelay == Short(1000) && p.rootDispersion == Short(1000)
    && p.referenceId == [0, 0, 0, 0] && p.auth == None
  }

  /** `default_packet` has the default header and zero timestamps. */
  lemma DefaultPacketValues()
    ensures DefaultHeader(DefaultPacket())
    ensures DefaultPacket().originTimestamp.raw == 0 && DefaultPacket().referenceTimestamp.raw == 0
    ensures DefaultPacket().receiveTimestamp.raw == 0 && DefaultPacket().transitTimestamp.raw == 0
  {
    assert Short(0).SetFraction(1000) == Short(1000) by {
      ShortSetFraction(Short(0), 1000);
    }
  }

  /** The values the default header stands for: poll 6 (64 s), precision
      -16 (about 15 microseconds), and root delay and dispersion of 0 seconds
      and 1000/65536 of a second. */
  lemma DefaultHeaderValues(p: Packet)
    requires DefaultHeader(p)
    ensures p.poll.Value() == 6 && p.precision.Value() == -16
    ensures p.rootDelay.GetSeconds() == 0 && p.rootDelay.GetFraction() == 1000
    ensures p.rootDispersion.GetSeconds() == 0 && p.rootDispersion.GetFraction() == 1000
  {
  }

  /** A packet with the default header encodes its stratum as 4 and its
      first byte as 0x24 (no warning, version 4, server), and is 48 bytes
      long on the wire. */
  lemma DefaultHeaderWire(p: Packet)
    requires DefaultHeader(p)
    ensures p.stratum.TryInto() == Ok(4)
    ensures NtpParser.Wire(p)[0] == 0x24
    ensures |NtpParser.Wire(p)| == 48
  {
    NtpParser.WireLength(p);
  }

  /** A packet with the default header parses back to itself. */
  lemma DefaultHeaderRoundTrip(p: Packet)
    requires DefaultHeader(p)
    ensures NtpParser.ParsePacket(NtpParser.Wire(p)) == NtpParser.Done([], Ok(p))
  {
    assert p.stratum.TryInto().Ok? && p.version < 8;
    NtpParser.SerializeParse(p);
  }

  // ---------------------------------------------------------------------
  // The offset clock of `SingleOffset`

  /** The seconds from 1900-01-01 to 1970-01-01, written as the source
      writes it: seventy years of 365 days and seventeen leap days. */
  const UNIX_TO_NTP: bv64 := (70 * 365 * 24 * 60 * 60) + (17 * 60 * 60 * 24)

  lemma UnixToNtp()
    ensures UNIX_TO_NTP == 2208988800
  {
  }

  const I64_MIN: bv64 := 0x8000_0000_0000_0000

  /** `x > 0` for an `i64` held as its bits. */
  predicate IsPositiveI64(x: bv64) {
    x != 0 && x < I64_MIN
  }

  /** `i64::abs` as its bits; `i64::MIN` stays itself (release build). */
  function AbsI64(x: bv64): bv64 {
    if x < I64_MIN then x else -x
  }

  /** `get_time`'s subtracting branch, taken when the bumped offset is not
      positive, comes to the same wrapping sum as the adding one: the clock
      is `now + 2208988800 + offset` whatever the sign of the offset. */
  lemma SubtractingBranchAgrees(base: bv64, offset: bv64)
    requires !IsPositiveI64(offset)
    ensures base - AbsI64(offset) == base + offset
  {
  }

  /** Bumping a non-negative offset below `i64::MAX` makes it positive, so
      counting up from zero the subtracting branch is not reached before
      2^63 - 1 requests (where a debug build panics). */
  lemma BumpIsPositive(offset: bv64)
    requires offset < 0x7FFF_FFFF_FFFF_FFFF
    ensures IsPositiveI64(offset + 1)
  {
  }

  /** The `u32` counter keeps pace with the offset's low half, because both
      start at zero and both grow by one. */
  lemma CounterTracksOffset(offset: bv64, counter: bv32)
    requires counter == Low32(offset)
    ensures counter + 1 == Low32(offset + 1)
  {
  }

  // ---------------------------------------------------------------------
  // Replies

  /** `SingleOffset::process_packet` once the clock reads `time`: the
      seconds are `time as u32`, the fraction zero. */
  function SingleOffsetReply(request: Packet, time: bv64): (r: Packet)
    ensures DefaultHeader(r)
    ensures r.originTimestamp == request.transitTimestamp
    ensures r.referenceTimestamp == r.receiveTimestamp == r.transitTimestamp
    ensures r.transitTimestamp.GetSeconds() == Low32(time)
    ensures r.transitTimestamp.GetFraction() == 0
  {
    var seconds := Low32(time);
    var randTime := Timestamp(0).SetSeconds(seconds);
    var fraction: bv32 := 0;
    DefaultPacketValues();
    TimestampSetSeconds(Timestamp(0), seconds);
    TimestampSetSeconds(randTime, randTime.GetSeconds());
    TimestampSetFraction(randTime, fraction);
    DefaultPacket().(
      originTimestamp := request.transitTimestamp,
      referenceTimestamp := randTime.SetSeconds(randTime.GetSeconds()).SetFraction(fraction),
      receiveTimestamp := randTime.SetFraction(fraction),
      transitTimestamp := randTime.SetSeconds(randTime.GetSeconds()).SetFraction(fraction))
  }

  /** Two calls one second of offset apart, on the same clock reading,
      answer with transmit seconds exactly one apart (modulo 2^32). */
  lemma SingleOffsetConsecutive(first: Packet, second: Packet, now: bv64, offset: bv64)
    ensures SingleOffsetReply(second, now + UNIX_TO_NTP + (offset + 1)).transitTimestamp.GetSeconds()
         == SingleOffsetReply(first, now + UNIX_TO_NTP + offset).transitTimestamp.GetSeconds() + 1
  {
    var t := now + UNIX_TO_NTP + offset;
    assert now + UNIX_TO_NTP + (offset + 1) == t + 1;
    Low32Succ(t);
  }

  lemma Low32Succ(x: bv64)
    ensures Low32(x + 1) == Low32(x) + 1
  {
  }

  /** `TransitTimestamp::process_packet`: built from the request's
      transmit time alone. */
  function TransitTimestampReply(request: Packet): (r: Packet)
    ensures DefaultHeader(r)
    ensures r.originTimestamp == request.transitTimestamp
    ensures r.receiveTimestamp == r.transitTimestamp
  {
    var t := request.transitTimestamp;
    DefaultPacketValues();
    DefaultPacket().(
      originTimestamp := t,
      referenceTimestamp := t.SetSeconds(t.GetSeconds() - 5),
      receiveTimestamp := t.SetSeconds(t.GetSeconds() + 1),
      transitTimestamp := t.SetSeconds(t.GetSeconds() + 1))
  }

  /** The reference time is five seconds before the request's transmit
      time (modulo 2^32), with the fraction kept. */
  lemma TransitReference(request: Packet)
    ensures TransitTimestampReply(request).referenceTimestamp.GetSeconds() ==
            request.transitTimestamp.GetSeconds() - 5
    ensures TransitTimestampReply(request).referenceTimestamp.GetFraction() ==
            request.transitTimestamp.GetFraction()
  {
    var t := request.transitTimestamp;
    TimestampSetSeconds(t, t.GetSeconds() - 5);
  }

  /** The receive and transmit times are one second after the request's
      transmit time (modulo 2^32), with the fraction kept. */
  lemma TransitReceive(request: Packet)
    ensures TransitTimestampReply(request).transitTimestamp.GetSeconds() ==
            request.transitTimestamp.GetSeconds() + 1
    ensures TransitTimestampReply(request).transitTimestamp.GetFraction() ==
            request.transitTimestamp.GetFraction()
  {
    var t := request.transitTimestamp;
    TimestampSetSeconds(t, t.GetSeconds() + 1);
  }

  /** The `u32` subtraction or addition of `TransitTimestamp` leaves the
      range (and panics in a debug build). */
  predicate TransitOverflows(request: Packet) {
    request.transitTimestamp.GetSeconds() < 5 || request.transitTimestamp.GetSeconds() == 0xFFFF_FFFF
  }

  /** The overflowing requests are exactly those for which the wrapped
      reference seconds land above the request's seconds, or the wrapped
      receive seconds below them. */
  lemma TransitArithmetic(request: Packet)
    ensures TransitOverflows(request) <==>
      var s := request.transitTimestamp.GetSeconds();
      s - 5 > s || s + 1 < s
  {
  }

  /** What `CurrentTime` reads from the clock: three successive
      `Utc::now` readings already converted to timestamps, and
      `SystemTime::now` in seconds since the Unix epoch. */
  datatype Clock = Clock(unixSeconds: bv64, reference: Timestamp, receive: Timestamp, transmit: Timestamp)

  /** `CurrentTime::process_packet`: the clock's three readings. */
  function CurrentTimeReply(request: Packet, clock: Clock): (r: Packet)
    ensures DefaultHeader(r)
    ensures r.originTimestamp == request.transitTimestamp
    ensures r.referenceTimestamp == clock.reference
    ensures r.receiveTimestamp == clock.receive
    ensures r.transitTimestamp == clock.transmit
  {
    DefaultPacketValues();
    DefaultPacket().(
      originTimestamp := request.transitTimestamp,
      referenceTimestamp := clock.reference,
      receiveTimestamp := clock.receive,
      transitTimestamp := clock.transmit)
  }

  // ---------------------------------------------------------------------
  // The stateful strategy

  /** The two fields of `SingleOffset`: the offset in seconds (an `i64`,
      held as its bits) and the request counter. */
  datatype OffsetState = OffsetState(timeOffset: bv64, counter: bv32)

  /** The counter is the offset's low half: both start at zero and every
      `get_time` adds one to each. */
  predicate CounterTracks(s: OffsetState) {
    s.counter == Low32(s.timeOffset)
  }

  /** The first two statements of `get_time`: `time_offset += 1` and
      `counter += 1`. */
  function Bumped(s: OffsetState): OffsetState {
    OffsetState(s.timeOffset + 1, s.counter + 1)
  }

  lemma BumpedTracks(s: OffsetState)
    requires CounterTracks(s)
    ensures CounterTracks(Bumped(s))
  {
  }

  /** The offset is non-negative and below `i64::MAX`, as it is for the
      first 2^63 - 1 steps counting up from zero. */
  predicate CountingUp(s: OffsetState) {
    s.timeOffset < 0x7FFF_FFFF_FFFF_FFFF
  }

  /** From such a state, the bumped offset is positive: `get_time` takes
      the adding branch. */
  lemma BumpedPositive(s: OffsetState)
    requires CountingUp(s)
    ensures IsPositiveI64(Bumped(s).timeOffset)
  {
    BumpIsPositive(s.timeOffset);
  }

  /** The clock `get_time` returns for the reading `now` and the bumped
      offset: the offset is added when positive, its absolute value
      subtracted otherwise. */
  function ClockTime(now: bv64, offset: bv64): bv64 {
    if IsPositiveI64(offset) then now + UNIX_TO_NTP + offset
    else now + UNIX_TO_NTP - AbsI64(offset)
  }

  /** With a positive offset the clock is the reading moved forward by it;
      by `BumpIsPositive` that is every call until the offset reaches
      `i64::MAX`. */
  lemma ClockTimeForward(now: bv64, offset: bv64)
    requires IsPositiveI64(offset)
    ensures ClockTime(now, offset) == now + UNIX_TO_NTP + offset
  {
  }

  /** `SingleOffset`. */
  class SingleOffset {
    var timeOffset: bv64
    var counter: bv32

    function State(): OffsetState
      reads this
    {
      OffsetState(timeOffset, counter)
    }

    ghost predicate Valid()
      reads this
    {
      CounterTracks(State())
    }

    /** `SingleOffsetCtor::new_boxed`. */
    constructor()
      ensures Valid()
      ensures State() == OffsetState(0, 0)
    {
      timeOffset := 0;
      counter := 0;
    }

    /** `get_time`: both fields grow by one, then the clock reading is
        moved by the new offset. */
    method GetTime(now: bv64) returns (t: bv64)
      requires Valid()
      modifies this
      ensures Valid()
      ensures State() == Bumped(old(State()))
      ensures t == ClockTime(now, timeOffset)
      ensures CountingUp(old(State())) ==> IsPositiveI64(State().timeOffset)
    {
      var s := State();
      if CountingUp(s) {
        BumpedPositive(s);
      }
      BumpedTracks(s);
      var b := Bumped(s);
      timeOffset, counter := b.timeOffset, b.counter;
      t := ClockTime(now, b.timeOffset);
    }

    /** `process_packet`: one call of `get_time`, then the reply. */
    method ProcessPacket(request: Packet, now: bv64) returns (reply: Packet)
      requires Valid()
      modifies this
      ensures Valid()
      ensures State() == Bumped(old(State()))
      ensures reply == SingleOffsetReply(request, ClockTime(now, timeOffset))
    {
      var time := GetTime(now);
      reply := SingleOffsetReply(request, time);
    }
  }

  // ---------------------------------------------------------------------
  // The strategy a server holds

  /** `Box<dyn ResponseStrategy>`: one of the three strategies, the
      stateful one with its object. */
  datatype Strategy =
    | SingleOffsetStrategy(state: SingleOffset)
    | TransitTimestampStrategy
    | CurrentTimeStrategy
  {
    function Footprint(): set<object> {
      if SingleOffsetStrategy? then {state} else {}
    }

    ghost predicate Valid()
      reads Footprint()
    {
      SingleOffsetStrategy? ==> state.Valid()
    }
  }

  /** `process_packet` through the trait object. Every strategy answers
      with the default header and echoes the request's transmit time as the
      origin time. */
  method Process(strategy: Strategy, request: Packet, clock: Clock) returns (reply: Packet)
    requires strategy.Valid()
    modifies strategy.Footprint()
    ensures strategy.Valid()
    ensures DefaultHeader(reply)
    ensures reply.originTimestamp == request.transitTimestamp
    ensures strategy.SingleOffsetStrategy? ==>
      strategy.state.State() == Bumped(old(strategy.state.State())) &&
      reply == SingleOffsetReply(request, ClockTime(clock.unixSeconds, strategy.state.timeOffset))
    ensures strategy.TransitTimestampStrategy? ==> reply == TransitTimestampReply(request)
    ensures strategy.CurrentTimeStrategy? ==> reply == CurrentTimeReply(request, clock)
  {
    match strategy
    case SingleOffsetStrategy(state) =>
      reply := state.ProcessPacket(request, clock.unixSeconds);
    case TransitTimestampStrategy =>
      reply := TransitTimestampReply(request);
    case CurrentTimeStrategy =>
      reply := CurrentTimeReply(request, clock);
  }
}
