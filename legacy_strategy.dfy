/** The older response strategies, src/response_strategy.rs: the same
    `default_packet` and replies as the daemon's, over the same packet
    type, and a `SingleOffset` object that also carries an offset range and
    the instant it was created. Each reply is proved to be the daemon's, so
    the properties proved there hold here too. */
module LegacyStrategy {
  import opened Wrappers
  import opened SignedBytes
  import opened Words
  import opened NtpTypes
  import RS = ResponseStrategy

  /** `default_packet`. */
  function DefaultPacket(): (r: Packet)
    ensures r == RS.DefaultPacket()
  {
    Packet(NoWarning, 4, Server, SecondaryServer(4), I8(6), I8(0xF0),
      Short(0).SetFraction(1000), Short(0).SetFraction(1000), [0, 0, 0, 0],
      Timestamp(0), Timestamp(0), Timestamp(0), Timestamp(0), None)
  }

  /** `SingleOffsetResponseStrategy::process_packet` once the clock reads
      `time`: the daemon's `SingleOffset` reply. */
  function SingleOffsetReply(request: Packet, time: bv64): (r: Packet)
    ensures r == RS.SingleOffsetReply(request, time)
  {
    var randTime := Timestamp(0).SetSeconds(Low32(time));
    var fraction: bv32 := 0;
    DefaultPacket().(
      originTimestamp := request.transitTimestamp,
      referenceTimestamp := randTime.SetSeconds(randTime.GetSeconds()).SetFraction(fraction),
      receiveTimestamp := randTime.SetFraction(fraction),
      transitTimestamp := randTime.SetSeconds(randTime.GetSeconds()).SetFraction(fraction))
  }

  /** `TransitTimestampResponseStrategy::process_packet`. */
  function TransitTimestampReply(request: Packet): Packet
  {
    var t := request.transitTimestamp;
    DefaultPacket().(
      originTimestamp := t,
      referenceTimestamp := t.SetSeconds(t.GetSeconds() - 5),
      receiveTimestamp := t.SetSeconds(t.GetSeconds() + 1),
      transitTimestamp := t.SetSeconds(t.GetSeconds() + 1))
  }

  /** It is the daemon's `TransitTimestamp` reply. */
  lemma TransitTimestampAgrees(request: Packet)
    ensures TransitTimestampReply(request) == RS.TransitTimestampReply(request)
  {
    assert DefaultPacket() == RS.DefaultPacket();
  }

  /** `offset_range`: an `i64` half-open range, held as bits. */
  datatype OffsetRange = OffsetRange(start: bv64, end: bv64)

  /** `(0)..(60*60*24*2)`: two days of seconds. */
  const INITIAL_RANGE: OffsetRange := OffsetRange(0, 60 * 60 * 24 * 2)

  lemma InitialRange()
    ensures INITIAL_RANGE == OffsetRange(0, 172800)
  {
  }

  /** `SingleOffsetResponseStrategy`. `last_update` is an `Instant` the
      strategy only stores; it is taken as an opaque reading. */
  class SingleOffsetResponseStrategy {
    var timeOffset: bv64
    var lastUpdate: nat
    var offsetRange: OffsetRange
    var counter: bv32

    function State(): RS.OffsetState
      reads this
    {
      RS.OffsetState(timeOffset, counter)
    }

    ghost predicate Valid()
      reads this
    {
      RS.CounterTracks(State())
    }

    /** `new`, with `Instant::now()` given as `startedAt`. */
    constructor(startedAt: nat)
      ensures Valid()
      ensures State() == RS.OffsetState(0, 0)
      ensures offsetRange == INITIAL_RANGE && lastUpdate == startedAt
    {
      timeOffset := 0;
      lastUpdate := startedAt;
      offsetRange := INITIAL_RANGE;
      counter := 0;
    }

    /** `get_time`, with `SystemTime::now()` given as `now`: both counters
        grow by one, the range and the instant stay. */
    method GetTime(now: bv64) returns (t: bv64)
      requires Valid()
      modifies this
      ensures Valid()
      ensures State() == RS.Bumped(old(State()))
      ensures offsetRange == old(offsetRange) && lastUpdate == old(lastUpdate)
      ensures t == RS.ClockTime(now, timeOffset)
      ensures RS.CountingUp(old(State())) ==> RS.IsPositiveI64(State().timeOffset)
    {
      var s := State();
      if RS.CountingUp(s) {
        RS.BumpedPositive(s);
      }
      RS.BumpedTracks(s);
      var b := RS.Bumped(s);
      timeOffset, counter := b.timeOffset, b.counter;
      t := RS.ClockTime(now, b.timeOffset);
    }

    /** `process_packet`. */
    method ProcessPacket(request: Packet, now: bv64) returns (reply: Packet)
      requires Valid()
      modifies this
      ensures Valid()
      ensures State() == RS.Bumped(old(State()))
      ensures offsetRange == old(offsetRange) && lastUpdate == old(lastUpdate)
      ensures reply == SingleOffsetReply(request, RS.ClockTime(now, timeOffset))
    {
      var time := GetTime(now);
      reply := SingleOffsetReply(request, time);
    }
  }
}
