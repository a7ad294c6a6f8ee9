/** The first server, src/main.rs: a `Server` struct holding the offset
    clock, answering every request with a header it writes out in full
    rather than taking from `default_packet`. */
module MainServer {
  import opened Wrappers
  import opened SignedBytes
  import opened Words
  import T = NtpTypes
  import RS = ResponseStrategy
  import LS = LegacyStrategy

  /** `Server::process_packet` once the clock reads `time`, the header
      written field by field: it is the daemon's `SingleOffset` reply, so it
      carries the default header, echoes the request's transmit time as its
      origin, and has three equal server timestamps holding the clock's low
      32 bits with a zero fraction. */
  function ServerReply(request: T.Packet, time: bv64): (r: T.Packet)
    ensures r == RS.SingleOffsetReply(request, time)
  {
    var randTime := T.Timestamp(0).SetSeconds(Low32(time));
    var fraction: bv32 := 0;
    T.Packet(
      T.NoWarning, 4, T.Server, T.SecondaryServer(4), I8(6), I8(0xF0),
      T.Short(0).SetFraction(1000), T.Short(0).SetFraction(1000), [0, 0, 0, 0],
      randTime.SetSeconds(randTime.GetSeconds()).SetFraction(fraction),
      request.transitTimestamp,
      randTime.SetFraction(fraction),
      randTime.SetSeconds(randTime.GetSeconds()).SetFraction(fraction),
      None)
  }

  /** `Server`. `last_update` is an `Instant` the server only stores; it is
      taken as an opaque reading. */
  class Server {
    var timeOffset: bv64
    var lastUpdate: nat
    var offsetRange: LS.OffsetRange
    var counter: bv32

    function State(): RS.OffsetState
      reads this
    {
      RS.OffsetState(timeOffset, counter)
    }

    ghost predicate Valid()
      reads this
    {
      RS.CounterTracks(State())
    }

    /** `Server::new`, with `Instant::now()` given as `startedAt`. */
    constructor(startedAt: nat)
      ensures Valid()
      ensures State() == RS.OffsetState(0, 0)
      ensures offsetRange == LS.INITIAL_RANGE && lastUpdate == startedAt
    {
      timeOffset := 0;
      lastUpdate := startedAt;
      offsetRange := LS.INITIAL_RANGE;
      counter := 0;
    }

    /** `Server::get_time`, with `SystemTime::now()` given as `now`. */
    method GetTime(now: bv64) returns (t: bv64)
      requires Valid()
      modifies this
      ensures Valid()
      ensures State() == RS.Bumped(old(State()))
      ensures offsetRange == old(offsetRange) && lastUpdate == old(lastUpdate)
      ensures t == RS.ClockTime(now, timeOffset)
      ensures RS.CountingUp(old(State())) ==> RS.IsPositiveI64(State().timeOffset)
    {
      var s := State();
      if RS.CountingUp(s) {
        RS.BumpedPositive(s);
      }
      RS.BumpedTracks(s);
      var b := RS.Bumped(s);
      timeOffset, counter := b.timeOffset, b.counter;
      t := RS.ClockTime(now, b.timeOffset);
    }

    /** `Server::process_packet`. */
    method ProcessPacket(request: T.Packet, now: bv64) returns (reply: T.Packet)
      requires Valid()
      modifies this
      ensures Valid()
      ensures State() == RS.Bumped(old(State()))
      ensures offsetRange == old(offsetRange) && lastUpdate == old(lastUpdate)
      ensures reply == ServerReply(request, RS.ClockTime(now, timeOffset))
    {
      var time := GetTime(now);
      reply := ServerReply(request, time);
    }
  }
}
