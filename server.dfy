/** One pass of the daemon's receive loop, src/bin/chaos-ntpd/server.rs:
    a datagram of `amt` bytes has landed at the front of the fixed receive
    buffer; a short one is padded with zeros in place, the request slice is
    parsed, the strategy answers, and the answer is serialized and sent.
    The socket is left out: the received bytes are the buffer's contents
    and the length `amt`, and what is sent is returned. */
module DaemonServer {
  import opened Wrappers
  import opened Bytes
  import opened NtpTypes
  import P = NtpParser
  import RS = ResponseStrategy

  /** The length of the receive buffer, `[0; 65527]`. */
  const BUFFER_SIZE: nat := 65527

  // ---------------------------------------------------------------------
  // Padding

  /** The buffer after the padding step: when `amt < BASE_SIZE`, the bytes
      `amt..BASE_SIZE + 1` are zero (one past the header, as the source's
      `+1` has it); every other byte is left as it was. */
  function Padded(b: seq<bv8>, amt: nat): (r: seq<bv8>)
    requires BASE_SIZE < |b|
    ensures |r| == |b|
  {
    seq(|b|, k requires 0 <= k < |b| => if amt < BASE_SIZE && amt <= k <= BASE_SIZE then 0 else b[k])
  }

  /** The padding step, in place: `buf[amt..BASE_SIZE + 1]` set to zero
      one byte at a time when the datagram is short. */
  method PadBuffer(buf: array<bv8>, amt: nat)
    requires buf.Length == BUFFER_SIZE && amt <= buf.Length
    modifies buf
    ensures buf[..] == Padded(old(buf[..]), amt)
  {
    if amt < BASE_SIZE {
      var i := amt;
      while i < BASE_SIZE + 1
        invariant amt <= i <= BASE_SIZE + 1
        invariant forall k :: 0 <= k < buf.Length ==> buf[k] == if amt <= k < i then 0 else old(buf[k])
      {
        buf[i] := 0;
        i := i + 1;
      }
    }
    assert forall k :: 0 <= k < buf.Length ==> buf[..][k] == Padded(old(buf[..]), amt)[k];
  }

  /** Padding keeps the datagram and everything past byte `BASE_SIZE`; a
      datagram of at least `BASE_SIZE` bytes leaves the buffer as it was. */
  lemma PaddedShape(b: seq<bv8>, amt: nat)
    requires BASE_SIZE < |b| && amt <= |b|
    ensures amt < BASE_SIZE ==>
      Padded(b, amt) == b[..amt] + Zeros(BASE_SIZE + 1 - amt) + b[BASE_SIZE + 1..]
    ensures amt >= BASE_SIZE ==> Padded(b, amt) == b
  {
    if amt < BASE_SIZE {
      var r := b[..amt] + Zeros(BASE_SIZE + 1 - amt) + b[BASE_SIZE + 1..];
      assert |r| == |b|;
      assert forall k :: 0 <= k < |b| ==> Padded(b, amt)[k] == r[k];
    } else {
      assert forall k :: 0 <= k < |b| ==> Padded(b, amt)[k] == b[k];
    }
  }

  // ---------------------------------------------------------------------
  // The request slice

  /** `&buf[0..max(amt, BASE_SIZE)]`. */
  function RequestSlice(b: seq<bv8>, amt: nat): (s: seq<bv8>)
    requires BASE_SIZE <= |b| && amt <= |b|
    ensures |s| == if amt > BASE_SIZE then amt else BASE_SIZE
    ensures s == b[..|s|]
  {
    b[0..if amt > BASE_SIZE then amt else BASE_SIZE]
  }

  /** The slice is never shorter than the header, so `parse_packet` never
      fails on it and `packet.1.unwrap()` never panics. */
  lemma SliceParses(b: seq<bv8>, amt: nat)
    requires BASE_SIZE <= |b| && amt <= |b|
    ensures P.ParsePacket(RequestSlice(b, amt)).Done?
    ensures P.ParsePacket(RequestSlice(b, amt)).output.Ok?
  {
  }

  /** After padding, a short datagram is read as its own bytes followed by
      zeros, whatever the buffer held before: no byte of an earlier
      datagram reaches the parser. A full-size one is read as it came. */
  lemma NoStaleBytes(b: seq<bv8>, amt: nat)
    requires BASE_SIZE < |b| && amt <= |b|
    ensures amt < BASE_SIZE ==>
      RequestSlice(Padded(b, amt), amt) == b[..amt] + Zeros(BASE_SIZE - amt)
    ensures amt >= BASE_SIZE ==> RequestSlice(Padded(b, amt), amt) == b[..amt]
  {
    var s := RequestSlice(Padded(b, amt), amt);
    if amt < BASE_SIZE {
      var r := b[..amt] + Zeros(BASE_SIZE - amt);
      assert |s| == |r|;
      assert forall k :: 0 <= k < |s| ==> s[k] == r[k];
    } else {
      assert forall k :: 0 <= k < |s| ==> s[k] == b[k];
    }
  }

  // ---------------------------------------------------------------------
  // One datagram

  /** `if let Ok(buf) = serialized { socket.send_to(&buf, addr) }`: the
      bytes sent, nothing when serialization failed. */
  function Sent(serialized: Result<seq<bv8>>): (sent: Option<seq<bv8>>)
    ensures sent.Some? <==> serialized.Ok?
    ensures sent.Some? ==> sent.value == serialized.value
  {
    if serialized.Ok? then Some(serialized.value) else None
  }

  /** The first half of the loop body: pad the buffer, then parse the
      request slice. */
  method ReadRequest(buf: array<bv8>, amt: nat) returns (request: Packet)
    requires buf.Length == BUFFER_SIZE && amt <= buf.Length
    modifies buf
    ensures buf[..] == Padded(old(buf[..]), amt)
    ensures P.ParsePacket(RequestSlice(buf[..], amt)).Done?
    ensures P.ParsePacket(RequestSlice(buf[..], amt)).output == Ok(request)
  {
    PadBuffer(buf, amt);
    var slice := RequestSlice(buf[..], amt);
    SliceParses(buf[..], amt);
    var parsed := P.ParsePacket(slice);
    request := parsed.output.value;
  }

  /** The second half: serialize the answer and send it. An answer with
      the default header always serializes, to 48 bytes. */
  method SendReply(reply: Packet) returns (sent: Option<seq<bv8>>)
    requires RS.DefaultHeader(reply)
    ensures reply.stratum.TryInto() == Ok(4)
    ensures sent == Some(P.Wire(reply))
    ensures |sent.value| == BASE_SIZE
  {
    RS.DefaultHeaderWire(reply);
    var serialized := P.SerializePacket(reply);
    sent := Sent(serialized);
  }

  /** The body of `start_server`'s loop for one datagram of `amt` bytes:
      pad, slice, parse, answer through the strategy, serialize, send. */
  method HandleDatagram(buf: array<bv8>, amt: nat, strategy: RS.Strategy, clock: RS.Clock)
    returns (request: Packet, reply: Packet, sent: Option<seq<bv8>>)
    requires buf.Length == BUFFER_SIZE && amt <= buf.Length
    requires strategy.Valid() && buf !in strategy.Footprint()
    modifies buf, strategy.Footprint()
    ensures buf[..] == Padded(old(buf[..]), amt)
    ensures P.ParsePacket(RequestSlice(buf[..], amt)).Done?
    ensures P.ParsePacket(RequestSlice(buf[..], amt)).output == Ok(request)
    ensures strategy.Valid()
    ensures RS.DefaultHeader(reply)
    ensures reply.originTimestamp == request.transitTimestamp
    ensures strategy.SingleOffsetStrategy? ==>
      strategy.state.State() == RS.Bumped(old(strategy.state.State())) &&
      reply == RS.SingleOffsetReply(request, RS.ClockTime(clock.unixSeconds, strategy.state.timeOffset))
    ensures strategy.TransitTimestampStrategy? ==> reply == RS.TransitTimestampReply(request)
    ensures strategy.CurrentTimeStrategy? ==> reply == RS.CurrentTimeReply(request, clock)
    ensures reply.stratum.TryInto() == Ok(4)
    ensures sent == Some(P.Wire(reply))
    ensures |sent.value| == BASE_SIZE
  {
    request := ReadRequest(buf, amt);
    reply := RS.Process(strategy, request, clock);
    sent := SendReply(reply);
  }
}
