/**
 * The wire form of one input event and the functions that send events
 * over a datagram socket (events.kt).
 */
module Events {
  import opened Wrappers

  /** Kotlin's `UShort`. */
  type u16 = x: int | 0 <= x < 0x1_0000
  /** Kotlin's `Int`: 32-bit two's complement. */
  type i32 = x: int | -0x8000_0000 <= x < 0x8000_0000
  /** One octet of a datagram payload. */
  type byte = x: int | 0 <= x < 0x100
  /** The body of one datagram. */
  type Payload = seq<byte>

  // Event types, named after the Linux input event codes. EV_ABS is 0x00,
  // the same number as EV_SYN, exactly as the client defines it.
  const EV_SYN: u16 := 0x00
  const EV_KEY: u16 := 0x01
  const EV_REL: u16 := 0x02
  const EV_ABS: u16 := 0x00

  const BTN_0: u16 := 0x100

  const REL_X: u16 := 0x00
  const REL_Y: u16 := 0x01
  const REL_Z: u16 := 0x02
  const REL_RX: u16 := 0x03
  const REL_RY: u16 := 0x04
  const REL_RZ: u16 := 0x05

  const ABS_MT_SLOT: u16 := 0x2f
  const ABS_MT_TOUCH_MAJOR: u16 := 0x30
  const ABS_MT_TOUCH_MINOR: u16 := 0x31
  const ABS_MT_WIDTH_MAJOR: u16 := 0x32
  const ABS_MT_WIDTH_MINOR: u16 := 0x33
  const ABS_MT_ORIENTATION: u16 := 0x34
  const ABS_MT_POSITION_X: u16 := 0x35
  const ABS_MT_POSITION_Y: u16 := 0x36
  const ABS_MT_TOOL_TYPE: u16 := 0x37
  const ABS_MT_BLOB_ID: u16 := 0x38
  const ABS_MT_TRACKING_ID: u16 := 0x39
  const ABS_MT_PRESSURE: u16 := 0x3a
  const ABS_MT_DISTANCE: u16 := 0x3b
  const ABS_MT_TOOL_X: u16 := 0x3c
  const ABS_MT_TOOL_Y: u16 := 0x3d

  /** One input event: an immutable value. */
  datatype Event = Event(eventType: u16, code: u16, value: i32)

  /** The event that closes every frame. */
  const SynReport: Event := Event(EV_SYN, 0, 0)

  /** 256 to the power `k`. */
  function Pow256(k: nat): (p: nat)
    ensures p >= 1
  {
    if k == 0 then 1 else 256 * Pow256(k - 1)
  }

  /** The unsigned number whose little-endian base-256 digits are `bytes`. */
  function LittleEndian(bytes: seq<byte>): (n: nat)
    ensures n < Pow256(|bytes|)
  {
    if bytes == [] then 0 else bytes[0] + 256 * LittleEndian(bytes[1..])
  }

  /** The signed 32-bit number whose two's complement bit pattern is `u`. */
  function Signed32(u: nat): (v: i32)
    requires u < 0x1_0000_0000
    ensures v % 0x1_0000_0000 == u
  {
    if u < 0x8000_0000 then u else u - 0x1_0000_0000
  }

  /**
   * `Event.toByteArray`: type, code and value, each least significant byte
   * first. Each byte is a logical shift right followed by a mask; on a
   * negative value the shift works on the 32-bit two's complement pattern,
   * which is `value % 2^32` with Dafny's Euclidean remainder.
   */
  function ToByteArray(e: Event): (bytes: Payload)
    ensures |bytes| == 8
    ensures LittleEndian(bytes[0..2]) == e.eventType
    ensures LittleEndian(bytes[2..4]) == e.code
    ensures Signed32(LittleEndian(bytes[4..8])) == e.value
  {
    var bytes := Le16(e.eventType) + Le16(e.code) + Le32(e.value % 0x1_0000_0000);
    assert bytes[0..2] == Le16(e.eventType);
    assert bytes[2..4] == Le16(e.code);
    assert bytes[4..8] == Le32(e.value % 0x1_0000_0000);
    bytes
  }

  /** A 16-bit field, least significant byte first. */
  function Le16(n: u16): (b: seq<byte>)
    ensures |b| == 2 && LittleEndian(b) == n
  {
    TwoBytes(n);
    [n % 0x100, (n / 0x100) % 0x100]
  }

  /** A 32-bit pattern, least significant byte first. */
  function Le32(u: int): (b: seq<byte>)
    requires 0 <= u < 0x1_0000_0000
    ensures |b| == 4 && LittleEndian(b) == u
  {
    FourBytes(u);
    [u % 0x100, (u / 0x100) % 0x100, (u / 0x1_0000) % 0x100, (u / 0x100_0000) % 0x100]
  }

  /** The little-endian digits of a 16-bit number put back together give the number. */
  lemma TwoBytes(t: int)
    requires 0 <= t < 0x1_0000
    ensures LittleEndian([t % 0x100, (t / 0x100) % 0x100]) == t
  {
    LittleEndian2([t % 0x100, (t / 0x100) % 0x100]);
  }

  /** Two little-endian digits. */
  lemma LittleEndian2(s: seq<byte>)
    requires |s| == 2
    ensures LittleEndian(s) == s[0] as int + 0x100 * s[1] as int
  {
    assert s[1..][1..] == [];
  }

  /** Four little-endian digits. */
  lemma LittleEndian4(s: seq<byte>)
    requires |s| == 4
    ensures LittleEndian(s) == s[0] as int + 0x100 * (s[1] as int + 0x100 * (s[2] as int + 0x100 * s[3] as int))
  {
    LittleEndian2(s[2..]);
    assert s[1..][1..] == s[2..];
  }

  /** The little-endian digits of a 32-bit pattern put back together give the pattern. */
  lemma FourBytes(u: int)
    requires 0 <= u < 0x1_0000_0000
    ensures LittleEndian([u % 0x100, (u / 0x100) % 0x100, (u / 0x1_0000) % 0x100, (u / 0x100_0000) % 0x100]) == u
  {
    var b0, b1, b2, b3 := u % 0x100, (u / 0x100) % 0x100, (u / 0x1_0000) % 0x100, (u / 0x100_0000) % 0x100;
    var q1 := u / 0x100;
    var q2 := q1 / 0x100;
    assert q2 == u / 0x1_0000;
    assert q2 / 0x100 == u / 0x100_0000;
    assert u == b0 + 0x100 * q1;
    assert q1 == b1 + 0x100 * q2;
    assert q2 == b2 + 0x100 * b3;
    LittleEndian4([b0, b1, b2, b3]);
  }

  /** Splitting a number built from four digits gives back the digits. */
  lemma DigitsOf(b0: byte, b1: byte, b2: byte, b3: byte)
    ensures var u := b0 as int + 0x100 * (b1 as int + 0x100 * (b2 as int + 0x100 * b3 as int));
      && u % 0x100 == b0 && (u / 0x100) % 0x100 == b1
      && (u / 0x1_0000) % 0x100 == b2 && (u / 0x100_0000) % 0x100 == b3
  {
    var q2 := b2 as int + 0x100 * b3 as int;
    var q1 := b1 as int + 0x100 * q2;
    var u := b0 as int + 0x100 * q1;
    assert u / 0x100 == q1;
    assert q1 / 0x100 == q2;
    assert u / 0x1_0000 == q2;
    assert q2 / 0x100 == b3;
    assert u / 0x100_0000 == b3;
  }

  /**
   * The receiving side's reading of one datagram: exactly eight bytes make
   * an event, anything else is not one.
   */
  function FromByteArray(bytes: Payload): (r: Option<Event>)
    ensures r.Some? <==> |bytes| == 8
  {
    if |bytes| != 8 then None
    else
      assert LittleEndian(bytes[0..2]) < Pow256(2) == 0x1_0000;
      assert LittleEndian(bytes[4..8]) < Pow256(4) == 0x1_0000_0000;
      Some(Event(LittleEndian(bytes[0..2]), LittleEndian(bytes[2..4]), Signed32(LittleEndian(bytes[4..8]))))
  }

  /** Decoding an encoded event recovers type, code and value exactly. */
  lemma DecodeEncode(e: Event)
    ensures FromByteArray(ToByteArray(e)) == Some(e)
  {
  }

  /** Every eight-byte payload is the encoding of exactly the event it decodes to. */
  lemma EncodeDecode(bytes: Payload)
    requires |bytes| == 8
    ensures FromByteArray(bytes).Some? && ToByteArray(FromByteArray(bytes).value) == bytes
  {
    var e := FromByteArray(bytes).value;
    LittleEndian2(bytes[0..2]);
    LittleEndian2(bytes[2..4]);
    LittleEndian4(bytes[4..8]);
    var u := LittleEndian(bytes[4..8]);
    assert e.value % 0x1_0000_0000 == u;
    DigitsOf(bytes[4], bytes[5], bytes[6], bytes[7]);
    DigitsOf(bytes[0], bytes[1], 0, 0);
    DigitsOf(bytes[2], bytes[3], 0, 0);
    var enc := ToByteArray(e);
    assert enc[..4] == bytes[..4];
    assert enc[4..] == bytes[4..];
    assert enc == enc[..4] + enc[4..];
  }

  /** The frame terminator encodes to eight zero bytes. */
  lemma SynReportIsZeros()
    ensures ToByteArray(SynReport) == [0, 0, 0, 0, 0, 0, 0, 0]
  {
  }

  /** Because EV_ABS is 0, the first two bytes of every absolute-axis event are zero. */
  lemma AbsEventsStartWithZeros(e: Event)
    requires e.eventType == EV_ABS
    ensures ToByteArray(e)[0] == 0 && ToByteArray(e)[1] == 0
  {
  }

  // Sending events

  /** The payloads, in order, that carry `events`. */
  function Encodings(events: seq<Event>): (payloads: seq<Payload>)
    ensures |payloads| == |events|
  {
    if events == [] then [] else [ToByteArray(events[0])] + Encodings(events[1..])
  }

  /** The `i`-th payload carries the `i`-th event. */
  lemma {:induction false} EncodingsAt(events: seq<Event>, i: nat)
    requires i < |events|
    ensures Encodings(events)[i] == ToByteArray(events[i])
  {
    if i > 0 {
      EncodingsAt(events[1..], i - 1);
    }
  }

  /** Encoding distributes over concatenation. */
  lemma {:induction false} EncodingsAppend(a: seq<Event>, b: seq<Event>)
    ensures Encodings(a + b) == Encodings(a) + Encodings(b)
  {
    if a == [] {
      assert a + b == b;
    } else {
      assert (a + b)[0] == a[0];
      assert (a + b)[1..] == a[1..] + b;
      EncodingsAppend(a[1..], b);
      assert Encodings(a + b) == [ToByteArray(a[0])] + (Encodings(a[1..]) + Encodings(b));
    }
  }

  /** Encoding one more event of a list appends its payload. */
  lemma EncodingsSnoc(events: seq<Event>, i: nat)
    requires i < |events|
    ensures Encodings(events[..i + 1]) == Encodings(events[..i]) + [ToByteArray(events[i])]
  {
    assert events[..i + 1] == events[..i] + [events[i]];
    EncodingsAppend(events[..i], [events[i]]);
  }

  /** The payloads of one complete frame: the events, then the SYN report. */
  function Frame(events: seq<Event>): (payloads: seq<Payload>)
  {
    Encodings(events + [SynReport])
  }

  /**
   * A frame over N events is N+1 datagrams: the encodings of the events in
   * order, then eight zero bytes; and the receiving side decodes it back
   * into the events followed by the SYN report.
   */
  lemma FrameLayout(events: seq<Event>)
    ensures |Frame(events)| == |events| + 1
    ensures Frame(events)[..|events|] == Encodings(events)
    ensures Frame(events)[|events|] == [0, 0, 0, 0, 0, 0, 0, 0]
    ensures forall i :: 0 <= i < |events| ==> FromByteArray(Frame(events)[i]) == Some(events[i])
  {
    EncodingsAppend(events, [SynReport]);
    SynReportIsZeros();
    forall i | 0 <= i < |events|
      ensures FromByteArray(Frame(events)[i]) == Some(events[i])
    {
      EncodingsAt(events + [SynReport], i);
      DecodeEncode(events[i]);
    }
  }

  /**
   * What a socket's log holds after one attempt to send a frame: on
   * success, one more complete frame; on failure, the encodings of a prefix
   * of the events and no SYN report.
   */
  ghost predicate SentFrame(ok: bool, before: seq<Payload>, after: seq<Payload>, events: seq<Event>)
  {
    if ok then after == before + Frame(events)
    else exists k :: 0 <= k <= |events| && after == before + Encodings(events[..k])
  }

  /**
   * A `java.net.DatagramSocket` seen from the client: whether it is bound to
   * a remote address, whether it was closed, and the log of every payload it
   * put on the wire.
   */
  class DatagramSocket {
    var connected: bool
    var closed: bool
    ghost var log: seq<Payload>

    constructor ()
      ensures !connected && !closed && log == []
    {
      connected, closed, log := false, false, [];
    }

    /**
     * `DatagramSocket.send`. Sending on a closed socket, or without a remote
     * address, throws; on an open, connected socket the network may still
     * refuse the datagram. A datagram is logged only when it was sent.
     */
    method Send(payload: Payload) returns (ok: bool)
      modifies this
      ensures connected == old(connected) && closed == old(closed)
      ensures ok ==> connected && !closed
      ensures log == if ok then old(log) + [payload] else old(log)
    {
      if !connected || closed {
        ok := false;
      } else {
        ok :| true;
      }
      if ok {
        log := log + [payload];
      }
    }

    /** `DatagramSocket.connect`: bind the socket to its remote address. */
    method Connect()
      modifies this
      ensures connected && closed == old(closed) && log == old(log)
    {
      connected := true;
    }

    /** `DatagramSocket.close`: idempotent. */
    method Close()
      modifies this
      ensures closed && connected == old(connected) && log == old(log)
    {
      closed := true;
    }
  }

  /** `sendEvent`: one datagram holding the event's eight bytes. */
  method SendEvent(socket: DatagramSocket, event: Event) returns (ok: bool)
    modifies socket
    ensures socket.connected == old(socket.connected) && socket.closed == old(socket.closed)
    ensures socket.log == if ok then old(socket.log) + [ToByteArray(event)] else old(socket.log)
  {
    var bytes := ToByteArray(event);
    ok := socket.Send(bytes);
  }

  /**
   * `sendAll`: one datagram per event, in order. A failed send throws, so
   * the events after it are not sent.
   */
  method SendAll(socket: DatagramSocket, events: seq<Event>) returns (ok: bool)
    modifies socket
    ensures socket.connected == old(socket.connected) && socket.closed == old(socket.closed)
    ensures ok ==> socket.log == old(socket.log) + Encodings(events)
    ensures !ok ==> exists k :: 0 <= k < |events| && socket.log == old(socket.log) + Encodings(events[..k])
  {
    ok := true;
    ghost var before := socket.log;
    var i := 0;
    while i < |events|
      invariant 0 <= i <= |events|
      invariant socket.connected == old(socket.connected) && socket.closed == old(socket.closed)
      invariant socket.log == before + Encodings(events[..i])
    {
      ok := SendEvent(socket, events[i]);
      if !ok {
        assert 0 <= i < |events| && socket.log == before + Encodings(events[..i]);
        return;
      }
      EncodingsSnoc(events, i);
      assert socket.log == before + (Encodings(events[..i]) + [ToByteArray(events[i])]);
      i := i + 1;
    }
    assert events[..i] == events;
  }

  /**
   * `sendAllWithSyn`: the events, then the SYN report. On success the socket
   * carried exactly one more frame; on failure it carried a prefix of the
   * events and no SYN report.
   */
  method SendAllWithSyn(socket: DatagramSocket, events: seq<Event>) returns (ok: bool)
    modifies socket
    ensures socket.connected == old(socket.connected) && socket.closed == old(socket.closed)
    ensures SentFrame(ok, old(socket.log), socket.log, events)
  {
    ok := SendAll(socket, events);
    if !ok {
      return;
    }
    ok := SendEvent(socket, SynReport);
    EncodingsAppend(events, [SynReport]);
    assert events[..|events|] == events;
  }
}
