/** Packets of the Source RCON Protocol (section "Basic Packet Structure") as bytes on a stream:
    the panel's encoder and decoder, and the relay's second encoder. */
module RconWire {
  import opened Wrappers
  import opened Words

  const MIN_SIZE := 10
  const MAX_SIZE := 65536
  /** The largest body whose frame the receiver accepts. */
  const MAX_BODY := MAX_SIZE - MIN_SIZE

  datatype Packet = Packet(id: int32, kind: int32, body: seq<byte>)

  /** A packet whose size fits the 32-bit size field. */
  type Sendable = p: Packet | |p.body| + 14 < TWO32 witness Packet(0, 0, [])

  /** A packet the receiver accepts. */
  type WirePacket = p: Packet | |p.body| <= MAX_BODY witness Packet(0, 0, [])

  // ---------------------------------------------------------------- integers

  /** The bits of a signed word read as an unsigned one, and back. */
  function Unsigned(v: int32): uint32 { if v < 0 then v + TWO32 else v }

  function Signed(u: uint32): int32 { if u < 0x8000_0000 then u else u - TWO32 }

  /** What memcpy leaves of a word on a little-endian host. */
  function Le32(u: uint32): (b: seq<byte>)
    ensures |b| == 4
  {
    [u % 256, u / 256 % 256, u / 65536 % 256, u / 16777216]
  }

  function FromLe32(b: seq<byte>): uint32
    requires |b| == 4
  {
    b[0] as int + 256 * (b[1] as int) + 65536 * (b[2] as int) + 16777216 * (b[3] as int)
  }

  lemma Le32RoundTrip(u: uint32)
    ensures FromLe32(Le32(u)) == u
    ensures var b := Le32(u);
            u == b[0] as int + 256 * (b[1] as int) + 65536 * (b[2] as int) + 16777216 * (b[3] as int)
  {
    assert u == u % 256 + 256 * (u / 256);
    assert u / 256 == u / 256 % 256 + 256 * (u / 256 / 256);
    assert u / 65536 == u / 256 / 256;
    assert u / 65536 == u / 65536 % 256 + 256 * (u / 65536 / 256);
    assert u / 16777216 == u / 65536 / 256;
  }

  /** The relay's integers: shift, mask, and `|` of four disjoint bytes. `>>` floors, as `/` by a positive number does. */
  function WriteI32(v: int32): (b: seq<byte>)
    ensures |b| == 4
  {
    [v % 256, v / 256 % 256, v / 65536 % 256, v / 16777216 % 256]
  }

  function ReadI32(b: seq<byte>): int32
    requires |b| == 4
  {
    var word := b[0] as int + 256 * (b[1] as int) + 65536 * (b[2] as int) + 16777216 * (b[3] as int);
    if b[3] >= 128 then word - TWO32 else word
  }

  lemma AddBlocks(x: int, k: int)
    ensures (x + 256 * k) / 256 == x / 256 + k && (x + 256 * k) % 256 == x % 256
  {
  }

  lemma NestedDivision(x: int)
    ensures x / 256 / 256 == x / 65536 && x / 65536 / 256 == x / 16777216
  {
  }

  lemma WriteI32IsLe32(v: int32)
    ensures WriteI32(v) == Le32(Unsigned(v))
  {
    if v < 0 {
      NestedDivision(v);
      NestedDivision(v + TWO32);
      AddBlocks(v, 16777216);
      AddBlocks(v / 256, 65536);
      AddBlocks(v / 65536, 256);
    }
    assert (if v < 0 then v / 16777216 + 256 else v / 16777216 as int) == v / 16777216 % 256;
  }

  /** The relay reads back every 32-bit integer it writes. */
  lemma ReadWriteI32(v: int32)
    ensures ReadI32(WriteI32(v)) == v
  {
    WriteI32IsLe32(v);
    Le32RoundTrip(Unsigned(v));
  }

  // ---------------------------------------------------------------- frames

  /** The bytes of one packet: size, id, type, body, two NULs. The size counts everything after itself. */
  function Frame(p: Sendable): seq<byte> {
    Le32(MIN_SIZE + |p.body|) + Le32(Unsigned(p.id)) + Le32(Unsigned(p.kind)) + p.body + [0, 0]
  }

  method CopyTo(buf: array<byte>, at: nat, bytes: seq<byte>)
    requires at + |bytes| <= buf.Length
    modifies buf
    ensures buf[..at + |bytes|] == old(buf[..at]) + bytes
    ensures buf[at + |bytes|..] == old(buf[at + |bytes|..])
  {
    forall i | 0 <= i < |bytes| { buf[at + i] := bytes[i]; }
  }

  /** The panel's encoder. The caller keeps the 32-bit size arithmetic from wrapping. */
  method EncodePacket(p: Sendable) returns (buf: array<byte>)
    ensures fresh(buf) && buf[..] == Frame(p)
  {
    var bodyLen := |p.body|;
    var size := 4 + 4 + bodyLen + 1 + 1;
    buf := new byte[4 + size];
    CopyTo(buf, 0, Le32(size));
    CopyTo(buf, 4, Le32(Unsigned(p.id)));
    CopyTo(buf, 8, Le32(Unsigned(p.kind)));
    CopyTo(buf, 12, p.body);
    ghost var front := buf[..12 + bodyLen];
    buf[12 + bodyLen] := 0;
    buf[12 + bodyLen + 1] := 0;
    assert buf[..12 + bodyLen] == front;
    assert buf[..] == front + [0, 0];
  }

  /** The relay's encoder, whose buffer starts as all NULs and whose size is a signed 32-bit int. */
  method Pack(kind: int32, id: int32, body: seq<byte>) returns (buf: array<byte>)
    requires |body| + 14 < 0x8000_0000
    ensures fresh(buf) && buf[..] == Frame(Packet(id, kind, body))
  {
    var sz := 4 + 4 + |body| + 2;
    buf := new byte[sz + 4](_ => 0);
    ghost var zeros := [0, 0];
    assert buf[sz + 2..] == zeros;
    CopyTo(buf, 0, WriteI32(sz));
    assert buf[sz + 2..] == buf[4..][sz - 2..];
    CopyTo(buf, 4, WriteI32(id));
    assert buf[sz + 2..] == buf[8..][sz - 6..];
    CopyTo(buf, 8, WriteI32(kind));
    assert buf[sz + 2..] == buf[12..][sz - 10..];
    CopyTo(buf, 12, body);
    assert buf[..] == buf[..12 + |body|] + zeros;
    WriteI32IsLe32(sz);
    WriteI32IsLe32(id);
    WriteI32IsLe32(kind);
  }

  // ---------------------------------------------------------------- receiving

  datatype Received = Received(packet: Option<Packet>, rest: seq<byte>)

  /** One read from the bytes that arrive before the stream ends. `sizeReady` and `bodyReady` say whether
      the poll before each of the two reads returned in time; a read past the end drains what is there. */
  function Receive(inbox: seq<byte>, sizeReady: bool, bodyReady: bool): Received {
    if !sizeReady then Received(None, inbox)
    else if |inbox| < 4 then Received(None, [])
    else
      var size, rest := FromLe32(inbox[..4]), inbox[4..];
      if size < MIN_SIZE || size > MAX_SIZE || !bodyReady then Received(None, rest)
      else if |rest| < size then Received(None, [])
      else Received(Some(Packet(Signed(FromLe32(rest[..4])), Signed(FromLe32(rest[4..8])), rest[8..size - 2])),
                    rest[size..])
  }

  lemma FrameParts(p: Sendable, rest: seq<byte>)
    ensures var s := Frame(p) + rest; var t := s[4..];
            && |Frame(p)| == 14 + |p.body|
            && s[..4] == Le32(10 + |p.body|)
            && t[..4] == Le32(Unsigned(p.id)) && t[4..8] == Le32(Unsigned(p.kind))
            && t[8..8 + |p.body|] == p.body && t[8 + |p.body|..10 + |p.body|] == [0, 0]
            && t[10 + |p.body|..] == rest
  {
    var a, b, c := Le32(MIN_SIZE + |p.body|), Le32(Unsigned(p.id)), Le32(Unsigned(p.kind));
    var s := Frame(p) + rest;
    assert s == a + (b + (c + (p.body + ([0, 0] + rest))));
    assert s[4..] == b + (c + (p.body + ([0, 0] + rest)));
  }

  /** A frame is read back whole, NULs in the body included, exactly when its body is at most 65526 bytes;
      a longer one is refused. What follows the frame stays unread. */
  lemma ReceiveFrame(p: Sendable, rest: seq<byte>)
    ensures |p.body| <= 65526 ==> Receive(Frame(p) + rest, true, true) == Received(Some(p), rest)
    ensures Receive(Frame(p) + rest, true, true).packet == Some(p) <==> |p.body| <= 65526
  {
    FrameParts(p, rest);
    Le32RoundTrip(MIN_SIZE + |p.body|);
    Le32RoundTrip(Unsigned(p.id));
    Le32RoundTrip(Unsigned(p.kind));
  }

  /** Only sizes from 10 to 65536 are accepted, whatever follows. */
  lemma SizeLimits(size: uint32, rest: seq<byte>)
    ensures Receive(Le32(size) + rest, true, true).packet.Some? <==> 10 <= size <= 65536 && |rest| >= size
  {
    Le32RoundTrip(size);
    var inbox := Le32(size) + rest;
    assert inbox[..4] == Le32(size) && inbox[4..] == rest;
  }

  /** A stream cut inside a frame never yields a packet. */
  lemma ReceiveTruncated(p: WirePacket, k: nat)
    requires k < |Frame(p)|
    ensures Receive(Frame(p)[..k], true, true) == Received(None, [])
  {
    FrameParts(p, []);
    Le32RoundTrip(MIN_SIZE + |p.body|);
    assert Frame(p) + [] == Frame(p);
    if k >= 4 {
      assert Frame(p)[..k][..4] == Frame(p)[..4];
    }
  }

  function Frames(ps: seq<Sendable>): seq<byte> {
    if ps == [] then [] else Frame(ps[0]) + Frames(ps[1..])
  }

  /** Reads until a read fails. */
  function ReceiveAll(inbox: seq<byte>): seq<Packet>
    decreases |inbox|
  {
    var r := Receive(inbox, true, true);
    if r.packet == None then [] else [r.packet.value] + ReceiveAll(r.rest)
  }

  /** Framing is lossless over a whole stream: reading a concatenation of frames, even one whose last
      frame is cut, returns exactly the packets that are complete, in order. */
  lemma {:induction false} ReceiveAllFrames(ps: seq<WirePacket>, last: WirePacket, k: nat)
    requires k < |Frame(last)|
    ensures ReceiveAll(Frames(ps) + Frame(last)[..k]) == ps
  {
    var tail := Frame(last)[..k];
    if ps == [] {
      ReceiveTruncated(last, k);
      assert Frames(ps) + tail == tail;
    } else {
      assert Frames(ps) + tail == Frame(ps[0]) + (Frames(ps[1..]) + tail);
      ReceiveFrame(ps[0], Frames(ps[1..]) + tail);
      ReceiveAllFrames(ps[1..], last, k);
    }
  }

  lemma {:induction false} FramesConcat(a: seq<Sendable>, b: seq<Sendable>)
    ensures Frames(a + b) == Frames(a) + Frames(b)
  {
    if a == [] {
      assert a + b == b;
    } else {
      assert (a + b)[0] == a[0] && (a + b)[1..] == a[1..] + b;
      FramesConcat(a[1..], b);
    }
  }
}
