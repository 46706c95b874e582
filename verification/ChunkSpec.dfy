/**
  The RTMP chunk layer of src/rtmp/librtmp/rtmp.c on values: the bytes RTMP_SendPacket
  writes for a message and what RTMP_ReadPacket makes of one chunk (section 5.3.1 of
  Adobe's RTMP 1.0 specification).
 */
module ChunkSpec {
  import opened Common
  import opened IntCodec

  const LARGE: nat := 0    // 11-byte message header: absolute timestamp, size, type, stream
  const MEDIUM: nat := 1   // 7 bytes: timestamp delta, size, type
  const SMALL: nat := 2    // 3 bytes: timestamp delta
  const MINIMUM: nat := 3  // nothing: everything as before
  const EXTENDED: u32 := 0xff_ffff

  // ----- sending ----------------------------------------------------------

  // A message as handed to RTMP_SendPacket; `ty` is the header type asked for.
  datatype Message = Message(ty: nat, channel: nat, ptype: byte, stamp: u32, info: u32, body: seq<byte>)

  // What m_vecChannelsOut keeps of the last packet sent on a channel.
  datatype SentPacket = SentPacket(ty: nat, channel: nat, ptype: byte, stamp: u32, info: u32, size: nat, lastWire: u32)

  function Minus32(a: u32, b: u32): u32 {
    (a - b) % 0x1_0000_0000
  }

  function Plus32(a: u32, b: u32): u32 {
    (a + b) % 0x1_0000_0000
  }

  function SmallerType(prev: SentPacket, ptype: byte, size: nat, ty: nat): nat {
    if prev.size == size && prev.ptype == ptype && ty == MEDIUM then SMALL else ty
  }

  // The header type after compression against the previous packet of the channel.
  function TypeFor(prev: Option<SentPacket>, ty: nat, ptype: byte, stamp: u32, size: nat): nat {
    if prev.None? || ty == LARGE then ty else
    var smaller := SmallerType(prev.value, ptype, size, ty);
    if Minus32(stamp, prev.value.stamp) == prev.value.lastWire && smaller == SMALL then MINIMUM else smaller
  }

  // The timestamp that goes on the wire: absolute, or relative to the previous packet.
  function StampFor(prev: Option<SentPacket>, ty: nat, stamp: u32): u32 {
    if prev.None? || ty == LARGE then stamp else Minus32(stamp, prev.value.stamp)
  }

  function FinalType(prev: Option<SentPacket>, m: Message): nat {
    TypeFor(prev, m.ty, m.ptype, m.stamp, |m.body|)
  }

  function WireStamp(prev: Option<SentPacket>, m: Message): u32 {
    StampFor(prev, m.ty, m.stamp)
  }

  function Remember(prev: Option<SentPacket>, m: Message): SentPacket {
    SentPacket(FinalType(prev, m), m.channel, m.ptype, m.stamp, m.info, |m.body|, WireStamp(prev, m))
  }

  // The chunk basic header: type and channel in one, two or three bytes.
  function Basic(ty: nat, channel: nat): seq<byte> {
    if channel > 319 then [Low(64 * ty + 1), Low(channel - 64), Low(Shr8(channel - 64))]
    else if channel > 63 then [Low(64 * ty), Low(channel - 64)]
    else [Low(64 * ty + channel)]
  }

  function Fields(ty: nat, wire: u32, size: nat, ptype: byte, info: u32): seq<byte> {
    (if ty < MINIMUM then EncodeInt24(Min(wire, EXTENDED)) else [])
    + (if ty < SMALL then EncodeInt24(size) + [ptype] else [])
    + (if ty == LARGE then EncodeInt32LE(info) else [])
    + (if ty < MINIMUM && wire >= EXTENDED then EncodeInt32(wire) else [])
  }

  function Continuation(channel: nat, wire: u32): seq<byte> {
    Basic(MINIMUM, channel) + if wire >= EXTENDED then EncodeInt32(wire) else []
  }

  // Everything written after `sent` bytes of the body; each further chunk starts with `cont`.
  function Tail(body: seq<byte>, sent: nat, chunk: pos, cont: seq<byte>): seq<byte>
    requires sent <= |body|
    decreases |body| - sent
  {
    if sent == |body| then [] else
    var n := Min(chunk, |body| - sent);
    cont + body[sent..sent + n] + Tail(body, sent + n, chunk, cont)
  }

  // The rest of a message's bytes from a chunk on, without that chunk's header.
  function FromChunk(body: seq<byte>, sent: nat, chunk: pos, cont: seq<byte>): seq<byte>
    requires sent <= |body|
  {
    var n := Min(chunk, |body| - sent);
    body[sent..sent + n] + Tail(body, sent + n, chunk, cont)
  }

  function MessageBytes(ty: nat, channel: nat, wire: u32, ptype: byte, info: u32, body: seq<byte>,
                        chunk: pos): seq<byte> {
    Basic(ty, channel) + Fields(ty, wire, |body|, ptype, info) + FromChunk(body, 0, chunk, Continuation(channel, wire))
  }

  // What RTMP_SendPacket writes for a message.
  function MessageWire(prev: Option<SentPacket>, m: Message, chunk: pos): seq<byte> {
    MessageBytes(FinalType(prev, m), m.channel, WireStamp(prev, m), m.ptype, m.info, m.body, chunk)
  }

  // m_vecChannelsOut
  type SentPackets = map<nat, SentPacket>

  function Prev(ps: SentPackets, channel: nat): Option<SentPacket> {
    if channel in ps then Some(ps[channel]) else None
  }

  // RTMP_SendPacket for each message in turn.
  function SendAll(ps: SentPackets, ms: seq<Message>, chunk: pos): seq<byte>
    decreases |ms|
  {
    if ms == [] then [] else
    var prev := Prev(ps, ms[0].channel);
    MessageWire(prev, ms[0], chunk) + SendAll(ps[ms[0].channel := Remember(prev, ms[0])], ms[1..], chunk)
  }

  // ----- receiving --------------------------------------------------------

  // What m_vecChannelsIn keeps of a channel; `got` is the part of the body read so far.
  datatype InPacket = InPacket(ptype: byte, stamp: u32, info: u32, size: nat, absolute: bool, got: seq<byte>)

  const NO_PACKET: InPacket := InPacket(0, 0, 0, 0, false, [])

  // The receiver's memory of one channel.
  datatype Channel = Channel(prev: Option<InPacket>, stamp: u32)

  const NEW_CHANNEL: Channel := Channel(None, 0)

  // A chunk's header; fields its type does not carry are 0.
  datatype Header = Header(ty: nat, channel: nat, wire: u32, size: nat, ptype: byte, info: u32, extended: bool)

  datatype Parsed<T> = Parsed(value: T, rest: seq<byte>)

  function Take(input: seq<byte>, n: nat): Option<Parsed<seq<byte>>> {
    if n <= |input| then Some(Parsed(input[..n], input[n..])) else None
  }

  function ReadBasic(input: seq<byte>): (r: Option<Parsed<(nat, nat)>>)
    ensures r.Some? ==> |r.value.rest| < |input| && 0 <= r.value.value.0 < 4
  {
    if |input| < 1 then None else
    var b := input[0] as int;
    var ty, low := b / 64, b % 64;
    if low == 0 then
      if |input| < 2 then None else Some(Parsed((ty, (input[1] as int) + 64), input[2..]))
    else if low == 1 then
      if |input| < 3 then None else Some(Parsed((ty, 256 * (input[2] as int) + (input[1] as int) + 64), input[3..]))
    else Some(Parsed((ty, low), input[1..]))
  }

  function HeaderSize(ty: nat): nat {
    if ty == LARGE then 11 else if ty == MEDIUM then 7 else if ty == SMALL then 3 else 0
  }

  // The message header fields that the header type carries; the others are 0.
  function ReadFields(ty: nat, channel: nat, input: seq<byte>): (r: Option<Parsed<Header>>)
    ensures r.Some? ==> |r.value.rest| <= |input| && r.value.value.channel == channel
  {
    var n := HeaderSize(ty);
    if |input| < n then None else
    var rest := input[n..];
    var size := if n >= 6 then DecodeInt24(input[3..]) else 0;
    var ptype := if n > 6 then input[6] else 0;
    var info := if n == 11 then DecodeInt32LE(input[7..]) else 0;
    if n < 3 then Some(Parsed(Header(ty, channel, 0, 0, 0, 0, false), rest)) else
    var wire := DecodeInt24(input);
    if wire != EXTENDED then Some(Parsed(Header(ty, channel, wire, size, ptype, info, false), rest))
    else if |rest| < 4 then None
    else Some(Parsed(Header(ty, channel, DecodeInt32(rest), size, ptype, info, true), rest[4..]))
  }

  function ReadHeader(input: seq<byte>): (r: Option<Parsed<Header>>)
    ensures r.Some? ==> |r.value.rest| < |input|
  {
    var b := ReadBasic(input);
    if b.None? then None else ReadFields(b.value.value.0, b.value.value.1, b.value.rest)
  }

  // The packet as the header leaves it, before any of this chunk's body is read.
  function Begin(c: Channel, h: Header): InPacket {
    var p := if h.ty == LARGE then NO_PACKET.(absolute := true)
             else if c.prev.Some? then c.prev.value else NO_PACKET;
    var p1 := if h.ty < MINIMUM then p.(stamp := h.wire) else p;
    var p2 := if h.ty < SMALL then p1.(size := h.size, got := [], ptype := h.ptype) else p1;
    if h.ty == LARGE then p2.(info := h.info) else p2
  }

  function ChunkLength(p: InPacket, chunk: pos): nat {
    if p.size >= |p.got| then Min(chunk, p.size - |p.got|) else 0
  }

  datatype ReadStep = ReadStep(channel: Channel, packet: InPacket, ready: bool)

  // The rest of RTMP_ReadPacket, once the chunk's data is in.
  function Finish(c: Channel, p: InPacket, extended: bool, data: seq<byte>): ReadStep {
    var q := p.(got := p.got + data);
    var kept := if extended then q.(stamp := EXTENDED) else q;
    if |q.got| == q.size then
      var stamp := if q.absolute then q.stamp else Plus32(q.stamp, c.stamp);
      ReadStep(Channel(Some(kept.(got := [], absolute := false)), stamp), q.(stamp := stamp), true)
    else
      ReadStep(Channel(Some(kept), c.stamp), q, false)
  }

  function OnChunk(c: Channel, h: Header, data: seq<byte>): ReadStep {
    Finish(c, Begin(c, h), h.extended, data)
  }

  type Channels = map<nat, Channel>

  function At(cs: Channels, c: nat): Channel {
    if c in cs then cs[c] else NEW_CHANNEL
  }

  datatype ReadResult = ReadFailed | ReadOk(channels: Channels, rest: seq<byte>, channel: nat, packet: InPacket,
                                            ready: bool)

  // One chunk's body, for its header.
  function ReadBody(cs: Channels, chunk: pos, hdr: Header, input: seq<byte>): (r: ReadResult)
    ensures r.ReadOk? ==> |r.rest| <= |input|
  {
    var c := At(cs, hdr.channel);
    var data := Take(input, ChunkLength(Begin(c, hdr), chunk));
    if data.None? then ReadFailed else
    var s := OnChunk(c, hdr, data.value.value);
    ReadOk(cs[hdr.channel := s.channel], data.value.rest, hdr.channel, s.packet, s.ready)
  }

  function ReadPacket(cs: Channels, chunk: pos, input: seq<byte>): (r: ReadResult)
    ensures r.ReadOk? ==> |r.rest| < |input|
  {
    var h := ReadHeader(input);
    if h.None? then ReadFailed else ReadBody(cs, chunk, h.value.value, h.value.rest)
  }

  // A message as the reader hands it on.
  datatype Delivered = Delivered(channel: nat, ptype: byte, stamp: u32, info: u32, body: seq<byte>)

  function AsDelivered(channel: nat, p: InPacket): Delivered {
    Delivered(channel, p.ptype, p.stamp, p.info, p.got)
  }

  // Reads the whole input, collecting the complete messages.
  function ReadAll(cs: Channels, chunk: pos, input: seq<byte>): Option<seq<Delivered>>
    decreases |input|
  {
    if input == [] then Some([]) else
    var r := ReadPacket(cs, chunk, input);
    if r.ReadFailed? then None else
    var later := ReadAll(r.channels, chunk, r.rest);
    if later.None? then None
    else Some((if r.ready then [AsDelivered(r.channel, r.packet)] else []) + later.value)
  }
}
