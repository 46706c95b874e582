/**
  FLV tags as src/rtmp/flv-mux.c writes them and what RTMP_Write (src/rtmp/librtmp/rtmp.c)
  makes of a stream of tags, on values.
 */
module FlvSpec {
  import opened Common
  import opened IntCodec
  import opened ChunkSpec
  import opened EncoderPacket

  const AUDIO: byte := 8
  const VIDEO: byte := 9
  const INFO: byte := 18
  const CHANNEL: nat := 4
  const TAG_HEADER: nat := 11

  // ----- muxing -----------------------------------------------------------

  // A cast to uint32_t.
  function AsU32(n: int): u32 {
    n % 0x1_0000_0000
  }

  // A cast to int32_t.
  function AsI32(n: int): (r: int)
    ensures -0x8000_0000 <= r < 0x8000_0000
    ensures -0x8000_0000 <= n < 0x8000_0000 ==> r == n
  {
    (n + 0x8000_0000) % 0x1_0000_0000 - 0x8000_0000
  }

  // get_ms_time
  function MsTime(p: Packet, ticks: int): int
    requires p.den > 0
  {
    AsI32(Milliseconds(ticks, p.den))
  }

  // The tag's time; a subtraction in 32 bits.
  function TimeMs(p: Packet, offset: int): int
    requires p.den > 0
  {
    AsI32(MsTime(p, p.dts) - offset)
  }

  // The bytes the codec puts in front of the packet's data.
  function Extra(p: Packet, isHeader: bool): seq<byte>
    requires p.den > 0
  {
    var sort := if isHeader then 0 else 1;
    if p.kind.Video? then
      [if p.keyframe then 0x17 else 0x27, sort] + EncodeInt24(AsU32(AsI32(MsTime(p, p.pts) - MsTime(p, p.dts))))
    else [0xaf, sort]
  }

  function Body(p: Packet, isHeader: bool): seq<byte>
    requires p.den > 0
  {
    Extra(p, isHeader) + p.data
  }

  function TagHeader(ptype: byte, size: nat, time: int): (h: seq<byte>)
    ensures |h| == TAG_HEADER
  {
    [ptype] + EncodeInt24(AsU32(size)) + EncodeInt24(AsU32(time)) + [AsU32(time) / 0x100_0000 % 0x80] + EncodeInt24(0)
  }

  function TypeOf(p: Packet): byte {
    if p.kind.Video? then VIDEO else AUDIO
  }

  // flv_packet_mux; a packet without data gives no tag.
  function Tag(p: Packet, offset: int, isHeader: bool): seq<byte>
    requires p.den > 0
  {
    if p.data == [] then [] else
    var body := Body(p, isHeader);
    TagHeader(TypeOf(p), |body|, TimeMs(p, offset)) + body + EncodeInt32(AsU32(TAG_HEADER + |body|))
  }

  // ----- RTMP_Write -------------------------------------------------------

  // m_write: the tag being read and the part of its body that is in.
  datatype Pending = Pending(ptype: byte, size: nat, stamp: u32, ty: nat, got: seq<byte>)

  predicate Idle(w: Pending) {
    w.got == []
  }

  // The header type for a tag.
  function HeaderType(ptype: byte, stamp: u32): nat {
    if ((ptype == AUDIO || ptype == VIDEO) && stamp == 0) || ptype == INFO then LARGE else MEDIUM
  }

  predicate HasSignature(data: seq<byte>) {
    |data| >= 3 && data[..3] == [0x46, 0x4c, 0x56]
  }

  // The data behind the file header, if there is one.
  function SkipSignature(data: seq<byte>): (d: seq<byte>)
    ensures |d| <= |data|
  {
    if !HasSignature(data) then data else if |data| >= 13 then data[13..] else []
  }

  function ParseHeader(d: seq<byte>): Pending
    requires |d| >= TAG_HEADER
  {
    var stamp := DecodeInt24(d[4..]) + 0x100_0000 * (d[7] as int);
    Pending(d[0], DecodeInt24(d[1..]), stamp, HeaderType(d[0], stamp), [])
  }

  // How many bytes the tag still takes from data.
  function Wanted(w: Pending, data: seq<byte>): (n: nat)
    ensures n <= |data|
  {
    if |w.got| <= w.size then Min(w.size - |w.got|, |data|) else 0
  }

  function AsMessage(w: Pending, info: u32): Message {
    Message(w.ty, CHANNEL, w.ptype, w.stamp, info, w.got)
  }

  // What a round of the loop comes to: a message or none, and the data left, if all goes on.
  datatype Round = Round(w: Pending, sent: Option<Message>, rest: seq<byte>, left: int)

  // The round once a tag is open: copies body bytes and sends a complete message.
  function BodyRound(w: Pending, data: seq<byte>, info: u32): (r: Round)
    ensures |r.rest| <= |data|
  {
    var n := Wanted(w, data);
    var w1 := w.(got := w.got + data[..n]);
    var d1 := data[n..];
    if |w1.got| != w.size then Round(w1, None, d1, |d1|)
    else Round(w1.(got := []), Some(AsMessage(w1, info)), if |d1| < 4 then [] else d1[4..], |d1| - 4)
  }

  function OneRound(w: Pending, data: seq<byte>, info: u32): (r: Round)
    requires Idle(w) ==> |SkipSignature(data)| >= TAG_HEADER
    ensures |r.rest| <= |data| && (Idle(w) ==> |r.rest| < |data|)
  {
    if Idle(w) then
      var d := SkipSignature(data);
      BodyRound(ParseHeader(d), d[TAG_HEADER..], info)
    else BodyRound(w, data, info)
  }

  // Every tag header is complete, so the loop never reads past the data.
  ghost predicate Framed(w: Pending, data: seq<byte>, info: u32)
    decreases |data|, |w.got|
  {
    data != [] ==>
      && (Idle(w) ==> |SkipSignature(data)| >= TAG_HEADER)
      && |w.got| <= w.size
      && var r := OneRound(w, data, info);
         |r.rest| < |data| && Framed(r.w, r.rest, info)
  }

  datatype Fed = Fed(sent: seq<Message>, w: Pending, left: int)

  // RTMP_Write's loop; `left` is 0, or how far the last tag's end is missing.
  function Feed(w: Pending, data: seq<byte>, info: u32): Fed
    requires Framed(w, data, info)
    decreases |data|
  {
    if data == [] then Fed([], w, 0) else
    var r := OneRound(w, data, info);
    if r.left < 0 then Fed(Sent(r), r.w, r.left) else
    var more := Feed(r.w, r.rest, info);
    Fed(Sent(r) + more.sent, more.w, more.left)
  }

  function Sent(r: Round): seq<Message> {
    if r.sent.Some? then [r.sent.value] else []
  }

  // ----- a tag becomes a message ------------------------------------------

  // The message a muxed packet must become.
  function PacketMessage(p: Packet, offset: int, isHeader: bool, info: u32): Message
    requires p.den > 0 && 0 <= TimeMs(p, offset)
  {
    var time := TimeMs(p, offset);
    Message(HeaderType(TypeOf(p), time), CHANNEL, TypeOf(p), time, info, Body(p, isHeader))
  }

  ghost predicate Muxable(p: Packet, offset: int, isHeader: bool) {
    p.data != [] && p.den > 0 && 0 <= TimeMs(p, offset) && |Body(p, isHeader)| < 0x100_0000
  }

  const IDLE: Pending := Pending(0, 0, 0, 0, [])

  lemma StampBytes(time: int)
    requires 0 <= time < 0x8000_0000
    ensures var t := AsU32(time);
            t == time && 0x1_0000 * (Low(Shr8(Shr8(t))) as int) + 0x100 * (Low(Shr8(t)) as int) + (Low(t) as int)
                         + 0x100_0000 * (t / 0x100_0000 % 0x80) == time
  {
  }

  lemma HeaderParses(ptype: byte, size: u24, time: int, more: seq<byte>)
    requires 0 <= time < 0x8000_0000
    ensures ParseHeader(TagHeader(ptype, size, time) + more) == Pending(ptype, size, time, HeaderType(ptype, time), [])
  {
    var d := TagHeader(ptype, size, time) + more;
    RoundTrip24(size);
    StampBytes(time);
    assert AsU32(size) == size;
    assert d[1..][0] == d[1] && d[1..][1] == d[2] && d[1..][2] == d[3];
    assert d[4..][0] == d[4] && d[4..][1] == d[5] && d[4..][2] == d[6];
  }

  lemma TagRound(w: Pending, ptype: byte, body: seq<byte>, time: int, more: seq<byte>, info: u32)
    requires Idle(w) && 0 < |body| < 0x100_0000 && 0 <= time < 0x8000_0000 && (ptype == VIDEO || ptype == AUDIO)
    ensures var data := TagHeader(ptype, |body|, time) + body + EncodeInt32(AsU32(TAG_HEADER + |body|)) + more;
            var ty := HeaderType(ptype, time);
            && |SkipSignature(data)| >= TAG_HEADER
            && OneRound(w, data, info)
               == Round(Pending(ptype, |body|, time, ty, []), Some(Message(ty, CHANNEL, ptype, time, info, body)),
                   more, |more|)
  {
    var end := EncodeInt32(AsU32(TAG_HEADER + |body|));
    var data := TagHeader(ptype, |body|, time) + body + end + more;
    var tail := body + end + more;
    assert data == TagHeader(ptype, |body|, time) + tail;
    assert data[0] == ptype && !HasSignature(data);
    HeaderParses(ptype, |body|, time, tail);
    assert data[TAG_HEADER..] == tail;
    assert tail[..|body|] == body && tail[|body|..] == end + more;
    assert [] + body == body && (end + more)[4..] == more;
  }
}
