/**
  The bytes of the chunk layer, one by one: what RTMP_SendPacket (src/rtmp/librtmp/rtmp.c:4088-4321)
  puts on the wire and how RTMP_ReadPacket (3801-3993) takes them, with the numbers of the
  wire format written out.
 */
module ChunkBytes {
  import opened Common
  import opened IntCodec
  import opened ChunkSpec
  import opened ChunkRoundTrip
  import opened ChunkExtended

  // Three and four bytes, most significant first.
  predicate Big3(s: seq<byte>, at: int, n: int) {
    0 <= at <= |s| - 3 && s[at] as int == n / 65536 && s[at + 1] as int == n / 256 % 256 && s[at + 2] as int == n % 256
  }

  predicate Big4(s: seq<byte>, at: int, n: int) {
    && 0 <= at <= |s| - 4 && s[at] as int == n / 16777216 && s[at + 1] as int == n / 65536 % 256
    && s[at + 2] as int == n / 256 % 256 && s[at + 3] as int == n % 256
  }

  // Four bytes, least significant first.
  predicate Little4(s: seq<byte>, at: int, n: int) {
    && 0 <= at <= |s| - 4 && s[at] as int == n % 256 && s[at + 1] as int == n / 256 % 256
    && s[at + 2] as int == n / 65536 % 256 && s[at + 3] as int == n / 16777216
  }

  // ----- sending ----------------------------------------------------------

  // How many bytes the basic header takes.
  function BasicSize(channel: nat): nat {
    if channel < 64 then 1 else if channel < 320 then 2 else 3
  }

  // The basic header: the type in the two top bits, then the channel, the channel less 64 in
  // one byte behind a 0, or in two behind a 1, the low byte first.
  predicate BasicBytes(s: seq<byte>, ty: nat, channel: nat) {
    && |s| >= BasicSize(channel)
    && if channel < 64 then s[0] as int == 64 * ty + channel
       else if channel < 320 then s[0] as int == 64 * ty && s[1] as int == channel - 64
       else s[0] as int == 64 * ty + 1 && s[1] as int + 256 * s[2] as int == channel - 64
  }

  // Bytes behind the basic header that a type always has, and with an extended timestamp.
  function FieldSize(ty: nat): nat {
    if ty == 0 then 11 else if ty == 1 then 7 else if ty == 2 then 3 else 0
  }

  function ExtendedSize(ty: nat, wire: int): nat {
    if ty < 3 && wire >= 16777215 then 4 else 0
  }

  function Least(a: int, b: int): int {
    if a <= b then a else b
  }

  // The fields of a header from position `at` on.
  predicate FieldBytes(s: seq<byte>, at: nat, ty: nat, wire: int, size: int, ptype: byte, info: int) {
    && at + FieldSize(ty) + ExtendedSize(ty, wire) <= |s|
    && (ty < 3 ==> Big3(s, at, Least(wire, 16777215)))
    && (ty < 2 ==> Big3(s, at + 3, size) && s[at + 6] == ptype)
    && (ty < 1 ==> Little4(s, at + 7, info))
    && (ty < 3 && wire >= 16777215 ==> Big4(s, at + FieldSize(ty), wire))
  }

  lemma BasicOnWire(ty: nat, channel: nat)
    requires ty <= 3 && 2 <= channel <= 65599
    ensures |Basic(ty, channel)| == BasicSize(channel) && BasicBytes(Basic(ty, channel), ty, channel)
  {
    if channel >= 64 {
      ChannelBytes(channel);
    }
  }

  lemma TwoHigh(n: nat)
    ensures n / 256 / 256 == n / 65536 && n / 256 / 256 / 256 == n / 16777216
  {
  }

  lemma Int24OnWire(n: u24)
    ensures |EncodeInt24(n)| == 3 && Big3(EncodeInt24(n), 0, n)
  {
    TwoHigh(n);
  }

  lemma Int32OnWire(n: u32)
    ensures |EncodeInt32(n)| == 4 && Big4(EncodeInt32(n), 0, n)
    ensures |EncodeInt32LE(n)| == 4 && Little4(EncodeInt32LE(n), 0, n)
  {
    TwoHigh(n);
  }

  // The fields put together, whatever the pieces are.
  lemma FieldsJoin(ty: nat, wire: u32, size: u24, ptype: byte, info: u32,
                   stamp: seq<byte>, sized: seq<byte>, stream: seq<byte>, extended: seq<byte>)
    requires ty <= 3 && if ty < 3 then |stamp| == 3 && Big3(stamp, 0, Least(wire, 16777215)) else stamp == []
    requires if ty < 2 then |sized| == 4 && Big3(sized, 0, size) && sized[3] == ptype else sized == []
    requires if ty < 1 then |stream| == 4 && Little4(stream, 0, info) else stream == []
    requires if ty < 3 && wire >= 16777215 then |extended| == 4 && Big4(extended, 0, wire) else extended == []
    ensures var s := stamp + sized + stream + extended;
            |s| == FieldSize(ty) + ExtendedSize(ty, wire) && FieldBytes(s, 0, ty, wire, size, ptype, info)
  {
  }

  lemma FieldsOnWire(ty: nat, wire: u32, size: u24, ptype: byte, info: u32)
    requires ty <= 3
    ensures var s := Fields(ty, wire, size, ptype, info);
            |s| == FieldSize(ty) + ExtendedSize(ty, wire) && FieldBytes(s, 0, ty, wire, size, ptype, info)
  {
    hide Big3, Big4, Little4, EncodeInt24, EncodeInt32, EncodeInt32LE, FieldBytes;
    Int24OnWire(Min(wire, EXTENDED));
    Int24OnWire(size);
    Int32OnWire(info);
    Int32OnWire(wire);
    var sized := EncodeInt24(size) + [ptype];
    SizedBytes(size, ptype);
    FieldsJoin(ty, wire, size, ptype, info,
               if ty < 3 then EncodeInt24(Min(wire, EXTENDED)) else [], if ty < 2 then sized else [],
               if ty < 1 then EncodeInt32LE(info) else [],
               if ty < 3 && wire >= EXTENDED then EncodeInt32(wire) else []);
  }

  lemma SizedBytes(size: u24, ptype: byte)
    ensures var s := EncodeInt24(size) + [ptype];
            |s| == 4 && Big3(s, 0, size) && s[3] == ptype
  {
    Int24OnWire(size);
  }

  lemma FieldsBehind(front: seq<byte>, s: seq<byte>, rest: seq<byte>, ty: nat, wire: int, size: int, ptype: byte,
                     info: int)
    requires FieldBytes(s, 0, ty, wire, size, ptype, info)
    ensures FieldBytes(front + s + rest, |front|, ty, wire, size, ptype, info)
  {
  }

  /**
    The first bytes of a message: the basic header, then as many fields as its type has, a
    timestamp of 16777215 and more as three bytes ff and again in four bytes at the end, and
    then the first chunk of the body.
   */
  lemma MessageOnWire(prev: Option<SentPacket>, m: Message, chunk: pos)
    requires 2 <= m.channel <= 65599 && |m.body| < 16777216 && FinalType(prev, m) <= 3
    ensures var w := MessageWire(prev, m, chunk);
            var ty, wire := FinalType(prev, m), WireStamp(prev, m);
            var at := BasicSize(m.channel);
            var behind := at + FieldSize(ty) + ExtendedSize(ty, wire);
            && BasicBytes(w, ty, m.channel) && FieldBytes(w, at, ty, wire, |m.body|, m.ptype, m.info)
            && behind + Least(chunk, |m.body|) <= |w|
            && w[behind..behind + Least(chunk, |m.body|)] == m.body[..Least(chunk, |m.body|)]
  {
    hide Basic, Fields, BasicBytes, FieldBytes, FinalType, WireStamp, Continuation, FromChunk;
    var ty, wire := FinalType(prev, m), WireStamp(prev, m);
    var n := Least(chunk, |m.body|);
    var front, fields := Basic(ty, m.channel), Fields(ty, wire, |m.body|, m.ptype, m.info);
    BasicOnWire(ty, m.channel);
    FieldsOnWire(ty, wire, |m.body|, m.ptype, m.info);
    var rest := FromChunk(m.body, 0, chunk, Continuation(m.channel, wire));
    FirstOfRest(m.body, chunk, Continuation(m.channel, wire));
    assert MessageWire(prev, m, chunk) == front + fields + rest;
    FieldsBehind(front, fields, rest, ty, wire, |m.body|, m.ptype, m.info);
    BasicInFront(front, fields + rest, ty, m.channel);
    Associative(front, fields, rest);
    SliceBehind(front + fields, rest, n);
  }

  lemma FirstOfRest(body: seq<byte>, chunk: pos, cont: seq<byte>)
    ensures var rest := FromChunk(body, 0, chunk, cont);
            Least(chunk, |body|) <= |rest| && rest[..Least(chunk, |body|)] == body[..Least(chunk, |body|)]
  {
  }

  lemma SliceBehind(front: seq<byte>, rest: seq<byte>, n: nat)
    requires n <= |rest|
    ensures (front + rest)[|front|..|front| + n] == rest[..n]
  {
  }

  lemma BasicInFront(front: seq<byte>, rest: seq<byte>, ty: nat, channel: nat)
    requires BasicBytes(front, ty, channel)
    ensures BasicBytes(front + rest, ty, channel)
  {
  }

  /**
    A continuation header: type 3, and the timestamp in four bytes if and only if it is
    16777215 or more.
   */
  lemma ContinuationOnWire(channel: nat, wire: u32)
    requires 2 <= channel <= 65599
    ensures var s := Continuation(channel, wire);
            && BasicBytes(s, 3, channel)
            && if wire >= 16777215 then |s| == BasicSize(channel) + 4 && Big4(s, BasicSize(channel), wire)
               else |s| == BasicSize(channel)
  {
    hide Basic, EncodeInt32;
    BasicOnWire(3, channel);
    Int32OnWire(wire);
  }

  lemma OneMore(i: nat, chunk: pos)
    ensures (i + 1) * chunk == i * chunk + chunk && i * chunk >= 0
  {
  }

  // Piece i of the tail, which begins at position `at` of the body.
  lemma {:induction false} TailPieceAt(body: seq<byte>, sent: nat, chunk: pos, cont: seq<byte>, i: nat, at: nat)
    requires sent <= |body| && i < |TailPieces(body, sent, chunk, cont)| && at == sent + i * chunk
    ensures at < |body| && TailPieces(body, sent, chunk, cont)[i] == cont + body[at..Least(at + chunk, |body|)]
    decreases |body| - sent
  {
    if i > 0 {
      OneMore(i - 1, chunk);
      if |body| - sent <= chunk {
        LastPieceIsLast(body, sent, chunk, cont);
      } else {
        TailPieceAt(body, sent + chunk, chunk, cont, i - 1, at);
      }
    }
  }

  lemma LastPieceIsLast(body: seq<byte>, sent: nat, chunk: pos, cont: seq<byte>)
    requires sent <= |body| && |body| - sent <= chunk
    ensures |TailPieces(body, sent, chunk, cont)| <= 1
  {
  }

  lemma {:induction false} TailPieceCount(body: seq<byte>, sent: nat, chunk: pos, cont: seq<byte>)
    requires sent <= |body|
    ensures var n := |TailPieces(body, sent, chunk, cont)|;
            sent + n * chunk >= |body| && (n > 0 ==> sent + (n - 1) * chunk < |body|)
    decreases |body| - sent
  {
    if |body| - sent > chunk {
      var n := |TailPieces(body, sent + chunk, chunk, cont)|;
      TailPieceCount(body, sent + chunk, chunk, cont);
      OneMore(n, chunk);
      if n > 0 {
        OneMore(n - 1, chunk);
      }
    } else if sent < |body| {
      LastPieceIsLast(body, sent, chunk, cont);
    }
  }

  /**
    All of a message: the pieces that begin with a header join to what is sent, there are as
    few as the chunk size allows, and each after the first is a continuation header with the
    next part of the body.
   */
  lemma PiecesOnWire(prev: Option<SentPacket>, m: Message, chunk: pos, i: nat)
    requires 1 <= i < |Pieces(prev, m, chunk)|
    ensures Concat(Pieces(prev, m, chunk)) == MessageWire(prev, m, chunk)
    ensures i * chunk < |m.body| <= |Pieces(prev, m, chunk)| * chunk
    ensures Pieces(prev, m, chunk)[i] == Continuation(m.channel, WireStamp(prev, m))
                                         + m.body[i * chunk..Least(i * chunk + chunk, |m.body|)]
  {
    hide Continuation, WireStamp, TailPieces, MessageWire;
    var cont, sent := Continuation(m.channel, WireStamp(prev, m)), Min(chunk, |m.body|);
    var tail := TailPieces(m.body, sent, chunk, cont);
    WireInPieces(prev, m, chunk);
    assert |Pieces(prev, m, chunk)| == |tail| + 1 && Pieces(prev, m, chunk)[i] == tail[i - 1];
    OneMore(i - 1, chunk);
    TailPieceAt(m.body, sent, chunk, cont, i - 1, sent + (i - 1) * chunk);
    TailPieceCount(m.body, sent, chunk, cont);
    OneMore(|tail|, chunk);
  }

  // ----- what decides the header ------------------------------------------

  /**
    The timestamp on the wire and the type: absolute and as asked for without a previous
    packet of the channel or for a full header; else relative, and as short as size, type and
    delta allow, if they are those of the previous packet.
   */
  lemma HeaderChosen(prev: Option<SentPacket>, m: Message)
    ensures prev.None? || m.ty == 0 ==> WireStamp(prev, m) == m.stamp && FinalType(prev, m) == m.ty
    ensures prev.Some? && m.ty != 0 ==>
              (WireStamp(prev, m) as int - (m.stamp - prev.value.stamp)) % 4294967296 == 0
    ensures prev.Some? && m.ty == 1 ==>
              var same := prev.value.size == |m.body| && prev.value.ptype == m.ptype;
              && (FinalType(prev, m) == 1 <==> !same)
              && (FinalType(prev, m) == 2 <==> same && WireStamp(prev, m) != prev.value.lastWire)
              && (FinalType(prev, m) == 3 <==> same && WireStamp(prev, m) == prev.value.lastWire)
    ensures Remember(prev, m) == SentPacket(FinalType(prev, m), m.channel, m.ptype, m.stamp, m.info, |m.body|,
                                            WireStamp(prev, m))
  {
  }

  // ----- receiving --------------------------------------------------------

  // What the first byte says of the basic header's length.
  function BasicTaken(b: byte): nat {
    if b as int % 64 == 0 then 2 else if b as int % 64 == 1 then 3 else 1
  }

  predicate Stamps(input: seq<byte>, at: nat, size: nat, h: Header)
    requires at + size <= |input|
  {
    && (h.ty == 3 ==> h.wire == 0 && !h.extended)
    && (h.ty < 3 && h.extended ==> Big3(input, at, 16777215) && Big4(input, at + size, h.wire))
    && (h.ty < 3 && !h.extended ==> Big3(input, at, h.wire) && h.wire != 16777215)
  }

  lemma Digits(a: byte, b: byte, c: byte, d: byte, n: int)
    requires n == 16777216 * a as int + 65536 * b as int + 256 * c as int + d as int
    ensures n / 16777216 == a as int && n / 65536 % 256 == b as int && n / 256 % 256 == c as int && n % 256 == d as int
  {
    var m := 65536 * a as int + 256 * b as int + c as int;
    var l := 256 * a as int + b as int;
    assert n == 256 * m + d as int && m == 256 * l + c as int;
    assert n / 256 == m && m / 256 == l && l / 256 == a as int;
    TwoHigh(n);
  }

  lemma Decoded24(s: seq<byte>)
    requires |s| >= 3
    ensures Big3(s, 0, DecodeInt24(s))
    ensures DecodeInt24(s) == 16777215 <==> s[0] == 255 && s[1] == 255 && s[2] == 255
  {
    Digits(0, s[0], s[1], s[2], DecodeInt24(s));
  }

  lemma Decoded32(s: seq<byte>)
    requires |s| >= 4
    ensures Big4(s, 0, DecodeInt32(s)) && Little4(s, 0, DecodeInt32LE(s))
  {
    Digits(s[0], s[1], s[2], s[3], DecodeInt32(s));
    Digits(s[3], s[2], s[1], s[0], DecodeInt32LE(s));
  }

  // The fields of a header, behind the basic header.
  predicate Described(s: seq<byte>, h: Header) {
    && FieldSize(h.ty) + (if h.extended then 4 else 0) <= |s|
    && Stamps(s, 0, FieldSize(h.ty), h)
    && (if h.ty < 2 then Big3(s, 3, h.size) && h.ptype == s[6] else h.size == 0 && h.ptype == 0)
    && (if h.ty < 1 then Little4(s, 7, h.info) else h.info == 0)
  }

  // How many bytes the fields take, as far as that can be told.
  function FieldsTaken(ty: nat, s: seq<byte>): nat {
    FieldSize(ty) + if ty < 3 && |s| >= 3 && s[0] == 255 && s[1] == 255 && s[2] == 255 then 4 else 0
  }

  lemma FieldsFromWire(ty: nat, channel: nat, s: seq<byte>)
    requires ty < 4
    ensures var r := ReadFields(ty, channel, s);
            && (r.Some? <==> |s| >= FieldsTaken(ty, s))
            && (r.Some? ==>
                  && r.value.rest == s[FieldsTaken(ty, s)..]
                  && r.value.value.ty == ty && r.value.value.channel == channel && Described(s, r.value.value))
  {
    hide DecodeInt24, DecodeInt32, DecodeInt32LE;
    if |s| >= FieldSize(ty) && ty < 3 {
      var at := FieldSize(ty);
      Decoded24(s);
      if ty < 2 {
        Decoded24(s[3..]);
      }
      if ty < 1 {
        Decoded32(s[7..]);
      }
      if |s| >= at + 4 {
        Decoded32(s[at..]);
        assert s[at..][4..] == s[at + 4..];
      }
    }
  }

  /**
    A header is read if and only if all its bytes are there, four more behind three bytes ff,
    and its type, channel and fields are those bytes.
   */
  lemma HeaderFromWire(input: seq<byte>)
    requires input != []
    ensures var at, ty := BasicTaken(input[0]), input[0] as int / 64;
            var r := ReadHeader(input);
            && (r.Some? <==> |input| >= at && |input| >= at + FieldsTaken(ty, input[at..]))
            && (r.Some? ==>
                  && r.value.rest == input[at + FieldsTaken(ty, input[at..])..] && r.value.value.ty == ty
                  && r.value.value.channel == (if at == 1 then input[0] as int % 64
                                               else if at == 2 then input[1] as int + 64
                                               else input[1] as int + 256 * input[2] as int + 64)
                  && Described(input[at..], r.value.value))
  {
    hide ReadFields, Described, FieldsTaken;
    var at, ty := BasicTaken(input[0]), input[0] as int / 64;
    if |input| >= at {
      var channel := ReadBasic(input).value.value.1;
      FieldsFromWire(ty, channel, input[at..]);
    }
  }

  // The message a header begins, or goes on with.
  predicate Begun(c: Channel, h: Header, p: InPacket) {
    var before := if c.prev.Some? && h.ty != 0 then c.prev.value else InPacket(0, 0, 0, 0, false, []);
    && p.got == (if h.ty < 2 then [] else before.got) && p.size == (if h.ty < 2 then h.size else before.size)
    && p.ptype == (if h.ty < 2 then h.ptype else before.ptype) && p.info == (if h.ty < 1 then h.info else before.info)
    && p.stamp == (if h.ty < 3 then h.wire else before.stamp) && p.absolute == (h.ty == 0 || before.absolute)
  }

  // The message with a chunk's data, and what the channel keeps of it.
  predicate Joined(c: Channel, p: InPacket, extended: bool, data: seq<byte>, q: InPacket, ready: bool, d: Channel) {
    && q == p.(got := p.got + data, stamp := q.stamp) && (ready <==> |p.got| + |data| == p.size)
    && q.stamp == (if !ready || p.absolute then p.stamp else (p.stamp + c.stamp) % 4294967296)
    && d.stamp == (if ready then q.stamp else c.stamp)
    && d.prev == Some(p.(stamp := if extended then 16777215 else p.stamp, absolute := !ready && p.absolute,
                         got := if ready then [] else p.got + data))
  }

  lemma BeginMeans(c: Channel, h: Header)
    requires h.ty < 4
    ensures Begun(c, h, Begin(c, h))
  {
  }

  lemma FinishMeans(c: Channel, p: InPacket, extended: bool, data: seq<byte>)
    ensures var s := Finish(c, p, extended, data);
            Joined(c, p, extended, data, s.packet, s.ready, s.channel)
  {
  }

  /**
    A chunk: with size and type its message begins anew, else it goes on; as many bytes are
    taken as the message still needs, one chunk at most, and the message is complete with
    the last of them. Its timestamp is then absolute if it had a full header, else added to
    the channel's.
   */
  lemma ChunkFromWire(cs: Channels, chunk: pos, h: Header, input: seq<byte>) returns (p: InPacket, n: nat)
    requires h.ty < 4
    ensures Begun(if h.channel in cs then cs[h.channel] else Channel(None, 0), h, p)
    ensures n == if p.size < |p.got| then 0 else Least(chunk, p.size - |p.got|)
    ensures ReadBody(cs, chunk, h, input).ReadOk? <==> |input| >= n
    ensures |input| >= n ==>
              var r := ReadBody(cs, chunk, h, input);
              && r.rest == input[n..] && r.channel == h.channel && h.channel in r.channels
              && r.channels == cs[h.channel := r.channels[h.channel]]
              && Joined(if h.channel in cs then cs[h.channel] else Channel(None, 0), p, h.extended, input[..n],
                        r.packet, r.ready, r.channels[h.channel])
  {
    hide Begin, Finish, Begun, Joined;
    var c := At(cs, h.channel);
    p := Begin(c, h);
    n := ChunkLength(p, chunk);
    BeginMeans(c, h);
    if |input| >= n {
      FinishMeans(c, p, h.extended, input[..n]);
    }
  }

  /**
    A packet is read just when its header and its chunk are there.
   */
  lemma PacketFromWire(cs: Channels, chunk: pos, input: seq<byte>)
    requires input != []
    ensures var h := ReadHeader(input);
            ReadPacket(cs, chunk, input)
            == if h.None? then ReadFailed else ReadBody(cs, chunk, h.value.value, h.value.rest)
    ensures ReadPacket(cs, chunk, []).ReadFailed?
  {
  }
}
