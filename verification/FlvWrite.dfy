/**
  Muxing packets to FLV tags (src/rtmp/flv-mux.c), and RTMP_Write (src/rtmp/librtmp/rtmp.c),
  which takes a stream of tags apart again and sends each as one message.
 */
module FlvWrite {
  import opened Common
  import opened IntCodec
  import opened Memory
  import opened ChunkSpec
  import opened ChunkIO
  import opened EncoderPacket
  import opened FlvSpec

  // ----- the muxer --------------------------------------------------------

  class Serializer {
    var bytes: seq<byte>

    constructor ()
      ensures bytes == []
    {
      bytes := [];
    }

    method W8(b: byte)
      modifies this
      ensures bytes == old(bytes) + [b]
    {
      bytes := bytes + [b];
    }

    method Wb24(n: u32)
      modifies this
      ensures bytes == old(bytes) + EncodeInt24(n)
    {
      bytes := bytes + EncodeInt24(n);
    }

    method Wb32(n: u32)
      modifies this
      ensures bytes == old(bytes) + EncodeInt32(n)
    {
      bytes := bytes + EncodeInt32(n);
    }

    method Write(data: seq<byte>)
      modifies this
      ensures bytes == old(bytes) + data
    {
      bytes := bytes + data;
    }

    // The part the two kinds of tag share.
    method Start(ptype: byte, size: nat, time: int)
      requires bytes == []
      modifies this
      ensures bytes == TagHeader(ptype, size, time)
    {
      W8(ptype);
      Wb24(AsU32(size));
      Wb24(AsU32(time));
      W8(AsU32(time) / 0x100_0000 % 0x80);
      Wb24(0);
    }

    // write_previous_tag_size
    method PreviousTagSize()
      modifies this
      ensures bytes == old(bytes) + EncodeInt32(AsU32(|old(bytes)|))
    {
      Wb32(AsU32(|bytes|));
    }
  }

  // The five extra bytes of a video tag.
  method VideoExtra(s: Serializer, p: Packet, isHeader: bool, ctOffset: int)
    requires p.kind.Video? && p.den > 0 && ctOffset == AsI32(MsTime(p, p.pts) - MsTime(p, p.dts))
    modifies s
    ensures s.bytes == old(s.bytes) + Extra(p, isHeader)
  {
    s.W8(if p.keyframe then 0x17 else 0x27);
    s.W8(if isHeader then 0 else 1);
    s.Wb24(AsU32(ctOffset));
  }

  method FlvVideo(s: Serializer, offset: int, p: Packet, isHeader: bool)
    requires s.bytes == [] && p.kind.Video? && p.den > 0
    modifies s
    ensures s.bytes == Tag(p, offset, isHeader)
  {
    var ctOffset := AsI32(MsTime(p, p.pts) - MsTime(p, p.dts));
    var time := AsI32(MsTime(p, p.dts) - offset);
    if p.data == [] {
      return;
    }
    s.Start(VIDEO, |p.data| + 5, time);
    ghost var head := s.bytes;
    VideoExtra(s, p, isHeader, ctOffset);
    s.Write(p.data);
    assert s.bytes == head + Body(p, isHeader);
    s.PreviousTagSize();
  }

  method FlvAudio(s: Serializer, offset: int, p: Packet, isHeader: bool)
    requires s.bytes == [] && p.kind.Audio? && p.den > 0
    modifies s
    ensures s.bytes == Tag(p, offset, isHeader)
  {
    var time := AsI32(MsTime(p, p.dts) - offset);
    if p.data == [] {
      return;
    }
    s.Start(AUDIO, |p.data| + 2, time);
    ghost var head := s.bytes;
    s.W8(0xaf);
    s.W8(if isHeader then 0 else 1);
    s.Write(p.data);
    assert s.bytes == head + Body(p, isHeader);
    s.PreviousTagSize();
  }

  // flv_packet_mux
  method PacketMux(p: Packet, offset: int, isHeader: bool) returns (output: seq<byte>)
    requires p.den > 0
    ensures output == Tag(p, offset, isHeader)
  {
    var s := new Serializer();
    if p.kind.Video? {
      FlvVideo(s, offset, p, isHeader);
    } else {
      FlvAudio(s, offset, p, isHeader);
    }
    output := s.bytes;
  }

  // ----- the writer -------------------------------------------------------

  // What the sender remembers after a list of messages.
  function After(ps: SentPackets, ms: seq<Message>): SentPackets
    decreases |ms|
  {
    if ms == [] then ps else After(ps[ms[0].channel := Remember(Prev(ps, ms[0].channel), ms[0])], ms[1..])
  }

  lemma {:induction false} SendAppend(ps: SentPackets, a: seq<Message>, b: seq<Message>, chunk: pos)
    ensures SendAll(ps, a + b, chunk) == SendAll(ps, a, chunk) + SendAll(After(ps, a), b, chunk)
    ensures After(ps, a + b) == After(After(ps, a), b)
    decreases |a|
  {
    if a == [] {
      assert a + b == b;
    } else {
      var first := MessageWire(Prev(ps, a[0].channel), a[0], chunk);
      var ps1 := ps[a[0].channel := Remember(Prev(ps, a[0].channel), a[0])];
      assert (a + b)[1..] == a[1..] + b;
      SendAppend(ps1, a[1..], b, chunk);
      Associative(first, SendAll(ps1, a[1..], chunk), SendAll(After(ps, a), b, chunk));
    }
  }

  lemma SendSingle(ps: SentPackets, m: Message, chunk: pos)
    ensures var prev := Prev(ps, m.channel);
            SendAll(ps, [m], chunk) == MessageWire(prev, m, chunk)
                && After(ps, [m]) == ps[m.channel := Remember(prev, m)]
  {
    var ps1 := ps[m.channel := Remember(Prev(ps, m.channel), m)];
    assert [m][1..] == [] && SendAll(ps1, [], chunk) == [] && After(ps1, []) == ps1;
  }

  // A feed that goes on after the messages already sent.
  function Going(sent: seq<Message>, more: Fed): Fed {
    Fed(sent + more.sent, more.w, more.left)
  }

  lemma FeedUnfolds(w: Pending, data: seq<byte>, info: u32, sent: seq<Message>, fed: Fed) returns (r: Round, more: Fed)
    requires Framed(w, data, info) && data != [] && fed == Going(sent, Feed(w, data, info))
    ensures r == OneRound(w, data, info)
    ensures if r.left < 0 then fed == Fed(sent + Sent(r), r.w, r.left)
            else
              && |r.rest| == r.left && Framed(r.w, r.rest, info)
              && more == Feed(r.w, r.rest, info) && fed == Going(sent + Sent(r), more)
  {
    r := OneRound(w, data, info);
    more := Fed([], r.w, 0);
    if r.left >= 0 {
      more := Feed(r.w, r.rest, info);
      Associative(sent, Sent(r), more.sent);
    }
  }

  class Writer {
    const sender: Sender
    var ptype: byte
    var bodySize: nat
    var stamp: u32
    var ty: nat
    var body: array?<byte>
    var nBytesRead: nat

    constructor (sender: Sender)
      ensures this.sender == sender && Valid() && Idle(Current())
    {
      this.sender := sender;
      ptype, bodySize, stamp, ty, body, nBytesRead := 0, 0, 0, LARGE, null, 0;
    }

    ghost predicate Valid()
      reads this
    {
      && nBytesRead <= bodySize && ty <= MINIMUM
      && (nBytesRead > 0 ==> body != null)
      && (body != null ==> body.Length == MAX_HEADER_SIZE + bodySize)
    }

    // m_write as a value
    ghost function Current(): Pending
      requires Valid()
      reads this, body
    {
      Pending(ptype, bodySize, stamp, ty, if nBytesRead == 0 then []
          else body[MAX_HEADER_SIZE..MAX_HEADER_SIZE + nBytesRead])
    }

    // Reads a tag header and makes room for the body.
    method Open(d: seq<byte>)
      requires |d| >= TAG_HEADER && Valid()
      modifies this
      ensures Valid() && Current() == ParseHeader(d) && body != null && fresh(body) && nBytesRead == 0
    {
      ptype := d[0];
      bodySize := DecodeInt24(d[1..]);
      stamp := DecodeInt24(d[4..]);
      stamp := stamp + 0x100_0000 * (d[7] as int);
      if ((ptype == AUDIO || ptype == VIDEO) && stamp == 0) || ptype == INFO {
        ty := LARGE;
      } else {
        ty := MEDIUM;
      }
      body := new byte[MAX_HEADER_SIZE + bodySize](_ => 0);
      nBytesRead := 0;
    }

    // Copies what there is of the body.
    method Copy(data: seq<byte>) returns (num: nat)
      requires Valid() && body != null
      modifies this`nBytesRead, body
      ensures Valid() && num == Wanted(old(Current()), data)
      ensures Current() == old(Current()).(got := old(Current()).got + data[..num])
      ensures nBytesRead == old(nBytesRead) + num
    {
      ghost var before := Current();
      num := bodySize - nBytesRead;
      if num > |data| {
        num := |data|;
      }
      Store(body, MAX_HEADER_SIZE + nBytesRead, data[..num]);
      nBytesRead := nBytesRead + num;
      assert body[MAX_HEADER_SIZE..MAX_HEADER_SIZE + nBytesRead] == before.got + data[..num];
    }

    // Sends the complete body as one message.
    method Flush(info: u32) returns (ok: bool, ghost m: Message)
      requires Valid() && body != null && nBytesRead == bodySize && sender as object != body
      modifies this`nBytesRead, this`body, sender, body
      ensures Valid() && ok && body == null && m == AsMessage(old(Current()), info)
              && Current() == old(Current()).(got := [])
      ensures sender.outChunkSize == old(sender.outChunkSize)
      ensures var prev := Prev(old(sender.channelsOut), CHANNEL);
              && sender.wire == old(sender.wire) + MessageWire(prev, m, sender.outChunkSize)
              && sender.channelsOut == old(sender.channelsOut)[CHANNEL := Remember(prev, m)]
    {
      m := AsMessage(Current(), info);
      assert body[MAX_HEADER_SIZE..] == m.body;
      ok := sender.SendPacket(ty, CHANNEL, ptype, stamp, info, body, bodySize);
      body := null;
      nBytesRead := 0;
    }

    // One round of the loop of RTMP_Write.
    method TakeRound(data: seq<byte>, info: u32) returns (rest: seq<byte>, s2: int, ghost sent: seq<Message>)
      requires Valid() && (Idle(Current()) ==> |SkipSignature(data)| >= TAG_HEADER)
      modifies this, sender, body
      ensures Valid() && (body == null || body == old(body) || fresh(body))
      ensures var r := OneRound(old(Current()), data, info);
              Current() == r.w && rest == r.rest && s2 == r.left && sent == Sent(r)
      ensures sender.outChunkSize == old(sender.outChunkSize)
      ensures sender.wire == old(sender.wire) + SendAll(old(sender.channelsOut), sent, sender.outChunkSize)
      ensures sender.channelsOut == After(old(sender.channelsOut), sent)
    {
      var d := data;
      if nBytesRead == 0 {
        d := SkipSignature(data);
        Open(d);
        d := d[TAG_HEADER..];
      }
      rest, s2, sent := TakeBody(d, info);
    }

    method TakeBody(data: seq<byte>, info: u32) returns (rest: seq<byte>, s2: int, ghost sent: seq<Message>)
      requires Valid() && body != null
      modifies this`nBytesRead, this`body, sender, body
      ensures Valid() && (body == null || body == old(body))
      ensures var r := BodyRound(old(Current()), data, info);
              Current() == r.w && rest == r.rest && s2 == r.left && sent == Sent(r)
      ensures sender.outChunkSize == old(sender.outChunkSize)
      ensures sender.wire == old(sender.wire) + SendAll(old(sender.channelsOut), sent, sender.outChunkSize)
      ensures sender.channelsOut == After(old(sender.channelsOut), sent)
    {
      var num := Copy(data);
      rest, s2, sent := data[num..], |data| - num, [];
      if nBytesRead == bodySize {
        var ok; ghost var m;
        ok, m := Flush(info);
        sent := [m];
        SendSingle(old(sender.channelsOut), m, sender.outChunkSize);
        rest := if s2 < 4 then [] else rest[4..];
        s2 := s2 - 4;
      }
    }

    /**
      RTMP_Write with sends that succeed: every complete tag is sent as one message, in order.
     */
    method Write(buf: seq<byte>, info: u32) returns (r: int)
      requires Valid() && ((Idle(Current()) && |buf| < TAG_HEADER) || Framed(Current(), buf, info))
      modifies this, sender, body
      ensures Valid() && sender.outChunkSize == old(sender.outChunkSize)
      ensures buf != [] && Idle(old(Current())) && |buf| < TAG_HEADER ==>
                r == 0 && Current() == old(Current()) && sender.wire == old(sender.wire)
                    && sender.channelsOut == old(sender.channelsOut)
      ensures buf == [] || !Idle(old(Current())) || |buf| >= TAG_HEADER ==>
                var fed := Feed(old(Current()), buf, info);
                && r == |buf| + fed.left && Current() == fed.w
                && sender.wire == old(sender.wire) + SendAll(old(sender.channelsOut), fed.sent, sender.outChunkSize)
                && sender.channelsOut == After(old(sender.channelsOut), fed.sent)
    {
      if buf != [] && nBytesRead == 0 && |buf| < TAG_HEADER {
        return 0;
      }
      var rest, s2 := buf, |buf|;
      ghost var w, more, sent := Current(), Feed(Current(), buf, info), [];
      ghost var fed := more;
      assert fed == Going([], more);
      while s2 != 0
        invariant Valid() && (body == null || body == old(body) || fresh(body)) && Current() == w
        invariant sender.outChunkSize == old(sender.outChunkSize)
        invariant s2 == |rest| && Framed(w, rest, info) && more == Feed(w, rest, info) && fed == Going(sent, more)
        invariant sender.wire == old(sender.wire) + SendAll(old(sender.channelsOut), sent, sender.outChunkSize)
        invariant sender.channelsOut == After(old(sender.channelsOut), sent)
        decreases s2
      {
        ghost var r;
        r, more := FeedUnfolds(w, rest, info, sent, fed);
        rest, s2 := SendRound(rest, info, r, sent, old(sender.wire), old(sender.channelsOut));
        w, sent := r.w, sent + Sent(r);
        if s2 < 0 {
          return |buf| + s2;
        }
      }
      assert sent + [] == sent;
      r := |buf| + s2;
    }

    // A round that adds to what was sent since the call began.
    method SendRound(data: seq<byte>, info: u32, ghost r: Round, ghost sent: seq<Message>, ghost wire0: seq<byte>,
                     ghost ps0: SentPackets)
      returns (rest: seq<byte>, s2: int)
      requires Valid() && (Idle(Current()) ==> |SkipSignature(data)| >= TAG_HEADER)
               && r == OneRound(Current(), data, info)
      requires sender.wire == wire0 + SendAll(ps0, sent, sender.outChunkSize) && sender.channelsOut == After(ps0, sent)
      modifies this, sender, body
      ensures Valid() && (body == null || body == old(body) || fresh(body))
      ensures Current() == r.w && rest == r.rest && s2 == r.left && sender.outChunkSize == old(sender.outChunkSize)
      ensures sender.wire == wire0 + SendAll(ps0, sent + Sent(r), sender.outChunkSize)
      ensures sender.channelsOut == After(ps0, sent + Sent(r))
    {
      ghost var now;
      rest, s2, now := TakeRound(data, info);
      SendAppend(ps0, sent, now, sender.outChunkSize);
      Associative(wire0, SendAll(ps0, sent, sender.outChunkSize), SendAll(After(ps0, sent), now, sender.outChunkSize));
    }
  }
}
