/**
  From packets to messages and through the chunk layer: what is muxed is what a reader gets.
 */
module FlvToReader {
  import opened Common
  import opened IntCodec
  import opened ChunkSpec
  import opened ChunkRoundTrip
  import opened EncoderPacket
  import opened FlvBytes
  import opened FlvSpec

  // A call of flv_packet_mux.
  datatype Item = Item(p: Packet, offset: int, isHeader: bool)

  ghost predicate AllMuxable(items: seq<Item>) {
    forall i :: 0 <= i < |items| ==> Muxable(items[i].p, items[i].offset, items[i].isHeader)
  }

  function Tags(items: seq<Item>): seq<byte>
    requires AllMuxable(items)
  {
    if items == [] then [] else Tag(items[0].p, items[0].offset, items[0].isHeader) + Tags(items[1..])
  }

  function MessageOf(item: Item, info: u32): Message
    requires Muxable(item.p, item.offset, item.isHeader)
  {
    PacketMessage(item.p, item.offset, item.isHeader, info)
  }

  function Messages(items: seq<Item>, info: u32): (ms: seq<Message>)
    requires AllMuxable(items)
    ensures |ms| == |items| && forall i :: 0 <= i < |items| ==> ms[i] == MessageOf(items[i], info)
  {
    if items == [] then [] else [MessageOf(items[0], info)] + Messages(items[1..], info)
  }

  lemma TagIsOneRound(w: Pending, item: Item, more: seq<byte>, info: u32) returns (r: Round)
    requires Idle(w) && Muxable(item.p, item.offset, item.isHeader)
    ensures var data := Tag(item.p, item.offset, item.isHeader) + more;
            && data != [] && |SkipSignature(data)| >= TAG_HEADER && |more| < |data|
            && r == OneRound(w, data, info) && Idle(r.w)
            && r.sent == Some(MessageOf(item, info)) && r.rest == more && r.left == |more|
  {
    var body := Body(item.p, item.isHeader);
    var time := TimeMs(item.p, item.offset);
    TagRound(w, TypeOf(item.p), body, time, more, info);
    r := OneRound(w, Tag(item.p, item.offset, item.isHeader) + more, info);
  }

  /**
    FLV tag to RTMP message: the concatenated tags of any packets become exactly one message
    each, in order, with type, time and body, and all of the data is used.
   */
  lemma {:induction false} TagsBecomeMessages(w: Pending, items: seq<Item>, info: u32)
    requires Idle(w) && AllMuxable(items)
    ensures Framed(w, Tags(items), info)
    ensures var fed := Feed(w, Tags(items), info);
            fed.sent == Messages(items, info) && Idle(fed.w) && fed.left == 0
    decreases |items|
  {
    if items != [] {
      var more := Tags(items[1..]);
      var r := TagIsOneRound(w, items[0], more, info);
      TagsBecomeMessages(r.w, items[1..], info);
    }
  }

  /**
    A tag may be split between two calls within its body: the first call sends nothing and
    keeps the part, the second completes the message and goes on behind the tag.
   */
  lemma TagInTwoCalls(w: Pending, ptype: byte, body: seq<byte>, time: int, k: nat, more: seq<byte>, info: u32,
                      first: seq<byte>, second: seq<byte>) returns (kept: Pending, r: Round)
    requires Idle(w) && 0 < k < |body| < 0x100_0000 && 0 <= time < 0x8000_0000 && (ptype == 9 || ptype == 8)
    requires first == TagHeader(ptype, |body|, time) + body[..k]
    requires second == body[k..] + EncodeInt32(AsU32(TAG_HEADER + |body|)) + more
    ensures Framed(w, first, info) && Feed(w, first, info) == Fed([], kept, 0)
    ensures !Idle(kept) && r == OneRound(kept, second, info)
    ensures r.sent == Some(Message(HeaderType(ptype, time), 4, ptype, time, info, body))
    ensures r.rest == more && r.left == |more| && Idle(r.w)
  {
    kept := Pending(ptype, |body|, time, HeaderType(ptype, time), body[..k]);
    KeepsPart(w, ptype, body, time, k, info, first);
    assert Framed(kept, [], info);
    r := CompletesPart(kept, body, k, EncodeInt32(AsU32(TAG_HEADER + |body|)), more, info, second);
  }

  /**
    Any further call between the two that brings more of the body adds it to the part kept.
   */
  lemma PartGoesOn(kept: Pending, body: seq<byte>, k: nat, l: nat, info: u32)
    requires 0 < k < l < |body| && kept.got == body[..k] && kept.size == |body|
    ensures Framed(kept, body[k..l], info)
    ensures Feed(kept, body[k..l], info) == Fed([], kept.(got := body[..l]), 0)
  {
    var data := body[k..l];
    assert body[..k] + data == body[..l] && data[..l - k] == data && data[l - k..] == [];
    var r := OneRound(kept, data, info);
    assert r == Round(kept.(got := body[..l]), None, [], 0);
    assert Framed(r.w, [], info) && Feed(r.w, [], info) == Fed([], r.w, 0);
  }

  lemma KeepsPart(w: Pending, ptype: byte, body: seq<byte>, time: int, k: nat, info: u32, first: seq<byte>)
    requires Idle(w) && 0 < k < |body| < 0x100_0000 && 0 <= time < 0x8000_0000 && (ptype == 9 || ptype == 8)
    requires first == TagHeader(ptype, |body|, time) + body[..k]
    ensures |SkipSignature(first)| >= TAG_HEADER
    ensures OneRound(w, first, info)
            == Round(Pending(ptype, |body|, time, HeaderType(ptype, time), body[..k]), None, [], 0)
  {
    assert first[0] == ptype && !HasSignature(first);
    HeaderParses(ptype, |body|, time, body[..k]);
    assert first[TAG_HEADER..] == body[..k] && body[..k][..k] == body[..k] && [] + body[..k] == body[..k];
  }

  lemma CompletesPart(kept: Pending, body: seq<byte>, k: nat, end: seq<byte>, more: seq<byte>, info: u32,
                      second: seq<byte>) returns (r: Round)
    requires 0 < k < |body| && kept.got == body[..k] && kept.size == |body| && |end| == 4
    requires second == body[k..] + end + more
    ensures r == OneRound(kept, second, info)
    ensures r == Round(kept.(got := []), Some(AsMessage(kept.(got := body), info)), more, |more|)
  {
    assert second[..|body| - k] == body[k..] && body[..k] + body[k..] == body;
    assert second[|body| - k..] == end + more && (end + more)[4..] == more;
    r := OneRound(kept, second, info);
  }

  // ----- through the chunk layer ------------------------------------------

  function TimeOf(item: Item): int
    requires item.p.den > 0
  {
    TimeMs(item.p, item.offset)
  }

  // After a message at `before`: a time of 0 (a full header), one not earlier and less than
  // 2^24 - 1 ms later, or any other if the tag's body fits in a chunk behind the other media type.
  predicate TimeFits(ptype: byte, before: int, item: Item, chunk: pos)
    requires item.p.den > 0
  {
    || TimeOf(item) == 0
    || before <= TimeOf(item) < before + EXTENDED
    || (ptype != TypeOf(item.p) && |Body(item.p, item.isHeader)| <= chunk)
  }

  ghost predicate TimesFit(items: seq<Item>, chunk: pos)
    requires AllMuxable(items)
  {
    forall i {:trigger items[i]} :: 0 < i < |items| ==>
        TimeFits(TypeOf(items[i - 1].p), TimeOf(items[i - 1]), items[i], chunk)
  }

  // The same against what the sender last sent on the channel; at first only a full header will do.
  ghost predicate StartFits(ps: SentPackets, items: seq<Item>, info: u32, chunk: pos)
    requires AllMuxable(items)
  {
    items != [] && TimeOf(items[0]) != 0 ==>
      match Prev(ps, CHANNEL)
      case None => false
      case Some(prev) => prev.info == info && TimeFits(prev.ptype, prev.stamp, items[0], chunk)
  }

  /**
    The delta on the wire is extended, 16777215 or more, just when time runs back or jumps by
    that many milliseconds, unless the time is 0.
   */
  lemma ExtendedWhenTimeRunsBack(item: Item, info: u32, prev: SentPacket)
    requires Muxable(item.p, item.offset, item.isHeader) && prev.stamp < 0x8000_0000
    ensures WireStamp(Some(prev), MessageOf(item, info)) < 16777215
            <==> TimeOf(item) == 0 || prev.stamp <= TimeOf(item) < prev.stamp + 16777215
  {
  }

  lemma NextIsLegal(item: Item, info: u32, prev: Option<SentPacket>, chunk: pos)
    requires Muxable(item.p, item.offset, item.isHeader)
    requires TimeOf(item) == 0
             || (prev.Some? && prev.value.info == info && TimeFits(prev.value.ptype, prev.value.stamp, item, chunk))
    ensures Legal(prev, MessageOf(item, info), chunk)
  {
  }

  lemma {:induction false} FittingIsLegal(ps: SentPackets, items: seq<Item>, info: u32, chunk: pos)
    requires AllMuxable(items) && StartFits(ps, items, info, chunk) && TimesFit(items, chunk)
    ensures AllLegal(ps, Messages(items, info), chunk)
    decreases |items|
  {
    if items != [] {
      var m := MessageOf(items[0], info);
      var prev := Prev(ps, CHANNEL);
      NextIsLegal(items[0], info, prev, chunk);
      var ps1 := ps[CHANNEL := Remember(prev, m)];
      var rest := items[1..];
      forall i | 0 < i < |rest|
        ensures TimeFits(TypeOf(rest[i - 1].p), TimeOf(rest[i - 1]), rest[i], chunk)
      {
        assert rest[i] == items[i + 1] && rest[i - 1] == items[i];
      }
      assert rest != [] ==> rest[0] == items[1];
      FittingIsLegal(ps1, rest, info, chunk);
      assert Messages(items, info)[1..] == Messages(rest, info);
    }
  }

  // A packet as it must come out at the reader: on channel 4, as video or audio, at its time in
  // milliseconds less the offset, with its body.
  ghost predicate AsMuxed(d: Delivered, item: Item, info: u32)
    requires item.p.den > 0
  {
    && d.channel == 4 && d.ptype == (if item.p.kind == Video then 9 else 8) && d.info == info
    && d.stamp < 2147483648 && Congruent(d.stamp, Milliseconds(item.p.dts, item.p.den) - item.offset, 4294967296)
    && IsPayload(d.body, item.p, item.isHeader)
  }

  ghost predicate Arrived(items: seq<Item>, info: u32, ds: Option<seq<Delivered>>)
    requires AllMuxable(items)
  {
    ds.Some? && |ds.value| == |items| && forall i :: 0 <= i < |items| ==> AsMuxed(ds.value[i], items[i], info)
  }

  lemma ExpectedAsMuxed(item: Item, info: u32)
    requires Muxable(item.p, item.offset, item.isHeader)
    ensures AsMuxed(Expected(MessageOf(item, info)), item, info)
  {
    var ms := Milliseconds(item.p.dts, item.p.den);
    var k1 := AsI32Congruent(ms);
    var k2 := AsI32Congruent(AsI32(ms) - item.offset);
    BodyIsPayload(item.p, item.isHeader);
    assert TimeOf(item) - (ms - item.offset) == (k1 + k2) * 4294967296;
  }

  /**
    End to end: muxed, fed to RTMP_Write and read back from the wire, from any two memories
    in step, every packet arrives once, in order, with its type, time and body, if the
    timestamps on the wire are readable.
   */
  lemma MuxedPacketsArrive(cs: Channels, ps: SentPackets, w: Pending, items: seq<Item>, ms: seq<Message>,
                           info: u32, chunk: pos)
    requires AllSynced(cs, ps) && Idle(w)
    requires AllMuxable(items) && ms == Messages(items, info) && AllLegal(ps, ms, chunk)
    ensures Framed(w, Tags(items), info)
    ensures Arrived(items, info, ReadAll(cs, chunk, SendAll(ps, Feed(w, Tags(items), info).sent, chunk)))
  {
    hide AsMuxed;
    TagsBecomeMessages(w, items, info);
    SequenceRoundTrip(cs, ps, ms, chunk);
    forall i | 0 <= i < |items|
      ensures AsMuxed(ExpectedAll(ms)[i], items[i], info)
    {
      ExpectedAsMuxed(items[i], info);
    }
  }

  /**
    The same in terms of the packets' times.
   */
  lemma FittingTimesArrive(cs: Channels, ps: SentPackets, w: Pending, items: seq<Item>, info: u32, chunk: pos)
    requires AllSynced(cs, ps) && Idle(w)
    requires AllMuxable(items) && StartFits(ps, items, info, chunk) && TimesFit(items, chunk)
    ensures Framed(w, Tags(items), info)
    ensures Arrived(items, info, ReadAll(cs, chunk, SendAll(ps, Feed(w, Tags(items), info).sent, chunk)))
  {
    FittingIsLegal(ps, items, info, chunk);
    MuxedPacketsArrive(cs, ps, w, items, Messages(items, info), info, chunk);
  }
}
