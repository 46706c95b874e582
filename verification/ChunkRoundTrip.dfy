/**
  Reading what was sent: for every legal sequence of messages, and for every interleaving
  of the chunks of several channels, the reader delivers the messages that were sent.
 */
module ChunkRoundTrip {
  import opened Common
  import opened IntCodec
  import opened ChunkSpec

  datatype Chunk = Chunk(hdr: Header, data: seq<byte>)

  // ----- one header -------------------------------------------------------

  ghost predicate Encodable(h: Header) {
    && h.ty <= MINIMUM && 2 <= h.channel <= 65599 && h.size < 0x100_0000
    && (h.extended <==> h.ty < MINIMUM && h.wire >= EXTENDED)
    && (h.ty == MINIMUM ==> h.wire == 0)
    && (h.ty >= SMALL ==> h.size == 0 && h.ptype == 0)
    && (h.ty != LARGE ==> h.info == 0)
  }

  function HeaderBytes(h: Header): seq<byte> {
    Basic(h.ty, h.channel) + Fields(h.ty, h.wire, h.size, h.ptype, h.info)
  }

  lemma TypeAndChannelBits(ty: nat, low: nat)
    requires ty <= MINIMUM && low < 64
    ensures Low(64 * ty + low) == 64 * ty + low
    ensures (64 * ty + low) / 64 == ty && (64 * ty + low) % 64 == low
  {
  }

  lemma ChannelBytes(channel: nat)
    requires 64 <= channel <= 65599
    ensures channel - 64 == 256 * (Low(Shr8(channel - 64)) as int) + (Low(channel - 64) as int)
    ensures channel <= 319 ==> Low(channel - 64) == channel - 64
  {
  }

  lemma ReadsBasic(ty: nat, channel: nat, rest: seq<byte>)
    requires ty <= MINIMUM && 2 <= channel <= 65599
    ensures ReadBasic(Basic(ty, channel) + rest) == Some(Parsed((ty, channel), rest))
  {
    var b := Basic(ty, channel);
    var input := b + rest;
    assert input[|b|..] == rest;
    assert forall i :: 0 <= i < |b| ==> input[i] == b[i];
    if channel > 319 {
      TypeAndChannelBits(ty, 1);
      ChannelBytes(channel);
    } else if channel > 63 {
      TypeAndChannelBits(ty, 0);
      ChannelBytes(channel);
    } else {
      TypeAndChannelBits(ty, channel);
    }
  }

  lemma ReadsSize(size: u24, ptype: byte)
    ensures DecodeInt24(EncodeInt24(size) + [ptype]) == size
  {
    RoundTrip24(size);
  }

  // Where the decoders look when the pieces of a header are put together.
  lemma PiecesFound(ty: nat, stamp: seq<byte>, sized: seq<byte>, stream: seq<byte>, tail: seq<byte>)
    requires ty <= MINIMUM && |stamp| == (if ty < MINIMUM then 3 else 0)
    requires |sized| == (if ty < SMALL then 4 else 0) && |stream| == (if ty == LARGE then 4 else 0)
    ensures var input := stamp + sized + (stream + tail);
            && |input| == HeaderSize(ty) + |tail| && input[HeaderSize(ty)..] == tail
            && (ty < MINIMUM ==> DecodeInt24(input) == DecodeInt24(stamp))
            && (ty < SMALL ==> DecodeInt24(input[3..]) == DecodeInt24(sized) && input[6] == sized[3])
            && (ty == LARGE ==> DecodeInt32LE(input[7..]) == DecodeInt32LE(stream))
  {
  }

  // What a header's fields and the bytes behind them look like, piece by piece.
  lemma FieldsInOrder(h: Header, rest: seq<byte>)
    returns (stamp: seq<byte>, sized: seq<byte>, stream: seq<byte>, tail: seq<byte>)
    ensures stamp == if h.ty < MINIMUM then EncodeInt24(Min(h.wire, EXTENDED)) else []
    ensures sized == if h.ty < SMALL then EncodeInt24(h.size) + [h.ptype] else []
    ensures stream == if h.ty == LARGE then EncodeInt32LE(h.info) else []
    ensures tail == (if h.ty < MINIMUM && h.wire >= EXTENDED then EncodeInt32(h.wire) else []) + rest
    ensures Fields(h.ty, h.wire, h.size, h.ptype, h.info) + rest == stamp + sized + (stream + tail)
  {
    stamp := if h.ty < MINIMUM then EncodeInt24(Min(h.wire, EXTENDED)) else [];
    sized := if h.ty < SMALL then EncodeInt24(h.size) + [h.ptype] else [];
    stream := if h.ty == LARGE then EncodeInt32LE(h.info) else [];
    tail := (if h.ty < MINIMUM && h.wire >= EXTENDED then EncodeInt32(h.wire) else []) + rest;
  }

  // What the decoders find at each offset of a header's fields.
  lemma FieldValues(h: Header, rest: seq<byte>, input: seq<byte>, tail: seq<byte>)
    requires Encodable(h) && input == Fields(h.ty, h.wire, h.size, h.ptype, h.info) + rest
    requires tail == (if h.ty < MINIMUM && h.wire >= EXTENDED then EncodeInt32(h.wire) else []) + rest
    ensures |input| == HeaderSize(h.ty) + |tail| && input[HeaderSize(h.ty)..] == tail
    ensures h.ty < MINIMUM ==> DecodeInt24(input) == Min(h.wire, EXTENDED)
    ensures h.ty < SMALL ==> DecodeInt24(input[3..]) == h.size && input[6] == h.ptype
    ensures h.ty == LARGE ==> DecodeInt32LE(input[7..]) == h.info
  {
    var stamp, sized, stream, tail1 := FieldsInOrder(h, rest);
    PiecesFound(h.ty, stamp, sized, stream, tail);
    RoundTrip24(Min(h.wire, EXTENDED));
    ReadsSize(h.size, h.ptype);
    RoundTrip32LE(h.info);
  }

  lemma ExtendedValue(wire: u32, rest: seq<byte>, tail: seq<byte>)
    requires tail == EncodeInt32(wire) + rest
    ensures |tail| >= 4 && DecodeInt32(tail) == wire && tail[4..] == rest
  {
    RoundTrip32(wire);
  }

  lemma ReadsFields(h: Header, rest: seq<byte>)
    requires Encodable(h)
    ensures ReadFields(h.ty, h.channel, Fields(h.ty, h.wire, h.size, h.ptype, h.info) + rest) == Some(Parsed(h, rest))
  {
    var input := Fields(h.ty, h.wire, h.size, h.ptype, h.info) + rest;
    var tail := (if h.extended then EncodeInt32(h.wire) else []) + rest;
    FieldValues(h, rest, input, tail);
    if h.extended {
      ExtendedValue(h.wire, rest, tail);
    } else {
      assert tail == rest;
    }
  }

  lemma ReadsHeader(h: Header, rest: seq<byte>)
    requires Encodable(h)
    ensures ReadHeader(HeaderBytes(h) + rest) == Some(Parsed(h, rest))
  {
    var fields := Fields(h.ty, h.wire, h.size, h.ptype, h.info);
    assert HeaderBytes(h) + rest == Basic(h.ty, h.channel) + (fields + rest);
    ReadsBasic(h.ty, h.channel, fields + rest);
    ReadsFields(h, rest);
  }

  // ----- lists of chunks --------------------------------------------------

  function Flatten(ks: seq<Chunk>): seq<byte> {
    if ks == [] then [] else HeaderBytes(ks[0].hdr) + ks[0].data + Flatten(ks[1..])
  }

  // What a chunk makes the reader hand on.
  function HandOn(channel: nat, s: ReadStep): seq<Delivered> {
    if s.ready then [AsDelivered(channel, s.packet)] else []
  }

  // The chunks of one channel, one after the other, on that channel's memory.
  function RunChannel(c: Channel, ks: seq<Chunk>): (Channel, seq<Delivered>)
    decreases |ks|
  {
    if ks == [] then (c, []) else
    var s := OnChunk(c, ks[0].hdr, ks[0].data);
    var (c1, ds) := RunChannel(s.channel, ks[1..]);
    (c1, HandOn(ks[0].hdr.channel, s) + ds)
  }

  // Every chunk holds just as much as the reader then expects.
  ghost predicate Fits(c: Channel, ks: seq<Chunk>, chunk: pos)
    decreases |ks|
  {
    ks != [] ==>
      && Encodable(ks[0].hdr)
      && |ks[0].data| == ChunkLength(Begin(c, ks[0].hdr), chunk)
      && Fits(OnChunk(c, ks[0].hdr, ks[0].data).channel, ks[1..], chunk)
  }

  lemma RunChannelUnfolds(c: Channel, ks: seq<Chunk>) returns (s: ReadStep, c1: Channel, ds: seq<Delivered>)
    requires ks != []
    ensures s == OnChunk(c, ks[0].hdr, ks[0].data) && (c1, ds) == RunChannel(s.channel, ks[1..])
    ensures RunChannel(c, ks) == (c1, HandOn(ks[0].hdr.channel, s) + ds)
  {
    s := OnChunk(c, ks[0].hdr, ks[0].data);
    c1, ds := RunChannel(s.channel, ks[1..]).0, RunChannel(s.channel, ks[1..]).1;
  }

  lemma {:induction false} RunAppend(c: Channel, a: seq<Chunk>, b: seq<Chunk>)
    ensures var (c1, ds) := RunChannel(c, a);
            var (c2, es) := RunChannel(c1, b);
            RunChannel(c, a + b) == (c2, ds + es)
    decreases |a|
  {
    if a == [] {
      assert a + b == b;
      NothingBefore(RunChannel(c, b).1);
    } else {
      var s, c1, ds := RunChannelUnfolds(c, a);
      assert (a + b)[0] == a[0] && (a + b)[1..] == a[1..] + b;
      RunAppend(s.channel, a[1..], b);
      Associative(HandOn(a[0].hdr.channel, s), ds, RunChannel(c1, b).1);
    }
  }

  lemma {:induction false} FitsAppend(c: Channel, a: seq<Chunk>, b: seq<Chunk>, chunk: pos)
    requires Fits(c, a, chunk) && Fits(RunChannel(c, a).0, b, chunk)
    ensures Fits(c, a + b, chunk)
    decreases |a|
  {
    if a == [] {
      assert a + b == b;
    } else {
      assert (a + b)[0] == a[0] && (a + b)[1..] == a[1..] + b;
      FitsAppend(OnChunk(c, a[0].hdr, a[0].data).channel, a[1..], b, chunk);
    }
  }

  // The chunks of several channels.
  function Run(cs: Channels, ks: seq<Chunk>): seq<Delivered>
    decreases |ks|
  {
    if ks == [] then [] else
    var s := OnChunk(At(cs, ks[0].hdr.channel), ks[0].hdr, ks[0].data);
    HandOn(ks[0].hdr.channel, s) + Run(cs[ks[0].hdr.channel := s.channel], ks[1..])
  }

  ghost predicate AllFit(cs: Channels, ks: seq<Chunk>, chunk: pos)
    decreases |ks|
  {
    ks != [] ==>
      && Encodable(ks[0].hdr)
      && |ks[0].data| == ChunkLength(Begin(At(cs, ks[0].hdr.channel), ks[0].hdr), chunk)
      && AllFit(cs[ks[0].hdr.channel := OnChunk(At(cs, ks[0].hdr.channel), ks[0].hdr, ks[0].data).channel], ks[1..],
         chunk)
  }

  lemma ReadsChunk(cs: Channels, k: Chunk, chunk: pos, rest: seq<byte>)
    requires Encodable(k.hdr) && |k.data| == ChunkLength(Begin(At(cs, k.hdr.channel), k.hdr), chunk)
    ensures var s := OnChunk(At(cs, k.hdr.channel), k.hdr, k.data);
            ReadPacket(cs, chunk, HeaderBytes(k.hdr) + k.data + rest)
            == ReadOk(cs[k.hdr.channel := s.channel], rest, k.hdr.channel, s.packet, s.ready)
  {
    assert HeaderBytes(k.hdr) + k.data + rest == HeaderBytes(k.hdr) + (k.data + rest);
    ReadsHeader(k.hdr, k.data + rest);
    assert (k.data + rest)[..|k.data|] == k.data && (k.data + rest)[|k.data|..] == rest;
  }

  function Prepend(ds: seq<Delivered>, later: Option<seq<Delivered>>): Option<seq<Delivered>> {
    if later.None? then None else Some(ds + later.value)
  }

  lemma PrependTwice(a: seq<Delivered>, b: seq<Delivered>, later: Option<seq<Delivered>>)
    ensures Prepend(a, Prepend(b, later)) == Prepend(a + b, later)
    ensures Prepend([], later) == later
  {
    if later.Some? {
      assert a + (b + later.value) == (a + b) + later.value;
      assert [] + later.value == later.value;
    }
  }

  // Reading a chunk and then the rest.
  lemma ReadAllStep(cs: Channels, k: Chunk, chunk: pos, rest: seq<byte>, s: ReadStep)
    requires Encodable(k.hdr) && |k.data| == ChunkLength(Begin(At(cs, k.hdr.channel), k.hdr), chunk)
    requires s == OnChunk(At(cs, k.hdr.channel), k.hdr, k.data)
    ensures ReadAll(cs, chunk, HeaderBytes(k.hdr) + k.data + rest)
            == Prepend(HandOn(k.hdr.channel, s), ReadAll(cs[k.hdr.channel := s.channel], chunk, rest))
  {
    ReadsChunk(cs, k, chunk, rest);
    assert |Basic(k.hdr.ty, k.hdr.channel)| > 0;
  }

  lemma {:induction false} ReadsChunks(cs: Channels, ks: seq<Chunk>, chunk: pos)
    requires AllFit(cs, ks, chunk)
    ensures ReadAll(cs, chunk, Flatten(ks)) == Some(Run(cs, ks))
    decreases |ks|
  {
    if ks != [] {
      var k := ks[0];
      var s := OnChunk(At(cs, k.hdr.channel), k.hdr, k.data);
      assert Flatten(ks) == HeaderBytes(k.hdr) + k.data + Flatten(ks[1..]);
      ReadAllStep(cs, k, chunk, Flatten(ks[1..]), s);
      ReadsChunks(cs[k.hdr.channel := s.channel], ks[1..], chunk);
      assert Run(cs, ks) == HandOn(k.hdr.channel, s) + Run(cs[k.hdr.channel := s.channel], ks[1..]);
    }
  }

  // ----- a message as chunks ----------------------------------------------

  function FirstHeader(prev: Option<SentPacket>, m: Message): Header {
    var ty := FinalType(prev, m);
    Header(ty, m.channel, if ty < MINIMUM then WireStamp(prev, m) else 0,
           if ty < SMALL then |m.body| else 0, if ty < SMALL then m.ptype else 0, if ty == LARGE then m.info else 0,
           ty < MINIMUM && WireStamp(prev, m) >= EXTENDED)
  }

  function NextHeader(channel: nat): Header {
    Header(MINIMUM, channel, 0, 0, 0, 0, false)
  }

  function TailChunks(body: seq<byte>, sent: nat, chunk: pos, channel: nat): seq<Chunk>
    requires sent <= |body|
    decreases |body| - sent
  {
    if sent == |body| then [] else
    var n := Min(chunk, |body| - sent);
    [Chunk(NextHeader(channel), body[sent..sent + n])] + TailChunks(body, sent + n, chunk, channel)
  }

  function MessageChunks(prev: Option<SentPacket>, m: Message, chunk: pos): seq<Chunk> {
    var n := Min(chunk, |m.body|);
    [Chunk(FirstHeader(prev, m), m.body[..n])] + TailChunks(m.body, n, chunk, m.channel)
  }

  // What the sender must respect: a full header first on each channel, and one stream id per
  // channel.
  ghost predicate Sendable(prev: Option<SentPacket>, m: Message) {
    && 2 <= m.channel <= 65599 && |m.body| < 0x100_0000
    && (m.ty == LARGE || m.ty == MEDIUM)
    && (prev.None? ==> m.ty == LARGE)
    && (prev.Some? && m.ty != LARGE ==> m.info == prev.value.info)
  }

  // The timestamps the reader can follow: below the extended range any; in it, one chunk only,
  // and not by a type 3 header, unless the stamp is 0xffffff itself.
  predicate StampReadable(prev: Option<SentPacket>, m: Message, chunk: pos) {
    || WireStamp(prev, m) < EXTENDED
    || (|m.body| <= chunk && (FinalType(prev, m) == MINIMUM ==> WireStamp(prev, m) == EXTENDED))
  }

  ghost predicate Legal(prev: Option<SentPacket>, m: Message, chunk: pos) {
    Sendable(prev, m) && StampReadable(prev, m, chunk)
  }

  lemma {:induction false} TailIsChunks(body: seq<byte>, sent: nat, chunk: pos, channel: nat, cont: seq<byte>)
    requires sent <= |body| && cont == HeaderBytes(NextHeader(channel))
    ensures Tail(body, sent, chunk, cont) == Flatten(TailChunks(body, sent, chunk, channel))
    decreases |body| - sent
  {
    if sent < |body| {
      var n := Min(chunk, |body| - sent);
      TailIsChunks(body, sent + n, chunk, channel, cont);
      var ks := TailChunks(body, sent, chunk, channel);
      assert ks[1..] == TailChunks(body, sent + n, chunk, channel);
    }
  }

  lemma FirstFields(prev: Option<SentPacket>, m: Message)
    ensures var h := FirstHeader(prev, m);
            Fields(FinalType(prev, m), WireStamp(prev, m), |m.body|, m.ptype, m.info)
                == Fields(h.ty, h.wire, h.size, h.ptype, h.info)
  {
  }

  lemma MessageIsChunks(prev: Option<SentPacket>, m: Message, chunk: pos)
    requires Legal(prev, m, chunk)
    ensures MessageWire(prev, m, chunk) == Flatten(MessageChunks(prev, m, chunk))
  {
    var n := Min(chunk, |m.body|);
    var wire := WireStamp(prev, m);
    var cont := Continuation(m.channel, wire);
    if n < |m.body| {
      assert HeaderBytes(NextHeader(m.channel)) == cont;
      TailIsChunks(m.body, n, chunk, m.channel, cont);
    }
    var ks := MessageChunks(prev, m, chunk);
    assert ks[1..] == TailChunks(m.body, n, chunk, m.channel);
    FirstFields(prev, m);
    Associative(HeaderBytes(ks[0].hdr), m.body[..n], Tail(m.body, n, chunk, cont));
  }

  // ----- the two memories agree -------------------------------------------

  // The receiver's memory of a channel matches the sender's between messages.
  ghost predicate Synced(c: Channel, prev: Option<SentPacket>) {
    prev.Some? ==>
      var p := prev.value;
      && c.stamp == p.stamp
      && c.prev == Some(InPacket(p.ptype, Min(p.lastWire, EXTENDED), p.info, p.size, false, []))
  }

  // The receiver's packet for message m once `sent` bytes of the body are in.
  function Partial(prev: Option<SentPacket>, m: Message, sent: nat): InPacket
    requires sent <= |m.body|
  {
    InPacket(m.ptype, WireStamp(prev, m), m.info, |m.body|, FinalType(prev, m) == LARGE, m.body[..sent])
  }

  function Expected(m: Message): Delivered {
    Delivered(m.channel, m.ptype, m.stamp, m.info, m.body)
  }

  // The compressed header plus the memory of the channel gives back the whole header.
  lemma HeaderRestored(c: Channel, prev: Option<SentPacket>, m: Message, chunk: pos)
    requires Legal(prev, m, chunk) && Synced(c, prev)
    ensures Begin(c, FirstHeader(prev, m)) == Partial(prev, m, 0)
    ensures Encodable(FirstHeader(prev, m))
  {
  }

  // The absolute timestamp comes back.
  lemma StampRestored(c: Channel, prev: Option<SentPacket>, m: Message)
    requires Sendable(prev, m) && Synced(c, prev)
    ensures m.stamp == if FinalType(prev, m) == LARGE then WireStamp(prev, m) else Plus32(WireStamp(prev, m), c.stamp)
  {
  }

  lemma LastChunkDelivers(c: Channel, prev: Option<SentPacket>, m: Message, sent: nat, extended: bool)
    requires Sendable(prev, m) && sent <= |m.body|
             && (extended <==> WireStamp(prev, m) >= EXTENDED && FinalType(prev, m) < MINIMUM)
    requires WireStamp(prev, m) <= EXTENDED || extended
    requires m.stamp == if FinalType(prev, m) == LARGE then WireStamp(prev, m) else Plus32(WireStamp(prev, m), c.stamp)
    ensures var s := Finish(c, Partial(prev, m, sent), extended, m.body[sent..]);
            && s.ready && AsDelivered(m.channel, s.packet) == Expected(m) && Synced(s.channel, Some(Remember(prev, m)))
  {
    assert m.body[..sent] + m.body[sent..] == m.body;
  }

  lemma MiddleChunkCollects(c: Channel, prev: Option<SentPacket>, m: Message, sent: nat, n: nat)
    requires sent + n < |m.body|
    ensures var s := Finish(c, Partial(prev, m, sent), false, m.body[sent..sent + n]);
            !s.ready && s.channel == Channel(Some(Partial(prev, m, sent + n)), c.stamp)
  {
    assert m.body[..sent] + m.body[sent..sent + n] == m.body[..sent + n];
  }

  lemma {:induction false} TailOnChannel(c: Channel, prev: Option<SentPacket>, m: Message, sent: nat, chunk: pos)
    requires Sendable(prev, m) && WireStamp(prev, m) < EXTENDED && sent < |m.body|
             && c.prev == Some(Partial(prev, m, sent))
    requires m.stamp == if FinalType(prev, m) == LARGE then WireStamp(prev, m) else Plus32(WireStamp(prev, m), c.stamp)
    ensures var ks := TailChunks(m.body, sent, chunk, m.channel);
            && Fits(c, ks, chunk) && RunChannel(c, ks).1 == [Expected(m)]
            && Synced(RunChannel(c, ks).0, Some(Remember(prev, m)))
    decreases |m.body| - sent
  {
    var ks := TailChunks(m.body, sent, chunk, m.channel);
    var n := Min(chunk, |m.body| - sent);
    assert Begin(c, NextHeader(m.channel)) == Partial(prev, m, sent);
    assert ks[1..] == TailChunks(m.body, sent + n, chunk, m.channel);
    if sent + n < |m.body| {
      MiddleChunkCollects(c, prev, m, sent, n);
      TailOnChannel(Channel(Some(Partial(prev, m, sent + n)), c.stamp), prev, m, sent + n, chunk);
    } else {
      assert m.body[sent..sent + n] == m.body[sent..];
      LastChunkDelivers(c, prev, m, sent, false);
    }
  }

  // Reading the chunks of one message delivers it and leaves the two memories in step.
  lemma MessageOnChannel(c: Channel, prev: Option<SentPacket>, m: Message, chunk: pos)
    requires Legal(prev, m, chunk) && Synced(c, prev)
    ensures var ks := MessageChunks(prev, m, chunk);
            && Fits(c, ks, chunk) && RunChannel(c, ks).1 == [Expected(m)]
            && Synced(RunChannel(c, ks).0, Some(Remember(prev, m)))
  {
    var ks := MessageChunks(prev, m, chunk);
    var n := Min(chunk, |m.body|);
    HeaderRestored(c, prev, m, chunk);
    StampRestored(c, prev, m);
    assert ks[1..] == TailChunks(m.body, n, chunk, m.channel);
    if n < |m.body| {
      MiddleChunkCollects(c, prev, m, 0, n);
      TailOnChannel(Channel(Some(Partial(prev, m, n)), c.stamp), prev, m, n, chunk);
    } else {
      assert m.body[..n] == m.body[0..];
      LastChunkDelivers(c, prev, m, 0, ks[0].hdr.extended);
    }
  }

  // ----- one message after the other --------------------------------------

  ghost predicate AllLegal(ps: SentPackets, ms: seq<Message>, chunk: pos)
    decreases |ms|
  {
    ms != [] ==>
      var prev := Prev(ps, ms[0].channel);
      Legal(prev, ms[0], chunk) && AllLegal(ps[ms[0].channel := Remember(prev, ms[0])], ms[1..], chunk)
  }

  function ExpectedAll(ms: seq<Message>): (ds: seq<Delivered>)
    ensures |ds| == |ms| && forall i :: 0 <= i < |ms| ==> ds[i] == Expected(ms[i])
  {
    if ms == [] then [] else [Expected(ms[0])] + ExpectedAll(ms[1..])
  }

  ghost predicate AllSynced(cs: Channels, ps: SentPackets) {
    forall ch {:trigger Prev(ps, ch)} :: Synced(At(cs, ch), Prev(ps, ch))
  }

  lemma {:induction false} ReadsOneChannel(cs: Channels, ch: nat, ks: seq<Chunk>, chunk: pos, rest: seq<byte>)
    requires ch in cs && Fits(cs[ch], ks, chunk) && forall i :: 0 <= i < |ks| ==> ks[i].hdr.channel == ch
    ensures var (c1, ds) := RunChannel(cs[ch], ks);
            ReadAll(cs, chunk, Flatten(ks) + rest) == Prepend(ds, ReadAll(cs[ch := c1], chunk, rest))
    decreases |ks|
  {
    if ks == [] {
      assert Flatten(ks) + rest == rest && cs[ch := cs[ch]] == cs;
      PrependTwice([], [], ReadAll(cs, chunk, rest));
    } else {
      ReadsOneMore(cs, ch, ks, chunk, rest);
    }
  }

  lemma FlattenUnfolds(ks: seq<Chunk>, rest: seq<byte>)
    requires ks != []
    ensures Flatten(ks) + rest == HeaderBytes(ks[0].hdr) + ks[0].data + (Flatten(ks[1..]) + rest)
  {
  }

  lemma SetTwice(cs: Channels, ch: nat, a: Channel, b: Channel)
    ensures cs[ch := a][ch := b] == cs[ch := b]
  {
  }

  lemma {:induction false} ReadsOneMore(cs: Channels, ch: nat, ks: seq<Chunk>, chunk: pos, rest: seq<byte>)
    requires ks != [] && Fits(At(cs, ch), ks, chunk) && forall i :: 0 <= i < |ks| ==> ks[i].hdr.channel == ch
    ensures var (c1, ds) := RunChannel(At(cs, ch), ks);
            ReadAll(cs, chunk, Flatten(ks) + rest) == Prepend(ds, ReadAll(cs[ch := c1], chunk, rest))
    decreases |ks|, 0
  {
    var s, c1, ds := RunChannelUnfolds(At(cs, ch), ks);
    var cs1 := cs[ch := s.channel];
    FlattenUnfolds(ks, rest);
    ReadAllStep(cs, ks[0], chunk, Flatten(ks[1..]) + rest, s);
    ReadsOneChannel(cs1, ch, ks[1..], chunk, rest);
    SetTwice(cs, ch, s.channel, c1);
    PrependTwice(HandOn(ch, s), ds, ReadAll(cs[ch := c1], chunk, rest));
  }

  lemma {:induction false} TailChannels(body: seq<byte>, sent: nat, chunk: pos, channel: nat)
    requires sent <= |body|
    ensures forall i :: 0 <= i < |TailChunks(body, sent, chunk, channel)| ==>
              TailChunks(body, sent, chunk, channel)[i].hdr.channel == channel
    decreases |body| - sent
  {
    if sent < |body| {
      TailChannels(body, sent + Min(chunk, |body| - sent), chunk, channel);
    }
  }

  lemma ReadsMessage(cs: Channels, prev: Option<SentPacket>, m: Message, chunk: pos, rest: seq<byte>)
    returns (c1: Channel)
    requires Legal(prev, m, chunk) && Synced(At(cs, m.channel), prev)
    ensures Synced(c1, Some(Remember(prev, m)))
    ensures ReadAll(cs, chunk, MessageWire(prev, m, chunk) + rest)
            == Prepend([Expected(m)], ReadAll(cs[m.channel := c1], chunk, rest))
  {
    MessageIsChunks(prev, m, chunk);
    MessageOnChannel(At(cs, m.channel), prev, m, chunk);
    var ks := MessageChunks(prev, m, chunk);
    TailChannels(m.body, Min(chunk, |m.body|), chunk, m.channel);
    ReadsOneMore(cs, m.channel, ks, chunk, rest);
    c1 := RunChannel(At(cs, m.channel), ks).0;
  }

  /**
    Chunk round trip: from any pair of memories in step, reading the bytes sent for any legal
    sequence of messages, on any channels and with any chunk size, gives back exactly those
    messages in order: channel, type, absolute timestamp, stream and body.
   */
  lemma {:induction false} SequenceRoundTrip(cs: Channels, ps: SentPackets, ms: seq<Message>, chunk: pos)
    requires AllSynced(cs, ps) && AllLegal(ps, ms, chunk)
    ensures ReadAll(cs, chunk, SendAll(ps, ms, chunk)) == Some(ExpectedAll(ms))
    decreases |ms|
  {
    if ms != [] {
      var m := ms[0];
      var prev := Prev(ps, m.channel);
      var ps1 := ps[m.channel := Remember(prev, m)];
      var rest := SendAll(ps1, ms[1..], chunk);
      var c1 := ReadsMessage(cs, prev, m, chunk, rest);
      var cs1 := cs[m.channel := c1];
      forall ch
        ensures Synced(At(cs1, ch), Prev(ps1, ch))
      {
        assert Synced(At(cs, ch), Prev(ps, ch));
      }
      SequenceRoundTrip(cs1, ps1, ms[1..], chunk);
    }
  }

  /**
    The same from a fresh connection.
   */
  lemma RoundTrip(ms: seq<Message>, chunk: pos)
    requires AllLegal(map[], ms, chunk)
    ensures ReadAll(map[], chunk, SendAll(map[], ms, chunk)) == Some(ExpectedAll(ms))
  {
    SequenceRoundTrip(map[], map[], ms, chunk);
  }

  // ----- any interleaving -------------------------------------------------

  function OnlyChannel(ks: seq<Chunk>, ch: nat): seq<Chunk> {
    if ks == [] then []
    else (if ks[0].hdr.channel == ch then [ks[0]] else []) + OnlyChannel(ks[1..], ch)
  }

  function DeliveredOn(ds: seq<Delivered>, ch: nat): seq<Delivered> {
    if ds == [] then []
    else (if ds[0].channel == ch then [ds[0]] else []) + DeliveredOn(ds[1..], ch)
  }

  // The chunks one channel contributes for a sequence of messages.
  function ChannelChunks(prev: Option<SentPacket>, ms: seq<Message>, chunk: pos): seq<Chunk>
    decreases |ms|
  {
    if ms == [] then []
    else MessageChunks(prev, ms[0], chunk) + ChannelChunks(Some(Remember(prev, ms[0])), ms[1..], chunk)
  }

  ghost predicate LegalOn(prev: Option<SentPacket>, ms: seq<Message>, ch: nat, chunk: pos)
    decreases |ms|
  {
    ms != [] ==>
      && Legal(prev, ms[0], chunk) && ms[0].channel == ch
      && LegalOn(Some(Remember(prev, ms[0])), ms[1..], ch, chunk)
  }

  lemma {:induction false} ChannelRoundTrip(c: Channel, prev: Option<SentPacket>, ms: seq<Message>, chunk: pos, ch: nat)
    requires Synced(c, prev) && LegalOn(prev, ms, ch, chunk)
    ensures Fits(c, ChannelChunks(prev, ms, chunk), chunk)
    ensures RunChannel(c, ChannelChunks(prev, ms, chunk)).1 == ExpectedAll(ms)
    decreases |ms|
  {
    if ms != [] {
      MessageOnChannel(c, prev, ms[0], chunk);
      var a := MessageChunks(prev, ms[0], chunk);
      var b := ChannelChunks(Some(Remember(prev, ms[0])), ms[1..], chunk);
      ChannelRoundTrip(RunChannel(c, a).0, Some(Remember(prev, ms[0])), ms[1..], chunk, ch);
      RunAppend(c, a, b);
      FitsAppend(c, a, b, chunk);
    }
  }

  ghost predicate EachFits(cs: Channels, w: seq<Chunk>, chunk: pos) {
    forall ch: nat :: Fits(At(cs, ch), OnlyChannel(w, ch), chunk)
  }

  lemma OthersUnaffected(cs: Channels, w: seq<Chunk>, chunk: pos, s: ReadStep)
    requires w != [] && EachFits(cs, w, chunk) && s == OnChunk(At(cs, w[0].hdr.channel), w[0].hdr, w[0].data)
    ensures EachFits(cs[w[0].hdr.channel := s.channel], w[1..], chunk)
    ensures Encodable(w[0].hdr) && |w[0].data| == ChunkLength(Begin(At(cs, w[0].hdr.channel), w[0].hdr), chunk)
  {
    var here := w[0].hdr.channel;
    assert OnlyChannel(w, here)[1..] == OnlyChannel(w[1..], here);
    assert Fits(At(cs, here), OnlyChannel(w, here), chunk);
    forall ch: nat
      ensures Fits(At(cs[here := s.channel], ch), OnlyChannel(w[1..], ch), chunk)
    {
      assert Fits(At(cs, ch), OnlyChannel(w, ch), chunk);
      assert ch != here ==> OnlyChannel(w, ch) == OnlyChannel(w[1..], ch);
    }
  }

  // Each channel sees only its own chunks, whatever comes between them.
  lemma {:induction false} ChannelsAreIndependent(cs: Channels, w: seq<Chunk>, chunk: pos)
    requires EachFits(cs, w, chunk)
    ensures AllFit(cs, w, chunk)
    decreases |w|
  {
    if w != [] {
      var s := OnChunk(At(cs, w[0].hdr.channel), w[0].hdr, w[0].data);
      OthersUnaffected(cs, w, chunk, s);
      ChannelsAreIndependent(cs[w[0].hdr.channel := s.channel], w[1..], chunk);
    }
  }

  lemma {:induction false} ChannelDelivers(cs: Channels, w: seq<Chunk>, ch: nat)
    ensures DeliveredOn(Run(cs, w), ch) == RunChannel(At(cs, ch), OnlyChannel(w, ch)).1
    decreases |w|
  {
    if w != [] {
      var here := w[0].hdr.channel;
      var s := OnChunk(At(cs, here), w[0].hdr, w[0].data);
      var cs1 := cs[here := s.channel];
      ChannelDelivers(cs1, w[1..], ch);
      DeliveredSplits(HandOn(here, s), Run(cs1, w[1..]), ch);
      var own := OnlyChannel(w[1..], ch);
      if ch == here {
        assert OnlyChannel(w, ch)[1..] == own;
      } else {
        assert OnlyChannel(w, ch) == own;
        NothingBefore(DeliveredOn(Run(cs1, w[1..]), ch));
      }
    }
  }

  lemma DeliveredSplits(a: seq<Delivered>, b: seq<Delivered>, ch: nat)
    requires |a| <= 1
    ensures DeliveredOn(a + b, ch) == (if a != [] && a[0].channel == ch then a else []) + DeliveredOn(b, ch)
  {
    if a == [] {
      assert a + b == b;
    } else {
      assert (a + b)[1..] == b;
    }
  }

  /**
    Reader under interleaving: however the chunk streams of the channels are interleaved,
    the input is read to its end and each channel's messages are delivered complete and in
    order, because the partial message is carried per channel.
   */
  lemma InterleavedRoundTrip(w: seq<Chunk>, msgs: map<nat, seq<Message>>, chunk: pos)
    requires forall ch: nat :: OnlyChannel(w, ch) == if ch in msgs then ChannelChunks(None, msgs[ch], chunk) else []
    requires forall ch :: ch in msgs ==> LegalOn(None, msgs[ch], ch, chunk)
    ensures ReadAll(map[], chunk, Flatten(w)).Some?
    ensures forall ch :: ch in msgs ==>
              DeliveredOn(ReadAll(map[], chunk, Flatten(w)).value, ch) == ExpectedAll(msgs[ch])
  {
    forall ch: nat
      ensures Fits(At(map[], ch), OnlyChannel(w, ch), chunk)
      ensures ch in msgs ==> RunChannel(At(map[], ch), OnlyChannel(w, ch)).1 == ExpectedAll(msgs[ch])
    {
      if ch in msgs {
        ChannelRoundTrip(NEW_CHANNEL, None, msgs[ch], chunk, ch);
      }
    }
    ChannelsAreIndependent(map[], w, chunk);
    ReadsChunks(map[], w, chunk);
    forall ch | ch in msgs
      ensures DeliveredOn(Run(map[], w), ch) == ExpectedAll(msgs[ch])
    {
      ChannelDelivers(map[], w, ch);
    }
  }
}
