/**
  Extended timestamps, of 0xffffff and more. The sender repeats them in every continuation
  header (src/rtmp/librtmp/rtmp.c:4273-4287), the reader looks for them only behind a header
  that carries a timestamp (3889-3926) and then keeps 0xffffff as the stamp to repeat (3970).
  So exactly the messages of ChunkRoundTrip.StampReadable come back.
 */
module ChunkExtended {
  import opened Common
  import opened IntCodec
  import opened ChunkSpec
  import opened ChunkRoundTrip

  // ----- the sender's chunks as bytes -------------------------------------

  function Concat(pieces: seq<seq<byte>>): seq<byte> {
    if pieces == [] then [] else pieces[0] + Concat(pieces[1..])
  }

  function TailPieces(body: seq<byte>, sent: nat, chunk: pos, cont: seq<byte>): seq<seq<byte>>
    requires sent <= |body|
    decreases |body| - sent
  {
    if sent == |body| then [] else
    var n := Min(chunk, |body| - sent);
    [cont + body[sent..sent + n]] + TailPieces(body, sent + n, chunk, cont)
  }

  // The bytes of a message, cut where the sender starts a chunk.
  function Pieces(prev: Option<SentPacket>, m: Message, chunk: pos): seq<seq<byte>> {
    var n := Min(chunk, |m.body|);
    [HeaderBytes(FirstHeader(prev, m)) + m.body[..n]]
    + TailPieces(m.body, n, chunk, Continuation(m.channel, WireStamp(prev, m)))
  }

  lemma {:induction false} TailInPieces(body: seq<byte>, sent: nat, chunk: pos, cont: seq<byte>)
    requires sent <= |body|
    ensures Concat(TailPieces(body, sent, chunk, cont)) == Tail(body, sent, chunk, cont)
    decreases |body| - sent
  {
    if sent < |body| {
      var n := Min(chunk, |body| - sent);
      TailInPieces(body, sent + n, chunk, cont);
      assert TailPieces(body, sent, chunk, cont)[1..] == TailPieces(body, sent + n, chunk, cont);
    }
  }

  lemma WireInPieces(prev: Option<SentPacket>, m: Message, chunk: pos)
    ensures Concat(Pieces(prev, m, chunk)) == MessageWire(prev, m, chunk)
  {
    var n := Min(chunk, |m.body|);
    var cont := Continuation(m.channel, WireStamp(prev, m));
    FirstFields(prev, m);
    TailInPieces(m.body, n, chunk, cont);
    assert Pieces(prev, m, chunk)[1..] == TailPieces(m.body, n, chunk, cont);
    Associative(HeaderBytes(FirstHeader(prev, m)), m.body[..n], Tail(m.body, n, chunk, cont));
  }

  // What a message's reads deliver, if each takes just the sender's next chunk and only the
  // last completes a message.
  function ReadInStep(cs: Channels, chunk: pos, pieces: seq<seq<byte>>, rest: seq<byte>): Option<Delivered>
    decreases |pieces|
  {
    if pieces == [] then None else
    var r := ReadPacket(cs, chunk, Concat(pieces) + rest);
    if r.ReadFailed? || r.rest != Concat(pieces[1..]) + rest || r.ready != (|pieces| == 1) then None
    else if r.ready then Some(AsDelivered(r.channel, r.packet))
    else ReadInStep(r.channels, chunk, pieces[1..], rest)
  }

  // ----- the first chunk --------------------------------------------------

  // A repeated delta of the extended range is taken for 0xffffff.
  function StampTaken(prev: Option<SentPacket>, m: Message): u32 {
    if FinalType(prev, m) == MINIMUM then Min(WireStamp(prev, m), EXTENDED) else WireStamp(prev, m)
  }

  lemma FirstHeaderTaken(c: Channel, prev: Option<SentPacket>, m: Message)
    requires Sendable(prev, m) && Synced(c, prev)
    ensures Encodable(FirstHeader(prev, m))
    ensures Begin(c, FirstHeader(prev, m)) == Partial(prev, m, 0).(stamp := StampTaken(prev, m))
  {
  }

  // The first chunk of a longer message, whatever its stamp.
  lemma FirstChunkTaken(cs: Channels, prev: Option<SentPacket>, m: Message, chunk: pos, rest: seq<byte>)
    requires Sendable(prev, m) && Synced(At(cs, m.channel), prev) && |m.body| > chunk
    ensures var held := Partial(prev, m, chunk).(stamp := Min(WireStamp(prev, m), EXTENDED));
            var c1 := Channel(Some(held), At(cs, m.channel).stamp);
            var r := ReadPacket(cs, chunk, HeaderBytes(FirstHeader(prev, m)) + m.body[..chunk] + rest);
            && r.ReadOk? && !r.ready && r.rest == rest && r.channels == cs[m.channel := c1]
            && r.channel == m.channel && r.packet.got == m.body[..chunk]
  {
    hide ReadPacket;
    FirstHeaderTaken(At(cs, m.channel), prev, m);
    assert [] + m.body[..chunk] == m.body[..chunk];
    ReadsChunk(cs, Chunk(FirstHeader(prev, m), m.body[..chunk]), chunk, rest);
  }

  // The only chunk of a short message: all but a repeated extended delta comes back.
  lemma OnlyChunkTaken(cs: Channels, prev: Option<SentPacket>, m: Message, chunk: pos, rest: seq<byte>)
    requires Sendable(prev, m) && Synced(At(cs, m.channel), prev) && |m.body| <= chunk
    ensures var r := ReadPacket(cs, chunk, MessageWire(prev, m, chunk) + rest);
            && r.ReadOk? && r.ready && r.rest == rest
            && AsDelivered(r.channel, r.packet)
               == Expected(m).(stamp := if FinalType(prev, m) == MINIMUM && WireStamp(prev, m) > EXTENDED
                                        then Plus32(EXTENDED, prev.value.stamp) else m.stamp)
  {
    hide ReadPacket;
    var c := At(cs, m.channel);
    FirstHeaderTaken(c, prev, m);
    StampRestored(c, prev, m);
    assert m.body[..|m.body|] == m.body && [] + m.body == m.body;
    WireInPieces(prev, m, chunk);
    assert Concat(Pieces(prev, m, chunk)[1..]) == [];
    assert MessageWire(prev, m, chunk) == HeaderBytes(FirstHeader(prev, m)) + m.body;
    ReadsChunk(cs, Chunk(FirstHeader(prev, m), m.body), chunk, rest);
  }

  lemma DeltasDiffer(a: u32, b: u32, s: u32)
    ensures Plus32(a, s) == Plus32(b, s) <==> a == b
  {
  }

  /**
    What follows an extended timestamp: the reader has kept 0xffffff, so a header without a
    timestamp is right if and only if the delta it stands for is at most 0xffffff.
   */
  lemma RepeatedDelta(cs: Channels, prev: Option<SentPacket>, m: Message, chunk: pos, rest: seq<byte>)
    requires Sendable(prev, m) && Synced(At(cs, m.channel), prev) && |m.body| <= chunk && FinalType(prev, m) == MINIMUM
    ensures var r := ReadPacket(cs, chunk, MessageWire(prev, m, chunk) + rest);
            && r.ReadOk? && r.ready && r.rest == rest
            && r.packet.stamp == Plus32(Min(WireStamp(prev, m), EXTENDED), prev.value.stamp)
            && (r.packet.stamp == m.stamp <==> WireStamp(prev, m) <= EXTENDED)
  {
    hide ReadPacket;
    OnlyChunkTaken(cs, prev, m, chunk, rest);
    StampRestored(At(cs, m.channel), prev, m);
    DeltasDiffer(EXTENDED, WireStamp(prev, m), prev.value.stamp);
  }

  // ----- the second chunk -------------------------------------------------

  // The four bytes of the repeated timestamp become body bytes, and as many body bytes stay.
  lemma SecondChunkTaken(cs: Channels, prev: Option<SentPacket>, m: Message, chunk: pos, n: nat, found: seq<byte>,
                         more: seq<byte>)
    returns (r: ReadResult)
    requires Sendable(prev, m) && WireStamp(prev, m) >= EXTENDED && |m.body| > chunk
    requires At(cs, m.channel).prev == Some(Partial(prev, m, chunk).(stamp := EXTENDED))
    requires n == Min(chunk, |m.body| - chunk)
    requires found == EncodeInt32(WireStamp(prev, m)) + m.body[chunk..chunk + n] && |found| == 4 + n
    ensures r == ReadPacket(cs, chunk, Basic(MINIMUM, m.channel) + found + more)
    ensures r.ReadOk? && r.channel == m.channel && r.rest == found[n..] + more
    ensures r.packet.got == m.body[..chunk] + found[..n] && (r.ready <==> chunk + n == |m.body|)
    ensures !r.ready ==> r.channels == cs[m.channel := Channel(Some(r.packet), At(cs, m.channel).stamp)]
  {
    hide ReadPacket;
    var h := NextHeader(m.channel);
    assert HeaderBytes(h) == Basic(MINIMUM, m.channel);
    assert Basic(MINIMUM, m.channel) + found + more == HeaderBytes(h) + found[..n] + (found[n..] + more);
    ReadsChunk(cs, Chunk(h, found[..n]), chunk, found[n..] + more);
    r := ReadPacket(cs, chunk, Basic(MINIMUM, m.channel) + found + more);
  }

  // The bytes of a message of several chunks, up to the third.
  lemma TwoPieces(prev: Option<SentPacket>, m: Message, chunk: pos)
    returns (first: seq<byte>, second: seq<byte>, others: seq<seq<byte>>)
    requires |m.body| > chunk
    ensures Pieces(prev, m, chunk) == [first, second] + others
    ensures first == HeaderBytes(FirstHeader(prev, m)) + m.body[..chunk]
    ensures second == Continuation(m.channel, WireStamp(prev, m)) + m.body[chunk..chunk + Min(chunk, |m.body| - chunk)]
    ensures others == [] <==> |m.body| - chunk <= chunk
  {
    var n := Min(chunk, |m.body| - chunk);
    var cont := Continuation(m.channel, WireStamp(prev, m));
    first := HeaderBytes(FirstHeader(prev, m)) + m.body[..chunk];
    second := cont + m.body[chunk..chunk + n];
    others := TailPieces(m.body, chunk + n, chunk, cont);
  }

  lemma ConcatUnfolds(first: seq<byte>, others: seq<seq<byte>>, rest: seq<byte>)
    ensures Concat([first] + others) + rest == first + (Concat(others) + rest)
  {
    assert ([first] + others)[1..] == others;
  }

  /**
    An extended timestamp and a body longer than a chunk: the first chunk is read as sent; the
    second puts the four bytes of the repeated timestamp into the body and leaves the reader
    four bytes behind the sender.
   */
  lemma ExtendedStampsAreNotReadBack(cs: Channels, prev: Option<SentPacket>, m: Message, chunk: pos, rest: seq<byte>)
    returns (r1: ReadResult, r2: ReadResult)
    requires Sendable(prev, m) && Synced(At(cs, m.channel), prev)
    requires WireStamp(prev, m) >= EXTENDED && |m.body| > chunk
    ensures r1 == ReadPacket(cs, chunk, MessageWire(prev, m, chunk) + rest)
    ensures r1.ReadOk? && !r1.ready && r1.rest == Concat(Pieces(prev, m, chunk)[1..]) + rest
    ensures r2 == ReadPacket(r1.channels, chunk, r1.rest)
    ensures r2.ReadOk? && r2.channel == m.channel && |r2.rest| == 4 + |Concat(Pieces(prev, m, chunk)[2..]) + rest|
    ensures var n := Min(chunk, |m.body| - chunk);
            && r2.packet.got == m.body[..chunk] + (EncodeInt32(WireStamp(prev, m)) + m.body[chunk..chunk + n])[..n]
            && (r2.ready <==> chunk + n == |m.body|)
            && (!r2.ready ==> At(r2.channels, m.channel).prev == Some(r2.packet))
  {
    hide ReadPacket, Basic, Fields, WireStamp, FinalType, Synced, Sendable, Partial;
    var first, second, others := TwoPieces(prev, m, chunk);
    WireInPieces(prev, m, chunk);
    assert Pieces(prev, m, chunk) == [first] + ([second] + others);
    ConcatUnfolds(first, [second] + others, rest);
    ConcatUnfolds(second, others, rest);
    FirstChunkTaken(cs, prev, m, chunk, Concat([second] + others) + rest);
    r1 := ReadPacket(cs, chunk, MessageWire(prev, m, chunk) + rest);
    var n := Min(chunk, |m.body| - chunk);
    var found := EncodeInt32(WireStamp(prev, m)) + m.body[chunk..chunk + n];
    assert second == Basic(MINIMUM, m.channel) + found;
    r2 := SecondChunkTaken(r1.channels, prev, m, chunk, n, found, Concat(others) + rest);
  }

  // ----- exactly the readable stamps --------------------------------------

  lemma ReadInStepUnfolds(cs: Channels, chunk: pos, first: seq<byte>, others: seq<seq<byte>>, rest: seq<byte>,
                          r: ReadResult)
    requires r == ReadPacket(cs, chunk, first + (Concat(others) + rest))
    requires r.ReadOk? && r.rest == Concat(others) + rest && (r.ready <==> others == [])
    ensures ReadInStep(cs, chunk, [first] + others, rest)
            == if r.ready then Some(AsDelivered(r.channel, r.packet)) else ReadInStep(r.channels, chunk, others, rest)
  {
    ConcatUnfolds(first, others, rest);
    assert ([first] + others)[1..] == others;
  }

  // The reader in the middle of a message below the extended range.
  ghost predicate Midway(c: Channel, prev: Option<SentPacket>, m: Message, sent: nat) {
    && Sendable(prev, m) && WireStamp(prev, m) < EXTENDED && sent < |m.body|
    && c.prev == Some(Partial(prev, m, sent))
    && m.stamp == if FinalType(prev, m) == LARGE then WireStamp(prev, m) else Plus32(WireStamp(prev, m), c.stamp)
  }

  lemma NextChunkFits(c: Channel, prev: Option<SentPacket>, m: Message, sent: nat, n: nat, chunk: pos)
    requires Midway(c, prev, m, sent) && n == Min(chunk, |m.body| - sent)
    ensures Begin(c, NextHeader(m.channel)) == Partial(prev, m, sent)
    ensures Encodable(NextHeader(m.channel)) && ChunkLength(Partial(prev, m, sent), chunk) == n
    ensures HeaderBytes(NextHeader(m.channel)) == Continuation(m.channel, WireStamp(prev, m))
  {
  }

  // One continuation chunk.
  lemma NextChunkTaken(cs: Channels, c: Channel, prev: Option<SentPacket>, m: Message, sent: nat, n: nat, chunk: pos,
                       first: seq<byte>, more: seq<byte>) returns (s: ReadStep, r: ReadResult)
    requires c == At(cs, m.channel) && Midway(c, prev, m, sent) && n == Min(chunk, |m.body| - sent)
    requires first == Continuation(m.channel, WireStamp(prev, m)) + m.body[sent..sent + n]
    ensures r == ReadPacket(cs, chunk, first + more)
    ensures r == ReadOk(cs[m.channel := s.channel], more, m.channel, s.packet, s.ready)
    ensures s.ready <==> sent + n == |m.body|
    ensures s.ready ==> AsDelivered(m.channel, s.packet) == Expected(m)
    ensures !s.ready ==> Midway(s.channel, prev, m, sent + n)
  {
    hide ReadPacket;
    var k := Chunk(NextHeader(m.channel), m.body[sent..sent + n]);
    NextChunkFits(c, prev, m, sent, n, chunk);
    s := OnChunk(c, k.hdr, k.data);
    ReadsChunk(cs, k, chunk, more);
    r := ReadPacket(cs, chunk, first + more);
    if sent + n < |m.body| {
      MiddleChunkCollects(c, prev, m, sent, n);
    } else {
      assert k.data == m.body[sent..];
      LastChunkDelivers(c, prev, m, sent, false);
    }
  }

  lemma {:induction false} TailInStep(cs: Channels, c: Channel, prev: Option<SentPacket>, m: Message, sent: nat,
                                      chunk: pos, cont: seq<byte>, rest: seq<byte>)
    requires c == At(cs, m.channel) && Midway(c, prev, m, sent) && cont == Continuation(m.channel, WireStamp(prev, m))
    ensures ReadInStep(cs, chunk, TailPieces(m.body, sent, chunk, cont), rest) == Some(Expected(m))
    decreases |m.body| - sent
  {
    hide ReadPacket;
    var n := Min(chunk, |m.body| - sent);
    var others := TailPieces(m.body, sent + n, chunk, cont);
    var first := cont + m.body[sent..sent + n];
    var s, r := NextChunkTaken(cs, c, prev, m, sent, n, chunk, first, Concat(others) + rest);
    if sent + n < |m.body| {
      TailInStep(cs[m.channel := s.channel], s.channel, prev, m, sent + n, chunk, cont, rest);
    }
    ReadInStepUnfolds(cs, chunk, first, others, rest, r);
  }

  lemma ReadableIsInStep(cs: Channels, prev: Option<SentPacket>, m: Message, chunk: pos, rest: seq<byte>)
    requires Legal(prev, m, chunk) && Synced(At(cs, m.channel), prev) && |m.body| > chunk
    ensures ReadInStep(cs, chunk, Pieces(prev, m, chunk), rest) == Some(Expected(m))
  {
    hide ReadPacket, Basic, Fields;
    var first, second, others := TwoPieces(prev, m, chunk);
    var c := At(cs, m.channel);
    var c1 := Channel(Some(Partial(prev, m, chunk)), c.stamp);
    var cont := Continuation(m.channel, WireStamp(prev, m));
    FirstChunkTaken(cs, prev, m, chunk, Concat([second] + others) + rest);
    StampRestored(c, prev, m);
    TailInStep(cs[m.channel := c1], c1, prev, m, chunk, chunk, cont, rest);
    assert Pieces(prev, m, chunk) == [first] + ([second] + others);
    assert Pieces(prev, m, chunk)[1..] == TailPieces(m.body, chunk, chunk, cont);
    var r := ReadPacket(cs, chunk, first + (Concat([second] + others) + rest));
    ReadInStepUnfolds(cs, chunk, first, [second] + others, rest, r);
  }

  lemma LongExtendedIsNot(cs: Channels, prev: Option<SentPacket>, m: Message, chunk: pos, rest: seq<byte>)
    requires Sendable(prev, m) && Synced(At(cs, m.channel), prev)
    requires WireStamp(prev, m) >= EXTENDED && |m.body| > chunk
    ensures ReadInStep(cs, chunk, Pieces(prev, m, chunk), rest) == None
  {
    hide ReadPacket;
    var r1, r2 := ExtendedStampsAreNotReadBack(cs, prev, m, chunk, rest);
    WireInPieces(prev, m, chunk);
    assert Pieces(prev, m, chunk)[1..][1..] == Pieces(prev, m, chunk)[2..];
  }

  lemma OnlyChunkInStep(cs: Channels, prev: Option<SentPacket>, m: Message, chunk: pos, rest: seq<byte>)
    requires Sendable(prev, m) && Synced(At(cs, m.channel), prev) && |m.body| <= chunk
    ensures ReadInStep(cs, chunk, Pieces(prev, m, chunk), rest) == Some(Expected(m)) <==> StampReadable(prev, m, chunk)
  {
    hide ReadPacket;
    WireInPieces(prev, m, chunk);
    OnlyChunkTaken(cs, prev, m, chunk, rest);
    assert Pieces(prev, m, chunk)[1..] == [];
    StampRestored(At(cs, m.channel), prev, m);
    if prev.Some? {
      DeltasDiffer(EXTENDED, WireStamp(prev, m), prev.value.stamp);
    }
  }

  /**
    From any memories in step, a message is read chunk by chunk as it was sent, delivered as
    it was and nothing else consumed, if and only if its timestamp is readable: below the
    extended range, or with a body of one chunk and, if repeated, exactly 0xffffff.
   */
  lemma InStepExactlyWhenReadable(cs: Channels, prev: Option<SentPacket>, m: Message, chunk: pos, rest: seq<byte>)
    requires Sendable(prev, m) && Synced(At(cs, m.channel), prev)
    ensures ReadInStep(cs, chunk, Pieces(prev, m, chunk), rest) == Some(Expected(m)) <==> StampReadable(prev, m, chunk)
  {
    if |m.body| <= chunk {
      OnlyChunkInStep(cs, prev, m, chunk, rest);
    } else if WireStamp(prev, m) < EXTENDED {
      ReadableIsInStep(cs, prev, m, chunk, rest);
    } else {
      LongExtendedIsNot(cs, prev, m, chunk, rest);
    }
  }
}
