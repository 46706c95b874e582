/**
  For which sizes an extended timestamp can be read back: every body of a size comes back from
  a fresh connection if and only if that size fits in one chunk. For a longer one a body is
  lost, even if the reader were to find something like it further on: it holds n copies of a
  byte that no header between its chunks holds, and the reader never sees n of them again.
 */
module ChunkExtendedSize {
  import opened Common
  import opened IntCodec
  import opened ChunkSpec
  import opened ChunkRoundTrip
  import opened ChunkExtended

  // ----- counting a byte --------------------------------------------------

  ghost predicate AllAre(s: seq<byte>, x: byte) {
    forall i :: 0 <= i < |s| ==> s[i] == x
  }

  function Count(s: seq<byte>, x: byte): nat {
    if s == [] then 0 else (if s[0] == x then 1 else 0) + Count(s[1..], x)
  }

  lemma {:induction false} CountConcat(a: seq<byte>, b: seq<byte>, x: byte)
    ensures Count(a + b, x) == Count(a, x) + Count(b, x)
    decreases |a|
  {
    if a == [] {
      assert a + b == b;
    } else {
      assert (a + b)[1..] == a[1..] + b;
      CountConcat(a[1..], b, x);
    }
  }

  lemma {:induction false} CountAll(s: seq<byte>, x: byte)
    ensures AllAre(s, x) ==> Count(s, x) == |s|
    ensures x !in s ==> Count(s, x) == 0
  {
    if s != [] {
      CountAll(s[1..], x);
    }
  }

  lemma CountSuffix(s: seq<byte>, k: nat, x: byte)
    requires k <= |s|
    ensures Count(s[k..], x) <= Count(s, x)
    ensures Count(s, x) == Count(s[..k], x) + Count(s[k..], x)
  {
    assert s == s[..k] + s[k..];
    CountConcat(s[..k], s[k..], x);
  }

  // A byte below k that is not among fewer than k bytes.
  lemma {:induction false} FreshByte(s: seq<byte>, k: nat) returns (x: byte)
    requires |s| < k <= 256
    ensures x < k && x !in s
  {
    var last: byte := k - 1;
    if last !in s {
      x := last;
    } else {
      var i :| 0 <= i < |s| && s[i] == last;
      x := FreshByte(s[..i] + s[i + 1..], k - 1);
      assert forall j :: 0 <= j < i ==> s[j] == (s[..i] + s[i + 1..])[j];
      assert forall j :: i < j < |s| ==> s[j] == (s[..i] + s[i + 1..])[j - 1];
    }
  }

  // ----- a byte that runs short -------------------------------------------

  // Fewer than n copies of x are left for the channel's next bodies.
  ghost predicate Short(c: Channel, left: nat, x: byte, n: nat) {
    left < n && (c.prev.Some? && AllAre(c.prev.value.got, x) ==> |c.prev.value.got| + left < n)
  }

  lemma HeaderIsInFront(input: seq<byte>)
    requires ReadHeader(input).Some?
    ensures var rest := ReadHeader(input).value.rest;
            rest == input[|input| - |rest|..]
  {
    var b := ReadBasic(input).value;
    assert b.rest == input[|input| - |b.rest|..];
  }

  lemma PacketIsInFront(cs: Channels, chunk: pos, input: seq<byte>)
    requires ReadPacket(cs, chunk, input).ReadOk?
    ensures var rest := ReadPacket(cs, chunk, input).rest;
            rest == input[|input| - |rest|..]
  {
    HeaderIsInFront(input);
  }

  // A chunk joined to its channel's packet takes its copies of x with it.
  lemma FinishKeepsShort(c: Channel, h: Header, data: seq<byte>, left: nat, x: byte, n: nat)
    requires Short(c, left + Count(data, x), x, n)
    ensures var s := OnChunk(c, h, data);
            && Short(s.channel, left, x, n)
            && (s.ready && AllAre(s.packet.got, x) ==> |s.packet.got| < n)
  {
    var p := Begin(c, h);
    assert p.got == [] || (c.prev.Some? && p.got == c.prev.value.got);
    var q := p.got + data;
    if AllAre(q, x) {
      assert forall i :: 0 <= i < |p.got| ==> p.got[i] == q[i];
      assert forall i :: 0 <= i < |data| ==> data[i] == q[|p.got| + i];
      CountAll(data, x);
    }
  }

  lemma ReadKeepsShort(cs: Channels, chunk: pos, input: seq<byte>, ch: nat, x: byte, n: nat)
    requires ReadPacket(cs, chunk, input).ReadOk? && Short(At(cs, ch), Count(input, x), x, n)
    ensures var r := ReadPacket(cs, chunk, input);
            && Short(At(r.channels, ch), Count(r.rest, x), x, n)
            && (r.ready && r.channel == ch && AllAre(r.packet.got, x) ==> |r.packet.got| < n)
  {
    var h := ReadHeader(input).value;
    HeaderIsInFront(input);
    CountSuffix(input, |input| - |h.rest|, x);
    var k := ChunkLength(Begin(At(cs, h.value.channel), h.value), chunk);
    CountSuffix(h.rest, k, x);
    if h.value.channel == ch {
      FinishKeepsShort(At(cs, ch), h.value, h.rest[..k], Count(h.rest[k..], x), x, n);
    }
  }

  lemma {:induction false} NeverDelivered(cs: Channels, chunk: pos, input: seq<byte>, x: byte, d: Delivered)
    requires AllAre(d.body, x) && Short(At(cs, d.channel), Count(input, x), x, |d.body|)
    ensures ReadAll(cs, chunk, input).Some? ==> d !in ReadAll(cs, chunk, input).value
    decreases |input|
  {
    hide ReadPacket, Short, AllAre;
    if input != [] && ReadAll(cs, chunk, input).Some? {
      var r := ReadPacket(cs, chunk, input);
      ReadKeepsShort(cs, chunk, input, d.channel, x, |d.body|);
      NeverDelivered(r.channels, chunk, r.rest, x, d);
    }
  }

  // ----- the theorem ------------------------------------------------------

  lemma {:induction false} CountTail(body: seq<byte>, sent: nat, chunk: pos, cont: seq<byte>, x: byte)
    requires sent <= |body| && AllAre(body, x) && x !in cont
    ensures Count(Tail(body, sent, chunk, cont), x) == |body| - sent
    decreases |body| - sent
  {
    if sent < |body| {
      var n := Min(chunk, |body| - sent);
      CountTail(body, sent + n, chunk, cont, x);
      CountConcat(cont + body[sent..sent + n], Tail(body, sent + n, chunk, cont), x);
      CountConcat(cont, body[sent..sent + n], x);
      CountAll(cont, x);
      CountAll(body[sent..sent + n], x);
    }
  }

  predicate ComesBack(m: Message, chunk: pos) {
    ReadAll(map[], chunk, MessageWire(None, m, chunk)) == Some([Expected(m)])
  }

  // A full header: the first message of a channel, or one after a seek.
  function Full(channel: nat, ptype: byte, stamp: u32, info: u32, body: seq<byte>): Message {
    Message(LARGE, channel, ptype, stamp, info, body)
  }

  lemma ReadsOneThen(cs: Channels, chunk: pos, input: seq<byte>, r: ReadResult)
    requires input != [] && r == ReadPacket(cs, chunk, input)
    ensures ReadAll(cs, chunk, input)
            == if r.ReadFailed? then None else
               var head := if r.ready then [AsDelivered(r.channel, r.packet)] else [];
               Prepend(head, ReadAll(r.channels, chunk, r.rest))
  {
  }

  lemma OneChunkComesBack(m: Message, chunk: pos)
    requires Sendable(None, m) && |m.body| <= chunk
    ensures ComesBack(m, chunk)
  {
    hide ReadPacket, MessageWire;
    var wire := MessageWire(None, m, chunk);
    OnlyChunkTaken(map[], None, m, chunk, []);
    assert wire + [] == wire;
    var r := ReadPacket(map[], chunk, wire);
    assert wire != [] by { assert |r.rest| < |wire|; }
    ReadsOneThen(map[], chunk, wire, r);
    assert ReadAll(r.channels, chunk, []) == Some([]);
    assert [Expected(m)] + [] == [Expected(m)];
  }

  // The first byte of a repeated timestamp.
  lemma StampInContinuation(channel: nat, wire: u32, body: seq<byte>, n: nat) returns (b: byte)
    requires wire >= EXTENDED && 1 <= n <= |body| + 4
    ensures b in Continuation(channel, wire) && (EncodeInt32(wire) + body)[..n][0] == b
  {
    b := EncodeInt32(wire)[0];
    assert Continuation(channel, wire)[|Basic(MINIMUM, channel)|] == b;
  }

  lemma LeftAfterFirst(m: Message, chunk: pos, x: byte, rest: seq<byte>)
    requires |m.body| > chunk && AllAre(m.body, x) && x !in Continuation(m.channel, m.stamp) && m.ty == LARGE
    requires rest == Concat(Pieces(None, m, chunk)[1..]) + []
    ensures Count(rest, x) == |m.body| - chunk
  {
    var cont := Continuation(m.channel, m.stamp);
    TailInPieces(m.body, chunk, chunk, cont);
    assert Pieces(None, m, chunk)[1..] == TailPieces(m.body, chunk, chunk, cont);
    CountTail(m.body, chunk, chunk, cont, x);
    assert rest == Tail(m.body, chunk, chunk, cont);
  }

  lemma NotJustThat(head: seq<Delivered>, later: Option<seq<Delivered>>, d: Delivered)
    requires (head == [] && (later.Some? ==> d !in later.value)) || (|head| == 1 && head[0] != d)
    ensures Prepend([], Prepend(head, later)) != Some([d])
  {
    PrependTwice([], [], Prepend(head, later));
    if later.Some? {
      assert head == [] ==> head + later.value == later.value;
      assert head != [] ==> (head + later.value)[0] == head[0];
      assert [d][0] == d;
    }
  }

  // n copies of a byte that the continuation headers do not hold: the second chunk brings in
  // another byte, and too few copies are left.
  lemma CopiesAreLost(m: Message, chunk: pos, x: byte)
    requires Sendable(None, m) && m.ty == LARGE && m.stamp >= EXTENDED && |m.body| > chunk
    requires AllAre(m.body, x) && x !in Continuation(m.channel, m.stamp)
    ensures !ComesBack(m, chunk)
  {
    hide ReadPacket, MessageWire, Pieces, Continuation, EncodeInt32;
    var wire := MessageWire(None, m, chunk);
    assert wire + [] == wire;
    var r1, r2 := ExtendedStampsAreNotReadBack(map[], None, m, chunk, []);
    ReadsOneThen(map[], chunk, wire, r1);
    ReadsOneThen(r1.channels, chunk, r1.rest, r2);
    var n := Min(chunk, |m.body| - chunk);
    var b := StampInContinuation(m.channel, m.stamp, m.body[chunk..chunk + n], n);
    assert r2.packet.got[chunk] == b != x;
    LeftAfterFirst(m, chunk, x, r1.rest);
    PacketIsInFront(r1.channels, chunk, r1.rest);
    CountSuffix(r1.rest, |r1.rest| - |r2.rest|, x);
    if !r2.ready {
      NeverDelivered(r2.channels, chunk, r2.rest, x, Expected(m));
    }
    var head := if r2.ready then [AsDelivered(r2.channel, r2.packet)] else [];
    NotJustThat(head, ReadAll(r2.channels, chunk, r2.rest), Expected(m));
  }

  /**
    On a fresh connection a message with an extended timestamp and a full header comes back,
    with its own bytes and nothing else, for every body of a given size if and only if that
    size fits in one chunk.
   */
  lemma ExtendedComesBackInOneChunk(channel: nat, ptype: byte, stamp: u32, info: u32, size: nat, chunk: pos)
    requires 2 <= channel <= 65599 && size < 0x100_0000 && stamp >= EXTENDED
    ensures (forall body: seq<byte> | |body| == size :: ComesBack(Full(channel, ptype, stamp, info, body), chunk))
            <==> size <= chunk
  {
    if size <= chunk {
      forall body: seq<byte> | |body| == size
        ensures ComesBack(Full(channel, ptype, stamp, info, body), chunk)
      {
        OneChunkComesBack(Full(channel, ptype, stamp, info, body), chunk);
      }
    } else {
      var x := FreshByte(Continuation(channel, stamp), 256);
      var body := seq(size, i => x);
      CopiesAreLost(Full(channel, ptype, stamp, info, body), chunk, x);
      assert !ComesBack(Full(channel, ptype, stamp, info, body), chunk);
    }
  }
}
