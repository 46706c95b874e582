/**
  The writes of RTMP_SendPacket (src/rtmp/librtmp/rtmp.c:4228-4289) against the write buffer
  of src/rtmp/rtmp-stream.c, with the sizes the stream sets up.
 */
module ChunkBuffering {
  import opened Common
  import opened IntCodec
  import opened ChunkSpec
  import opened ChunkRoundTrip
  import opened ChunkExtended
  import W = WriteBuffer

  const LONGEST_HEADER: nat := 18

  lemma HeaderIsShort(h: Header)
    ensures |HeaderBytes(h)| <= LONGEST_HEADER
  {
  }

  lemma {:induction false} TailPiecesAreShort(body: seq<byte>, sent: nat, chunk: pos, cont: seq<byte>, i: nat)
    requires sent <= |body| && |cont| <= LONGEST_HEADER && i < |TailPieces(body, sent, chunk, cont)|
    ensures |cont| < |TailPieces(body, sent, chunk, cont)[i]| <= LONGEST_HEADER + chunk
    decreases |body| - sent
  {
    if i > 0 {
      TailPiecesAreShort(body, sent + Min(chunk, |body| - sent), chunk, cont, i - 1);
    }
  }

  /**
    Each write of a message is one chunk with its header, and from every state of a run in
    which neither side has ended it can be queued.
   */
  lemma EveryChunkGetsThrough(prev: Option<SentPacket>, m: Message, i: nat, w: W.World)
    requires i < |Pieces(prev, m, 4096)|
    // 4096 is m_outChunkSize, 131072 the least write_buf_size
    requires W.Inv(w, false) && !w.failed && !w.exited && w.capacity >= 131_072
    ensures |Pieces(prev, m, 4096)[i]| <= 4096 + 18
    ensures exists es :: W.GetsThrough(w, es, Pieces(prev, m, 4096)[i])
  {
    var cont := Continuation(m.channel, WireStamp(prev, m));
    HeaderIsShort(FirstHeader(prev, m));
    if i > 0 {
      TailPiecesAreShort(m.body, Min(4096, |m.body|), 4096, cont, i - 1);
    }
    W.GetsThroughExactly(w, Pieces(prev, m, 4096)[i]);
  }
}
