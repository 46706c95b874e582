/**
  RTMP_SendPacket and RTMP_ReadPacket as src/rtmp/librtmp/rtmp.c runs them: the sender
  writes every header in front of the bytes it goes with, inside the packet's own buffer,
  and the reader takes its input piece by piece.  The socket is a sequence of bytes.
 */
module ChunkIO {
  import opened Common
  import opened IntCodec
  import opened Memory
  import opened ChunkSpec

  const MAX_HEADER_SIZE: nat := 18

  lemma HeaderSizes(ty: nat, channel: nat, wire: u32, size: nat, ptype: byte, info: u32)
    requires ty <= MINIMUM
    ensures |Basic(ty, channel)| == if channel > 319 then 3 else if channel > 63 then 2 else 1
    ensures |Fields(ty, wire, size, ptype, info)| == HeaderSize(ty) + if ty < MINIMUM && wire >= EXTENDED then 4 else 0
    ensures |Continuation(channel, wire)| == |Basic(ty, channel)| + if wire >= EXTENDED then 4 else 0
  {
  }

  class Sender {
    var channelsOut: map<nat, SentPacket>
    var outChunkSize: pos
    var wire: seq<byte>

    /**
      Sends one packet.  `body` is the packet's buffer, with MAX_HEADER_SIZE bytes of room
      before its `size` body bytes, or null for a packet without a body.  The bytes sent are
      those of the original body, although the buffer is overwritten on the way.
     */
    method SendPacket(ty: nat, channel: nat, ptype: byte, stamp: u32, info: u32, body: array?<byte>, size: nat)
      returns (ok: bool)
      requires body == null ==> size == 0
      requires body != null ==> body.Length == MAX_HEADER_SIZE + size
      modifies this, body
      ensures outChunkSize == old(outChunkSize)
      ensures ok == (ty <= MINIMUM)
      ensures var content := if body == null then [] else old(body[MAX_HEADER_SIZE..]);
              var m := Message(ty, channel, ptype, stamp, info, content);
              var prev := Prev(old(channelsOut), channel);
              if ok then
                && wire == old(wire) + MessageWire(prev, m, outChunkSize)
                && channelsOut == old(channelsOut)[channel := Remember(prev, m)]
              else
                wire == old(wire) && channelsOut == old(channelsOut)
    {
      var original := if body == null then [] else body[MAX_HEADER_SIZE..];
      var finalType, t := Compress(ty, channel, ptype, stamp, size);
      if finalType > MINIMUM {
        return false;
      }
      var buf := body;
      if buf == null {
        buf := new byte[MAX_HEADER_SIZE](_ => 0);
      }
      SendCompressed(buf, size, original, finalType, channel, ptype, info, t);
      channelsOut := channelsOut[channel := SentPacket(finalType, channel, ptype, stamp, info, size, t)];
      ok := true;
    }

    // The header type and timestamp that the channel's previous packet allows.
    method Compress(ty: nat, channel: nat, ptype: byte, stamp: u32, size: nat) returns (finalType: nat, t: u32)
      ensures finalType == TypeFor(Prev(channelsOut, channel), ty, ptype, stamp, size)
      ensures t == StampFor(Prev(channelsOut, channel), ty, stamp)
      ensures finalType <= MINIMUM <==> ty <= MINIMUM
    {
      finalType := ty;
      var last := 0;
      if channel in channelsOut && ty != LARGE {
        var p := channelsOut[channel];
        if p.size == size && p.ptype == ptype && ty == MEDIUM {
          finalType := SMALL;
        }
        if Minus32(stamp, p.stamp) == p.lastWire && finalType == SMALL {
          finalType := MINIMUM;
        }
        last := p.stamp;
      }
      t := Minus32(stamp, last);
    }

    // Writes the first header right in front of the body, then sends the chunks.
    method SendCompressed(buf: array<byte>, size: nat, ghost body: seq<byte>, ty: nat, channel: nat, ptype: byte,
                          info: u32, t: u32)
      requires buf.Length == MAX_HEADER_SIZE + size && buf[MAX_HEADER_SIZE..] == body && ty <= MINIMUM
      modifies this`wire, buf
      ensures wire == old(wire) + MessageBytes(ty, channel, t, ptype, info, body, outChunkSize)
    {
      var header := Basic(ty, channel) + Fields(ty, t, size, ptype, info);
      HeaderSizes(ty, channel, t, size, ptype, info);
      var at := MAX_HEADER_SIZE - |header|;
      Store(buf, at, header);
      assert buf[MAX_HEADER_SIZE..] == body;
      SendChunks(buf, |header|, size, body, Continuation(channel, t));
      Associative(old(wire), header, FromChunk(body, 0, outChunkSize, Continuation(channel, t)));
    }

    // The chunk loop: the body is preceded by the first chunk's header.
    method SendChunks(buf: array<byte>, headerSize: nat, size: nat, ghost body: seq<byte>, cont: seq<byte>)
      requires 1 <= |cont| <= MAX_HEADER_SIZE && 1 <= headerSize <= MAX_HEADER_SIZE
      requires |body| == size && buf.Length == MAX_HEADER_SIZE + size && buf[MAX_HEADER_SIZE..] == body
      modifies this`wire, buf
      ensures wire == old(wire) + old(buf[MAX_HEADER_SIZE - headerSize..MAX_HEADER_SIZE])
              + FromChunk(body, 0, outChunkSize, cont)
    {
      var next: nat, nSize: nat, hSize: nat, nChunk: nat := MAX_HEADER_SIZE, size, headerSize, outChunkSize;
      ghost var goal := wire + buf[next - hSize..next] + FromChunk(body, 0, outChunkSize, cont);
      while nSize + hSize != 0
        invariant 0 <= hSize && 0 <= nSize && 0 <= nChunk && MAX_HEADER_SIZE <= next
                  && hSize <= next == buf.Length - nSize
        invariant (hSize == 0 ==> nSize == 0) && (nSize > 0 ==> nChunk == outChunkSize)
        invariant Pending(goal, wire, buf[next - hSize..next], buf[next..], body, outChunkSize, cont)
        decreases nSize, hSize
      {
        if nSize < nChunk {
          nChunk := nSize;
        }
        next, hSize := SendRound(goal, buf, next, hSize, nChunk, body, cont);
        nSize := nSize - nChunk;
      }
      NothingLeft(goal, wire, buf[next - hSize..next], buf[next..], body, outChunkSize, cont);
    }

    // One round of the loop: sends a chunk and, if more is left, prepares the next header.
    method SendRound(ghost goal: seq<byte>, buf: array<byte>, at: nat, headerSize: nat, nChunk: nat,
                     ghost body: seq<byte>, cont: seq<byte>)
      returns (next: nat, hSize: nat)
      requires headerSize <= at <= buf.Length && nChunk == Min(outChunkSize, buf.Length - at)
               && 1 <= |cont| <= MAX_HEADER_SIZE <= at
      requires Pending(goal, wire, buf[at - headerSize..at], buf[at..], body, outChunkSize, cont)
      modifies this`wire, buf
      ensures next == at + nChunk && hSize <= next && (hSize == 0 <==> next == buf.Length)
      ensures Pending(goal, wire, buf[next - hSize..next], buf[next..], body, outChunkSize, cont)
    {
      SendChunk(goal, buf, at, headerSize, nChunk, body, cont);
      next := at + nChunk;
      hSize := 0;
      if next < buf.Length {
        hSize := PutContinuation(goal, buf, next, body, cont);
      } else {
        NothingLeft(goal, wire, buf[next - hSize..next], buf[next..], body, outChunkSize, cont);
      }
    }

    // Overwrites bytes already sent with the type 3 header of the next chunk.
    method PutContinuation(ghost goal: seq<byte>, buf: array<byte>, next: nat, ghost body: seq<byte>,
                           cont: seq<byte>) returns (hSize: nat)
      requires 1 <= |cont| <= MAX_HEADER_SIZE <= next < buf.Length
      requires Left(goal, wire, buf[next..], body, outChunkSize, cont)
      modifies buf
      ensures 1 <= hSize <= next
      ensures Pending(goal, wire, buf[next - hSize..next], buf[next..], body, outChunkSize, cont)
    {
      ghost var left := buf[next..];
      hSize := |cont|;
      Store(buf, next - hSize, cont);
      assert buf[next..] == left;
      ContinuesWith(goal, wire, left, body, outChunkSize, cont);
    }

    // One round: the header and the chunk behind it.
    method SendChunk(ghost goal: seq<byte>, buf: array<byte>, next: nat, hSize: nat, nChunk: nat,
                     ghost body: seq<byte>, ghost cont: seq<byte>)
      requires hSize <= next <= buf.Length && nChunk == Min(outChunkSize, buf.Length - next)
      requires Pending(goal, wire, buf[next - hSize..next], buf[next..], body, outChunkSize, cont)
      modifies this`wire
      ensures Left(goal, wire, buf[next + nChunk..], body, outChunkSize, cont)
      ensures next + nChunk == buf.Length ==> goal == wire
    {
      ghost var head, left := buf[next - hSize..next], buf[next..];
      RestAfterChunk(goal, wire, head, left, body, outChunkSize, cont);
      WriteChunk(buf, next, hSize, nChunk);
      assert left[..nChunk] == buf[next..next + nChunk];
      assert left[nChunk..] == buf[next + nChunk..];
    }

    // WriteN of a header and the chunk behind it.
    method WriteChunk(buf: array<byte>, next: nat, hSize: nat, nChunk: nat)
      requires hSize <= next && next + nChunk <= buf.Length
      modifies this`wire
      ensures wire == old(wire) + buf[next - hSize..next] + buf[next..next + nChunk]
    {
      wire := wire + buf[next - hSize..next + nChunk];
      assert buf[next - hSize..next + nChunk] == buf[next - hSize..next] + buf[next..next + nChunk];
    }
  }

  // What the chunk loop keeps: `left` of the body is unsent and `head` precedes it.
  ghost predicate Pending(goal: seq<byte>, wire: seq<byte>, head: seq<byte>, left: seq<byte>,
                          body: seq<byte>, chunk: pos, cont: seq<byte>) {
    && |left| <= |body| && left == body[|body| - |left|..]
    && goal == wire + head + FromChunk(body, |body| - |left|, chunk, cont)
  }

  // The same between two rounds.
  ghost predicate Left(goal: seq<byte>, wire: seq<byte>, left: seq<byte>,
                          body: seq<byte>, chunk: pos, cont: seq<byte>) {
    && |left| <= |body| && left == body[|body| - |left|..]
    && goal == wire + Tail(body, |body| - |left|, chunk, cont)
  }

  lemma NothingLeft(goal: seq<byte>, wire: seq<byte>, head: seq<byte>, left: seq<byte>, body: seq<byte>, chunk: pos,
                    cont: seq<byte>)
    requires head == [] && left == []
    ensures Pending(goal, wire, head, left, body, chunk, cont) <==> goal == wire
  {
    assert body[|body|..|body|] == [] && FromChunk(body, |body|, chunk, cont) == [];
  }

  lemma RestAfterChunk(goal: seq<byte>, wire: seq<byte>, head: seq<byte>, left: seq<byte>, body: seq<byte>,
                       chunk: pos, cont: seq<byte>)
    requires Pending(goal, wire, head, left, body, chunk, cont)
    ensures var n := Min(chunk, |left|);
            Left(goal, wire + head + left[..n], left[n..], body, chunk, cont)
                && (n == |left| ==> goal == wire + head + left[..n])
  {
    var sent, n := |body| - |left|, Min(chunk, |left|);
    assert left[..n] == body[sent..sent + n] && left[n..] == body[sent + n..];
    Associative(wire + head, body[sent..sent + n], Tail(body, sent + n, chunk, cont));
  }

  lemma ContinuesWith(goal: seq<byte>, wire: seq<byte>, left: seq<byte>, body: seq<byte>, chunk: pos, cont: seq<byte>)
    requires left != [] && Left(goal, wire, left, body, chunk, cont)
    ensures Pending(goal, wire, cont, left, body, chunk, cont)
  {
    var sent, n := |body| - |left|, Min(chunk, |left|);
    assert cont + body[sent..sent + n] + Tail(body, sent + n, chunk, cont) == cont + FromChunk(body, sent, chunk, cont);
    Associative(wire, cont, FromChunk(body, sent, chunk, cont));
  }

  lemma SameBytes(from: seq<byte>, n: nat)
    requires n <= |from|
    ensures forall i, j :: 0 <= i && 0 <= j && i + j < n ==> from[..n][i..][j] == from[i..][j]
  {
  }

  class Receiver {
    // m_vecChannelsIn and m_channelTimestamp, side by side.
    var channelsIn: Channels
    var inChunkSize: pos
    var input: seq<byte>

    // ReadN: all of the bytes asked for, or a failure.
    method ReadN(n: nat) returns (bytes: Option<seq<byte>>)
      modifies this`input
      ensures bytes.Some? <==> n <= |old(input)|
      ensures bytes.Some? ==> bytes.value == old(input)[..n] && input == old(input)[n..]
      ensures bytes.None? ==> input == old(input)
    {
      if |input| < n {
        return None;
      }
      bytes := Some(input[..n]);
      input := input[n..];
    }

    /**
      Reads one chunk.  On success the packet is complete exactly if `ready`.
     */
    method ReadPacket() returns (ok: bool, channel: nat, packet: InPacket, ready: bool)
      modifies this
      ensures inChunkSize == old(inChunkSize)
      ensures var r := ChunkSpec.ReadPacket(old(channelsIn), inChunkSize, old(input));
              && ok == r.ReadOk?
              && (if ok then r == ReadOk(channelsIn, input, channel, packet, ready) else channelsIn == old(channelsIn))
    {
      channel, packet, ready := 0, NO_PACKET, false;
      var hdr;
      ok, hdr := ReadHeader();
      if ok {
        ok, channel, packet, ready := ReadBody(hdr);
      }
    }

    method ReadHeader() returns (ok: bool, hdr: Header)
      modifies this`input
      ensures var r := ChunkSpec.ReadHeader(old(input));
              ok == r.Some? && (ok ==> hdr.ty <= MINIMUM && r == Some(Parsed(hdr, input)))
    {
      var ty, channel;
      ok, ty, channel := ReadBasicHeader();
      hdr := Header(ty, channel, 0, 0, 0, 0, false);
      if ok {
        ok, hdr := ReadMessageHeader(ty, channel);
      }
    }

    method ReadBody(hdr: Header) returns (ok: bool, channel: nat, packet: InPacket, ready: bool)
      requires hdr.ty <= MINIMUM
      modifies this
      ensures inChunkSize == old(inChunkSize)
      ensures var r := ChunkSpec.ReadBody(old(channelsIn), inChunkSize, hdr, old(input));
              && ok == r.ReadOk?
              && (if ok then r == ReadOk(channelsIn, input, channel, packet, ready) else channelsIn == old(channelsIn))
    {
      channel := hdr.channel;
      packet := BeginPacket(hdr);
      var data := ReadN(ChunkLength(packet, inChunkSize));
      if data.None? {
        return false, channel, packet, false;
      }
      packet, ready := FinishPacket(channel, packet, hdr.extended, data.value);
      ok := true;
    }

    // The packet as the stored one and this header make it.
    method BeginPacket(hdr: Header) returns (packet: InPacket)
      requires hdr.ty <= MINIMUM
      ensures packet == Begin(At(channelsIn, hdr.channel), hdr)
    {
      packet := NO_PACKET;
      if hdr.ty == LARGE {
        packet := packet.(absolute := true);
      } else if hdr.channel in channelsIn && channelsIn[hdr.channel].prev.Some? {
        packet := channelsIn[hdr.channel].prev.value;
      }
      if hdr.ty < MINIMUM {
        packet := packet.(stamp := hdr.wire);
        if hdr.ty < SMALL {
          packet := packet.(size := hdr.size, got := [], ptype := hdr.ptype);
          if hdr.ty == LARGE {
            packet := packet.(info := hdr.info);
          }
        }
      }
    }

    // Adds the chunk's data, stores the packet, and completes it if it is whole.
    method FinishPacket(channel: nat, begun: InPacket, extended: bool, data: seq<byte>)
      returns (packet: InPacket, ready: bool)
      modifies this`channelsIn
      ensures var s := Finish(At(old(channelsIn), channel), begun, extended, data);
              channelsIn == old(channelsIn)[channel := s.channel] && packet == s.packet && ready == s.ready
    {
      packet := begun.(got := begun.got + data);
      var stored := if extended then packet.(stamp := EXTENDED) else packet;
      var stamp := At(channelsIn, channel).stamp;
      ready := |packet.got| == packet.size;
      if ready {
        if !packet.absolute {
          packet := packet.(stamp := Plus32(packet.stamp, stamp));
        }
        stamp := packet.stamp;
        stored := stored.(got := [], absolute := false);
      }
      channelsIn := channelsIn[channel := Channel(Some(stored), stamp)];
    }

    method ReadBasicHeader() returns (ok: bool, ty: nat, channel: nat)
      modifies this`input
      ensures var r := ReadBasic(old(input));
              ok == r.Some? && (ok ==> r == Some(Parsed((ty, channel), input)))
    {
      ty, channel := 0, 0;
      var first := ReadN(1);
      if first.None? {
        return false, ty, channel;
      }
      var b := first.value[0] as int;
      ty, channel := b / 64, b % 64;
      if channel == 0 {
        var more := ReadN(1);
        if more.None? {
          return false, ty, channel;
        }
        channel := (more.value[0] as int) + 64;
      } else if channel == 1 {
        var more := ReadN(2);
        if more.None? {
          return false, ty, channel;
        }
        channel := 256 * (more.value[1] as int) + (more.value[0] as int) + 64;
      }
      ok := true;
    }

    method ReadMessageHeader(ty: nat, channel: nat) returns (ok: bool, hdr: Header)
      requires ty <= MINIMUM
      modifies this`input
      ensures ok ==> hdr.ty == ty && hdr.channel == channel
      ensures var r := ReadFields(ty, channel, old(input));
              ok == r.Some? && (ok ==> r == Some(Parsed(hdr, input)))
    {
      hdr := Header(ty, channel, 0, 0, 0, 0, false);
      var nSize := HeaderSize(ty);
      var fields := ReadN(nSize);
      if fields.None? {
        return false, hdr;
      }
      var f := fields.value;
      SameBytes(old(input), nSize);
      if nSize >= 3 {
        hdr := hdr.(wire := DecodeInt24(f));
        if nSize >= 6 {
          hdr := hdr.(size := DecodeInt24(f[3..]));
          if nSize > 6 {
            hdr := hdr.(ptype := f[6]);
            if nSize == 11 {
              hdr := hdr.(info := DecodeInt32LE(f[7..]));
            }
          }
        }
        if hdr.wire == EXTENDED {
          var ext := ReadN(4);
          if ext.None? {
            return false, hdr;
          }
          hdr := hdr.(wire := DecodeInt32(ext.value), extended := true);
        }
      }
      ok := true;
    }
  }
}
