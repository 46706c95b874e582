/**
  FLV tags byte by byte (annex E of the Adobe Flash Video File Format Specification 10.1):
  what the muxer of src/rtmp/flv-mux.c writes for a packet, told without its functions.
 */
module FlvBytes {
  import opened Common
  import opened IntCodec
  import opened EncoderPacket
  import opened ChunkSpec
  import opened ChunkBytes
  import opened FlvSpec

  // ----- numbers ----------------------------------------------------------

  // ms is the time of `ticks` in milliseconds, rounded toward 0.
  predicate InMilliseconds(ticks: int, den: pos, ms: int) {
    if ticks >= 0 then ms * den <= 1000 * ticks < (ms + 1) * den else (ms - 1) * den < 1000 * ticks <= ms * den
  }

  lemma MillisecondsMeans(ticks: int, den: pos)
    ensures InMilliseconds(ticks, den, Milliseconds(ticks, den))
  {
    var x := if ticks >= 0 then ticks * 1000 else -ticks * 1000;
    var q := x / den;
    assert x == den * q + x % den;
    assert (q + 1) * den == q * den + den && (-q - 1) * den == -(q * den) - den && -q * den == -(q * den);
  }

  // Three bytes as a number with a sign.
  function Signed24(s: seq<byte>, at: nat): int
    requires at + 3 <= |s|
  {
    var n := 65536 * s[at] as int + 256 * s[at + 1] as int + s[at + 2] as int;
    if n >= 8388608 then n - 16777216 else n
  }

  // a and b differ by a multiple of n.
  ghost predicate Congruent(a: int, b: int, n: pos) {
    exists k: int :: a - b == k * n
  }

  lemma AsI32Congruent(x: int) returns (k: int)
    ensures AsI32(x) == x + k * 4294967296
  {
    var y := x + 2147483648;
    k := -(y / 4294967296);
    assert y % 4294967296 == y + k * 4294967296;
  }

  lemma AsU32Congruent(x: int) returns (k: int)
    ensures AsU32(x) == x + k * 4294967296 && 0 <= AsU32(x) < 4294967296
  {
    k := -(x / 4294967296);
  }

  // ----- what a body holds ------------------------------------------------

  // The body of a packet's tag: for H.264 video the frame type, 1 for a keyframe and 2 for any
  // other, above the codec 7, then 0 for a header and 1 for a frame, the composition time, and
  // the data; for AAC audio 0xaf, 0 or 1, and the data.
  ghost predicate IsPayload(b: seq<byte>, p: Packet, isHeader: bool)
    requires p.den > 0
  {
    if p.kind == Video then
      && |b| == 5 + |p.data| && b[5..] == p.data
      && b[0] as int / 16 == (if p.keyframe then 1 else 2) && b[0] as int % 16 == 7
      && b[1] == (if isHeader then 0 else 1)
      && Congruent(Signed24(b, 2), Milliseconds(p.pts, p.den) - Milliseconds(p.dts, p.den), 16777216)
    else
      && |b| == 2 + |p.data| && b[2..] == p.data
      && b[0] == 0xaf && b[1] == (if isHeader then 0 else 1)
  }

  lemma CompositionTime(pts: int, dts: int) returns (n: int)
    ensures n == AsU32(AsI32(AsI32(pts) - AsI32(dts)))
    ensures Congruent(Signed24(EncodeInt24(n), 0), pts - dts, 16777216)
  {
    n := AsU32(AsI32(AsI32(pts) - AsI32(dts)));
    var k1 := AsI32Congruent(pts);
    var k2 := AsI32Congruent(dts);
    var k3 := AsI32Congruent(AsI32(pts) - AsI32(dts));
    var k4 := AsU32Congruent(AsI32(AsI32(pts) - AsI32(dts)));
    var j := SignedOfEncoded(n);
    assert Signed24(EncodeInt24(n), 0) - (pts - dts) == (j + 256 * (k1 - k2 + k3 + k4)) * 16777216;
  }

  lemma SignedOfEncoded(n: nat) returns (j: int)
    ensures Signed24(EncodeInt24(n), 0) == n + j * 16777216
  {
    var a, b := n / 256, n / 256 / 256;
    assert n == 256 * a + n % 256 && a == 256 * b + a % 256 && b == 256 * (b / 256) + b % 256;
    j := -(b / 256) - if Signed24(EncodeInt24(n), 0) < 0 then 1 else 0;
  }

  // The first bytes of a body, as they are written.
  lemma BodyParts(p: Packet, isHeader: bool)
    requires p.den > 0
    ensures var b, n := Body(p, isHeader), AsU32(AsI32(MsTime(p, p.pts) - MsTime(p, p.dts)));
            if p.kind == Video then
              && |b| == 5 + |p.data| && b[0] == (if p.keyframe then 23 else 39) && b[1] == (if isHeader then 0 else 1)
              && b[2..5] == EncodeInt24(n) && b[5..] == p.data
            else
              |b| == 2 + |p.data| && b[0] == 175 && b[1] == (if isHeader then 0 else 1) && b[2..] == p.data
  {
    hide MsTime, AsU32, AsI32, EncodeInt24;
    var n := AsU32(AsI32(MsTime(p, p.pts) - MsTime(p, p.dts)));
    ThreeBytes(n);
    if p.kind == Video {
      var front := Extra(p, isHeader);
      assert front[2..] == EncodeInt24(n);
      SliceOfFront(front, p.data, 2);
    }
  }

  lemma ThreeBytes(n: nat)
    ensures |EncodeInt24(n)| == 3
  {
  }

  lemma SliceOfFront(front: seq<byte>, rest: seq<byte>, at: nat)
    requires at <= |front|
    ensures (front + rest)[at..|front|] == front[at..] && (front + rest)[|front|..] == rest
  {
  }

  lemma BodyIsPayload(p: Packet, isHeader: bool)
    requires p.den > 0
    ensures IsPayload(Body(p, isHeader), p, isHeader)
  {
    hide Body, Extra, Congruent, EncodeInt24;
    BodyParts(p, isHeader);
    if p.kind == Video {
      var b := Body(p, isHeader);
      var n := CompositionTime(Milliseconds(p.pts, p.den), Milliseconds(p.dts, p.den));
      ThreeBytes(n);
      SameThree(b, EncodeInt24(n));
    }
  }

  lemma SameThree(b: seq<byte>, three: seq<byte>)
    requires |b| >= 5 && b[2..5] == three
    ensures Signed24(b, 2) == Signed24(three, 0)
  {
    assert b[2..5][0] == b[2] && b[2..5][1] == b[3] && b[2..5][2] == b[4];
  }

  /**
    The composition time itself, where 24 bits can hold it.
   */
  lemma CompositionTimeFits(b: seq<byte>, p: Packet, isHeader: bool)
    requires p.den > 0 && p.kind == Video && IsPayload(b, p, isHeader)
    requires -8388608 <= Milliseconds(p.pts, p.den) - Milliseconds(p.dts, p.den) < 8388608
    ensures Signed24(b, 2) == Milliseconds(p.pts, p.den) - Milliseconds(p.dts, p.den)
  {
  }

  lemma SignedDigits(a: seq<byte>, b: seq<byte>)
    requires |a| == |b| == 3 && Signed24(a, 0) == Signed24(b, 0)
    ensures a == b
  {
  }

  lemma SignedIsUnique(a: seq<byte>, b: seq<byte>, ct: int)
    requires |a| == |b| == 3
    requires Congruent(Signed24(a, 0), ct, 16777216) && Congruent(Signed24(b, 0), ct, 16777216)
    ensures a == b
  {
    var k: int :| Signed24(a, 0) - ct == k * 16777216;
    var l: int :| Signed24(b, 0) - ct == l * 16777216;
    assert k == l;
    SignedDigits(a, b);
  }

  /**
    There is only one such body.
   */
  lemma PayloadIsUnique(a: seq<byte>, b: seq<byte>, p: Packet, isHeader: bool)
    requires p.den > 0 && IsPayload(a, p, isHeader) && IsPayload(b, p, isHeader)
    ensures a == b
  {
    if p.kind == Video {
      assert Signed24(a, 2) == Signed24(a[2..5], 0) && Signed24(b, 2) == Signed24(b[2..5], 0);
      SignedIsUnique(a[2..5], b[2..5], Milliseconds(p.pts, p.den) - Milliseconds(p.dts, p.den));
      assert a == [a[0], a[1]] + a[2..5] + a[5..] && b == [b[0], b[1]] + b[2..5] + b[5..];
    } else {
      assert a == [a[0], a[1]] + a[2..] && b == [b[0], b[1]] + b[2..];
    }
  }

  // ----- what a tag holds -------------------------------------------------

  // The four bytes of a tag's time, the three low ones first: the time in milliseconds less
  // the offset, as far as 31 bits hold it.
  ghost predicate HoldsTime(t: seq<byte>, at: nat, p: Packet, offset: int)
    requires p.den > 0 && at + 4 <= |t|
  {
    && t[at + 3] < 128
    && Congruent(65536 * t[at] as int + 256 * t[at + 1] as int + t[at + 2] as int + 16777216 * t[at + 3] as int,
                 Milliseconds(p.dts, p.den) - offset, 2147483648)
  }

  /**
    A packet without data gives no tag; any other gives the type, the body's size, the time,
    three zeros, the body, and the length of all that in four bytes.
   */
  lemma TagOnWire(p: Packet, offset: int, isHeader: bool)
    requires p.den > 0 && |p.data| + 5 < 16777216
    ensures var t := Tag(p, offset, isHeader);
            if p.data == [] then t == [] else
              && |t| >= 15 && t[0] == (if p.kind == Video then 9 else 8) && Big3(t, 1, |t| - 15)
              && HoldsTime(t, 4, p, offset) && t[8..11] == [0, 0, 0]
              && IsPayload(t[11..|t| - 4], p, isHeader) && Big4(t, |t| - 4, |t| - 4)
  {
    if p.data != [] {
      hide Tag, IsPayload, HoldsTime, Big3, Big4, EncodeInt24;
      var head, body, end := TagParts(p, offset, isHeader);
      ThreeParts(head, body, end, |body|, 11 + |body|);
      TimeInFront(head, body + end, p, offset);
      Associative(head, body, end);
    }
  }

  lemma SmallIsSame(n: nat)
    requires n < 4294967296
    ensures AsU32(n) == n
  {
  }

  lemma TagParts(p: Packet, offset: int, isHeader: bool) returns (head: seq<byte>, body: seq<byte>, end: seq<byte>)
    requires p.den > 0 && |p.data| + 5 < 16777216 && p.data != []
    ensures Tag(p, offset, isHeader) == head + body + end
    ensures |body| < 16777216 && IsPayload(body, p, isHeader)
    ensures |head| == 11 && head[0] == (if p.kind == Video then 9 else 8) && HoldsTime(head, 4, p, offset)
    ensures head[1..4] == EncodeInt24(|body|) && Big3(EncodeInt24(|body|), 0, |body|) && head[8..11] == [0, 0, 0]
    ensures |end| == 4 && Big4(end, 0, 11 + |body|)
  {
    hide TagHeader, EncodeInt32, EncodeInt24, IsPayload, Body, HoldsTime, Big3, Big4, TimeMs, AsU32;
    body := Body(p, isHeader);
    BodyIsPayload(p, isHeader);
    PayloadSize(body, p, isHeader);
    SmallIsSame(|body|);
    SmallIsSame(TAG_HEADER + |body|);
    head := TagHeader(TypeOf(p), |body|, TimeMs(p, offset));
    end := EncodeInt32(AsU32(TAG_HEADER + |body|));
    Int32OnWire(TAG_HEADER + |body|);
    Int24OnWire(|body|);
    HeaderTime(p, offset, TypeOf(p), |body|);
  }

  lemma PayloadSize(b: seq<byte>, p: Packet, isHeader: bool)
    requires p.den > 0 && IsPayload(b, p, isHeader)
    ensures 2 <= |b| <= 5 + |p.data|
  {
  }

  lemma ThreeParts(head: seq<byte>, body: seq<byte>, end: seq<byte>, size: u24, all: u32)
    requires |head| == 11 && head[1..4] == EncodeInt24(size) && Big3(EncodeInt24(size), 0, size)
    requires |end| == 4 && Big4(end, 0, all) && head[8..11] == [0, 0, 0]
    ensures var t := head + body + end;
            && |t| == 15 + |body| && t[0] == head[0] && Big3(t, 1, size) && t[8..11] == [0, 0, 0]
            && t[11..|t| - 4] == body && Big4(t, |t| - 4, all)
  {
    hide EncodeInt24;
    var t := head + body + end;
    assert t[1..4] == head[1..4] && t[8..11] == head[8..11] && t[|t| - 4..] == end;
    assert t[1] == t[1..4][0] && t[2] == t[1..4][1] && t[3] == t[1..4][2];
  }

  lemma TimeInFront(head: seq<byte>, rest: seq<byte>, p: Packet, offset: int)
    requires |head| == 11 && p.den > 0 && HoldsTime(head, 4, p, offset)
    ensures HoldsTime(head + rest, 4, p, offset)
  {
  }

  lemma HeaderParts(ptype: byte, size: nat, time: int)
    ensures var h := TagHeader(ptype, size, time);
            && h[0] == ptype && h[1..4] == EncodeInt24(AsU32(size)) && h[4..7] == EncodeInt24(AsU32(time))
            && h[7] == AsU32(time) / 16777216 % 128 && h[8..11] == [0, 0, 0]
  {
    hide AsU32;
  }

  lemma HeaderTime(p: Packet, offset: int, ptype: byte, size: nat)
    requires p.den > 0
    ensures var h := TagHeader(ptype, size, TimeMs(p, offset));
            && HoldsTime(h, 4, p, offset) && h[8..11] == [0, 0, 0] && h[0] == ptype
            && h[1..4] == EncodeInt24(AsU32(size))
  {
    var ms := Milliseconds(p.dts, p.den);
    var k1 := AsI32Congruent(ms);
    var k2 := AsI32Congruent(AsI32(ms) - offset);
    var k3 := AsU32Congruent(TimeMs(p, offset));
    var n := AsU32(TimeMs(p, offset));
    var j := TimeOfEncoded(n);
    var h := TagHeader(ptype, size, TimeMs(p, offset));
    HeaderParts(ptype, size, TimeMs(p, offset));
    assert 65536 * h[4] as int + 256 * h[5] as int + h[6] as int + 16777216 * h[7] as int - (ms - offset)
        == (j + 2 * (k1 + k2 + k3)) * 2147483648;
  }

  lemma TimeOfEncoded(n: nat) returns (j: int)
    requires n < 4294967296
    ensures var e := EncodeInt24(n);
            65536 * e[0] as int + 256 * e[1] as int + e[2] as int + 16777216 * (n / 16777216 % 128)
            == n + j * 2147483648
  {
    var a, b, c := n / 256, n / 256 / 256, n / 256 / 256 / 256;
    TwoHigh(n);
    assert n == 256 * a + n % 256 && a == 256 * b + a % 256 && b == 256 * c + b % 256;
    j := -(c / 128);
    assert c == 128 * (c / 128) + c % 128;
  }

  // ----- RTMP_Write -------------------------------------------------------

  /**
    A message gets a full header for media at time 0 and for metadata, tag type 18, and a
    relative one otherwise.
   */
  lemma HeaderTypeMeans(ptype: byte, stamp: u32)
    ensures HeaderType(ptype, stamp) == if ptype == 18 || ((ptype == 8 || ptype == 9) && stamp == 0) then 0 else 1
  {
  }

  /**
    The file header "FLV" and what follows it, 13 bytes, is passed over where a tag could begin.
   */
  lemma SignatureMeans(data: seq<byte>)
    ensures SkipSignature(data)
            == if |data| >= 3 && data[0] == 'F' as int && data[1] == 'L' as int && data[2] == 'V' as int
               then (if |data| >= 13 then data[13..] else []) else data
  {
  }
}
