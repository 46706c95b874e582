/**
  The incremental MD5 of src/rtmp/librtmp/md5.c against a one-shot digest: the block function
  folded over the message padded as in sections 3.1 and 3.2 of RFC 1321.  What the block
  function computes does not matter here.
 */
module Md5 {
  import opened Common
  import opened IntCodec
  import opened Memory

  const BLOCK: nat := 64
  const LO_RANGE: nat := 0x2000_0000
  const COUNT_RANGE: nat := 0x2000_0000_0000_0000

  datatype State = State(a: u32, b: u32, c: u32, d: u32)

  type BlockFunction = (State, seq<byte>) -> State

  const INIT: State := State(0x67452301, 0xefcdab89, 0x98badcfe, 0x10325476)

  // ----- the digest in one shot -------------------------------------------

  function Fold(step: BlockFunction, s: State, m: seq<byte>): State
    requires |m| % BLOCK == 0
    decreases |m|
  {
    if m == [] then s else Fold(step, step(s, m[..BLOCK]), m[BLOCK..])
  }

  // How many zeros bring a message of n bytes and the 80 to 56 bytes in the last block.
  function ZeroCount(n: nat): (k: nat)
    ensures k < BLOCK && (n + 1 + k + 8) % BLOCK == 0
  {
    if n % BLOCK <= 55 then 55 - n % BLOCK else 119 - n % BLOCK
  }

  // A 64-bit count, low-order word first and each word low-order byte first.
  function Length64(bits: nat): (s: seq<byte>)
    ensures |s| == 8
  {
    EncodeInt32LE(bits % 0x1_0000_0000) + EncodeInt32LE(bits / 0x1_0000_0000 % 0x1_0000_0000)
  }

  function Zeros(k: nat): (s: seq<byte>)
    ensures |s| == k
  {
    seq(k, _ => 0)
  }

  function Pad(m: seq<byte>): (s: seq<byte>)
    ensures |s| % BLOCK == 0
  {
    m + [0x80] + Zeros(ZeroCount(|m|)) + Length64(8 * |m|)
  }

  function Output(s: State): seq<byte> {
    EncodeInt32LE(s.a) + EncodeInt32LE(s.b) + EncodeInt32LE(s.c) + EncodeInt32LE(s.d)
  }

  function Digest(step: BlockFunction, m: seq<byte>): seq<byte> {
    Output(Fold(step, INIT, Pad(m)))
  }

  lemma {:induction false} FoldAppend(step: BlockFunction, s: State, m: seq<byte>, n: seq<byte>)
    requires |m| % BLOCK == 0 && |n| % BLOCK == 0
    ensures Fold(step, s, m + n) == Fold(step, Fold(step, s, m), n)
    decreases |m|
  {
    if m == [] {
      assert m + n == n;
    } else {
      assert (m + n)[..BLOCK] == m[..BLOCK] && (m + n)[BLOCK..] == m[BLOCK..] + n;
      FoldAppend(step, step(s, m[..BLOCK]), m[BLOCK..], n);
    }
  }

  // ----- the counter ------------------------------------------------------

  // hi and lo hold the byte count, modulo 2^61.
  predicate Counts(lo: nat, hi: nat, n: nat) {
    lo < LO_RANGE && hi < 0x1_0000_0000 && hi * LO_RANGE + lo == n % COUNT_RANGE
  }

  // The carry of MD5_Update.
  function NextHi(lo: nat, hi: nat, size: nat): nat {
    ((if (lo + size) % LO_RANGE < lo then (hi + 1) % 0x1_0000_0000 else hi) + size / LO_RANGE) % 0x1_0000_0000
  }

  /**
    The two counters keep the byte count, whatever is added.
   */
  lemma CountersAdd(lo: nat, hi: nat, n: nat, size: nat)
    requires Counts(lo, hi, n)
    ensures Counts((lo + size) % LO_RANGE, NextHi(lo, hi, size), n + size)
  {
    var q, r := size / LO_RANGE, size % LO_RANGE;
    assert size == q * LO_RANGE + r;
    var carry := if lo + r >= LO_RANGE then 1 else 0;
    assert (lo + size) % LO_RANGE == lo + r - carry * LO_RANGE;
    var total := hi + carry + q;
    assert hi * LO_RANGE + lo + size == total * LO_RANGE + (lo + size) % LO_RANGE;
    ModTwice(hi + carry, q);
    var h := total % 0x1_0000_0000;
    assert NextHi(lo, hi, size) == h;
    assert total == (total / 0x1_0000_0000) * 0x1_0000_0000 + h;
    assert h * LO_RANGE + (lo + size) % LO_RANGE < COUNT_RANGE;
    assert n == (n / COUNT_RANGE) * COUNT_RANGE + n % COUNT_RANGE;
    Wraps(n + size, n / COUNT_RANGE + total / 0x1_0000_0000, h * LO_RANGE + (lo + size) % LO_RANGE);
  }

  lemma ModTwice(a: nat, q: nat)
    ensures (a % 0x1_0000_0000 + q) % 0x1_0000_0000 == (a + q) % 0x1_0000_0000
    ensures a < 0x1_0000_0000 ==> a % 0x1_0000_0000 == a
  {
  }

  lemma Wraps(x: nat, q: nat, r: nat)
    requires x == q * COUNT_RANGE + r && r < COUNT_RANGE
    ensures x % COUNT_RANGE == r
  {
  }

  lemma UsedBytes(lo: nat, hi: nat, n: nat)
    requires Counts(lo, hi, n)
    ensures lo % BLOCK == n % BLOCK
  {
    assert n == (n / COUNT_RANGE) * COUNT_RANGE + hi * LO_RANGE + lo;
    assert n % BLOCK == (BLOCK * ((n / COUNT_RANGE) * 0x80_0000_0000_0000 + hi * 0x80_0000) + lo) % BLOCK;
  }

  lemma SplitWord(x: nat, h: nat, l: nat)
    requires x == h * 0x1_0000_0000 + l && l < 0x1_0000_0000
    ensures x % 0x1_0000_0000 == l && x / 0x1_0000_0000 == h
  {
  }

  lemma LengthWords(lo: nat, hi: nat, n: nat)
    requires Counts(lo, hi, n)
    ensures 8 * n % 0x1_0000_0000 == 8 * lo && 8 * n / 0x1_0000_0000 % 0x1_0000_0000 == hi
  {
    var q := n / COUNT_RANGE;
    assert n == q * COUNT_RANGE + hi * LO_RANGE + lo;
    SplitWord(8 * n, q * 0x1_0000_0000 + hi, 8 * lo);
    SplitWord(q * 0x1_0000_0000 + hi, q, hi);
  }

  // ----- the context ------------------------------------------------------

  lemma WholePlus(whole: nat, n: nat)
    requires whole % BLOCK == 0
    ensures (whole + n) % BLOCK == n % BLOCK
    ensures n % BLOCK == 0 ==> (whole + n) % BLOCK == 0
    ensures n < BLOCK ==> n % BLOCK == n
  {
  }

  lemma WholePart(n: nat)
    ensures (n - n % BLOCK) % BLOCK == 0
  {
  }

  class Context {
    const step: BlockFunction
    var lo: nat
    var hi: nat
    var state: State
    const buffer: array<byte>
    // Everything given to Update so far: what is hashed, and what is still in the buffer.
    ghost var done: seq<byte>
    ghost var tail: seq<byte>

    ghost predicate Valid()
      reads this, buffer
    {
      buffer.Length == BLOCK && Counts(lo, hi, |done| + |tail|) && Absorbed(step, state, done, tail, buffer[..])
    }

    ghost function Message(): seq<byte>
      reads this
    {
      done + tail
    }

    // MD5_Init
    constructor (step: BlockFunction)
      ensures this.step == step && Valid() && Message() == [] && fresh(buffer)
    {
      this.step := step;
      lo, hi, state, done, tail := 0, 0, INIT, [], [];
      buffer := new byte[BLOCK](_ => 0);
    }

    // The block function over a stretch of whole blocks.
    method Body(data: seq<byte>)
      requires |data| % BLOCK == 0
      modifies this`state
      ensures state == Fold(step, old(state), data)
    {
      var rest := data;
      while rest != []
        invariant |rest| % BLOCK == 0 && Fold(step, state, rest) == Fold(step, old(state), data)
        decreases |rest|
      {
        state := step(state, rest[..BLOCK]);
        rest := rest[BLOCK..];
      }
    }

    /**
      MD5_Update: the message grows by the data, however it is split into calls.
     */
    method Update(data: seq<byte>)
      requires Valid()
      modifies this, buffer
      ensures Valid() && Message() == old(Message()) + data
    {
      var used := Count(data);
      var rest := data;
      if used != 0 {
        var free := BLOCK - used;
        if |data| < free {
          Store(buffer, used, data);
          assert done + tail + data == done + (tail + data);
          tail := tail + data;
          assert buffer[..|tail|] == buffer[..used] + buffer[used..|tail|];
          return;
        }
        Store(buffer, used, data[..free]);
        rest := data[free..];
        assert done + tail + data == done + (tail + data[..free]) + rest;
        assert buffer[..] == tail + data[..free];
        Body(buffer[..]);
        Advance(tail + data[..free]);
      } else {
        assert done + tail + data == done + rest;
      }
      Absorb(rest);
    }

    // Counts the data and gives the place in the buffer that is free.
    method Count(data: seq<byte>) returns (used: nat)
      requires Valid()
      modifies this`lo, this`hi
      ensures used == |tail| && Counts(lo, hi, |done| + |tail| + |data|)
    {
      var savedLo := lo;
      CountersAdd(lo, hi, |done| + |tail|, |data|);
      UsedBytes(lo, hi, |done| + |tail|);
      WholePlus(|done|, |tail|);
      lo := (savedLo + |data|) % LO_RANGE;
      if lo < savedLo {
        hi := (hi + 1) % 0x1_0000_0000;
      }
      hi := (hi + |data| / LO_RANGE) % 0x1_0000_0000;
      used := savedLo % BLOCK;
    }

    // A whole block has been hashed; nothing is left in the buffer.
    ghost method Advance(bytes: seq<byte>)
      requires |bytes| % BLOCK == 0 && |done| % BLOCK == 0 && state == Fold(step, Fold(step, INIT, done), bytes)
      modifies this`done, this`tail
      ensures done == old(done) + bytes && tail == [] && |done| % BLOCK == 0 && state == Fold(step, INIT, done)
    {
      WholePlus(|done|, |bytes|);
      FoldAppend(step, INIT, done, bytes);
      done, tail := done + bytes, [];
    }

    // The whole blocks of the data, then the rest into the buffer.
    method Absorb(data: seq<byte>)
      requires buffer.Length == BLOCK && |done| % BLOCK == 0 && state == Fold(step, INIT, done)
      modifies this`state, this`done, this`tail, buffer
      ensures Absorbed(step, state, done, tail, buffer[..]) && Message() == old(done) + data
    {
      WholePart(|data|);
      var whole := |data| - |data| % BLOCK;
      assert data == data[..whole] + data[whole..];
      assert done + data == done + data[..whole] + data[whole..];
      if |data| >= BLOCK {
        Body(data[..whole]);
      }
      Advance(data[..whole]);
      Store(buffer, 0, data[whole..]);
      tail := data[whole..];
    }

    /**
      MD5_Final: the digest of the message, as if hashed in one piece.
     */
    method Final() returns (result: seq<byte>)
      requires Valid()
      modifies this, buffer
      ensures result == Digest(step, old(Message()))
    {
      ghost var m, start := Message(), state;
      UsedBytes(lo, hi, |m|);
      WholePlus(|done|, |tail|);
      var used, free;
      ghost var first;
      used, free, first := EndMark(lo % BLOCK);
      EndBlock(used, free, m);
      if |tail| <= 55 {
        FinalOne(step, start, m, done, tail, buffer[..]);
      } else {
        FinalTwo(step, start, m, done, tail, first, buffer[..]);
      }
      Body(buffer[..]);
      result := Output(state);
      lo, hi, state, done, tail := 0, 0, State(0, 0, 0, 0), [], [];
    }

    // The 80 after the message; a block without room for the length is hashed at once.
    method EndMark(at: nat) returns (used: nat, free: nat, ghost first: seq<byte>)
      requires buffer.Length == BLOCK && at == |tail| < BLOCK && buffer[..at] == tail
      modifies this`state, buffer
      ensures used + free == BLOCK && free >= 8
      ensures |tail| <= 55 ==> buffer[..used] == tail + [0x80] && state == old(state)
      ensures |tail| > 55 ==>
                used == 0 && first == tail + [0x80] + Zeros(63 - |tail|) && state == Fold(step, old(state), first)
    {
      Store(buffer, at, [0x80]);
      used := at + 1;
      assert buffer[..used] == tail + [0x80];
      free := BLOCK - used;
      first := [];
      if free < 8 {
        Store(buffer, used, Zeros(free));
        first := buffer[..];
        assert first == tail + [0x80] + Zeros(63 - |tail|);
        Body(buffer[..]);
        used, free := 0, BLOCK;
      }
    }

    // The zeros and the length of the last block.
    method EndBlock(used: nat, free: nat, ghost m: seq<byte>)
      requires buffer.Length == BLOCK && used + free == BLOCK && free >= 8 && Counts(lo, hi, |m|)
      modifies this`lo, buffer
      ensures buffer[..] == old(buffer[..used]) + Zeros(free - 8) + Length64(8 * |m|)
    {
      Store(buffer, used, Zeros(free - 8));
      LengthWords(lo, hi, |m|);
      lo := 8 * lo;
      ghost var head := buffer[..56];
      Store(buffer, 56, EncodeInt32LE(lo) + EncodeInt32LE(hi));
      assert buffer[..] == buffer[..56] + buffer[56..];
      assert buffer[..56] == head;
      assert head == old(buffer[..used]) + Zeros(free - 8);
    }
  }

  // The state covers `done`, whole blocks; the buffer starts with `tail`, less than a block.
  ghost predicate Absorbed(step: BlockFunction, state: State, done: seq<byte>, tail: seq<byte>, buffer: seq<byte>) {
    && |done| % BLOCK == 0 && |tail| < BLOCK && |tail| <= |buffer| && buffer[..|tail|] == tail
    && state == Fold(step, INIT, done)
  }

  // The padding of a message that leaves `tail` over.
  lemma PadParts(m: seq<byte>, done: seq<byte>, tail: seq<byte>)
    requires m == done + tail && |done| % BLOCK == 0 && |tail| < BLOCK
    ensures var zeros := if |tail| <= 55 then 55 - |tail| else 119 - |tail|;
            Pad(m) == done + (tail + [0x80] + Zeros(zeros) + Length64(8 * |m|))
  {
    WholePlus(|done|, |tail|);
  }

  // The padding ends the last block, or it fills that one and ends the next.
  lemma FinalOne(step: BlockFunction, state: State, m: seq<byte>, done: seq<byte>, tail: seq<byte>, last: seq<byte>)
    requires m == done + tail && |done| % BLOCK == 0 && |tail| <= 55 && state == Fold(step, INIT, done)
    requires last == tail + [0x80] + Zeros(55 - |tail|) + Length64(8 * |m|)
    ensures |last| == BLOCK && Fold(step, state, last) == Fold(step, INIT, Pad(m))
  {
    PadParts(m, done, tail);
    FoldAppend(step, INIT, done, last);
  }

  lemma FinalTwo(step: BlockFunction, state: State, m: seq<byte>, done: seq<byte>, tail: seq<byte>, first: seq<byte>,
                 last: seq<byte>)
    requires m == done + tail && |done| % BLOCK == 0 && 55 < |tail| < BLOCK && state == Fold(step, INIT, done)
    requires first == tail + [0x80] + Zeros(63 - |tail|) && last == Zeros(56) + Length64(8 * |m|)
    ensures |first| == |last| == BLOCK && Fold(step, Fold(step, state, first), last) == Fold(step, INIT, Pad(m))
  {
    PadParts(m, done, tail);
    assert Zeros(63 - |tail|) + Zeros(56) == Zeros(119 - |tail|);
    assert tail + [0x80] + Zeros(119 - |tail|) + Length64(8 * |m|) == first + last;
    FoldAppend(step, INIT, done, first + last);
    FoldAppend(step, state, first, last);
  }

  // ----- the bytes, as RFC 1321 has them ----------------------------------

  // Byte i of n, the low one being byte 0: n shifted right by i bytes, modulo 256.
  function Byte(n: nat, i: nat): nat {
    if i == 0 then n % 256 else Byte(n / 256, i - 1)
  }

  // The message, 80, as few zeros as make whole blocks, and the number of its bits, the low
  // byte first.
  ghost predicate IsPadded(s: seq<byte>, m: seq<byte>) {
    && |s| % 64 == 0 && |m| + 9 <= |s| < |m| + 9 + 64 && s[..|m|] == m && s[|m|] == 0x80
    && (forall i :: |m| < i < |s| - 8 ==> s[i] == 0)
    && (forall i: nat {:trigger Byte(8 * |m|, i)} :: i < 8 ==> s[|s| - 8 + i] as int == Byte(8 * |m|, i))
  }

  // q shifted left by k bytes.
  function Up256(q: nat, k: nat): nat {
    if k == 0 then q else 256 * Up256(q, k - 1)
  }

  // Low bytes are not touched by what is added above them, and the bytes above are its bytes.
  lemma {:induction false} ByteBelow(n: nat, q: nat, k: nat, i: nat)
    requires i < k
    ensures Byte(n + Up256(q, k), i) == Byte(n, i)
    decreases k
  {
    var x := Up256(q, k - 1);
    assert (n + 256 * x) / 256 == n / 256 + x && (n + 256 * x) % 256 == n % 256;
    if i > 0 {
      ByteBelow(n / 256, q, k - 1, i - 1);
    }
  }

  lemma {:induction false} ByteAbove(n: nat, q: nat, k: nat, i: nat)
    requires n < Up256(1, k)
    ensures Byte(n + Up256(q, k), k + i) == Byte(q, i)
    decreases k
  {
    if k > 0 {
      var x := Up256(q, k - 1);
      assert (n + 256 * x) / 256 == n / 256 + x;
      ByteAbove(n / 256, q, k - 1, i);
    }
  }

  lemma FourUp(q: nat)
    ensures Up256(q, 4) == q * 4294967296
  {
    assert Up256(q, 4) == 256 * Up256(q, 3) && Up256(q, 3) == 256 * Up256(q, 2) && Up256(q, 2) == 256 * Up256(q, 1);
  }

  lemma ByteOfWords(n: nat, i: nat)
    requires i < 8
    ensures Byte(n, i) == if i < 4 then Byte(n % 4294967296, i) else Byte(n / 4294967296 % 4294967296, i - 4)
  {
    var q, l := n / 4294967296, n % 4294967296;
    FourUp(q);
    FourUp(1);
    if i < 4 {
      ByteBelow(l, q, 4, i);
    } else {
      ByteAbove(l, q, 4, i - 4);
      FourUp(q / 4294967296);
      ByteBelow(q % 4294967296, q / 4294967296, 4, i - 4);
    }
  }

  lemma WordBytes(w: u32, i: nat)
    requires i < 4
    ensures EncodeInt32LE(w)[i] as int == Byte(w, i)
  {
    assert Byte(w, 2) == Byte(w / 256, 1) && Byte(w, 3) == Byte(w / 256, 2)
        && Byte(w / 256, 2) == Byte(w / 256 / 256, 1);
  }

  /**
    The padding of sections 3.1 and 3.2.
   */
  lemma PadMeans(m: seq<byte>)
    ensures IsPadded(Pad(m), m)
  {
    hide Byte, EncodeInt32LE;
    var n := 8 * |m|;
    var front := m + [0x80] + Zeros(ZeroCount(|m|));
    forall i: nat | i < 8
      ensures Length64(n)[i] as int == Byte(n, i)
    {
      LengthBytes(n, i);
    }
    assert forall i: nat :: i < 8 ==> (front + Length64(n))[|front| + i] == Length64(n)[i];
  }

  lemma LengthBytes(n: nat, i: nat)
    requires i < 8
    ensures Length64(n)[i] as int == Byte(n, i)
  {
    hide Byte, EncodeInt32LE;
    ByteOfWords(n, i);
    var low, high: u32 := n % 0x1_0000_0000, n / 0x1_0000_0000 % 0x1_0000_0000;
    WordSize(low);
    WordSize(high);
    WordBytes(if i < 4 then low else high, i % 4);
  }

  lemma WordSize(w: u32)
    ensures |EncodeInt32LE(w)| == 4
  {
  }

  lemma PadIsUnique(s: seq<byte>, t: seq<byte>, m: seq<byte>)
    requires IsPadded(s, m) && IsPadded(t, m)
    ensures s == t
  {
    hide Byte;
    SameBlocks(|s|, |t|, |m| + 9);
    forall i | 0 <= i < |s|
      ensures s[i] == t[i]
    {
      if i < |m| {
        assert s[i] == s[..|m|][i] && t[i] == t[..|m|][i];
      } else if i >= |s| - 8 {
        var j := i - (|s| - 8);
        assert s[|s| - 8 + j] as int == Byte(8 * |m|, j) && t[|t| - 8 + j] as int == Byte(8 * |m|, j);
      }
    }
  }

  lemma SameBlocks(a: nat, b: nat, n: nat)
    requires a % 64 == 0 && b % 64 == 0 && n <= a < n + 64 && n <= b < n + 64
    ensures a == b
  {
  }

  /**
    The blocks are taken one by one from the front.
   */
  lemma FoldMeans(step: BlockFunction, s: State, block: seq<byte>, rest: seq<byte>)
    requires |block| == 64 && |rest| % 64 == 0
    ensures Fold(step, s, []) == s && Fold(step, s, block + rest) == Fold(step, step(s, block), rest)
  {
    assert (block + rest)[..64] == block && (block + rest)[64..] == rest;
  }

  /**
    The digest is the four words after the last block, each with its low byte first, as in
    section 3.5.
   */
  lemma DigestMeans(step: BlockFunction, m: seq<byte>, padded: seq<byte>, k: nat, i: nat)
    requires IsPadded(padded, m) && k < 4 && i < 4
    ensures |padded| % BLOCK == 0 && |Digest(step, m)| == 16
    ensures var s := Fold(step, INIT, padded);
            Digest(step, m)[4 * k + i] as int
            == Byte(if k == 0 then s.a else if k == 1 then s.b else if k == 2 then s.c else s.d, i)
  {
    hide Byte, EncodeInt32LE, Output, IsPadded;
    PadMeans(m);
    PadIsUnique(padded, Pad(m), m);
    OutputBytes(Fold(step, INIT, padded), k, i);
  }

  lemma OutputBytes(s: State, k: nat, i: nat)
    requires k < 4 && i < 4
    ensures |Output(s)| == 16
    ensures Output(s)[4 * k + i] as int
            == Byte(if k == 0 then s.a else if k == 1 then s.b else if k == 2 then s.c else s.d, i)
  {
    hide Byte, EncodeInt32LE;
    WordSize(s.a);
    WordSize(s.b);
    WordSize(s.c);
    WordSize(s.d);
    WordBytes(if k == 0 then s.a else if k == 1 then s.b else if k == 2 then s.c else s.d, i);
  }

  /**
    The words before the first block, by the bytes section 3.3 lists.
   */
  lemma InitMeans()
    ensures EncodeInt32LE(INIT.a) == [0x01, 0x23, 0x45, 0x67] && EncodeInt32LE(INIT.b) == [0x89, 0xab, 0xcd, 0xef]
    ensures EncodeInt32LE(INIT.c) == [0xfe, 0xdc, 0xba, 0x98] && EncodeInt32LE(INIT.d) == [0x76, 0x54, 0x32, 0x10]
  {
  }
}
