/**
  The bit string of a buffer, and the word operations with which the bit reader of
  src/rtmp/rtmp-hevc.c keeps a stretch of it in a 64-bit cache.
 */
module BitReader {
  import opened Common

  // ----- shifts -----------------------------------------------------------

  // x shifted to the left, without a word size.
  function Up(x: nat, n: nat): nat {
    if n == 0 then x else 2 * Up(x, n - 1)
  }

  // x shifted to the right.
  function Shr(x: nat, n: nat): nat {
    if n == 0 then x else Shr(x / 2, n - 1)
  }

  function Pow2(n: nat): (r: nat)
    ensures r >= 1
  {
    if n == 0 then 1 else 2 * Pow2(n - 1)
  }

  const WORD: nat := 0x1_0000_0000_0000_0000

  // A 64-bit shift to the left.
  function Shl(x: nat, n: nat): nat {
    Up(x, n) % WORD
  }

  // Bitwise or.
  function Or(a: nat, b: nat): nat
    decreases a + b
  {
    if a == 0 && b == 0 then 0
    else 2 * Or(a / 2, b / 2) + if a % 2 == 1 || b % 2 == 1 then 1 else 0
  }

  lemma {:induction false} UpSum(x: nat, y: nat, n: nat)
    ensures Up(x + y, n) == Up(x, n) + Up(y, n)
  {
    if n > 0 {
      UpSum(x, y, n - 1);
    }
  }

  lemma {:induction false} UpTwice(x: nat, m: nat, n: nat)
    ensures Up(Up(x, m), n) == Up(x, m + n)
  {
    if n > 0 {
      UpTwice(x, m, n - 1);
    }
  }

  lemma UpByConstants(x: nat)
    ensures Up(x, 8) == 0x100 * x && Up(x, 32) == 0x1_0000_0000 * x && Up(x, 64) == WORD * x
  {
    UpBy8(x);
    UpBy8(Up(x, 8));
    UpTwice(x, 8, 8);
    UpBy8(Up(x, 16));
    UpTwice(x, 16, 8);
    UpBy8(Up(x, 24));
    UpTwice(x, 24, 8);
    UpBy32More(x);
  }

  lemma UpBy8(x: nat)
    ensures Up(x, 8) == 0x100 * x
  {
    assert Up(x, 1) == 2 * x && Up(x, 2) == 4 * x;
    assert Up(x, 3) == 8 * x && Up(x, 4) == 16 * x;
    assert Up(x, 5) == 32 * x && Up(x, 6) == 64 * x;
    assert Up(x, 7) == 128 * x;
  }

  lemma UpBy32More(x: nat)
    requires Up(x, 32) == 0x1_0000_0000 * x
    ensures Up(x, 64) == WORD * x
  {
    var y := Up(x, 32);
    UpBy8(y);
    UpBy8(Up(y, 8));
    UpTwice(y, 8, 8);
    UpBy8(Up(y, 16));
    UpTwice(y, 16, 8);
    UpBy8(Up(y, 24));
    UpTwice(y, 24, 8);
    UpTwice(x, 32, 32);
  }

  lemma {:induction false} UpStaysBelow(x: nat, n: nat, s: nat)
    requires x < Pow2(n)
    ensures Up(x, s) < Pow2(n + s)
  {
    if s > 0 {
      UpStaysBelow(x, n, s - 1);
    }
  }

  lemma {:induction false} Pow2IsUp(n: nat)
    ensures Pow2(n) == Up(1, n)
  {
    if n > 0 {
      Pow2IsUp(n - 1);
    }
  }

  lemma WordIsPow2()
    ensures Pow2(64) == WORD
  {
    Pow2IsUp(64);
    UpByConstants(1);
  }

  lemma {:induction false} ShrOfUp(f: nat, g: nat, n: nat)
    requires g < Pow2(n)
    ensures Shr(Up(f, n) + g, n) == f
  {
    if n > 0 {
      assert (Up(f, n) + g) / 2 == Up(f, n - 1) + g / 2;
      ShrOfUp(f, g / 2, n - 1);
    }
  }

  lemma {:induction false} ShrOneMore(x: nat, n: nat)
    ensures Shr(x, n + 1) == Shr(x, n) / 2
  {
    if n > 0 {
      ShrOneMore(x / 2, n - 1);
    }
  }

  lemma {:induction false} OrWithZero(a: nat)
    ensures Or(a, 0) == a
  {
    if a > 0 {
      OrWithZero(a / 2);
    }
  }

  // Bits that do not overlap add up.
  lemma {:induction false} OrOfDisjoint(a: nat, b: nat, k: nat)
    requires b < Pow2(k)
    ensures Or(Up(a, k), b) == Up(a, k) + b
    decreases k
  {
    if k == 0 {
      OrWithZero(a);
    } else {
      OrOfDisjoint(a, b / 2, k - 1);
    }
  }

  // ----- the bit string of a buffer ---------------------------------------

  // Bytes past the end are the padding, which is zero.
  function ByteAt(buf: seq<byte>, k: nat): byte {
    if k < |buf| then buf[k] else 0
  }

  function Bit(buf: seq<byte>, i: nat): (b: nat)
    ensures b <= 1
  {
    Shr(ByteAt(buf, i / 8), 7 - i % 8) % 2
  }

  /**
    Bit j of byte k, counted from its most significant one, is the byte divided by 2^(7 - j),
    modulo 2; past the end of the buffer all bits are 0.
   */
  lemma BitMeans(buf: seq<byte>, k: nat, j: nat)
    requires j < 8
    ensures Bit(buf, 8 * k + j) == if k >= |buf| then 0 else buf[k] as int / [128, 64, 32, 16, 8, 4, 2, 1][j] % 2
  {
    assert (8 * k + j) / 8 == k && (8 * k + j) % 8 == j;
    ShrOfZero(7 - j);
    ShrIsDivision(ByteAt(buf, k));
  }

  lemma {:induction false} ShrOfZero(n: nat)
    ensures Shr(0, n) == 0
  {
    if n > 0 {
      ShrOfZero(n - 1);
    }
  }

  lemma ShrIsDivision(b: nat)
    ensures Shr(b, 0) == b && Shr(b, 1) == b / 2 && Shr(b, 2) == b / 4 && Shr(b, 3) == b / 8
    ensures Shr(b, 4) == b / 16 && Shr(b, 5) == b / 32 && Shr(b, 6) == b / 64 && Shr(b, 7) == b / 128
  {
    ShrOneMore(b, 1);
    ShrOneMore(b, 2);
    ShrOneMore(b, 3);
    ShrOneMore(b, 4);
    ShrOneMore(b, 5);
    ShrOneMore(b, 6);
  }

  // The n bits from bit `from` on, most significant first.
  function Field(buf: seq<byte>, from: nat, n: nat): (r: nat)
    ensures r < Pow2(n)
  {
    if n == 0 then 0 else 2 * Field(buf, from, n - 1) + Bit(buf, from + n - 1)
  }

  /**
    A field is its parts, one after the other: so successive reads spell out the bit string.
   */
  lemma {:induction false} FieldSplit(buf: seq<byte>, from: nat, m: nat, n: nat)
    ensures Field(buf, from, m + n) == Up(Field(buf, from, m), n) + Field(buf, from + m, n)
    decreases n
  {
    if n > 0 {
      FieldSplit(buf, from, m, n - 1);
    }
  }

  lemma {:induction false} ShrOfByte(b: nat)
    requires b < 256
    ensures Shr(b, 8) == 0
  {
    ShrOfUp(0, b, 8);
    assert Pow2(4) == 16 && Pow2(8) == 256;
    UpBy8(0);
  }

  lemma {:induction false} FieldInByte(buf: seq<byte>, k: nat, j: nat)
    requires j <= 8
    ensures Field(buf, 8 * k, j) == Shr(ByteAt(buf, k), 8 - j)
    decreases j
  {
    if j == 0 {
      ShrOfByte(ByteAt(buf, k));
    } else {
      FieldInByte(buf, k, j - 1);
      ShrOneMore(ByteAt(buf, k), 8 - j);
      assert (8 * k + j - 1) / 8 == k && (8 * k + j - 1) % 8 == j - 1;
    }
  }

  // rb32
  function Rb32(buf: seq<byte>, k: nat): nat {
    (ByteAt(buf, k) as int) * 0x100_0000 + (ByteAt(buf, k + 1) as int) * 0x1_0000
    + (ByteAt(buf, k + 2) as int) * 0x100 + (ByteAt(buf, k + 3) as int)
  }

  lemma WordIsField(buf: seq<byte>, k: nat)
    ensures Rb32(buf, k) == Field(buf, 8 * k, 32)
  {
    FieldInByte(buf, k, 8);
    NextByte(buf, k, 8, k + 1);
    NextByte(buf, k, 16, k + 2);
    NextByte(buf, k, 24, k + 3);
  }

  lemma NextByte(buf: seq<byte>, k: nat, n: nat, next: nat)
    requires 8 * k + n == 8 * next
    ensures Field(buf, 8 * k, n + 8) == 0x100 * Field(buf, 8 * k, n) + ByteAt(buf, next)
  {
    FieldSplit(buf, 8 * k, n, 8);
    FieldInByte(buf, next, 8);
    UpBy8(Field(buf, 8 * k, n));
  }

  // ----- the cache --------------------------------------------------------

  // The cache holds the bits from pos on in its upper bitsLeft places, and zeros below.
  ghost predicate Caches(buf: seq<byte>, cache: nat, pos: nat, bitsLeft: nat) {
    bitsLeft < 64 && cache == Up(Field(buf, pos, bitsLeft), 64 - bitsLeft)
  }

  // On the words: w bits are put in below f.
  lemma RefillWord(f: nat, word: nat, w: nat, s: nat)
    requires word < Pow2(w) && w + s <= 64
    ensures Or(Up(f, w + s), Shl(word, s)) == Up(Up(f, w) + word, s)
  {
    ShlOfSmall(word, w, s);
    OrOfDisjoint(f, Shl(word, s), w + s);
    UpSum(Up(f, w), word, s);
    UpTwice(f, w, s);
  }

  // No bit is shifted out of the word.
  lemma ShlOfSmall(x: nat, w: nat, s: nat)
    requires x < Pow2(w) && w + s <= 64
    ensures Shl(x, s) == Up(x, s) < Pow2(w + s)
  {
    UpStaysBelow(x, w, s);
    BelowWord(Up(x, s), w + s);
  }

  lemma BelowWord(x: nat, n: nat)
    requires x < Pow2(n) && n <= 64
    ensures x < WORD
  {
    WordIsPow2();
    Pow2Grows(n, 64);
  }

  // What the refill makes of the cache, for any word width w.
  lemma RefillField(buf: seq<byte>, pos: nat, bitsLeft: nat, w: nat, s: nat)
    requires bitsLeft + w + s == 64
    ensures Or(Up(Field(buf, pos, bitsLeft), w + s), Shl(Field(buf, pos + bitsLeft, w), s))
            == Up(Field(buf, pos, bitsLeft + w), s)
  {
    RefillWord(Field(buf, pos, bitsLeft), Field(buf, pos + bitsLeft, w), w, s);
    FieldSplit(buf, pos, bitsLeft, w);
  }

  /**
    refill_32 appends the next 32 bits of the buffer.
   */
  lemma RefillExtends(buf: seq<byte>, cache: nat, pos: nat, bitsLeft: nat, index: nat)
    requires Caches(buf, cache, pos, bitsLeft) && bitsLeft < 32 && pos + bitsLeft == index && index % 8 == 0
    ensures Caches(buf, Or(cache, Shl(Rb32(buf, index / 8), 32 - bitsLeft)), pos, bitsLeft + 32)
  {
    WordIsField(buf, index / 8);
    assert 8 * (index / 8) == index;
    RefillField(buf, pos, bitsLeft, 32, 32 - bitsLeft);
  }

  lemma {:induction false} Pow2Grows(m: nat, n: nat)
    requires m <= n
    ensures Pow2(m) <= Pow2(n)
    decreases n
  {
    if m < n {
      Pow2Grows(m, n - 1);
    }
  }

  lemma Remainder(f: nat, r: nat)
    requires r < WORD
    ensures (WORD * f + r) % WORD == r
  {
  }

  // On the words: f comes out at the top ...
  lemma TakeTop(f: nat, g: nat, m: nat, rest: nat)
    requires g < Pow2(m)
    ensures Shr(Up(Up(f, m) + g, rest), m + rest) == f
  {
    UpSum(Up(f, m), g, rest);
    UpTwice(f, m, rest);
    UpStaysBelow(g, m, rest);
    ShrOfUp(f, Up(g, rest), m + rest);
  }

  // ... and g moves up.
  lemma TakeRest(f: nat, g: nat, n: nat, m: nat, rest: nat)
    requires g < Pow2(m) && n + m + rest == 64
    ensures Shl(Up(Up(f, m) + g, rest), n) == Up(g, rest + n)
  {
    UpSum(Up(f, m), g, rest);
    UpTwice(f, m, rest);
    ShlOfSum(f, Up(g, rest), n, m + rest);
    UpTwice(g, rest, n);
    UpStaysBelow(g, m, rest + n);
    BelowWord(Up(g, rest + n), m + (rest + n));
    Remainder(f, Up(g, rest + n));
  }

  lemma ShlOfSum(f: nat, low: nat, n: nat, k: nat)
    requires n + k == 64
    ensures Up(Up(f, k) + low, n) == WORD * f + Up(low, n)
  {
    UpSum(Up(f, k), low, n);
    UpTwice(f, k, n);
    UpByConstants(f);
  }

  /**
    get_val takes the next n bits off the top.
   */
  lemma TakeBits(buf: seq<byte>, cache: nat, pos: nat, bitsLeft: nat, n: nat)
    requires Caches(buf, cache, pos, bitsLeft) && 1 <= n <= bitsLeft
    ensures Shr(cache, 64 - n) == Field(buf, pos, n)
    ensures Caches(buf, Shl(cache, n), pos + n, bitsLeft - n)
  {
    var m, rest := bitsLeft - n, 64 - bitsLeft;
    FieldSplit(buf, pos, n, m);
    TakeTop(Field(buf, pos, n), Field(buf, pos + n, m), m, rest);
    TakeRest(Field(buf, pos, n), Field(buf, pos + n, m), n, m, rest);
    assert m + rest == 64 - n && 64 - m == rest + n;
  }
}
