/**
  The bit context of src/rtmp/rtmp-hevc.c: every read gives the next field of the buffer, and
  the exp-Golomb readers decode ue(v) and se(v) of section 9.2 of H.265.
 */
module Golomb {
  import opened Common
  import opened BitReader

  // floor(log2 x)
  function Log2(x: nat): (r: nat)
    requires x >= 1
    ensures Pow2(r) <= x < Pow2(r + 1)
  {
    if x == 1 then 0 else 1 + Log2(x / 2)
  }

  // Just z zeros come before the first 1.
  ghost predicate FirstOneAfter(buf: seq<byte>, pos: nat, z: nat) {
    Bit(buf, pos + z) == 1 && forall j {:trigger Bit(buf, j)} :: pos <= j < pos + z ==> Bit(buf, j) == 0
  }

  ghost predicate NoOneWithin(buf: seq<byte>, pos: nat, n: nat) {
    forall j {:trigger Bit(buf, j)} :: pos <= j < pos + n ==> Bit(buf, j) == 0
  }

  lemma {:induction false} ZerosAreZero(buf: seq<byte>, pos: nat, m: nat)
    requires NoOneWithin(buf, pos, m)
    ensures Field(buf, pos, m) == 0
  {
    if m > 0 {
      ZerosAreZero(buf, pos, m - 1);
    }
  }

  lemma {:induction false} UpOfZero(n: nat)
    ensures Up(0, n) == 0
  {
    if n > 0 {
      UpOfZero(n - 1);
    }
  }

  lemma FieldFromFront(buf: seq<byte>, pos: nat, m: nat)
    requires m > 0
    ensures Field(buf, pos, m) == Up(Bit(buf, pos), m - 1) + Field(buf, pos + 1, m - 1)
    ensures Bit(buf, pos) == 0 ==> Field(buf, pos, m) == Field(buf, pos + 1, m - 1)
    ensures Bit(buf, pos) == 1 ==> Field(buf, pos, m) == Pow2(m - 1) + Field(buf, pos + 1, m - 1)
  {
    FieldSplit(buf, pos, 1, m - 1);
    assert Field(buf, pos, 1) == Bit(buf, pos);
    UpOfZero(m - 1);
    Pow2IsUp(m - 1);
  }

  lemma {:induction false} LogIsUnique(x: nat, k: nat)
    requires Pow2(k) <= x < Pow2(k + 1)
    ensures Log2(x) == k
  {
    var l := Log2(x);
    if l < k {
      Pow2Grows(l + 1, k);
    } else if k < l {
      Pow2Grows(k + 1, l);
    }
  }

  lemma FirstOneDecides(buf: seq<byte>, pos: nat, m: nat)
    requires m >= 1 && Bit(buf, pos) == 1
    ensures Field(buf, pos, m) >= 1 && Log2(Field(buf, pos, m)) == m - 1
  {
    FieldFromFront(buf, pos, m);
    LogIsUnique(Field(buf, pos, m), m - 1);
  }

  // The first 1 among z + m bits decides the logarithm of their value.
  lemma LogCountsZeros(buf: seq<byte>, pos: nat, z: nat, m: nat)
    requires m >= 1 && FirstOneAfter(buf, pos, z)
    ensures Field(buf, pos, z + m) >= 1 && Log2(Field(buf, pos, z + m)) == m - 1
  {
    FieldSplit(buf, pos, z, m);
    ZerosAreZero(buf, pos, z);
    UpOfZero(m);
    FirstOneDecides(buf, pos + z, m);
  }

  class GetBitContext {
    const buffer: seq<byte>
    var cache: nat
    var bitsLeft: nat
    var index: nat

    // The cache always holds the bits just before index.
    ghost predicate Valid()
      reads this
    {
      bitsLeft <= index && index % 32 == 0 && Caches(buffer, cache, index - bitsLeft, bitsLeft)
    }

    // get_bits_count: how many bits were read.
    function Position(): nat
      requires bitsLeft <= index
      reads this
    {
      index - bitsLeft
    }

    // init_get_bits8
    constructor (buffer: seq<byte>)
      ensures this.buffer == buffer && Valid() && Position() == 0
    {
      this.buffer := buffer;
      cache, bitsLeft, index := 0, 0, 0;
      new;
      UpOfZero(64);
      Refill();
    }

    // A copy of the struct.
    constructor Copy(other: GetBitContext)
      requires other.Valid()
      ensures buffer == other.buffer && Valid() && Position() == other.Position()
    {
      buffer := other.buffer;
      cache, bitsLeft, index := other.cache, other.bitsLeft, other.index;
    }

    // refill_32
    method Refill()
      requires Valid() && bitsLeft < 32
      modifies this
      ensures Valid() && Position() == old(Position()) && bitsLeft == old(bitsLeft) + 32
    {
      RefillExtends(buffer, cache, index - bitsLeft, bitsLeft, index);
      cache := Or(cache, Shl(Rb32(buffer, index / 8), 32 - bitsLeft));
      index := index + 32;
      bitsLeft := bitsLeft + 32;
    }

    // get_val
    method GetVal(n: nat) returns (ret: nat)
      requires Valid() && 1 <= n <= bitsLeft
      modifies this
      ensures Valid() && Position() == old(Position()) + n
      ensures ret == Field(buffer, old(Position()), n)
    {
      TakeBits(buffer, cache, Position(), bitsLeft, n);
      ret := Shr(cache, 64 - n);
      cache := Shl(cache, n);
      bitsLeft := bitsLeft - n;
    }

    /**
      get_bits: the next n bits as a number.
     */
    method GetBits(n: nat) returns (r: nat)
      requires Valid() && 1 <= n <= 32
      modifies this
      ensures Valid() && Position() == old(Position()) + n
      ensures r == Field(buffer, old(Position()), n)
    {
      if n > bitsLeft {
        Refill();
      }
      r := GetVal(n);
    }

    // get_bits_long
    method GetBitsLong(n: nat) returns (r: nat)
      requires Valid() && n <= 32
      modifies this
      ensures Valid() && Position() == old(Position()) + n
      ensures r == Field(buffer, old(Position()), n)
    {
      if n == 0 {
        return 0;
      }
      r := GetBits(n);
    }

    /**
      get_bits64: up to 64 bits, in two reads.
     */
    method GetBits64(n: nat) returns (r: nat)
      requires Valid() && n <= 64
      modifies this
      ensures Valid() && Position() == old(Position()) + n
      ensures r == Field(buffer, old(Position()), n)
    {
      if n <= 32 {
        r := GetBitsLong(n);
      } else {
        r := GetTwo(n - 32, 32);
      }
    }

    // Two reads joined, the first one on top.
    method GetTwo(m: nat, n: nat) returns (r: nat)
      requires Valid() && m <= 32 && n <= 32
      modifies this
      ensures Valid() && Position() == old(Position()) + (m + n)
      ensures r == Field(buffer, old(Position()), m + n)
    {
      hide Field, Caches, Or, Shl;
      ghost var pos := Position();
      var high := GetBitsLong(m);
      var low := GetBitsLong(n);
      JoinFields(buffer, pos, m, n);
      r := Or(Shl(high, n), low);
    }

    // show_bits_long for more than 25 bits: reads from a copy.
    method ShowBitsLong(n: nat) returns (r: nat)
      requires Valid() && 25 < n <= 32
      ensures r == Field(buffer, Position(), n)
    {
      var gb := new GetBitContext.Copy(this);
      r := gb.GetBitsLong(n);
    }

    // 31 - ilog2 of the next 32 bits: the number of zeros before the first 1.
    method ShowZeros(ghost z: nat) returns (log: nat)
      requires Valid()
      ensures log <= 31
      ensures z < 32 && FirstOneAfter(buffer, Position(), z) ==> log == z
      ensures z == 32 && NoOneWithin(buffer, Position(), z) ==> log == z - 1
    {
      var buf := ShowBitsLong(32);
      if z < 32 && FirstOneAfter(buffer, Position(), z) {
        LogCountsZeros(buffer, Position(), z, 32 - z);
      } else if z == 32 && NoOneWithin(buffer, Position(), z) {
        ZerosAreZero(buffer, Position(), z);
      }
      log := ZerosOfWord(buf);
    }

    /**
      get_ue_golomb_long: with z < 32 zeros before the first 1, the code is 2z + 1 bits long
      and stands for 2^z - 1 plus its last z bits; with 32 zeros or more the last of them starts
      32 bits that are taken less 1, modulo 2^32.
     */
    method GetUe(ghost z: nat) returns (r: nat)
      requires Valid()
      modifies this
      ensures Valid() && r < 0x1_0000_0000
      ensures z < 32 && FirstOneAfter(buffer, old(Position()), z) ==>
                r == UeValue(buffer, old(Position()), z) && Position() == old(Position()) + 2 * z + 1
      ensures z == 32 && NoOneWithin(buffer, old(Position()), z) ==>
                r == LessOne(Field(buffer, old(Position()) + z - 1, z)) && Position() == old(Position()) + 2 * z - 1
    {
      hide Field, UeValue, LessOne, Caches;
      ghost var pos := Position();
      var log := ShowZeros(z);
      r := SkipThenGet(log, log + 1);
      r := MinusOne(buffer, pos, log, r);
    }

    // skip_bits_long is get_bits_long with the result thrown away.
    method SkipThenGet(skip: nat, n: nat) returns (r: nat)
      requires Valid() && skip <= 32 && n <= 32
      modifies this
      ensures Valid() && Position() == old(Position()) + skip + n
      ensures r == Field(buffer, old(Position()) + skip, n)
    {
      var skipped := GetBitsLong(skip);
      r := GetBitsLong(n);
    }

    /**
      get_se_golomb_long: the code number k stands for 1, -1, 2, -2 and so on.
     */
    method GetSe(ghost z: nat) returns (r: int)
      requires Valid()
      modifies this
      ensures Valid()
      ensures z < 32 && FirstOneAfter(buffer, old(Position()), z) ==>
                r == SeValue(UeValue(buffer, old(Position()), z)) && Position() == old(Position()) + 2 * z + 1
      ensures z == 32 && NoOneWithin(buffer, old(Position()), z) ==>
                r == Signed(SeValue(LessOne(Field(buffer, old(Position()) + z - 1, z))))
                    && Position() == old(Position()) + 2 * z - 1
    {
      ghost var pos := Position();
      var buf := GetUe(z);
      var sign: int := (buf as int) % 2 - 1;
      var half: int := buf / 2;
      // an exclusive or with 0, or with all ones
      r := Signed((if sign == 0 then half else -1 - half) + 1);
      if z < 32 && FirstOneAfter(buffer, pos, z) {
        UeIsSmall(buffer, pos, z);
      }
    }
  }

  // A 32-bit unsigned decrement.
  function LessOne(x: nat): nat {
    (x as int - 1) % 0x1_0000_0000
  }

  // The unsigned subtraction at the end of get_ue_golomb_long.
  method MinusOne(ghost buf: seq<byte>, ghost pos: nat, ghost z: nat, x: nat) returns (r: nat)
    requires z < 32 && x == Field(buf, pos + z, z + 1)
    ensures r < 0x1_0000_0000 && r == LessOne(x) && (Bit(buf, pos + z) == 1 ==> r == UeValue(buf, pos, z))
  {
    if Bit(buf, pos + z) == 1 {
      UeOfField(buf, pos, z);
    }
    r := LessOne(x);
  }

  function ZerosOfWord(x: nat): (r: nat)
    ensures r <= 31
  {
    if x == 0 || Log2(x) > 31 then 31 else 31 - Log2(x)
  }

  lemma UeOfField(buf: seq<byte>, pos: nat, z: nat)
    requires z < 32 && Bit(buf, pos + z) == 1
    ensures Field(buf, pos + z, z + 1) - 1 == UeValue(buf, pos, z) < 0x1_0000_0000
  {
    FieldFromFront(buf, pos + z, z + 1);
    BelowHalfWord(Field(buf, pos + z, z + 1), z + 1);
  }

  // No code number is 2^32 - 1, so the signed value fits 32 bits.
  lemma UeIsSmall(buf: seq<byte>, pos: nat, z: nat)
    requires z < 32
    ensures UeValue(buf, pos, z) < 0xffff_ffff
  {
    BelowHalfWord(UeValue(buf, pos, z) + 1, z + 1);
  }

  lemma BelowHalfWord(x: nat, n: nat)
    requires x < Pow2(n) && n <= 32
    ensures x < 0x1_0000_0000
  {
    Pow2Grows(n, 32);
    Pow2IsUp(32);
    UpByConstants(1);
  }

  lemma JoinWords(f: nat, g: nat, m: nat, n: nat)
    requires f < Pow2(m) && g < Pow2(n) && m + n <= 64
    ensures Or(Shl(f, n), g) == Up(f, n) + g
  {
    ShlOfSmall(f, m, n);
    OrOfDisjoint(f, g, n);
  }

  lemma JoinFields(buf: seq<byte>, pos: nat, m: nat, n: nat)
    requires m + n <= 64
    ensures Or(Shl(Field(buf, pos, m), n), Field(buf, pos + m, n)) == Field(buf, pos, m + n)
  {
    JoinWords(Field(buf, pos, m), Field(buf, pos + m, n), m, n);
    FieldSplit(buf, pos, m, n);
  }

  // ----- exp-Golomb codes -------------------------------------------------

  function UeValue(buf: seq<byte>, pos: nat, z: nat): nat {
    Pow2(z) - 1 + Field(buf, pos + z + 1, z)
  }

  // The conversion to int at the end of get_se_golomb_long: 2^31 does not fit.
  function Signed(n: int): int {
    if n == 0x8000_0000 then -n else n
  }

  function SeValue(k: nat): int {
    if k % 2 == 1 then (k + 1) / 2 else -(k / 2)
  }

  // The code of k: as many zeros as k + 1 has digits after its first, then k + 1 in binary.
  function UeCode(k: nat): seq<nat> {
    var z := Log2(k + 1);
    seq(z, _ => 0) + Binary(k + 1, z + 1)
  }

  // The lowest n binary digits of x, most significant first.
  function Binary(x: nat, n: nat): (s: seq<nat>)
    ensures |s| == n
  {
    if n == 0 then [] else Binary(x / 2, n - 1) + [x % 2]
  }

  // The code number of a signed value.
  function SeNumber(v: int): nat {
    if v > 0 then 2 * v - 1 else -2 * v
  }

  ghost predicate BitsAt(buf: seq<byte>, pos: nat, bits: seq<nat>) {
    forall j: nat {:trigger Bit(buf, j)} :: pos <= j < pos + |bits| ==> Bit(buf, j) == bits[j - pos]
  }

  lemma {:induction false} BinaryIsField(buf: seq<byte>, pos: nat, x: nat, n: nat)
    requires x < Pow2(n) && BitsAt(buf, pos, Binary(x, n))
    ensures Field(buf, pos, n) == x
    decreases n
  {
    if n > 0 {
      var b, shorter := Binary(x, n), Binary(x / 2, n - 1);
      assert b == shorter + [x % 2];
      assert Bit(buf, pos + n - 1) == b[n - 1];
      BinaryIsField(buf, pos, x / 2, n - 1);
    }
  }

  lemma CodeParts(buf: seq<byte>, pos: nat, z: nat, tail: seq<nat>)
    requires BitsAt(buf, pos, seq(z, _ => 0) + tail) && |tail| >= 1 && tail[0] == 1
    ensures FirstOneAfter(buf, pos, z) && BitsAt(buf, pos + z, tail)
  {
    var code := seq(z, _ => 0) + tail;
    assert Bit(buf, pos + z) == code[z] == 1;
    forall j: nat | pos <= j < pos + z
      ensures Bit(buf, j) == 0
    {
      assert code[j - pos] == 0;
    }
    forall j: nat | pos + z <= j < pos + z + |tail|
      ensures Bit(buf, j) == tail[j - (pos + z)]
    {
      assert code[j - pos] == tail[j - pos - z];
    }
  }

  lemma {:induction false} BinaryStartsWithOne(x: nat, n: nat)
    requires n >= 1 && Pow2(n - 1) <= x < Pow2(n)
    ensures Binary(x, n)[0] == 1
  {
    if n > 1 {
      BinaryStartsWithOne(x / 2, n - 1);
    }
  }

  /**
    ue(v) round trip: where the code of k stands, for every k below 2^32 - 1, the reader finds
    its leading zeros, its length and its value.
   */
  lemma UeRoundTrip(buf: seq<byte>, pos: nat, k: nat) returns (z: nat)
    requires BitsAt(buf, pos, UeCode(k)) && k < 0xffff_ffff
    ensures z < 32 && FirstOneAfter(buf, pos, z) && UeValue(buf, pos, z) == k && |UeCode(k)| == 2 * z + 1
  {
    z := Log2(k + 1);
    LogBelow32(k + 1);
    BinaryStartsWithOne(k + 1, z + 1);
    CodeParts(buf, pos, z, Binary(k + 1, z + 1));
    BinaryIsField(buf, pos + z, k + 1, z + 1);
    UeOfField(buf, pos, z);
  }

  /**
    The code of k is the number k + 1 with as many zeros in front as it has digits after its
    first; the signed values are numbered 0, 1, -1, 2, -2 and so on.
   */
  lemma CodeIsOneMore(buf: seq<byte>, pos: nat, z: nat)
    requires FirstOneAfter(buf, pos, z)
    ensures Field(buf, pos, 2 * z + 1) == UeValue(buf, pos, z) + 1
  {
    FieldSplit(buf, pos, z, z + 1);
    ZerosAreZero(buf, pos, z);
    UpOfZero(z + 1);
    FieldFromFront(buf, pos + z, z + 1);
  }

  lemma SignedInOrder(n: nat)
    ensures SeValue(0) == 0 && SeValue(2 * n + 1) == n + 1 && SeValue(2 * n + 2) == -(n + 1)
  {
  }

  /**
    Where no code is, the readers still give 32-bit numbers: 0 less 1 is 4294967295, and the
    signed value of a code number is, modulo 2^32, the one that fits an int.
   */
  lemma ResultsFit(x: nat)
    requires x < 4294967296
    ensures LessOne(x) == if x == 0 then 4294967295 else x - 1
    ensures -2147483648 <= Signed(SeValue(x)) < 2147483648 && (Signed(SeValue(x)) - SeValue(x)) % 4294967296 == 0
  {
  }

  lemma LogBelow32(x: nat)
    requires 1 <= x < 0x1_0000_0000
    ensures Log2(x) < 32
  {
    if Log2(x) >= 32 {
      Pow2Grows(32, Log2(x));
      Pow2IsUp(32);
      UpByConstants(1);
      assert false;
    }
  }

  /**
    se(v) round trip, over the numbers the code can carry.
   */
  lemma SeRoundTrip(buf: seq<byte>, pos: nat, v: int) returns (z: nat)
    requires SeNumber(v) < 0xffff_ffff && BitsAt(buf, pos, UeCode(SeNumber(v)))
    ensures z < 32 && FirstOneAfter(buf, pos, z) && SeValue(UeValue(buf, pos, z)) == v
  {
    hide UeCode, BitsAt, FirstOneAfter, UeValue;
    z := UeRoundTrip(buf, pos, SeNumber(v));
  }
}
