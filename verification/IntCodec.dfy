/** The fixed-width integer codecs of src/rtmp/librtmp/amf.c and rtmp.c. */
module IntCodec {
  import opened Common

  type u16 = x: int | 0 <= x < 0x1_0000
  type u24 = x: int | 0 <= x < 0x100_0000
  type u32 = x: int | 0 <= x < 0x1_0000_0000

  // A store to a char: the low eight bits.
  function Low(n: nat): byte {
    n % 256
  }

  // n >> 8
  function Shr8(n: nat): nat {
    n / 256
  }

  function EncodeInt16(n: nat): (s: seq<byte>) {
    [Low(Shr8(n)), Low(n)]
  }

  function EncodeInt24(n: nat): (s: seq<byte>) {
    [Low(Shr8(Shr8(n))), Low(Shr8(n)), Low(n)]
  }

  function EncodeInt32(n: nat): (s: seq<byte>) {
    [Low(Shr8(Shr8(Shr8(n)))), Low(Shr8(Shr8(n))), Low(Shr8(n)), Low(n)]
  }

  function EncodeInt32LE(n: nat): (s: seq<byte>) {
    [Low(n), Low(Shr8(n)), Low(Shr8(Shr8(n))), Low(Shr8(Shr8(Shr8(n))))]
  }

  function DecodeInt16(s: seq<byte>): u16
    requires |s| >= 2
  {
    0x100 * (s[0] as int) + (s[1] as int)
  }

  function DecodeInt24(s: seq<byte>): u24
    requires |s| >= 3
  {
    0x1_0000 * (s[0] as int) + 0x100 * (s[1] as int) + (s[2] as int)
  }

  function DecodeInt32(s: seq<byte>): u32
    requires |s| >= 4
  {
    0x100_0000 * (s[0] as int) + 0x1_0000 * (s[1] as int) + 0x100 * (s[2] as int) + (s[3] as int)
  }

  function DecodeInt32LE(s: seq<byte>): u32
    requires |s| >= 4
  {
    (s[0] as int) + 0x100 * (s[1] as int) + 0x1_0000 * (s[2] as int) + 0x100_0000 * (s[3] as int)
  }

  lemma RoundTrip16(n: u16)
    ensures DecodeInt16(EncodeInt16(n)) == n
  {
  }

  lemma RoundTrip24(n: u24)
    ensures DecodeInt24(EncodeInt24(n)) == n
  {
  }

  lemma RoundTrip32(n: u32)
    ensures DecodeInt32(EncodeInt32(n)) == n
  {
  }

  lemma RoundTrip32LE(n: u32)
    ensures DecodeInt32LE(EncodeInt32LE(n)) == n
  {
  }
}
