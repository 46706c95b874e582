/** Copying bytes into a buffer. */
module Memory {
  import opened Common

  // memcpy of bytes into a buffer.
  method Store(a: array<byte>, at: nat, bytes: seq<byte>)
    requires at + |bytes| <= a.Length
    modifies a
    ensures a[at..at + |bytes|] == bytes
    ensures forall i :: 0 <= i < a.Length && !(at <= i < at + |bytes|) ==> a[i] == old(a[i])
  {
    var n := 0;
    while n < |bytes|
      invariant n <= |bytes|
      invariant forall i :: 0 <= i < n ==> a[at + i] == bytes[i]
      invariant forall i :: 0 <= i < a.Length && !(at <= i < at + n) ==> a[i] == old(a[i])
    {
      a[at + n] := bytes[n];
      n := n + 1;
    }
  }

  // Two states of a buffer that differ at most from `from` up to `to`.
  ghost predicate SameOutside(before: seq<byte>, after: seq<byte>, from: nat, to: nat) {
    && from <= to <= |before| == |after|
    && before[..from] == after[..from] && before[to..] == after[to..]
  }

  // A copy that stays within bounds.
  method Put(buf: array<byte>, at: nat, end: nat, bytes: seq<byte>)
    requires at + |bytes| <= end <= buf.Length
    modifies buf
    ensures buf[at..at + |bytes|] == bytes && SameOutside(old(buf[..]), buf[..], at, end)
  {
    Store(buf, at, bytes);
  }

  // What was written before a later piece stays.
  lemma PieceAfterPiece(before: seq<byte>, after: seq<byte>, at: nat, mid: nat, next: nat, end: nat)
    requires SameOutside(before, after, mid, end) && at <= mid <= next <= |after|
    ensures after[at..next] == before[at..mid] + after[mid..next]
  {
    assert before[at..mid] == before[..mid][at..] == after[..mid][at..];
  }

  lemma OutsideTwice(a: seq<byte>, b: seq<byte>, c: seq<byte>, from: nat, mid: nat, to: nat)
    requires from <= mid && SameOutside(a, b, from, to) && SameOutside(b, c, mid, to)
    ensures SameOutside(a, c, from, to)
  {
    assert b[..from] == b[..mid][..from] && c[..from] == c[..mid][..from];
  }
}
