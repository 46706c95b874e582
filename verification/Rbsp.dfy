/**
  ff_nal_unit_extract_rbsp of src/rtmp/rtmp-hevc.c against emulation prevention (section
  7.3.1.1 of H.265).
 */
module Rbsp {
  import opened Common
  import opened Memory

  const PADDING: nat := 64

  // ----- extraction -------------------------------------------------------

  predicate AtEscape(s: seq<byte>) {
    |s| >= 3 && s[0] == 0 && s[1] == 0 && s[2] == 3
  }

  // The bytes with every 03 after 00 00 taken out.
  function Strip(s: seq<byte>): (r: seq<byte>)
    ensures |r| <= |s|
  {
    if |s| < 3 then s
    else if AtEscape(s) then [0, 0] + Strip(s[3..])
    else [s[0]] + Strip(s[1..])
  }

  /**
    ff_nal_unit_extract_rbsp: the header is copied, then escapes are dropped, and the output
    is padded with zeros.  It is never longer than the input.
   */
  method ExtractRbsp(dst: array<byte>, src: seq<byte>, headerLen: nat) returns (len: nat)
    requires dst.Length >= |src| + PADDING
    modifies dst
    ensures len <= |src|
    ensures var h := Min(headerLen, |src|);
            dst[..len] == src[..h] + Strip(src[h..])
    ensures dst[len..len + 64] == seq(64, _ => 0)
  {
    var i := CopyHeader(dst, src, headerLen);
    ghost var goal := src[..i] + Strip(src[i..]);
    len := i;
    ghost var rest := src[i..];
    while i + 2 < |src|
      invariant len <= i <= |src| && rest == src[i..] && Stripping(goal, dst[..len], rest)
    {
      if src[i] == 0 && src[i + 1] == 0 && src[i + 2] == 3 {
        StripEscape(goal, dst[..len], rest);
        rest := rest[3..];
        Emit(dst, len, src[i]);
        Emit(dst, len + 1, src[i + 1]);
        len, i := len + 2, i + 2;
        i := i + 1;
      } else {
        StripOther(goal, dst[..len], rest);
        rest := rest[1..];
        Emit(dst, len, src[i]);
        len, i := len + 1, i + 1;
      }
    }
    StripRest(goal, dst[..len], rest);
    len := CopyRest(dst, len, src, i);
    Store(dst, len, seq(PADDING, _ => 0));
  }

  // What the middle loop keeps.
  ghost predicate Stripping(goal: seq<byte>, done: seq<byte>, rest: seq<byte>) {
    goal == done + Strip(rest)
  }

  lemma StripEscape(goal: seq<byte>, done: seq<byte>, rest: seq<byte>)
    requires AtEscape(rest) && Stripping(goal, done, rest)
    ensures Stripping(goal, done + [rest[0]] + [rest[1]], rest[3..])
  {
    assert done + [rest[0]] + [rest[1]] == done + [0, 0];
    assert done + ([0, 0] + Strip(rest[3..])) == (done + [0, 0]) + Strip(rest[3..]);
  }

  lemma StripOther(goal: seq<byte>, done: seq<byte>, rest: seq<byte>)
    requires |rest| >= 3 && !AtEscape(rest) && Stripping(goal, done, rest)
    ensures Stripping(goal, done + [rest[0]], rest[1..])
  {
    assert done + ([rest[0]] + Strip(rest[1..])) == (done + [rest[0]]) + Strip(rest[1..]);
  }

  lemma StripRest(goal: seq<byte>, done: seq<byte>, rest: seq<byte>)
    requires |rest| < 3 && Stripping(goal, done, rest)
    ensures goal == done + rest
  {
  }

  // dst[len++] = b
  method Emit(dst: array<byte>, len: nat, b: byte)
    requires len < dst.Length
    modifies dst
    ensures dst[..len + 1] == old(dst[..len]) + [b]
  {
    dst[len] := b;
  }

  method CopyHeader(dst: array<byte>, src: seq<byte>, headerLen: nat) returns (i: nat)
    requires dst.Length >= |src|
    modifies dst
    ensures i == Min(headerLen, |src|) && dst[..i] == src[..i]
  {
    i := 0;
    while i < headerLen && i < |src|
      invariant i <= Min(headerLen, |src|) && dst[..i] == src[..i]
    {
      Emit(dst, i, src[i]);
      i := i + 1;
    }
  }

  method CopyRest(dst: array<byte>, at: nat, src: seq<byte>, from: nat) returns (len: nat)
    requires at <= from <= |src| <= dst.Length
    modifies dst
    ensures at <= len <= |src| && dst[..len] == old(dst[..at]) + src[from..]
  {
    var i := from;
    len := at;
    while i < |src|
      invariant from <= i <= |src| && len == at + (i - from) && dst[..len] == old(dst[..at]) + src[from..i]
    {
      Emit(dst, len, src[i]);
      len, i := len + 1, i + 1;
    }
    assert src[from..i] == src[from..];
  }

  // ----- emulation prevention ---------------------------------------------

  // How many zeros are pending after byte b, when z were pending before it.
  function Next(z: nat, b: byte): nat {
    if b != 0 then 0 else if z >= 2 then 1 else z + 1
  }

  // The payload with an 03 before every byte up to 03 that follows two pending zeros.
  function Escape(p: seq<byte>, z: nat): (s: seq<byte>)
    ensures |p| <= |s|
  {
    if p == [] then []
    else (if z == 2 && p[0] <= 3 then [3] else []) + [p[0]] + Escape(p[1..], Next(z, p[0]))
  }

  // The zeros pending at the end.
  function Pending(p: seq<byte>, z: nat): nat {
    if p == [] then z else Pending(p[1..], Next(z, p[0]))
  }

  function Zeros(z: nat): seq<byte> {
    seq(z, _ => 0)
  }

  lemma StripNonZero(b: byte, s: seq<byte>)
    requires b != 0
    ensures Strip([b] + s) == [b] + Strip(s)
  {
    if |s| >= 2 {
      assert ([b] + s)[1..] == s;
    }
  }

  lemma StripZerosThen(z: nat, b: byte, s: seq<byte>)
    requires z <= 2 && b != 0 && (z == 2 ==> b > 3)
    ensures Strip(Zeros(z) + [b] + s) == Zeros(z) + [b] + Strip(s)
  {
    StripNonZero(b, s);
    var t := [b] + s;
    if z == 0 {
      assert Zeros(0) + [b] + s == t && Zeros(0) + [b] == [b];
    } else if z == 1 {
      ZeroThenNonZero(b, s);
      assert Zeros(1) + [b] + s == [0] + t && Zeros(1) + [b] == [0] + [b];
    } else {
      ZeroThenNonZero(b, s);
      var u := [0] + t;
      assert u[1..] == t;
      assert ([0] + u)[1..] == u;
      assert Zeros(2) + [b] + s == [0] + u && Zeros(2) + [b] == [0, 0, b];
    }
  }

  lemma ZeroThenNonZero(b: byte, s: seq<byte>)
    requires b != 0
    ensures Strip([0] + ([b] + s)) == [0, b] + Strip(s)
  {
    StripNonZero(b, s);
    assert ([0] + ([b] + s))[1..] == [b] + s;
  }

  // What an escape hides comes out again, with the rest stripped.
  lemma StripAtEscape(s: seq<byte>)
    ensures Strip(Zeros(2) + [3] + s) == Zeros(2) + Strip(s)
  {
    var t := Zeros(2) + [3] + s;
    assert t[3..] == s && Zeros(2) == [0, 0];
  }

  // With z zeros already out, stripping undoes the escaping; `tail` is what follows it.
  lemma {:induction false} StripEscaped(p: seq<byte>, z: nat, tail: seq<byte>)
    requires z <= 2 && (tail == [] || tail == [3])
    ensures Strip(Zeros(z) + (Escape(p, z) + tail)) == Zeros(z) + p + if Pending(p, z) == 2 then [] else tail
    decreases |p|
  {
    if p == [] {
      StripEnd(z, tail);
    } else {
      var b, next := p[0], Next(z, p[0]);
      var more := Escape(p[1..], next) + tail;
      StripEscaped(p[1..], next, tail);
      var left := if Pending(p[1..], next) == 2 then [] else tail;
      assert Zeros(next) + p[1..] + left == Zeros(next) + (p[1..] + left);
      StripOneByte(z, b, more, p[1..] + left);
      Rejoin(z, b, p, Escape(p[1..], next), tail, left);
    }
  }

  lemma Rejoin(z: nat, b: byte, p: seq<byte>, escaped: seq<byte>, tail: seq<byte>, left: seq<byte>)
    requires p != [] && b == p[0]
    ensures var mark := if z == 2 && b <= 3 then [3] else [];
            mark + [b] + escaped + tail == mark + [b] + (escaped + tail)
    ensures Zeros(z) + p + left == Zeros(z) + [b] + (p[1..] + left)
  {
    assert p == [b] + p[1..];
  }

  lemma StripEnd(z: nat, tail: seq<byte>)
    requires z <= 2 && (tail == [] || tail == [3])
    ensures Strip(Zeros(z) + ([] + tail)) == Zeros(z) + [] + if z == 2 then [] else tail
  {
    var s := Zeros(z) + ([] + tail);
    if |s| == 3 {
      assert s[3..] == [];
    }
  }

  lemma StripOneByte(z: nat, b: byte, more: seq<byte>, result: seq<byte>)
    requires z <= 2 && Strip(Zeros(Next(z, b)) + more) == Zeros(Next(z, b)) + result
    ensures Strip(Zeros(z) + ((if z == 2 && b <= 3 then [3] else []) + [b] + more)) == Zeros(z) + [b] + result
  {
    if z == 2 && b <= 3 {
      StripFresh(b, more, result);
      StripEscapedByte(b, more, result);
    } else if b != 0 {
      assert Zeros(0) + more == more && Zeros(0) + result == result;
      StripPlainByte(z, b, more, result);
    } else {
      assert Zeros(z + 1) == Zeros(z) + [0];
      assert Zeros(z + 1) + more == Zeros(z) + ([] + [b] + more);
    }
  }

  lemma EscapeMovesOut(b: byte, more: seq<byte>)
    ensures Zeros(2) + [3] + ([b] + more) == Zeros(2) + ([3] + [b] + more)
  {
    assert [3] + ([b] + more) == [3] + [b] + more;
    Associative(Zeros(2), [3], [b] + more);
  }

  lemma StripEscapedByte(b: byte, more: seq<byte>, result: seq<byte>)
    requires Strip([b] + more) == [b] + result
    ensures Strip(Zeros(2) + ([3] + [b] + more)) == Zeros(2) + [b] + result
  {
    hide Strip, Zeros;
    StripAtEscape([b] + more);
    EscapeMovesOut(b, more);
    Associative(Zeros(2), [b], result);
  }

  lemma StripPlainByte(z: nat, b: byte, more: seq<byte>, result: seq<byte>)
    requires z <= 2 && b != 0 && (z == 2 ==> b > 3) && Strip(more) == result
    ensures Strip(Zeros(z) + ([] + [b] + more)) == Zeros(z) + [b] + result
  {
    hide Strip, Zeros;
    StripZerosThen(z, b, more);
    assert Zeros(z) + [b] + more == Zeros(z) + ([] + [b] + more);
  }

  // A byte after an escape: no zeros are pending before it.
  lemma StripFresh(b: byte, more: seq<byte>, result: seq<byte>)
    requires Strip(Zeros(Next(2, b)) + more) == Zeros(Next(2, b)) + result
    ensures Strip([b] + more) == [b] + result
  {
    if b == 0 {
      assert Zeros(1) == [0];
    } else {
      assert Zeros(0) + more == more && Zeros(0) + result == result;
      StripNonZero(b, more);
    }
  }

  /**
    Extraction inverts emulation prevention, for every payload.
   */
  lemma StripUndoesEscape(p: seq<byte>)
    ensures Strip(Escape(p, 0)) == p
  {
    StripEscaped(p, 0, []);
    assert Zeros(0) + (Escape(p, 0) + []) == Escape(p, 0);
    assert Zeros(0) + p + [] == p;
  }

  // What must not occur in a NAL unit: 00 00 and a byte below 03.
  predicate Forbidden(s: seq<byte>, i: nat)
    requires i + 2 < |s|
  {
    s[i] == 0 && s[i + 1] == 0 && s[i + 2] <= 2
  }

  ghost predicate Safe(s: seq<byte>) {
    forall i: nat {:trigger Forbidden(s, i)} :: i + 2 < |s| ==> !Forbidden(s, i)
  }

  lemma SafeBehind(b: byte, s: seq<byte>)
    requires Safe(s) && (|s| >= 2 ==> !(b == 0 && s[0] == 0 && s[1] <= 2))
    ensures Safe([b] + s)
  {
    var t := [b] + s;
    forall i: nat | i + 2 < |t|
      ensures !Forbidden(t, i)
    {
      if i > 0 {
        assert t[i] == s[i - 1] && t[i + 1] == s[i] && t[i + 2] == s[i + 1];
        assert !Forbidden(s, i - 1);
      }
    }
  }

  /**
    Emulation prevention does what it is for: in what it writes, 00 00 is never followed by a
    byte below 03, so no start code and no delimiter can be mistaken in it.
   */
  lemma EscapedIsSafe(p: seq<byte>)
    ensures Safe(Escape(p, 0))
  {
    EscapedIsSafeAfter(p, 0);
    assert Zeros(0) + Escape(p, 0) == Escape(p, 0);
  }

  lemma {:induction false} EscapedIsSafeAfter(p: seq<byte>, z: nat)
    requires z <= 2
    ensures Safe(Zeros(z) + Escape(p, z))
    decreases |p|
  {
    if p != [] {
      var b, next := p[0], Next(z, p[0]);
      var rest := Escape(p[1..], next);
      EscapedIsSafeAfter(p[1..], next);
      EscapedByte(z, b, rest);
    }
  }

  lemma EscapedByte(z: nat, b: byte, rest: seq<byte>)
    requires z <= 2 && Safe(Zeros(Next(z, b)) + rest)
    ensures Safe(Zeros(z) + ((if z == 2 && b <= 3 then [3] else []) + [b] + rest))
  {
    var s := [b] + rest;
    if b == 0 {
      assert z == 1 || Zeros(1) + rest == s;
      assert z != 1 || Zeros(2) + rest == Zeros(1) + s;
    } else {
      assert Zeros(0) + rest == rest;
      SafeBehind(b, rest);
    }
    if z == 2 && b <= 3 {
      SafeBehind(3, s);
      SafeBehind(0, [3] + s);
      SafeBehind(0, [0] + ([3] + s));
      assert [0] + ([0] + ([3] + s)) == Zeros(2) + ([3] + [b] + rest);
    } else {
      assert [] + [b] + rest == s;
      ZerosBefore(z, b, s);
    }
  }

  lemma ZerosBefore(z: nat, b: byte, s: seq<byte>)
    requires z <= 2 && s != [] && s[0] == b && (z == 2 ==> b > 3)
    requires if b == 0 && z == 1 then Safe(Zeros(1) + s) else Safe(s)
    ensures Safe(Zeros(z) + s)
  {
    if b != 0 && z >= 1 {
      SafeBehind(0, s);
      assert [0] + s == Zeros(1) + s;
      if z == 2 {
        SafeBehind(0, [0] + s);
        assert [0] + ([0] + s) == Zeros(2) + s;
      }
    } else if z == 0 {
      assert Zeros(0) + s == s;
    }
  }

  /**
    The bytes taken out are the third ones of 00 00 03, scanning on behind them; all others stay.
   */
  lemma StripMeans(s: seq<byte>)
    ensures Strip([0, 0, 3] + s) == [0, 0] + Strip(s)
    ensures s != [] && !([0, 0, 3] <= s) ==> Strip(s) == [s[0]] + Strip(s[1..])
    ensures Strip([]) == []
  {
    var t: seq<byte> := [0, 0, 3] + s;
    assert t[3..] == s;
    if s != [] && |s| < 3 {
      assert s == [s[0]] + s[1..];
    }
    if |s| >= 3 {
      assert s[..3] == [s[0], s[1], s[2]];
    }
  }

  // A payload that ends in 00 is closed with a final 03.
  function EscapeClosed(p: seq<byte>): seq<byte> {
    Escape(p, 0) + if p != [] && p[|p| - 1] == 0 then [3] else []
  }

  function TrailingZeros(p: seq<byte>): nat {
    if p == [] || p[|p| - 1] != 0 then 0 else 1 + TrailingZeros(p[..|p| - 1])
  }

  lemma {:induction false} PendingAfterOneMore(p: seq<byte>, z: nat, b: byte)
    ensures Pending(p + [b], z) == Next(Pending(p, z), b)
  {
    if p == [] {
      assert [] + [b] == [b] && [b][1..] == [];
    } else {
      assert (p + [b])[1..] == p[1..] + [b];
      PendingAfterOneMore(p[1..], Next(z, p[0]), b);
    }
  }

  // Zeros are pending in pairs: a third one starts a new pair.
  lemma {:induction false} PendingIsParity(p: seq<byte>)
    ensures Pending(p, 0) == if TrailingZeros(p) == 0 then 0 else if TrailingZeros(p) % 2 == 1 then 1 else 2
    decreases |p|
  {
    if p != [] {
      var front, b := p[..|p| - 1], p[|p| - 1];
      assert p == front + [b];
      PendingAfterOneMore(front, 0, b);
      PendingIsParity(front);
    }
  }

  lemma StripClosed(p: seq<byte>)
    ensures Strip(EscapeClosed(p)) == p + if TrailingZeros(p) % 2 == 1 then [3] else []
  {
    PendingIsParity(p);
    var tail := if p != [] && p[|p| - 1] == 0 then [3] else [];
    StripEscaped(p, 0, tail);
    assert Zeros(0) + (Escape(p, 0) + tail) == EscapeClosed(p);
    assert Zeros(0) + p == p;
  }

  /**
    The final 03 of a payload that ends in 00 is taken out just when it ends in an even number
    of zeros.
   */
  lemma ClosingByte(p: seq<byte>)
    ensures Strip(EscapeClosed(p)) == p <==> TrailingZeros(p) % 2 == 0
  {
    StripClosed(p);
    if TrailingZeros(p) % 2 == 1 {
      assert |p + [3]| != |p|;
    }
  }

  /**
    After an odd number of zeros the extraction leaves it in.
   */
  lemma ClosingByteLeftIn(p: seq<byte>)
    requires TrailingZeros(p) % 2 == 1
    ensures Strip(EscapeClosed(p)) == p + [3]
  {
    StripClosed(p);
  }

  lemma {:induction false} ZeroWordsAtEnd(q: seq<byte>, n: nat)
    requires q != [] && q[|q| - 1] != 0
    ensures TrailingZeros(q + Zeros(n)) == n
  {
    var p := q + Zeros(n);
    if n > 0 {
      assert p[..|p| - 1] == q + Zeros(n - 1);
      ZeroWordsAtEnd(q, n - 1);
    }
  }

  /**
    A conforming encoder ends a payload in its trailing bits, which are not 00, and then in
    cabac_zero_words of two zeros each; such a payload always comes back.
   */
  lemma ConformingPayloadComesBack(q: seq<byte>, words: nat)
    requires q != [] && q[|q| - 1] != 0
    ensures Strip(EscapeClosed(q + Zeros(2 * words))) == q + Zeros(2 * words)
  {
    ZeroWordsAtEnd(q, 2 * words);
    ClosingByte(q + Zeros(2 * words));
  }
}
