/**
  The encoders and decoders of src/rtmp/librtmp/amf.c: the encoders write through a moving
  position in a buffer of limited size, the decoders loop over what is left of their input.
 */
module AmfCodec {
  import opened Common
  import opened IntCodec
  import opened Memory
  import opened AmfSpec

  // ----- encoding ---------------------------------------------------------

  // What an encoder with the buffer from `at` to `end` must leave behind for `bytes`, if anything.
  ghost predicate Wrote(bytes: Option<seq<byte>>, before: seq<byte>, after: seq<byte>, at: nat, end: nat,
                        next: Option<nat>) {
    && SameOutside(before, after, at, end) && next.Some? == bytes.Some?
    && (next.Some? ==> at <= next.value <= end && after[at..next.value] == bytes.value)
  }

  method PutString(s: seq<byte>, buf: array<byte>, at: nat, end: nat) returns (next: Option<nat>)
    requires at <= end <= buf.Length
    modifies buf
    ensures Wrote(EncodeString(s, end - at), old(buf[..]), buf[..], at, end, next)
  {
    if (|s| < 65536 && at + 1 + 2 + |s| > end) || at + 1 + 4 + |s| > end {
      return None;
    }
    var head := if |s| < 65536 then [STRING] + EncodeInt16(|s|) else [LONG_STRING] + EncodeInt32(|s|);
    Put(buf, at, end, head);
    ghost var mid := buf[..];
    Put(buf, at + |head|, end, s);
    next := Some(at + |head| + |s|);
    PieceAfterPiece(mid, buf[..], at, at + |head|, next.value, end);
    OutsideTwice(old(buf[..]), mid, buf[..], at, at + |head|, end);
  }

  method PutProp(p: Prop, buf: array<byte>, at: nat, end: nat) returns (next: Option<nat>)
    requires at <= end <= buf.Length
    modifies buf
    ensures Wrote(EncodeProp(p, end - at), old(buf[..]), buf[..], at, end, next)
    decreases p
  {
    if p.value != Null && at + |p.name| + 2 + 1 >= end {
      return None;
    }
    var name := NameBytes(p);
    Put(buf, at, end, name);
    ghost var mid := buf[..];
    next := PutValue(p.value, buf, at + |name|, end);
    if next.Some? {
      PieceAfterPiece(mid, buf[..], at, at + |name|, next.value, end);
    }
    OutsideTwice(old(buf[..]), mid, buf[..], at, at + |name|, end);
  }

  method PutValue(v: Value, buf: array<byte>, at: nat, end: nat) returns (next: Option<nat>)
    requires at <= end <= buf.Length
    modifies buf
    ensures Wrote(EncodeValue(v, end - at), old(buf[..]), buf[..], at, end, next)
    decreases v
  {
    next := None;
    match v {
      case Number(bits) =>
        if at + 1 + 8 <= end {
          Put(buf, at, end, [NUMBER] + bits);
          next := Some(at + 9);
        }
      case Boolean(on) =>
        if at + 2 <= end {
          Put(buf, at, end, [BOOLEAN, if on then 1 else 0]);
          next := Some(at + 2);
        }
      case Str(s) => next := PutString(s, buf, at, end);
      case Null =>
        if at + 1 < end {
          Put(buf, at, end, [NULL]);
          next := Some(at + 1);
        }
      case Object(props) =>
        if at + 4 < end {
          next := PutBody([OBJECT], props, buf, at, end, true);
        }
      case EcmaArray(props) =>
        if at + 4 < end {
          next := PutBody([ECMA_ARRAY] + EncodeInt32(|props|), props, buf, at, end, true);
        }
      case StrictArray(props) =>
        if at + 4 < end {
          next := PutBody([STRICT_ARRAY] + EncodeInt32(|props|), props, buf, at, end, false);
        }
      case _ =>
    }
  }

  // The common part of AMF_Encode, AMF_EncodeEcmaArray and AMF_EncodeArray.
  method PutBody(head: seq<byte>, props: seq<Prop>, buf: array<byte>, at: nat, end: nat, marked: bool)
    returns (next: Option<nat>)
    requires at + |head| <= end <= buf.Length
    modifies buf
    ensures var bytes := head + EncodeAll(props, end - at - |head|);
            Wrote(if marked then Ended(bytes, end - at) else Some(bytes), old(buf[..]), buf[..], at, end, next)
    decreases props, 1
  {
    Put(buf, at, end, head);
    ghost var mid := buf[..];
    var pos := PutAll(props, buf, at + |head|, end);
    PieceAfterPiece(mid, buf[..], at, at + |head|, pos, end);
    OutsideTwice(old(buf[..]), mid, buf[..], at, at + |head|, end);
    if !marked {
      return Some(pos);
    }
    if pos + 3 >= end {
      return None;
    }
    ghost var all := buf[..];
    Put(buf, pos, end, END_MARK);
    PieceAfterPiece(all, buf[..], at, pos, pos + 3, end);
    OutsideTwice(old(buf[..]), all, buf[..], at, pos, end);
    next := Some(pos + 3);
  }

  // The property loop: it stops at the first property that does not fit.
  method PutAll(props: seq<Prop>, buf: array<byte>, at: nat, end: nat) returns (pos: nat)
    requires at <= end <= buf.Length
    modifies buf
    ensures at <= pos <= end && SameOutside(old(buf[..]), buf[..], at, end)
    ensures buf[at..pos] == EncodeAll(props, end - at)
    decreases props, 0
  {
    ghost var goal := EncodeAll(props, end - at);
    pos := at;
    var i := 0;
    while i < |props|
      invariant 0 <= i <= |props| && at <= pos <= end && SameOutside(old(buf[..]), buf[..], at, end)
      invariant SoFar(goal, buf[at..pos], props[i..], end - pos)
    {
      ghost var before := buf[..];
      var res := PutProp(props[i], buf, pos, end);
      OutsideTwice(old(buf[..]), before, buf[..], at, pos, end);
      PieceAfterPiece(before, buf[..], at, pos, if res.Some? then res.value else pos, end);
      OneMore(goal, before[at..pos], props[i..], end - pos, EncodeProp(props[i], end - pos));
      if res.None? {
        break;
      }
      pos := res.value;
      assert props[i..][1..] == props[i + 1..];
      i := i + 1;
    }
  }

  // What the property loop keeps: `done` is written, `props` are still to come.
  ghost predicate SoFar(goal: seq<byte>, done: seq<byte>, props: seq<Prop>, room: int) {
    goal == done + EncodeAll(props, room)
  }

  lemma OneMore(goal: seq<byte>, done: seq<byte>, props: seq<Prop>, room: int, first: Option<seq<byte>>)
    requires props != [] && first == EncodeProp(props[0], room) && SoFar(goal, done, props, room)
    ensures if first.None? then goal == done else SoFar(goal, done + first.value, props[1..], room - |first.value|)
  {
    if first.Some? {
      assert done + (first.value + EncodeAll(props[1..], room - |first.value|))
          == (done + first.value) + EncodeAll(props[1..], room - |first.value|);
    }
  }

  // ----- decoding ---------------------------------------------------------

  // `left` is what the caller says is left from `at` on; it can have gone below 0.
  ghost predicate InStep(data: seq<byte>, at: nat, left: int) {
    left == |data| - at
  }

  method GetProp(data: seq<byte>, at: nat, left: int, named: bool) returns (r: Decoded<Prop>)
    requires InStep(data, at, left)
    ensures r == DecodeProp(Rest(data, at), named)
    decreases Max(left, 0), 0
  {
    if left <= 0 || (named && left < 4) {
      return Failed;
    }
    ghost var rest := data[at..];
    var pos, size, name := at, left, [];
    if named {
      var nameSize := DecodeInt16(data[pos..]);
      if nameSize > size - 2 {
        return Failed;
      }
      name := data[pos + 2..pos + 2 + nameSize];
      size := size - (2 + nameSize);
      pos := pos + 2 + nameSize;
      assert rest[2..2 + nameSize] == name;
    }
    if size == 0 {
      return Failed;
    }
    var ty := data[pos];
    pos, size := pos + 1, size - 1;
    assert rest[pos - 1 - at] == ty && rest[pos - at..] == Rest(data, pos);
    var v := GetValue(ty, data, pos, size);
    r := if v.Failed? then Failed else Decoded(Prop(name, v.value), pos - at + v.used);
  }

  method GetValue(ty: byte, data: seq<byte>, at: nat, left: int) returns (r: Decoded<Value>)
    requires InStep(data, at, left) && left >= 0
    ensures r == DecodeValue(ty, Rest(data, at))
    decreases left, 4
  {
    ghost var rest := data[at..];
    r := Failed;
    if ty == NUMBER {
      if left >= 8 {
        r := Decoded(Number(data[at..at + 8]), 8);
        assert rest[..8] == data[at..at + 8];
      }
    } else if ty == BOOLEAN {
      if left >= 1 {
        r := Decoded(Boolean(data[at] != 0), 1);
      }
    } else if ty == STRING {
      r := GetString(data, at, left);
    } else if ty == OBJECT || ty == ECMA_ARRAY || ty == STRICT_ARRAY {
      r := GetNested(ty, data, at, left);
    } else if ty == NULL || ty == UNDEFINED || ty == UNSUPPORTED {
      r := Decoded(Null, 0);
    } else if ty == DATE {
      if left >= 10 {
        r := Decoded(Date(data[at..at + 8], DecodeInt16(data[at + 8..])), 10);
        assert rest[..8] == data[at..at + 8] && rest[8..] == data[at + 8..];
      }
    } else if ty == LONG_STRING || ty == XML_DOC {
      r := GetLongString(ty, data, at, left);
    }
  }

  method GetNested(ty: byte, data: seq<byte>, at: nat, left: int) returns (r: Decoded<Value>)
    requires InStep(data, at, left) && left >= 0 && (ty == OBJECT || ty == ECMA_ARRAY || ty == STRICT_ARRAY)
    ensures r == DecodeValue(ty, Rest(data, at))
    decreases left, 3
  {
    if ty == OBJECT {
      var o := GetObject(data, at, left, true);
      r := if o.Failed? then Failed else Decoded(Object(o.value), o.used);
    } else if ty == ECMA_ARRAY {
      RestTwice(data, at, 4);
      var o := GetObject(data, at + 4, left - 4, true);
      r := if o.Failed? then Failed else Decoded(EcmaArray(o.value), 4 + o.used);
    } else {
      RestTwice(data, at, 4);
      var n := AsInt(Peek32(data[at..]));
      var o := GetArray(data, at + 4, left - 4, n);
      r := if o.Failed? then Failed else Decoded(StrictArray(o.value), 4 + o.used);
    }
  }

  lemma RestTwice(data: seq<byte>, at: nat, n: nat)
    ensures Rest(Rest(data, at), n) == Rest(data, at + n)
  {
  }

  lemma SliceOfRest(data: seq<byte>, at: nat, from: nat, to: nat)
    requires from <= to && at + to <= |data|
    ensures data[at..][from..to] == data[at + from..at + to]
  {
  }

  method GetString(data: seq<byte>, at: nat, left: int) returns (r: Decoded<Value>)
    requires InStep(data, at, left) && left >= 0
    ensures r == DecodeValue(STRING, Rest(data, at))
  {
    if left < 2 || left < DecodeInt16(data[at..]) + 2 {
      return Failed;
    }
    var size: nat := DecodeInt16(data[at..]);
    r := Decoded(Str(data[at + 2..at + 2 + size]), 2 + size);
    SliceOfRest(data, at, 2, 2 + size);
  }

  method GetLongString(ty: byte, data: seq<byte>, at: nat, left: int) returns (r: Decoded<Value>)
    requires InStep(data, at, left) && left >= 0 && (ty == LONG_STRING || ty == XML_DOC)
    ensures r == DecodeValue(ty, Rest(data, at))
  {
    if left < 4 || left < DecodeInt32(data[at..]) + 4 {
      return Failed;
    }
    var size: nat := DecodeInt32(data[at..]);
    var s := data[at + 4..at + 4 + size];
    r := Decoded(if ty == LONG_STRING then Str(s) else XmlDoc(s), 4 + size);
    SliceOfRest(data, at, 4, 4 + size);
  }

  // A list read so far, and the rest of it.
  function Prefixed(props: seq<Prop>, used: nat, more: Decoded<seq<Prop>>): Decoded<seq<Prop>> {
    if more.Failed? then Failed else Decoded(props + more.value, used + more.used)
  }

  // A property, and the rest of the list after it.
  function Then(p: Decoded<Prop>, more: Decoded<seq<Prop>>): Decoded<seq<Prop>>
    requires p.Decoded?
  {
    if more.Failed? then Failed else Decoded([p.value] + more.value, p.used + more.used)
  }

  lemma PrefixedOnce(props: seq<Prop>, used: nat, p: Decoded<Prop>, more: Decoded<seq<Prop>>)
    requires p.Decoded?
    ensures Prefixed(props, used, Then(p, more)) == Prefixed(props + [p.value], used + p.used, more)
  {
    if more.Decoded? {
      assert props + ([p.value] + more.value) == (props + [p.value]) + more.value;
    }
  }

  lemma PrefixedEnds(props: seq<Prop>, used: nat, n: nat)
    ensures Prefixed(props, used, Decoded([], n)) == Decoded(props, used + n)
  {
    assert props + [] == props;
  }

  lemma PrefixedByNothing(more: Decoded<seq<Prop>>)
    ensures Prefixed([], 0, more) == more
  {
    if more.Decoded? {
      assert [] + more.value == more.value;
    }
  }

  // What the loop of AMF_Decode keeps: `props` are read, from `rest` on they are not.
  ghost predicate Reading(goal: Decoded<seq<Prop>>, props: seq<Prop>, used: nat, rest: seq<byte>, named: bool) {
    goal == Prefixed(props, used, DecodeObject(rest, named))
  }

  lemma ReadsOn(goal: Decoded<seq<Prop>>, props: seq<Prop>, used: nat, rest: seq<byte>, named: bool, p: Decoded<Prop>)
    requires rest != [] && Reading(goal, props, used, rest, named)
             && (!AtEndMark(rest) ==> p == DecodeProp(rest, named))
    ensures if AtEndMark(rest) then goal == Decoded(props, used + 3)
            else if p.Failed? || p.used > |rest| then goal == Failed
            else Reading(goal, props + [p.value], used + p.used, rest[p.used..], named)
  {
    if AtEndMark(rest) {
      PrefixedEnds(props, used, 3);
    } else if p.Decoded? && p.used <= |rest| {
      PrefixedOnce(props, used, p, DecodeObject(rest[p.used..], named));
    }
  }

  lemma ReadsNothing(goal: Decoded<seq<Prop>>, named: bool, props: seq<Prop>, used: nat)
    ensures Reading(goal, props, used, [], named) <==> goal == Decoded(props, used)
  {
    PrefixedEnds(props, used, 0);
  }

  // AMF_Decode: the object grows by one property a round.
  method GetObject(data: seq<byte>, at: nat, size: int, named: bool) returns (r: Decoded<seq<Prop>>)
    requires InStep(data, at, size)
    ensures r == DecodeObject(Rest(data, at), named)
    decreases Max(size, 0), 2
  {
    var pos, left, props := at, size, [];
    ghost var rest := Rest(data, at);
    ghost var goal := DecodeObject(rest, named);
    ghost var used: nat := 0;
    PrefixedByNothing(goal);
    while left > 0
      invariant at <= pos && InStep(data, pos, left) && rest == Rest(data, pos) && used == pos - at
      invariant Reading(goal, props, used, rest, named)
      decreases left
    {
      var ended, p;
      ended, p, rest, props, used := GetNext(data, pos, left, named, goal, rest, props, used);
      if ended {
        left := left - 3;
        return Decoded(props, size - left);
      }
      if p.Failed? {
        return Failed;
      }
      left := left - p.used;
      if left < 0 {
        return Failed;
      }
      pos := pos + p.used;
    }
    ReadsNothing(goal, named, props, used);
    r := Decoded(props, size - left);
  }

  // One round: the end mark, or a property that is added to the object.
  method GetNext(data: seq<byte>, pos: nat, left: int, named: bool, ghost goal: Decoded<seq<Prop>>,
                 ghost rest: seq<byte>, props: seq<Prop>, ghost used: nat)
    returns (ended: bool, p: Decoded<Prop>, ghost after: seq<byte>, more: seq<Prop>, ghost read: nat)
    requires InStep(data, pos, left) && left > 0 && rest == Rest(data, pos) && Reading(goal, props, used, rest, named)
    ensures ended ==> left >= 3 && more == props && goal == Decoded(props, used + 3)
    ensures !ended && (p.Failed? || p.used > left) ==> goal == Failed
    ensures !ended && p.Decoded? && p.used <= left ==>
      && p.used >= 1 && after == Rest(data, pos + p.used) && read == used + p.used
      && Reading(goal, more, read, after, named)
    decreases left, 1
  {
    ended, p := left >= 3 && DecodeInt24(data[pos..]) == OBJECT_END, Failed;
    more, after, read := props, rest, used;
    if !ended {
      p := GetProp(data, pos, left, named);
    }
    ReadsOn(goal, props, used, rest, named, p);
    if !ended && p.Decoded? && p.used <= left {
      more, after, read := props + [p.value], rest[p.used..], used + p.used;
      assert after == Rest(data, pos + p.used);
    }
  }

  // AMF_DecodeArray without names
  method GetArray(data: seq<byte>, at: nat, size: int, n: int) returns (r: Decoded<seq<Prop>>)
    requires InStep(data, at, size)
    ensures r == DecodeArray(Rest(data, at), n)
    decreases Max(size, 0), 2
  {
    hide DecodeProp;
    var pos, left, count, props := at, size, n, [];
    ghost var more := DecodeArray(Rest(data, at), n);
    ghost var goal := more;
    ghost var used: nat := 0;
    PrefixedByNothing(goal);
    while count > 0
      invariant at <= pos && InStep(data, pos, left) && used == pos - at
      invariant more == DecodeArray(Rest(data, pos), count) && goal == Prefixed(props, used, more)
    {
      count := count - 1;
      if left <= 0 {
        return Failed;
      }
      var p := GetProp(data, pos, left, false);
      more := AfterElement(data, pos, count, p, more);
      if p.Failed? {
        return Failed;
      }
      PrefixedOnce(props, used, p, more);
      used := used + p.used;
      left := left - p.used;
      pos := pos + p.used;
      props := props + [p.value];
    }
    PrefixedEnds(props, used, 0);
    r := Decoded(props, size - left);
  }

  lemma AfterElement(data: seq<byte>, pos: nat, n: int, p: Decoded<Prop>, all: Decoded<seq<Prop>>)
    returns (more: Decoded<seq<Prop>>)
    requires n >= 0 && pos < |data| && p == DecodeProp(Rest(data, pos), false)
             && all == DecodeArray(Rest(data, pos), n + 1)
    ensures if p.Failed? then all == Failed
            else more == DecodeArray(Rest(data, pos + p.used), n) && all == Then(p, more)
  {
    more := Failed;
    if p.Decoded? {
      RestTwice(data, pos, p.used);
      more := DecodeArray(Rest(data, pos + p.used), n);
    }
  }
}
