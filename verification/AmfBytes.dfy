/**
  AMF 0 byte by byte, with the numbers of the specification written out (sections 2.1 to
  2.14), and just how much room each value needs.
 */
module AmfBytes {
  import opened Common
  import opened IntCodec
  import opened AmfSpec

  // ----- what is written --------------------------------------------------

  // Two and four bytes, most significant first.
  predicate Big2(s: seq<byte>, n: int) {
    |s| >= 2 && s[0] as int == n / 256 % 256 && s[1] as int == n % 256
  }

  predicate Big4(s: seq<byte>, n: int) {
    && |s| >= 4 && s[0] as int == n / 16777216 % 256 && s[1] as int == n / 65536 % 256
    && s[2] as int == n / 256 % 256 && s[3] as int == n % 256
  }

  // The bytes of a value: its marker and what follows it; `inner` are those of its properties.
  predicate IsValue(b: seq<byte>, v: Value, inner: seq<byte>) {
    match v
    case Number(bits) => b == [0] + bits
    case Boolean(on) => b == [1, if on then 1 else 0]
    case Str(s) =>
      if |s| < 65536 then |b| == 3 + |s| && b[0] == 2 && Big2(b[1..], |s|) && b[3..] == s
      else |b| == 5 + |s| && b[0] == 12 && Big4(b[1..], |s|) && b[5..] == s
    case Null => b == [5]
    case Object(_) => b == [3] + inner + [0, 0, 9]
    case EcmaArray(props) =>
      |b| == 8 + |inner| && b[0] == 8 && Big4(b[1..], |props|) && b[5..] == inner + [0, 0, 9]
    case StrictArray(props) =>
      |b| == 5 + |inner| && b[0] == 10 && Big4(b[1..], |props|) && b[5..] == inner
    case _ => true
  }

  function Inner(v: Value): seq<Prop> {
    match v
    case Object(props) => props
    case EcmaArray(props) => props
    case StrictArray(props) => props
    case _ => []
  }

  lemma LengthBytes(n: nat)
    ensures |EncodeInt16(n)| == 2 && Big2(EncodeInt16(n), n) && |EncodeInt32(n)| == 4 && Big4(EncodeInt32(n), n)
  {
    assert n / 256 / 256 == n / 65536 && n / 256 / 256 / 256 == n / 16777216;
  }

  lemma Behind(marker: byte, size: seq<byte>, s: seq<byte>)
    requires |size| == 2 || |size| == 4
    ensures var b := [marker] + (size + s);
            && b[0] == marker && b[1..] == size + s && b[1 + |size|..] == s
            && (|size| == 2 ==> forall n :: Big2(size, n) ==> Big2(b[1..], n))
            && (|size| == 4 ==> forall n :: Big4(size, n) ==> Big4(b[1..], n))
  {
  }

  /**
    Each value has its marker and the form the specification gives it.
   */
  lemma ValueOnWire(v: Value)
    ensures IsValue([TypeByte(v)] + Payload(v), v, AllBytes(Inner(v)))
  {
    hide Big2, Big4, EncodeInt16, EncodeInt32, AllBytes;
    match v
    case Str(s) =>
      LengthBytes(|s|);
      Behind(TypeByte(v), if |s| < 65536 then EncodeInt16(|s|) else EncodeInt32(|s|), s);
    case Object(props) => Associative([3], AllBytes(props), [0, 0, 9]);
    case EcmaArray(props) =>
      LengthBytes(|props|);
      Behind(8, EncodeInt32(|props|), AllBytes(props) + [0, 0, 9]);
    case StrictArray(props) =>
      LengthBytes(|props|);
      Behind(10, EncodeInt32(|props|), AllBytes(props));
    case _ =>
  }

  /**
    A property is its name, with its length in two bytes, unless it has none or is a null, and
    then its value; the properties of an object follow each other.
   */
  lemma PropOnWire(p: Prop)
    ensures if p.value == Null || p.name == [] then Bytes(p) == [TypeByte(p.value)] + Payload(p.value)
            else && |Bytes(p)| == 2 + |p.name| + 1 + |Payload(p.value)| && Big2(Bytes(p), |p.name|)
                 && Bytes(p)[2..2 + |p.name|] == p.name
                 && Bytes(p)[2 + |p.name|..] == [TypeByte(p.value)] + Payload(p.value)
  {
    LengthBytes(|p.name|);
    var rest := [TypeByte(p.value)] + Payload(p.value);
    assert Bytes(p) == NameBytes(p) + rest;
  }

  lemma AllOnWire(p: Prop, props: seq<Prop>)
    ensures AllBytes([]) == [] && AllBytes([p] + props) == Bytes(p) + AllBytes(props)
  {
    assert ([p] + props)[1..] == props;
  }

  /**
    The first property that does not fit ends the list; dates and XML documents never fit. An
    array announces all its elements, whether they fit or not.
   */
  lemma FirstFailureEnds(p: Prop, props: seq<Prop>, room: int)
    ensures EncodeAll([], room) == []
    ensures EncodeAll([p] + props, room)
            == var first := EncodeProp(p, room);
               if first.None? then [] else first.value + EncodeAll(props, room - |first.value|)
    ensures p.value.Date? || p.value.XmlDoc? ==> EncodeProp(p, room) == None
  {
    assert ([p] + props)[1..] == props;
  }

  lemma CountIsAnnounced(v: Value, room: int)
    requires (v.EcmaArray? || v.StrictArray?) && EncodeValue(v, room).Some?
    ensures var b := EncodeValue(v, room).value;
            |b| >= 5 && b[0] == (if v.StrictArray? then 10 else 8) && Big4(b[1..], |v.props|)
  {
    hide Big4, EncodeInt32, EncodeAll;
    LengthBytes(|v.props|);
    var rest := EncodeAll(v.props, room - 5);
    var tail: seq<byte> := if v.StrictArray? then [] else END_MARK;
    var b: seq<byte> := [if v.StrictArray? then 10 else 8] + (EncodeInt32(|v.props|) + (rest + tail));
    Behind(b[0], EncodeInt32(|v.props|), rest + tail);
    assert EncodeValue(v, room).value == b;
  }

  // ----- what is read -----------------------------------------------------

  lemma SizesRead(data: seq<byte>)
    requires |data| >= 4
    ensures DecodeInt16(data) == 256 * data[0] as int + data[1] as int
    ensures DecodeInt32(data)
            == 16777216 * data[0] as int + 65536 * data[1] as int + 256 * data[2] as int + data[3] as int
  {
  }

  /**
    What each marker makes of the bytes behind it: the simple values, with what is cut off a
    failure, undefined and unsupported as null, and every marker not listed a failure.
   */
  lemma SimpleFromWire(ty: byte, data: seq<byte>)
    ensures ty == 0 ==> DecodeValue(ty, data) == if |data| < 8 then Failed else Decoded(Number(data[..8]), 8)
    ensures ty == 1 ==> DecodeValue(ty, data) == if |data| < 1 then Failed else Decoded(Boolean(data[0] != 0), 1)
    ensures ty == 2 ==>
              var n := if |data| < 2 then 0 else 256 * data[0] as int + data[1] as int;
              DecodeValue(ty, data) == if |data| < 2 + n then Failed else Decoded(Str(data[2..2 + n]), 2 + n)
    ensures ty == 5 || ty == 6 || ty == 13 ==> DecodeValue(ty, data) == Decoded(Null, 0)
    ensures ty == 11 ==>
              DecodeValue(ty, data)
              == if |data| < 10 then Failed else Decoded(Date(data[..8], 256 * data[8] as int + data[9] as int), 10)
    ensures ty == 12 || ty == 15 ==>
              var n := if |data| < 4 then 0
                       else 16777216 * data[0] as int + 65536 * data[1] as int + 256 * data[2] as int + data[3] as int;
              DecodeValue(ty, data)
              == if |data| < 4 + n then Failed
                 else Decoded(if ty == 12 then Str(data[4..4 + n]) else XmlDoc(data[4..4 + n]), 4 + n)
    ensures ty == 4 || ty == 7 || ty == 9 || ty == 14 || ty > 15 ==> DecodeValue(ty, data) == Failed
  {
    if |data| >= 10 {
      assert data[8..][0] == data[8] && data[8..][1] == data[9];
    }
  }

  function Wrapped(o: Decoded<seq<Prop>>, extra: nat, make: seq<Prop> -> Value): Decoded<Value> {
    if o.Failed? then Failed else Decoded(make(o.value), extra + o.used)
  }

  /**
    Objects and arrays: an ECMA array's count is passed over, a strict array's decides, as a
    signed number, how many elements are read; both without looking whether they are there.
   */
  lemma NestedFromWire(ty: byte, data: seq<byte>)
    ensures ty == 3 ==> DecodeValue(ty, data) == Wrapped(DecodeObject(data, true), 0, props => Object(props))
    ensures ty == 8 ==>
              DecodeValue(ty, data)
              == Wrapped(DecodeObject(if |data| >= 4 then data[4..] else [], true), 4, props => EcmaArray(props))
    ensures ty == 10 && |data| >= 4 ==>
              var n := 16777216 * data[0] as int + 65536 * data[1] as int + 256 * data[2] as int + data[3] as int;
              DecodeValue(ty, data)
              == Wrapped(DecodeArray(data[4..], if n >= 2147483648 then n - 4294967296 else n), 4,
                         props => StrictArray(props))
  {
    hide DecodeObject, DecodeArray, DecodeProp, DecodeInt16;
    if |data| >= 4 {
      SizesRead(data);
      assert (data + [0, 0, 0, 0])[..4] == data[..4];
      assert DecodeInt32(data + [0, 0, 0, 0]) == DecodeInt32(data);
    }
  }

  // A property as the value behind its marker makes it, with what stands before that value.
  function Property(name: seq<byte>, head: nat, v: Decoded<Value>): Decoded<Prop> {
    if v.Failed? then Failed else Decoded(Prop(name, v.value), head + v.used)
  }

  lemma BareFromWire(ty: byte, rest: seq<byte>)
    ensures DecodeProp([], false) == Failed
    ensures DecodeProp([ty] + rest, false) == Property([], 1, DecodeValue(ty, rest))
  {
    hide DecodeValue;
    assert ([ty] + rest)[1..] == rest;
  }

  /**
    A property is read exactly if its name, its marker and the value behind it are there: at
    least four bytes in all, and at least one behind the name.
   */
  lemma NamedFromWire(data: seq<byte>)
    ensures var n := if |data| < 2 then 0 else 256 * data[0] as int + data[1] as int;
            DecodeProp(data, true)
            == if |data| < 4 || |data| < n + 3 then Failed
               else Property(data[2..2 + n], 3 + n, DecodeValue(data[2 + n], data[3 + n..]))
  {
    hide DecodeValue;
  }

  /**
    An object ends with its mark or with the data; an array only with its last element.
   */
  lemma ObjectFromWire(data: seq<byte>, named: bool, p: Prop, used: nat, n: nat)
    requires DecodeProp(data, named) == Decoded(p, used)
    ensures DecodeObject([], named) == Decoded([], 0) && DecodeArray([], n + 1) == Failed
    ensures forall m :: m <= 0 ==> DecodeArray(data, m) == Decoded([], 0)
    ensures [0, 0, 9] <= data ==> DecodeObject(data, named) == Decoded([], 3)
    ensures !([0, 0, 9] <= data) ==>
              DecodeObject(data, named)
              == if used > |data| then Failed else Before(p, used, DecodeObject(data[used..], named))
    ensures !named && used <= |data| ==> DecodeArray(data, n + 1) == Before(p, used, DecodeArray(data[used..], n))
  {
    EndFromWire(data);
    assert |data| >= 3 ==> data[..3] == [data[0], data[1], data[2]];
  }

  function Before(p: Prop, used: nat, more: Decoded<seq<Prop>>): Decoded<seq<Prop>> {
    if more.Failed? then Failed else Decoded([p] + more.value, used + more.used)
  }

  /**
    The end of an object is 00 00 09.
   */
  lemma EndFromWire(data: seq<byte>)
    ensures AtEndMark(data) <==> |data| >= 3 && data[0] == 0 && data[1] == 0 && data[2] == 9
  {
  }

  // ----- how much room is enough ------------------------------------------

  // The least room in which a property is written completely.
  function Need(p: Prop): nat
    decreases p
  {
    Max(if p.value == Null then 0 else |p.name| + 4, |NameBytes(p)| + NeedValue(p.value))
  }

  function NeedValue(v: Value): nat
    decreases v
  {
    match v
    case Number(_) => 9
    case Boolean(_) => 2
    case Str(s) => 5 + |s|
    case Null => 2
    case Object(props) => Max(1 + NeedAll(props), |AllBytes(props)| + 5)
    case EcmaArray(props) => Max(5 + NeedAll(props), |AllBytes(props)| + 9)
    case StrictArray(props) => 5 + NeedAll(props)
    case _ => 0
  }

  function NeedAll(props: seq<Prop>): nat
    decreases props
  {
    if props == [] then 0 else Max(Need(props[0]), |Bytes(props[0])| + NeedAll(props[1..]))
  }

  // Nothing but what the encoder can write.
  ghost predicate Plain(v: Value)
    decreases v
  {
    match v
    case Object(props) => AllPlain(props)
    case EcmaArray(props) => AllPlain(props)
    case StrictArray(props) => AllPlain(props)
    case _ => !v.Date? && !v.XmlDoc?
  }

  ghost predicate AllPlain(props: seq<Prop>)
    decreases props
  {
    props == [] || (Plain(props[0].value) && AllPlain(props[1..]))
  }

  // Never longer than the whole, and the whole if as long.
  ghost predicate PartOf(b: seq<byte>, whole: seq<byte>) {
    |b| <= |whole| && (|b| == |whole| ==> b == whole)
  }

  lemma PartsJoin(a: seq<byte>, b: seq<byte>, c: seq<byte>, d: seq<byte>)
    requires PartOf(a, c) && PartOf(b, d)
    ensures PartOf(a + b, c + d) && (a + b == c + d <==> a == c && b == d)
  {
    if a + b == c + d {
      assert |a| == |c| && |b| == |d|;
    }
  }

  /**
    A property is written completely if and only if the room is at least what it needs; in less
    room it is left out, or what is nested in it is, and never is more written than there is room.
   */
  lemma {:induction false} WrittenExactly(p: Prop, room: int)
    requires Plain(p.value)
    ensures EncodeProp(p, room) == Some(Bytes(p)) <==> Need(p) <= room
    ensures EncodeProp(p, room).Some? ==>
              |EncodeProp(p, room).value| <= room && PartOf(EncodeProp(p, room).value, Bytes(p))
    decreases p
  {
    var name, whole := NameBytes(p), [TypeByte(p.value)] + Payload(p.value);
    ValueWrittenExactly(p.value, room - |name|);
    assert Bytes(p) == name + whole;
    var v := EncodeValue(p.value, room - |name|);
    if v.Some? {
      PartsJoin(name, v.value, name, whole);
    }
  }

  lemma {:induction false} ValueWrittenExactly(v: Value, room: int)
    requires Plain(v)
    ensures EncodeValue(v, room) == Some([TypeByte(v)] + Payload(v)) <==> NeedValue(v) <= room
    ensures EncodeValue(v, room).Some? ==>
              |EncodeValue(v, room).value| <= room && PartOf(EncodeValue(v, room).value, [TypeByte(v)] + Payload(v))
    decreases v, 1
  {
    hide EncodeInt16, EncodeInt32, AllBytes, EncodeAll, NeedAll;
    match v
    case Object(_) => NestedValueExactly(v, room);
    case EcmaArray(_) => NestedValueExactly(v, room);
    case StrictArray(_) => NestedValueExactly(v, room);
    case Str(s) =>
      LengthBytes(|s|);
      var size := if |s| < 65536 then EncodeInt16(|s|) else EncodeInt32(|s|);
      assert [TypeByte(v)] + size + s == [TypeByte(v)] + (size + s);
    case Boolean(on) => assert [BOOLEAN] + Payload(v) == [BOOLEAN, if on then 1 else 0];
    case Null => assert [NULL] + Payload(v) == [NULL];
    case _ =>
  }

  lemma {:induction false} NestedValueExactly(v: Value, room: int)
    requires Plain(v) && (v.Object? || v.EcmaArray? || v.StrictArray?)
    ensures EncodeValue(v, room) == Some([TypeByte(v)] + Payload(v)) <==> NeedValue(v) <= room
    ensures EncodeValue(v, room).Some? ==>
              |EncodeValue(v, room).value| <= room && PartOf(EncodeValue(v, room).value, [TypeByte(v)] + Payload(v))
    decreases v, 0
  {
    hide EncodeInt16, EncodeInt32, AllBytes, EncodeAll, NeedAll, PartOf;
    match v
    case Object(props) =>
      if room > 4 {
        NestedExactly([3], props, room, END_MARK);
        assert |[3] + (AllBytes(props) + END_MARK)| == 4 + |AllBytes(props)|;
      }
    case EcmaArray(props) =>
      LengthBytes(|props|);
      if room > 4 {
        var head := [8] + EncodeInt32(|props|);
        NestedExactly(head, props, room, END_MARK);
        assert head + (AllBytes(props) + END_MARK) == [8] + (EncodeInt32(|props|) + (AllBytes(props) + END_MARK));
      }
    case StrictArray(props) =>
      LengthBytes(|props|);
      if room > 4 {
        var head := [10] + EncodeInt32(|props|);
        NestedExactly(head, props, room, []);
        assert head + EncodeAll(props, room - 5) + [] == head + EncodeAll(props, room - 5);
        assert head + (AllBytes(props) + []) == [10] + (EncodeInt32(|props|) + AllBytes(props));
      }
  }

  lemma {:induction false} NestedExactly(head: seq<byte>, props: seq<Prop>, room: int, tail: seq<byte>)
    requires AllPlain(props) && |head| <= room
    ensures var b := head + EncodeAll(props, room - |head|);
            && PartOf(b + tail, head + (AllBytes(props) + tail)) && |b| <= room
            && (b + tail == head + (AllBytes(props) + tail) <==> |head| + NeedAll(props) <= room)
    decreases props, 1
  {
    hide EncodeAll, AllBytes, NeedAll, AllPlain;
    var r := room - |head|;
    AllWrittenExactly(props, r);
    PartsJoin(EncodeAll(props, r), tail, AllBytes(props), tail);
    PartsJoin(head, EncodeAll(props, r) + tail, head, AllBytes(props) + tail);
    assert head + EncodeAll(props, r) + tail == head + (EncodeAll(props, r) + tail);
  }

  lemma {:induction false} AllWrittenExactly(props: seq<Prop>, room: nat)
    requires AllPlain(props)
    ensures EncodeAll(props, room) == AllBytes(props) <==> NeedAll(props) <= room
    ensures |EncodeAll(props, room)| <= room && PartOf(EncodeAll(props, room), AllBytes(props))
    decreases props, 0
  {
    hide EncodeProp, Bytes, Need, Plain;
    if props != [] {
      var first := EncodeProp(props[0], room);
      WrittenExactly(props[0], room);
      if first.Some? {
        AllWrittenExactly(props[1..], room - |first.value|);
        PartsJoin(first.value, EncodeAll(props[1..], room - |first.value|), Bytes(props[0]), AllBytes(props[1..]));
      }
    }
  }
}
