/**
  Decoding what was encoded: every tree of numbers, booleans, strings, objects and arrays
  comes back, and exactly its own bytes are consumed.
 */
module AmfRoundTrip {
  import opened Common
  import opened IntCodec
  import opened AmfSpec

  // What AMF 0 can carry: names in objects and ECMA arrays only, and those non-empty;
  // a null has no room for a name.
  ghost predicate Encodable(p: Prop, named: bool)
    decreases p
  {
    && (if named then 0 < |p.name| < 65536 && p.value != Null else p.name == [])
    && EncodableValue(p.value)
  }

  ghost predicate EncodableValue(v: Value)
    decreases v
  {
    match v
    case Str(s) => |s| < 0x8000_0000
    case Object(props) => AllEncodable(props, true)
    case EcmaArray(props) => AllEncodable(props, true) && |props| < 0x8000_0000
    case StrictArray(props) => AllEncodable(props, false) && |props| < 0x8000_0000
    case Date(_, _) => false
    case XmlDoc(_) => false
    case _ => true
  }

  ghost predicate AllEncodable(props: seq<Prop>, named: bool)
    decreases props
  {
    props == [] || (Encodable(props[0], named) && AllEncodable(props[1..], named))
  }

  // ----- room -------------------------------------------------------------

  lemma {:induction false} FitsInRoom(p: Prop, named: bool, room: int)
    requires Encodable(p, named) && |Bytes(p)| + 2 <= room
    ensures EncodeProp(p, room) == Some(Bytes(p))
    decreases p
  {
    ValueFits(p.value, room - |NameBytes(p)|);
    assert NameBytes(p) + ([TypeByte(p.value)] + Payload(p.value)) == Bytes(p);
  }

  lemma {:induction false} ValueFits(v: Value, room: int)
    requires EncodableValue(v) && 1 + |Payload(v)| + 2 <= room
    ensures EncodeValue(v, room) == Some([TypeByte(v)] + Payload(v))
    decreases v
  {
    match v
    case Object(props) =>
      AllFit(props, true, room - 1);
      assert [OBJECT] + AllBytes(props) + END_MARK == [OBJECT] + (AllBytes(props) + END_MARK);
    case EcmaArray(props) =>
      AllFit(props, true, room - 5);
      assert [ECMA_ARRAY] + EncodeInt32(|props|) + AllBytes(props) + END_MARK
          == [ECMA_ARRAY] + (EncodeInt32(|props|) + (AllBytes(props) + END_MARK));
    case StrictArray(props) =>
      AllFit(props, false, room - 5);
      assert [STRICT_ARRAY] + EncodeInt32(|props|) + AllBytes(props)
          == [STRICT_ARRAY] + (EncodeInt32(|props|) + AllBytes(props));
    case Str(s) =>
      if |s| < 65536 {
        assert [STRING] + EncodeInt16(|s|) + s == [STRING] + (EncodeInt16(|s|) + s);
      } else {
        assert [LONG_STRING] + EncodeInt32(|s|) + s == [LONG_STRING] + (EncodeInt32(|s|) + s);
      }
    case Boolean(on) => assert [BOOLEAN, if on then 1 else 0] == [BOOLEAN] + [if on then 1 else 0];
    case Null => assert [NULL] == [NULL] + [];
    case Number(_) =>
  }

  lemma {:induction false} AllFit(props: seq<Prop>, named: bool, room: int)
    requires AllEncodable(props, named) && |AllBytes(props)| + 2 <= room
    ensures EncodeAll(props, room) == AllBytes(props)
    decreases props
  {
    if props != [] {
      FitsInRoom(props[0], named, room);
      AllFit(props[1..], named, room - |Bytes(props[0])|);
    }
  }

  // ----- decoding what was encoded ----------------------------------------

  // A name and what follows it.
  lemma DecodesName(name: seq<byte>, ty: byte, more: seq<byte>, v: Decoded<Value>)
    requires 0 < |name| < 65536 && v == DecodeValue(ty, more)
    ensures DecodeProp(EncodeInt16(|name|) + name + [ty] + more, true)
            == if v.Failed? then Failed else Decoded(Prop(name, v.value), 3 + |name| + v.used)
  {
    var data := EncodeInt16(|name|) + name + [ty] + more;
    RoundTrip16(|name|);
    assert data[..2] == EncodeInt16(|name|);
    assert DecodeInt16(data) == DecodeInt16(data[..2]) == |name|;
    assert data[2..2 + |name|] == name && data[2 + |name|] == ty && data[3 + |name|..] == more;
  }

  lemma DecodesBare(ty: byte, more: seq<byte>, v: Decoded<Value>)
    requires v == DecodeValue(ty, more)
    ensures DecodeProp([ty] + more, false) == if v.Failed? then Failed else Decoded(Prop([], v.value), 1 + v.used)
  {
    assert ([ty] + more)[1..] == more;
  }

  lemma {:induction false} DecodesProp(p: Prop, named: bool, rest: seq<byte>)
    requires Encodable(p, named)
    ensures DecodeProp(Bytes(p) + rest, named) == Decoded(p, |Bytes(p)|)
    decreases p, 0
  {
    var ty, payload := TypeByte(p.value), Payload(p.value);
    DecodesValue(p.value, rest);
    if named {
      DecodesName(p.name, ty, payload + rest, Decoded(p.value, |payload|));
      Associative(EncodeInt16(|p.name|) + p.name + [ty], payload, rest);
    } else {
      DecodesBare(ty, payload + rest, Decoded(p.value, |payload|));
      assert NameBytes(p) + [ty] == [ty];
      Associative([ty], payload, rest);
    }
  }

  lemma DecodesString(s: seq<byte>, rest: seq<byte>)
    requires |s| < 65536
    ensures DecodeValue(STRING, EncodeInt16(|s|) + s + rest) == Decoded(Str(s), 2 + |s|)
  {
    var data := EncodeInt16(|s|) + s + rest;
    RoundTrip16(|s|);
    assert data[..2] == EncodeInt16(|s|);
    assert DecodeInt16(data) == DecodeInt16(data[..2]);
    assert data[2..2 + |s|] == s;
  }

  lemma DecodesLongString(s: seq<byte>, rest: seq<byte>)
    requires |s| < 0x8000_0000
    ensures DecodeValue(LONG_STRING, EncodeInt32(|s|) + s + rest) == Decoded(Str(s), 4 + |s|)
  {
    var data := EncodeInt32(|s|) + s + rest;
    RoundTrip32(|s|);
    assert data[..4] == EncodeInt32(|s|);
    assert DecodeInt32(data) == DecodeInt32(data[..4]);
    assert data[4..4 + |s|] == s;
  }

  lemma DecodesEcmaArray(n: nat, data: seq<byte>, o: Decoded<seq<Prop>>)
    requires o == DecodeObject(data, true) && o.Decoded?
    ensures DecodeValue(ECMA_ARRAY, EncodeInt32(n) + data) == Decoded(EcmaArray(o.value), 4 + o.used)
  {
    assert Rest(EncodeInt32(n) + data, 4) == data;
  }

  lemma DecodesStrictArray(n: nat, data: seq<byte>, o: Decoded<seq<Prop>>)
    requires n < 0x8000_0000 && o == DecodeArray(data, n) && o.Decoded?
    ensures DecodeValue(STRICT_ARRAY, EncodeInt32(n) + data) == Decoded(StrictArray(o.value), 4 + o.used)
  {
    var all := EncodeInt32(n) + data;
    assert Rest(all, 4) == data;
    RoundTrip32(n);
    assert (all + [0, 0, 0, 0])[..4] == EncodeInt32(n);
    assert Peek32(all) == DecodeInt32((all + [0, 0, 0, 0])[..4]);
  }

  lemma {:induction false} DecodesValue(v: Value, rest: seq<byte>)
    requires EncodableValue(v)
    ensures DecodeValue(TypeByte(v), Payload(v) + rest) == Decoded(v, |Payload(v)|)
    decreases v, 0
  {
    match v
    case Number(bits) => assert (bits + rest)[..8] == bits;
    case Boolean(on) =>
    case Str(s) =>
      if |s| < 65536 {
        DecodesString(s, rest);
      } else {
        DecodesLongString(s, rest);
      }
    case Null =>
    case Object(props) =>
      DecodesObject(props, END_MARK + rest);
      Associative(AllBytes(props), END_MARK, rest);
    case EcmaArray(props) =>
      DecodesObject(props, END_MARK + rest);
      DecodesEcmaArray(|props|, AllBytes(props) + (END_MARK + rest), Decoded(props, |AllBytes(props)| + 3));
      Associative(AllBytes(props), END_MARK, rest);
      Associative(EncodeInt32(|props|), AllBytes(props) + END_MARK, rest);
    case StrictArray(props) =>
      DecodesArray(props, rest);
      DecodesStrictArray(|props|, AllBytes(props) + rest, Decoded(props, |AllBytes(props)|));
      Associative(EncodeInt32(|props|), AllBytes(props), rest);
  }

  // A named property never looks like the end mark: its name has a length.
  lemma NameIsNotTheEnd(p: Prop, more: seq<byte>)
    requires Encodable(p, true)
    ensures !AtEndMark(Bytes(p) + more)
  {
    var data := Bytes(p) + more;
    RoundTrip16(|p.name|);
    assert data[0] == EncodeInt16(|p.name|)[0] && data[1] == EncodeInt16(|p.name|)[1];
  }

  // One property read, then the rest.
  lemma DecodeObjectStep(p: Prop, bytes: seq<byte>, more: seq<byte>, named: bool, o: Decoded<seq<Prop>>)
    requires bytes != [] && !AtEndMark(bytes + more)
    requires DecodeProp(bytes + more, named) == Decoded(p, |bytes|) && o == DecodeObject(more, named)
    ensures DecodeObject(bytes + more, named) == if o.Failed? then Failed else Decoded([p] + o.value, |bytes| + o.used)
  {
    assert (bytes + more)[|bytes|..] == more;
  }

  lemma DecodeArrayStep(p: Prop, bytes: seq<byte>, more: seq<byte>, n: nat, o: Decoded<seq<Prop>>)
    requires bytes != [] && DecodeProp(bytes + more, false) == Decoded(p, |bytes|) && o == DecodeArray(more, n)
    ensures DecodeArray(bytes + more, n + 1) == if o.Failed? then Failed else Decoded([p] + o.value, |bytes| + o.used)
  {
    assert Rest(bytes + more, |bytes|) == more;
  }

  lemma StopsAtEndMark(tail: seq<byte>)
    requires END_MARK <= tail
    ensures DecodeObject(tail, true) == Decoded([], 3)
  {
    assert tail[0] == 0 && tail[1] == 0 && tail[2] == OBJECT_END;
  }

  lemma {:induction false} DecodesObject(props: seq<Prop>, tail: seq<byte>)
    requires AllEncodable(props, true) && END_MARK <= tail
    ensures DecodeObject(AllBytes(props) + tail, true) == Decoded(props, |AllBytes(props)| + 3)
    decreases props, 1
  {
    hide DecodeProp, AtEndMark;
    if props == [] {
      assert AllBytes(props) + tail == tail;
      StopsAtEndMark(tail);
    } else {
      var bytes, more := Bytes(props[0]), AllBytes(props[1..]);
      DecodesProp(props[0], true, more + tail);
      NameIsNotTheEnd(props[0], more + tail);
      DecodesObject(props[1..], tail);
      DecodeObjectStep(props[0], bytes, more + tail, true, Decoded(props[1..], |more| + 3));
      Associative(bytes, more, tail);
      assert props == [props[0]] + props[1..];
    }
  }

  lemma {:induction false} DecodesArray(props: seq<Prop>, rest: seq<byte>)
    requires AllEncodable(props, false)
    ensures DecodeArray(AllBytes(props) + rest, |props|) == Decoded(props, |AllBytes(props)|)
    decreases props, 1
  {
    hide DecodeProp;
    if props != [] {
      var bytes, more := Bytes(props[0]), AllBytes(props[1..]);
      DecodesProp(props[0], false, more + rest);
      DecodesArray(props[1..], rest);
      DecodeArrayStep(props[0], bytes, more + rest, |props| - 1, Decoded(props[1..], |more|));
      Associative(bytes, more, rest);
      assert props == [props[0]] + props[1..];
    }
  }

  /**
    AMF0 round trip: with two bytes to spare the property is written completely, and reading
    it back, whatever follows it, gives the same tree and consumes just the bytes written.
   */
  lemma RoundTrip(p: Prop, named: bool, room: int, rest: seq<byte>) returns (bytes: seq<byte>)
    requires Encodable(p, named) && |Bytes(p)| + 2 <= room
    ensures EncodeProp(p, room) == Some(bytes) && bytes == Bytes(p) && |bytes| <= room
    ensures DecodeProp(bytes + rest, named) == Decoded(p, |bytes|)
  {
    FitsInRoom(p, named, room);
    DecodesProp(p, named, rest);
    bytes := Bytes(p);
  }

  // ----- values without names at the top level ----------------------------

  // A number whose first two bytes are 0 and 9 starts like the end mark.
  predicate LooksLikeTheEnd(p: Prop) {
    p.value.Number? && p.value.bits[0] == 0 && p.value.bits[1] == OBJECT_END
  }

  lemma UnnamedAtEndMark(p: Prop, more: seq<byte>)
    requires Encodable(p, false)
    ensures AtEndMark(Bytes(p) + more) <==> LooksLikeTheEnd(p)
  {
    var data := Bytes(p) + more;
    assert data[0] == TypeByte(p.value);
    if p.value.Number? {
      assert data[1] == p.value.bits[0] && data[2] == p.value.bits[1];
    }
  }

  // How many of the values come before one that looks like the end mark.
  function BeforeTheEnd(props: seq<Prop>): (n: nat)
    ensures n <= |props| && (n < |props| ==> LooksLikeTheEnd(props[n]))
    ensures forall i :: 0 <= i < n ==> !LooksLikeTheEnd(props[i])
  {
    if props == [] || LooksLikeTheEnd(props[0]) then 0 else 1 + BeforeTheEnd(props[1..])
  }

  lemma TakeOneMore(props: seq<Prop>, n: nat)
    requires n < |props|
    ensures props[..n + 1] == [props[0]] + props[1..][..n]
    ensures AllBytes(props[..n + 1]) == Bytes(props[0]) + AllBytes(props[1..][..n])
  {
    assert props[..n + 1][1..] == props[1..][..n];
  }

  /**
    A command's arguments, values without names up to the end of the data: they are read back
    exactly as far as no number looks like the end mark.
   */
  lemma {:induction false} BareValues(props: seq<Prop>)
    requires AllEncodable(props, false)
    ensures var n := BeforeTheEnd(props);
            DecodeObject(AllBytes(props), false)
            == Decoded(props[..n], |AllBytes(props[..n])| + if n < |props| then 3 else 0)
    decreases |props|
  {
    if props != [] {
      var p, more := props[0], AllBytes(props[1..]);
      UnnamedAtEndMark(p, more);
      if !LooksLikeTheEnd(p) {
        DecodesProp(p, false, more);
        BareValues(props[1..]);
        var n := BeforeTheEnd(props[1..]);
        DecodeObjectStep(p, Bytes(p), more, false, DecodeObject(more, false));
        TakeOneMore(props, n);
      }
    }
  }

  /**
    So all of them come back if and only if none does.
   */
  lemma BareValuesComeBack(props: seq<Prop>)
    requires AllEncodable(props, false)
    ensures DecodeObject(AllBytes(props), false) == Decoded(props, |AllBytes(props)|)
            <==> forall i :: 0 <= i < |props| ==> !LooksLikeTheEnd(props[i])
  {
    BareValues(props);
    var n := BeforeTheEnd(props);
    if n == |props| {
      assert props[..n] == props;
    }
  }

  lemma NumberCutOff()
    ensures var p := Prop([], Number([0, 9, 0, 0, 0, 0, 0, 0]));
            Encodable(p, false) && DecodeObject(Bytes(p), false) == Decoded([], 3)
  {
    var p := Prop([], Number([0, 9, 0, 0, 0, 0, 0, 0]));
    UnnamedAtEndMark(p, []);
    assert Bytes(p) + [] == Bytes(p);
  }
}
