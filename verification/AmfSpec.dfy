/**
  AMF0 as src/rtmp/librtmp/amf.c writes and reads it, on values (sections 2.2 to 2.14 of
  the AMF 0 specification).
 */
module AmfSpec {
  import opened Common
  import opened IntCodec

  const NUMBER: byte := 0
  const BOOLEAN: byte := 1
  const STRING: byte := 2
  const OBJECT: byte := 3
  const NULL: byte := 5
  const UNDEFINED: byte := 6
  const ECMA_ARRAY: byte := 8
  const OBJECT_END: byte := 9
  const STRICT_ARRAY: byte := 10
  const DATE: byte := 11
  const LONG_STRING: byte := 12
  const UNSUPPORTED: byte := 13
  const XML_DOC: byte := 15

  // A number is its eight bytes in network order.
  type Bits = s: seq<byte> | |s| == 8 witness [0, 0, 0, 0, 0, 0, 0, 0]

  datatype Value =
    | Number(bits: Bits)
    | Boolean(on: bool)
    | Str(s: seq<byte>)
    | Null
    | Object(props: seq<Prop>)
    | EcmaArray(props: seq<Prop>)
    | StrictArray(props: seq<Prop>)
    | Date(bits: Bits, offset: u16)
    | XmlDoc(s: seq<byte>)

  datatype Prop = Prop(name: seq<byte>, value: Value)

  const END_MARK: seq<byte> := [0, 0, OBJECT_END]

  // ----- encoding into limited room ---------------------------------------

  function EncodeString(s: seq<byte>, room: int): Option<seq<byte>> {
    if room < 5 + |s| then None
    else if |s| < 65536 then Some([STRING] + EncodeInt16(|s|) + s)
    else Some([LONG_STRING] + EncodeInt32(|s|) + s)
  }

  // AMFProp_Encode with `room` bytes left in the buffer.
  function EncodeProp(p: Prop, room: int): Option<seq<byte>>
    decreases p
  {
    if p.value != Null && |p.name| + 3 >= room then None else
    var name := NameBytes(p);
    var v := EncodeValue(p.value, room - |name|);
    if v.None? then None else Some(name + v.value)
  }

  function NameBytes(p: Prop): seq<byte> {
    if p.value == Null || p.name == [] then [] else EncodeInt16(|p.name|) + p.name
  }

  function EncodeValue(v: Value, room: int): Option<seq<byte>>
    decreases v
  {
    match v
    case Number(bits) => if room < 9 then None else Some([NUMBER] + bits)
    case Boolean(on) => if room < 2 then None else Some([BOOLEAN, if on then 1 else 0])
    case Str(s) => EncodeString(s, room)
    case Null => if 1 >= room then None else Some([NULL])
    case Object(props) => if 4 >= room then None else Ended([OBJECT] + EncodeAll(props, room - 1), room)
    case EcmaArray(props) =>
      if 4 >= room then None else Ended([ECMA_ARRAY] + EncodeInt32(|props|) + EncodeAll(props, room - 5), room)
    case StrictArray(props) =>
      if 4 >= room then None else Some([STRICT_ARRAY] + EncodeInt32(|props|) + EncodeAll(props, room - 5))
    case Date(_, _) => None
    case XmlDoc(_) => None
  }

  function Ended(bytes: seq<byte>, room: int): Option<seq<byte>> {
    if |bytes| + 3 >= room then None else Some(bytes + END_MARK)
  }

  // The properties up to the first one that does not fit.
  function EncodeAll(props: seq<Prop>, room: int): seq<byte>
    decreases props
  {
    if props == [] then [] else
    var first := EncodeProp(props[0], room);
    if first.None? then [] else first.value + EncodeAll(props[1..], room - |first.value|)
  }

  // ----- encoding with room enough ----------------------------------------

  function Bytes(p: Prop): (r: seq<byte>)
    ensures |r| >= 1
    decreases p
  {
    NameBytes(p) + [TypeByte(p.value)] + Payload(p.value)
  }

  function TypeByte(v: Value): byte {
    match v
    case Number(_) => NUMBER
    case Boolean(_) => BOOLEAN
    case Str(s) => if |s| < 65536 then STRING else LONG_STRING
    case Null => NULL
    case Object(_) => OBJECT
    case EcmaArray(_) => ECMA_ARRAY
    case StrictArray(_) => STRICT_ARRAY
    case Date(_, _) => DATE
    case XmlDoc(_) => XML_DOC
  }

  function Payload(v: Value): seq<byte>
    decreases v
  {
    match v
    case Number(bits) => bits
    case Boolean(on) => [if on then 1 else 0]
    case Str(s) => (if |s| < 65536 then EncodeInt16(|s|) else EncodeInt32(|s|)) + s
    case Null => []
    case Object(props) => AllBytes(props) + END_MARK
    case EcmaArray(props) => EncodeInt32(|props|) + (AllBytes(props) + END_MARK)
    case StrictArray(props) => EncodeInt32(|props|) + AllBytes(props)
    case Date(bits, offset) => bits + EncodeInt16(offset)
    case XmlDoc(s) => EncodeInt32(|s|) + s
  }

  function AllBytes(props: seq<Prop>): seq<byte>
    decreases props
  {
    if props == [] then [] else Bytes(props[0]) + AllBytes(props[1..])
  }

  // ----- decoding ---------------------------------------------------------

  datatype Decoded<T> = Failed | Decoded(value: T, used: nat)

  function Rest(data: seq<byte>, n: nat): (r: seq<byte>)
    ensures |r| <= |data|
  {
    if n <= |data| then data[n..] else []
  }

  // The four bytes at the front; bytes past the end count as 0.
  function Peek32(data: seq<byte>): u32 {
    DecodeInt32(data + [0, 0, 0, 0])
  }

  // An unsigned int passed on as an int.
  function AsInt(n: u32): int {
    if n < 0x8000_0000 then n else n - 0x1_0000_0000
  }

  // AMFProp_Decode
  function DecodeProp(data: seq<byte>, named: bool): (r: Decoded<Prop>)
    ensures r.Decoded? ==> r.used >= 1
    decreases |data|, 0
  {
    if |data| == 0 || (named && |data| < 4) then Failed else
    var nameSize := if named then DecodeInt16(data) else 0;
    if named && nameSize > |data| - 2 then Failed else
    var head := if named then 2 + nameSize else 0;
    if head == |data| then Failed else
    var v := DecodeValue(data[head], data[head + 1..]);
    if v.Failed? then Failed
    else Decoded(Prop(if named then data[2..head] else [], v.value), head + 1 + v.used)
  }

  function DecodeValue(ty: byte, data: seq<byte>): Decoded<Value>
    decreases |data|, 2
  {
    if ty == NUMBER then
      if |data| < 8 then Failed else Decoded(Number(data[..8]), 8)
    else if ty == BOOLEAN then
      if |data| < 1 then Failed else Decoded(Boolean(data[0] != 0), 1)
    else if ty == STRING then
      if |data| < 2 || |data| < DecodeInt16(data) + 2 then Failed
      else Decoded(Str(data[2..2 + DecodeInt16(data)]), 2 + DecodeInt16(data))
    else if ty == OBJECT then
      var o := DecodeObject(data, true);
      if o.Failed? then Failed else Decoded(Object(o.value), o.used)
    else if ty == NULL || ty == UNDEFINED || ty == UNSUPPORTED then
      Decoded(Null, 0)
    else if ty == ECMA_ARRAY then
      var o := DecodeObject(Rest(data, 4), true);
      if o.Failed? then Failed else Decoded(EcmaArray(o.value), 4 + o.used)
    else if ty == STRICT_ARRAY then
      var o := DecodeArray(Rest(data, 4), AsInt(Peek32(data)));
      if o.Failed? then Failed else Decoded(StrictArray(o.value), 4 + o.used)
    else if ty == DATE then
      if |data| < 10 then Failed else Decoded(Date(data[..8], DecodeInt16(data[8..])), 10)
    else if ty == LONG_STRING || ty == XML_DOC then
      if |data| < 4 || |data| < DecodeInt32(data) + 4 then Failed else
      var s := data[4..4 + DecodeInt32(data)];
      Decoded(if ty == LONG_STRING then Str(s) else XmlDoc(s), 4 + DecodeInt32(data))
    else Failed
  }

  predicate AtEndMark(data: seq<byte>) {
    |data| >= 3 && DecodeInt24(data) == OBJECT_END
  }

  // AMF_Decode: up to an end mark or the end of the data.
  function DecodeObject(data: seq<byte>, named: bool): (r: Decoded<seq<Prop>>)
    decreases |data|, 1
  {
    if data == [] then Decoded([], 0)
    else if AtEndMark(data) then Decoded([], 3)
    else
      var p := DecodeProp(data, named);
      if p.Failed? || p.used > |data| then Failed else
      var more := DecodeObject(data[p.used..], named);
      if more.Failed? then Failed else Decoded([p.value] + more.value, p.used + more.used)
  }

  // AMF_DecodeArray without names
  function DecodeArray(data: seq<byte>, n: int): (r: Decoded<seq<Prop>>)
    decreases |data|, 1
  {
    if n <= 0 then Decoded([], 0)
    else if data == [] then Failed
    else
      var p := DecodeProp(data, false);
      if p.Failed? then Failed else
      var more := DecodeArray(Rest(data, p.used), n - 1);
      if more.Failed? then Failed else Decoded([p.value] + more.value, p.used + more.used)
  }
}
