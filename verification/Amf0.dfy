/** AMF0 values, their encoding and sizes, and what the decoder makes of any byte string.
    The functions here specify the stream methods of module Amf0Stream. */
module Amf0 {
  import opened Bytes

  const NUMBER: byte := 0x00
  const BOOLEAN: byte := 0x01
  const STRING: byte := 0x02
  const OBJECT: byte := 0x03
  const NULL: byte := 0x05
  const UNDEFINED: byte := 0x06
  const ECMA_ARRAY: byte := 0x08
  const OBJECT_END: byte := 0x09

  type Text = seq<byte>

  /** A number is the 64-bit pattern of a double. */
  datatype Value =
    | Number(bits: nat)
    | Boolean(flag: bool)
    | String(text: Text)
    | Null
    | Undefined
    | ObjectEnd
    | Object(props: seq<Property>)
    | EcmaArray(count: int, props: seq<Property>)

  datatype Property = Property(name: Text, value: Value)

  // ----- Properties in insertion order -----

  function Without(props: seq<Property>, key: Text): (r: seq<Property>)
    ensures |r| <= |props|
  {
    if props == [] then []
    else if props[0].name == key then props[1..]
    else [props[0]] + Without(props[1..], key)
  }

  /** A property that is set goes to the end, in place of the one it replaces. */
  function Put(props: seq<Property>, key: Text, value: Value): seq<Property> {
    Without(props, key) + [Property(key, value)]
  }

  function Get(props: seq<Property>, key: Text): Option<Value> {
    if props == [] then None
    else if props[0].name == key then Some(props[0].value)
    else Get(props[1..], key)
  }

  predicate DistinctKeys(props: seq<Property>) {
    forall i, j :: 0 <= i < j < |props| ==> props[i].name != props[j].name
  }

  // ----- Encoding -----

  const OBJECT_EOF: seq<byte> := [0, 0, OBJECT_END]

  function Utf8(text: Text): seq<byte> {
    BigEndian(|text| % TWO_16, 2) + text
  }

  function Encode(v: Value): seq<byte>
    decreases v, 1
  {
    match v
    case Number(bits) => [NUMBER] + BigEndian(bits, 8)
    case Boolean(flag) => [BOOLEAN, if flag then 1 else 0]
    case String(text) => [STRING] + Utf8(text)
    case Null => [NULL]
    case Undefined => [UNDEFINED]
    case ObjectEnd => OBJECT_EOF
    case Object(props) => [OBJECT] + EncodeProps(props) + OBJECT_EOF
    case EcmaArray(count, props) => [ECMA_ARRAY] + BigEndian(count % TWO_32, 4) + EncodeProps(props) + OBJECT_EOF
  }

  function EncodeProps(props: seq<Property>): seq<byte>
    decreases props, 0
  {
    if props == [] then []
    else Utf8(props[0].name) + Encode(props[0].value) + EncodeProps(props[1..])
  }

  // ----- Sizes -----

  function Utf8Size(text: Text): nat {
    2 + |text|
  }

  function Size(v: Value): nat
    decreases v, 1
  {
    match v
    case Number(_) => 1 + 8
    case Boolean(_) => 1 + 1
    case String(text) => 1 + Utf8Size(text)
    case Null => 1
    case Undefined => 1
    case ObjectEnd => 2 + 1
    case Object(props) => 1 + PropsSize(props) + 3
    case EcmaArray(_, props) => 1 + 4 + PropsSize(props) + 3
  }

  function PropsSize(props: seq<Property>): nat
    decreases props, 0
  {
    if props == [] then 0
    else Utf8Size(props[0].name) + Size(props[0].value) + PropsSize(props[1..])
  }

  /** The size calculation agrees with the writer, for every value. */
  lemma {:induction false} SizeIsExact(v: Value)
    ensures |Encode(v)| == Size(v)
    decreases v, 1
  {
    match v
    case Object(props) => PropsSizeIsExact(props);
    case EcmaArray(_, props) => PropsSizeIsExact(props);
    case _ =>
  }

  lemma {:induction false} PropsSizeIsExact(props: seq<Property>)
    ensures |EncodeProps(props)| == PropsSize(props)
    decreases props, 0
  {
    if props == [] {
    } else {
      SizeIsExact(props[0].value);
      PropsSizeIsExact(props[1..]);
    }
  }

  // ----- Decoding -----

  datatype Decoded<+T> =
    | Ok(value: T, pos: nat)
    | DecodeError
    | InvalidMarker
    | AssertFailed  // the end-of-object reader was entered with fewer than two bytes before it

  function ReadUtf8(b: seq<byte>, p: nat): (r: Decoded<Text>)
    requires p <= |b|
    ensures r.Ok? ==> p + 2 <= r.pos <= |b|
    ensures r.Ok? || r.DecodeError?
  {
    if |b| - p < 2 then DecodeError
    else
      var n := AsInt16(U16At(b, p));
      if n <= 0 then Ok([], p + 2)
      else if |b| - (p + 2) < n then DecodeError
      else Ok(b[p + 2..p + 2 + n], p + 2 + n)
  }

  /** Steps back over the two bytes before the marker, which must be an empty name. */
  function ReadObjectEof(b: seq<byte>, p: nat): (r: Decoded<Value>)
    requires p < |b| && b[p] == OBJECT_END
    ensures r.Ok? ==> r.pos == p + 1
    ensures r.AssertFailed? <==> p < 2
  {
    if p < 2 then AssertFailed
    else if U16At(b, p - 2) != 0 then DecodeError
    else Ok(ObjectEnd, p + 1)
  }

  function AsObject(r: Decoded<seq<Property>>): Decoded<Value> {
    match r
    case Ok(props, pos) => Ok(Object(props), pos)
    case DecodeError => DecodeError
    case InvalidMarker => InvalidMarker
    case AssertFailed => AssertFailed
  }

  function AsArray(count: int, r: Decoded<seq<Property>>): Decoded<Value> {
    match r
    case Ok(props, pos) => Ok(EcmaArray(count, props), pos)
    case DecodeError => DecodeError
    case InvalidMarker => InvalidMarker
    case AssertFailed => AssertFailed
  }

  /** Decodes any value.  Null and undefined are recognised but not stepped over. */
  function ReadAny(b: seq<byte>, p: nat): (r: Decoded<Value>)
    requires p <= |b|
    ensures r.Ok? ==> p <= r.pos <= |b|
    ensures r.AssertFailed? ==> p < 2
    decreases |b| - p, 0
  {
    if p >= |b| then DecodeError
    else
      var marker := b[p];
      if marker == STRING then
        match ReadUtf8(b, p + 1)
        case Ok(text, pos) => Ok(String(text), pos)
        case _ => DecodeError
      else if marker == BOOLEAN then
        if p + 2 > |b| then DecodeError else Ok(Boolean(b[p + 1] != 0), p + 2)
      else if marker == NUMBER then
        if p + 9 > |b| then DecodeError else Ok(Number(FromBigEndian(b[p + 1..p + 9])), p + 9)
      else if marker == NULL then Ok(Null, p)
      else if marker == UNDEFINED then Ok(Undefined, p)
      else if marker == OBJECT_END then ReadObjectEof(b, p)
      else if marker == OBJECT then AsObject(ReadProps(b, p + 1, []))
      else if marker == ECMA_ARRAY then
        if p + 5 > |b| then DecodeError else AsArray(Int32At(b, p + 1), ReadProps(b, p + 5, []))
      else InvalidMarker
  }

  /** Decodes properties up to an end-of-object or the end of the bytes.  Every property takes at
      least two bytes, and the step back of the end-of-object reader never leaves the bytes. */
  function ReadProps(b: seq<byte>, p: nat, acc: seq<Property>): (r: Decoded<seq<Property>>)
    requires p <= |b|
    ensures r.Ok? ==> p <= r.pos <= |b|
    ensures r.Ok? ==> 2 * (|r.value| - |acc|) <= r.pos - p
    ensures !r.AssertFailed?
    decreases |b| - p, 1
  {
    if p >= |b| then Ok(acc, p)
    else
      match ReadUtf8(b, p)
      case Ok(name, p1) =>
        (match ReadAny(b, p1)
         case Ok(value, p2) =>
           if name == [] || value.ObjectEnd? then Ok(acc, p2)
           else ReadProps(b, p2, Put(acc, name, value))
         case DecodeError => DecodeError
         case InvalidMarker => InvalidMarker
         case AssertFailed => AssertFailed)
      case _ => DecodeError
  }

  // ----- The property table -----

  lemma {:induction false} WithoutKey(props: seq<Property>, key: Text, i: nat)
    requires DistinctKeys(props) && i < |Without(props, key)|
    ensures Without(props, key)[i] in props && Without(props, key)[i].name != key
    decreases |props|
  {
    if props[0].name != key {
      assert DistinctKeys(props[1..]);
      if i > 0 {
        WithoutKey(props[1..], key, i - 1);
      }
    } else {
      assert Without(props, key)[i] == props[i + 1];
    }
  }

  lemma {:induction false} WithoutDistinct(props: seq<Property>, key: Text)
    requires DistinctKeys(props)
    ensures DistinctKeys(Without(props, key))
    decreases |props|
  {
    if props != [] && props[0].name != key {
      var rest := Without(props[1..], key);
      assert DistinctKeys(props[1..]);
      WithoutDistinct(props[1..], key);
      forall j | 0 <= j < |rest| ensures rest[j].name != props[0].name {
        WithoutKey(props[1..], key, j);
        var k :| 0 <= k < |props[1..]| && props[1..][k] == rest[j];
        assert props[k + 1].name != props[0].name;
      }
    }
  }

  /** Setting a property keeps every key unique. */
  lemma PutDistinct(props: seq<Property>, key: Text, value: Value)
    requires DistinctKeys(props)
    ensures DistinctKeys(Put(props, key, value))
  {
    WithoutDistinct(props, key);
    forall i | 0 <= i < |Without(props, key)| ensures Without(props, key)[i].name != key {
      WithoutKey(props, key, i);
    }
  }

  lemma {:induction false} GetAppend(a: seq<Property>, b: seq<Property>, key: Text)
    ensures Get(a + b, key) == if Get(a, key).Some? then Get(a, key) else Get(b, key)
    decreases |a|
  {
    if a == [] {
      assert a + b == b;
    } else {
      assert (a + b)[1..] == a[1..] + b;
      GetAppend(a[1..], b, key);
    }
  }

  lemma {:induction false} GetWithout(props: seq<Property>, key: Text, other: Text)
    requires DistinctKeys(props)
    ensures Get(Without(props, key), other) == if other == key then None else Get(props, other)
    decreases |props|
  {
    if props != [] {
      assert DistinctKeys(props[1..]);
      if props[0].name == key {
        if other == key {
          NotGot(props[1..], key);
        }
      } else {
        GetWithout(props[1..], key, other);
        assert ([props[0]] + Without(props[1..], key))[1..] == Without(props[1..], key);
      }
    }
  }

  lemma {:induction false} NotGot(props: seq<Property>, key: Text)
    requires forall i :: 0 <= i < |props| ==> props[i].name != key
    ensures Get(props, key) == None
    decreases |props|
  {
    if props != [] {
      NotGot(props[1..], key);
    }
  }

  /** The table is a map: a key reads as it was last set, and setting one key changes no other. */
  lemma PutGet(props: seq<Property>, key: Text, value: Value, other: Text)
    requires DistinctKeys(props)
    ensures Get(Put(props, key, value), other) == if other == key then Some(value) else Get(props, other)
  {
    GetWithout(props, key, other);
    GetAppend(Without(props, key), [Property(key, value)], other);
    assert [Property(key, value)][1..] == [];
  }

  // ----- Round trip -----

  /** What the decoder can tell apart from the end of an object, and step over. */
  predicate Encodable(v: Value)
    decreases v, 1
  {
    match v
    case Number(bits) => bits < TWO_32 * TWO_32
    case Boolean(_) => true
    case String(text) => |text| < 0x8000
    case Object(props) => EncodableProps(props)
    case EcmaArray(count, props) => IsInt32(count) && EncodableProps(props)
    case _ => false
  }

  predicate EncodableProps(props: seq<Property>)
    decreases props, 0
  {
    props == [] || (0 < |props[0].name| < 0x8000 && Encodable(props[0].value) && EncodableProps(props[1..]))
  }

  /** A value with every property table rebuilt by setting its properties one by one. */
  function Rebuilt(v: Value): Value
    decreases v, 1
  {
    match v
    case Object(props) => Object(RebuiltProps([], props))
    case EcmaArray(count, props) => EcmaArray(count, RebuiltProps([], props))
    case _ => v
  }

  function RebuiltProps(acc: seq<Property>, props: seq<Property>): seq<Property>
    decreases props, 0
  {
    if props == [] then acc
    else RebuiltProps(Put(acc, props[0].name, Rebuilt(props[0].value)), props[1..])
  }

  /** The bytes `x` stand at position `p` of `b`, with anything around them. */
  predicate At(b: seq<byte>, p: nat, x: seq<byte>) {
    p + |x| <= |b| && b[p..p + |x|] == x
  }

  lemma AtSplit(b: seq<byte>, p: nat, x: seq<byte>, y: seq<byte>)
    requires At(b, p, x + y)
    ensures At(b, p, x) && At(b, p + |x|, y)
  {
    var z := x + y;
    assert z[..|x|] == x && z[|x|..] == y;
    assert b[p..p + |z|][..|x|] == b[p..p + |x|];
    assert b[p..p + |z|][|x|..] == b[p + |x|..p + |z|];
  }

  lemma ReadBackUtf8(b: seq<byte>, p: nat, text: Text)
    requires |text| < 0x8000 && At(b, p, Utf8(text))
    ensures ReadUtf8(b, p) == Ok(text, p + |Utf8(text)|)
  {
    hide BigEndian, FromBigEndian;
    AtSplit(b, p, BigEndian(|text|, 2), text);
    Powers();
    BigEndianRoundTrip(|text|, 2);
  }

  lemma ReadBackEof(b: seq<byte>, p: nat, acc: seq<Property>)
    requires At(b, p, OBJECT_EOF)
    ensures ReadProps(b, p, acc) == Ok(acc, p + 3)
  {
    AtSplit(b, p, [0, 0], [OBJECT_END]);
    assert [0, 0] == BigEndian(0, 2);
    Powers();
    BigEndianRoundTrip(0, 2);
    assert ReadUtf8(b, p) == Ok([], p + 2);
    assert b[p + 2] == b[p + 2..p + 3][0] == OBJECT_END;
    assert ReadAny(b, p + 2) == Ok(ObjectEnd, p + 3);
  }

  lemma ReadBackScalar(b: seq<byte>, p: nat, v: Value)
    requires Encodable(v) && (v.Number? || v.Boolean? || v.String?) && At(b, p, Encode(v))
    ensures ReadAny(b, p) == Ok(v, p + |Encode(v)|)
  {
    assert b[p] == b[p..p + |Encode(v)|][0];
    match v
    case Number(bits) =>
      AtSplit(b, p, [NUMBER], BigEndian(bits, 8));
      Powers();
      BigEndianRoundTrip(bits, 8);
    case Boolean(flag) =>
      assert b[p + 1] == b[p..p + 2][1];
    case String(text) =>
      AtSplit(b, p, [STRING], Utf8(text));
      ReadBackUtf8(b, p + 1, text);
  }

  lemma NotAnEnd(v: Value)
    requires Encodable(v)
    ensures !Rebuilt(v).ObjectEnd?
  {
  }

  lemma OneProperty(b: seq<byte>, p: nat, acc: seq<Property>)
    requires p <= |b| && ReadUtf8(b, p).Ok? && ReadAny(b, ReadUtf8(b, p).pos).Ok?
    ensures var name := ReadUtf8(b, p).value;
            var o := ReadAny(b, ReadUtf8(b, p).pos);
            name != [] && !o.value.ObjectEnd? ==> ReadProps(b, p, acc) == ReadProps(b, o.pos, Put(acc, name, o.value))
  {
    hide ReadAny, Put;
  }

  /** Reading what was written, with any bytes around it, gives the rebuilt value and stops
      exactly at its end. */
  lemma {:induction false} ReadBack(b: seq<byte>, p: nat, v: Value)
    requires Encodable(v) && At(b, p, Encode(v))
    ensures ReadAny(b, p) == Ok(Rebuilt(v), p + |Encode(v)|)
    decreases v, 1
  {
    hide ReadProps, ReadAny, At, BigEndian;
    match v
    case Object(props) =>
      AtSplit(b, p, [OBJECT] + EncodeProps(props), OBJECT_EOF);
      AtSplit(b, p, [OBJECT], EncodeProps(props));
      ObjectHead(b, p);
      ReadBackProps(b, p + 1, props, []);
    case EcmaArray(count, props) =>
      var head := [ECMA_ARRAY] + BigEndian(count % TWO_32, 4);
      AtSplit(b, p, head + EncodeProps(props), OBJECT_EOF);
      AtSplit(b, p, head, EncodeProps(props));
      ArrayHead(b, p, count);
      ReadBackProps(b, p + 5, props, []);
    case _ =>
      ReadBackScalar(b, p, v);
  }

  lemma ObjectHead(b: seq<byte>, p: nat)
    requires At(b, p, [OBJECT])
    ensures ReadAny(b, p) == AsObject(ReadProps(b, p + 1, []))
  {
    hide ReadProps, ReadUtf8;
    assert b[p] == b[p..p + 1][0];
  }

  lemma ArrayHead(b: seq<byte>, p: nat, count: int)
    requires IsInt32(count) && At(b, p, [ECMA_ARRAY] + BigEndian(count % TWO_32, 4))
    ensures ReadAny(b, p) == AsArray(count, ReadProps(b, p + 5, []))
  {
    hide ReadProps, ReadUtf8, BigEndian;
    AtSplit(b, p, [ECMA_ARRAY], BigEndian(count % TWO_32, 4));
    assert b[p] == b[p..p + 1][0];
    Int32RoundTrip(count);
  }

  lemma {:induction false} ReadBackProps(b: seq<byte>, p: nat, props: seq<Property>, acc: seq<Property>)
    requires EncodableProps(props)
    requires At(b, p, EncodeProps(props)) && At(b, p + |EncodeProps(props)|, OBJECT_EOF)
    ensures ReadProps(b, p, acc) == Ok(RebuiltProps(acc, props), p + |EncodeProps(props)| + 3)
    decreases props, 0
  {
    hide ReadProps, ReadAny, ReadUtf8, Encode, Utf8, Put, Encodable, At;
    if props == [] {
      ReadBackEof(b, p, acc);
    } else {
      var Property(name, value) := props[0];
      AtSplit(b, p, Utf8(name) + Encode(value), EncodeProps(props[1..]));
      AtSplit(b, p, Utf8(name), Encode(value));
      ReadBackUtf8(b, p, name);
      ReadBack(b, p + |Utf8(name)|, value);
      NotAnEnd(value);
      OneProperty(b, p, acc);
      ReadBackProps(b, p + |Utf8(name)| + |Encode(value)|, props[1..], Put(acc, name, Rebuilt(value)));
    }
  }

  // ----- Which values come back unchanged -----

  predicate UniqueKeys(v: Value)
    decreases v, 1
  {
    match v
    case Object(props) => DistinctKeys(props) && UniqueInside(props)
    case EcmaArray(_, props) => DistinctKeys(props) && UniqueInside(props)
    case _ => true
  }

  predicate UniqueInside(props: seq<Property>)
    decreases props, 0
  {
    props == [] || (UniqueKeys(props[0].value) && UniqueInside(props[1..]))
  }

  function RebuiltEach(props: seq<Property>): (r: seq<Property>)
    ensures |r| == |props|
    ensures forall i :: 0 <= i < |r| ==> r[i].name == props[i].name
    decreases props, 0
  {
    if props == [] then []
    else [Property(props[0].name, Rebuilt(props[0].value))] + RebuiltEach(props[1..])
  }

  lemma {:induction false} RebuiltKeysDistinct(acc: seq<Property>, props: seq<Property>)
    requires DistinctKeys(acc)
    ensures DistinctKeys(RebuiltProps(acc, props))
    decreases |props|
  {
    if props != [] {
      PutDistinct(acc, props[0].name, Rebuilt(props[0].value));
      RebuiltKeysDistinct(Put(acc, props[0].name, Rebuilt(props[0].value)), props[1..]);
    }
  }

  lemma {:induction false} NothingRemoved(props: seq<Property>, key: Text)
    requires forall i :: 0 <= i < |props| ==> props[i].name != key
    ensures Without(props, key) == props
    decreases |props|
  {
    if props != [] {
      NothingRemoved(props[1..], key);
    }
  }

  /** With distinct keys nothing is replaced, so the order is the order of writing. */
  lemma {:induction false} RebuiltInOrder(acc: seq<Property>, props: seq<Property>)
    requires DistinctKeys(acc + props)
    ensures RebuiltProps(acc, props) == acc + RebuiltEach(props)
    decreases |props|
  {
    if props == [] {
    } else {
      hide DistinctKeys, Without, Rebuilt;
      var p := Property(props[0].name, Rebuilt(props[0].value));
      NextDistinct(acc, props, p);
      NothingRemoved(acc, props[0].name);
      RebuiltInOrder(acc + [p], props[1..]);
      assert acc + [p] + RebuiltEach(props[1..]) == acc + RebuiltEach(props);
    }
  }

  lemma NextDistinct(acc: seq<Property>, props: seq<Property>, p: Property)
    requires DistinctKeys(acc + props) && props != [] && p.name == props[0].name
    ensures forall i :: 0 <= i < |acc| ==> acc[i].name != p.name
    ensures DistinctKeys((acc + [p]) + props[1..])
  {
    var all, next := acc + props, (acc + [p]) + props[1..];
    forall i | 0 <= i < |acc| ensures acc[i].name != p.name {
      assert all[i] == acc[i] && all[|acc|] == props[0];
    }
    assert forall i :: 0 <= i < |next| ==> next[i].name == all[i].name;
  }

  lemma {:induction false} RebuiltSame(v: Value)
    ensures Rebuilt(v) == v <==> UniqueKeys(v)
    decreases v, 1
  {
    if v.Object? || v.EcmaArray? {
      var props := v.props;
      RebuiltEachSame(props);
      RebuiltKeysDistinct([], props);
      if DistinctKeys(props) {
        assert [] + props == props;
        RebuiltInOrder([], props);
      }
    }
  }

  lemma {:induction false} RebuiltEachSame(props: seq<Property>)
    ensures RebuiltEach(props) == props <==> UniqueInside(props)
    decreases props, 0
  {
    if props != [] {
      RebuiltSame(props[0].value);
      RebuiltEachSame(props[1..]);
      assert props == [props[0]] + props[1..];
      assert RebuiltEach(props)[1..] == RebuiltEach(props[1..]);
    }
  }

  /** An encodable value comes back exactly if no object or array in it has a key twice. */
  lemma ComesBack(b: seq<byte>, p: nat, v: Value)
    requires Encodable(v) && At(b, p, Encode(v))
    ensures ReadAny(b, p) == Ok(v, p + |Encode(v)|) <==> UniqueKeys(v)
  {
    ReadBack(b, p, v);
    RebuiltSame(v);
  }

  // ----- What the decoder can ever yield -----

  /** Texts shorter than 32768 bytes, names that are not empty, no name twice in one table, and no end of
      object as a value. */
  predicate Readable(v: Value)
    decreases v, 1
  {
    match v
    case String(text) => |text| < 0x8000
    case Object(props) => ReadableTable(props)
    case EcmaArray(_, props) => ReadableTable(props)
    case ObjectEnd => false
    case _ => true
  }

  predicate ReadableTable(props: seq<Property>)
    decreases props, 0
  {
    DistinctKeys(props) && forall i :: 0 <= i < |props| ==> 0 < |props[i].name| < 0x8000 && Readable(props[i].value)
  }

  lemma PutReadable(props: seq<Property>, key: Text, value: Value)
    requires ReadableTable(props) && 0 < |key| < 0x8000 && Readable(value)
    ensures ReadableTable(Put(props, key, value))
  {
    hide Without;
    PutDistinct(props, key, value);
    var r := Without(props, key);
    forall i | 0 <= i < |r| ensures 0 < |r[i].name| < 0x8000 && Readable(r[i].value) {
      WithoutKey(props, key, i);
      var j :| 0 <= j < |props| && props[j] == r[i];
    }
  }

  /** Whatever the bytes are, a value that was decoded is readable, or the end of an object. */
  lemma {:induction false} DecoderYields(b: seq<byte>, p: nat)
    requires p <= |b|
    ensures ReadAny(b, p).Ok? && !ReadAny(b, p).value.ObjectEnd? ==> Readable(ReadAny(b, p).value)
    decreases |b| - p, 0
  {
    hide FromBigEndian;
    if p < |b| && b[p] == OBJECT {
      DecoderYieldsTable(b, p + 1, []);
    } else if p < |b| && b[p] == ECMA_ARRAY && p + 5 <= |b| {
      DecoderYieldsTable(b, p + 5, []);
    }
  }

  lemma {:induction false} DecoderYieldsTable(b: seq<byte>, p: nat, acc: seq<Property>)
    requires p <= |b| && ReadableTable(acc)
    ensures ReadProps(b, p, acc).Ok? ==> ReadableTable(ReadProps(b, p, acc).value)
    decreases |b| - p, 1
  {
    hide ReadAny, FromBigEndian, ReadableTable, Put;
    if p < |b| && ReadUtf8(b, p).Ok? {
      var Ok(name, p1) := ReadUtf8(b, p);
      DecoderYields(b, p1);
      var o := ReadAny(b, p1);
      if o.Ok? && name != [] && !o.value.ObjectEnd? {
        PutReadable(acc, name, o.value);
        DecoderYieldsTable(b, o.pos, Put(acc, name, o.value));
      }
    }
  }

  // ----- Null and undefined -----

  /** How many nulls and undefineds a value holds. */
  function Nulls(v: Value): nat
    decreases v, 1
  {
    match v
    case Null => 1
    case Undefined => 1
    case Object(props) => NullsIn(props)
    case EcmaArray(_, props) => NullsIn(props)
    case _ => 0
  }

  function NullsIn(props: seq<Property>): nat
    decreases props, 0
  {
    if props == [] then 0 else Nulls(props[0].value) + NullsIn(props[1..])
  }

  lemma {:induction false} NullsConcat(a: seq<Property>, b: seq<Property>)
    ensures NullsIn(a + b) == NullsIn(a) + NullsIn(b)
    decreases |a|
  {
    if a == [] {
      assert a + b == b;
    } else {
      assert (a + b)[1..] == a[1..] + b;
      NullsConcat(a[1..], b);
    }
  }

  lemma {:induction false} NullsWithout(props: seq<Property>, key: Text)
    ensures NullsIn(Without(props, key)) <= NullsIn(props)
    decreases |props|
  {
    if props != [] && props[0].name != key {
      NullsWithout(props[1..], key);
      assert Without(props, key)[1..] == Without(props[1..], key);
    }
  }

  lemma NullsPut(props: seq<Property>, key: Text, value: Value)
    ensures NullsIn(Put(props, key, value)) <= NullsIn(props) + Nulls(value)
  {
    NullsWithout(props, key);
    NullsConcat(Without(props, key), [Property(key, value)]);
    assert [Property(key, value)][1..] == [];
  }

  predicate NullAt(b: seq<byte>, p: nat) {
    p < |b| && (b[p] == NULL || b[p] == UNDEFINED)
  }

  // A length of 0x0500 or more, and the two bytes that hold it.
  const AfterNull := 2 + 0x500

  /** A name read where a null was left unconsumed is at least 1280 bytes long. */
  lemma NameAfterNull(b: seq<byte>, p: nat)
    requires p <= |b| && NullAt(b, p) && ReadUtf8(b, p).Ok?
    ensures ReadUtf8(b, p).pos >= p + AfterNull && ReadUtf8(b, p).value != []
  {
    var s := b[p..p + 2];
    assert s[1] == b[p + 1] && s[..1] == [b[p]] && [b[p]][..0] == [];
    assert FromBigEndian(s) == FromBigEndian([b[p]]) * 256 + b[p + 1];
  }

  /** Every null in a decoded value costs the bytes of the long name that is read after it. */
  lemma {:induction false} NullsAreDear(b: seq<byte>, p: nat)
    requires p <= |b| && ReadAny(b, p).Ok?
    ensures var o := ReadAny(b, p);
            if o.value == Null || o.value == Undefined then o.pos == p && NullAt(b, p)
            else o.pos > p && o.pos - p >= AfterNull * Nulls(o.value)
    decreases |b| - p, 0
  {
    hide FromBigEndian;
    if b[p] == OBJECT {
      NullsAreDearInside(b, p + 1, []);
    } else if b[p] == ECMA_ARRAY {
      NullsAreDearInside(b, p + 5, []);
    }
  }

  lemma {:induction false} NullsAreDearInside(b: seq<byte>, p: nat, acc: seq<Property>)
    requires p <= |b| && ReadProps(b, p, acc).Ok?
    ensures var o := ReadProps(b, p, acc);
            o.pos - p >= AfterNull * (NullsIn(o.value) - NullsIn(acc)) + if NullAt(b, p) then AfterNull else 0
    decreases |b| - p, 1
  {
    hide ReadAny, FromBigEndian, NullsIn, Nulls, Put;
    if p < |b| {
      var Ok(name, p1) := ReadUtf8(b, p);
      if NullAt(b, p) {
        NameAfterNull(b, p);
      }
      NullsAreDear(b, p1);
      var o := ReadAny(b, p1);
      if name != [] && !o.value.ObjectEnd? {
        OneNull(o.value);
        NullsPut(acc, name, o.value);
        NullsAreDearInside(b, o.pos, Put(acc, name, o.value));
      }
    }
  }

  lemma OneNull(v: Value)
    ensures v == Null || v == Undefined ==> Nulls(v) == 1
  {}

  // ----- Single values -----

  /** A string comes back exactly if its length fits a positive 16-bit number. */
  lemma StringRoundTrip(b: seq<byte>, p: nat, text: Text)
    requires At(b, p, Encode(String(text)))
    ensures ReadAny(b, p) == Ok(String(text), p + |Encode(String(text))|) <==> |text| < 0x8000
  {
    hide BigEndian, FromBigEndian;
    AtSplit(b, p, [STRING], Utf8(text));
    assert b[p] == b[p..p + 1][0];
    AtSplit(b, p + 1, BigEndian(|text| % TWO_16, 2), text);
    Powers();
    BigEndianRoundTrip(|text| % TWO_16, 2);
  }

  /** Null and undefined are recognised, but the marker is left to be read again. */
  lemma NullNotSteppedOver(b: seq<byte>, p: nat, v: Value)
    requires (v == Null || v == Undefined) && At(b, p, Encode(v))
    ensures ReadAny(b, p) == Ok(v, p)
  {
    assert b[p] == b[p..p + 1][0];
  }

  /** For instance, an object whose only property is null is not even decoded. */
  lemma NullPropertyUnreadable()
    ensures var v := Object([Property([97], Null)]);
            UniqueKeys(v) && ReadAny(Encode(v), 0) == DecodeError
  {
    var prop := Property([97], Null);
    var b: seq<byte> := [OBJECT, 0, 1, 97, NULL, 0, 0, OBJECT_END];
    assert [prop][1..] == [];
    assert BigEndian(1, 2) == [0, 1];
    assert EncodeProps([prop]) == [0, 1, 97, NULL];
    assert Encode(Object([prop])) == b;
    assert b[1..4] == Utf8([97]);
    ReadBackUtf8(b, 1, [97]);
    assert b[4..6] == [5, 0] == BigEndian(0x500, 2);
    Powers();
    BigEndianRoundTrip(0x500, 2);
    assert ReadAny(b, 4) == Ok(Null, 4);
    OneProperty(b, 1, []);
  }
}
