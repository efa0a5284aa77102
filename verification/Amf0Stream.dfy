/** The AMF0 codec as the program runs it: a cursor over a byte array that the readers and
    writers move, and a property table edited in place. */
module Amf0Stream {
  import opened Bytes
  import opened Amf0

  /** The byte cursor. */
  class Stream {
    const data: array<byte>
    var p: nat

    ghost predicate Valid()
      reads this
    {
      p <= data.Length
    }

    constructor (bytes: array<byte>)
      ensures Valid() && p == 0 && data == bytes
    {
      data, p := bytes, 0;
    }

    predicate Empty()
      reads this
    {
      p >= data.Length
    }

    predicate Require(n: int)
      reads this
    {
      !Empty() && n <= data.Length - p
    }

    method Skip(n: int)
      requires 0 <= p + n <= data.Length
      modifies this`p
      ensures p == old(p) + n
    {
      p := p + n;
    }

    method Read1() returns (v: byte)
      requires Require(1)
      modifies this`p
      ensures p == old(p) + 1 && v == data[old(p)]
    {
      v := data[p];
      p := p + 1;
    }

    method ReadBytes(n: nat) returns (s: seq<byte>)
      requires Require(n)
      modifies this`p
      ensures p == old(p) + n && s == data[old(p)..p]
    {
      s := data[p..p + n];
      p := p + n;
    }

    /** Big-endian, most significant byte first, whatever the width. */
    method ReadUnsigned(n: nat) returns (v: nat)
      requires Require(n)
      modifies this`p
      ensures p == old(p) + n && v == FromBigEndian(data[old(p)..p])
    {
      v := 0;
      var end := p + n;
      while p < end
        invariant old(p) <= p <= end <= data.Length
        invariant v == FromBigEndian(data[old(p)..p])
      {
        var s := data[old(p)..p + 1];
        assert s[..|s| - 1] == data[old(p)..p];
        v := v * 256 + data[p];
        p := p + 1;
      }
    }

    method Write(s: seq<byte>)
      requires |s| > 0 ==> Require(|s|)
      requires Valid()
      modifies this`p, data
      ensures p == old(p) + |s| && Valid()
      ensures data[..p] == old(data[..p]) + s && data[p..] == old(data[..])[p..]
    {
      ghost var start := p;
      for i := 0 to |s|
        invariant p == start + i && start + |s| <= data.Length
        invariant data[..start] == old(data[..p])
        invariant data[start..p] == s[..i]
        invariant data[p..] == old(data[..])[p..]
        modifies this`p, data
      {
        data[p] := s[i];
        p := p + 1;
      }
      assert data[..p] == data[..start] + data[start..p];
    }
  }

  /** Properties in insertion order. */
  class PropertyTable {
    var props: seq<Property>

    constructor ()
      ensures props == []
    {
      props := [];
    }

    /** Replaces the property of that name, if any; the new one goes to the end. */
    method Set(key: Text, value: Value)
      modifies this
      ensures props == Put(old(props), key, value)
    {
      hide Without;
      ghost var all := props;
      var i := 0;
      SearchBegins(all, key);
      while i < |props| && props[i].name != key
        invariant 0 <= i <= |props| && props == all
        invariant all[..i] + Without(all[i..], key) == Without(all, key)
      {
        SearchGoesOn(all, key, i);
        i := i + 1;
      }
      SearchEnds(all, key, i);
      if i < |props| {
        props := props[..i] + props[i + 1..];
      }
      props := props + [Property(key, value)];
    }
  }

  lemma SearchBegins(all: seq<Property>, key: Text)
    ensures all[..0] + Without(all[0..], key) == Without(all, key)
  {
    assert all[0..] == all;
  }

  lemma SearchGoesOn(all: seq<Property>, key: Text, i: nat)
    requires i < |all| && all[i].name != key
    ensures all[..i + 1] + Without(all[i + 1..], key) == all[..i] + Without(all[i..], key)
  {
    assert all[i..][1..] == all[i + 1..];
    assert all[..i] + ([all[i]] + Without(all[i + 1..], key)) == all[..i + 1] + Without(all[i + 1..], key);
  }

  lemma SearchEnds(all: seq<Property>, key: Text, i: nat)
    requires i <= |all| && (i < |all| ==> all[i].name == key)
    ensures all[..i] + Without(all[i..], key) == if i < |all| then all[..i] + all[i + 1..] else all
  {
    if i < |all| {
      assert all[i..][1..] == all[i + 1..];
    }
  }

  // ----- Readers -----

  method ReadText(stream: Stream) returns (r: Decoded<Text>)
    requires stream.Valid()
    modifies stream`p
    ensures stream.Valid() && r == ReadUtf8(stream.data[..], old(stream.p))
    ensures r.Ok? ==> stream.p == r.pos
  {
    if !stream.Require(2) {
      return DecodeError;
    }
    assert stream.data[..][stream.p..stream.p + 2] == stream.data[stream.p..stream.p + 2];
    var unsigned := stream.ReadUnsigned(2);
    FromBigEndianBounds(stream.data[stream.p - 2..stream.p]);
    var n := AsInt16(unsigned);
    if n <= 0 {
      return Ok([], stream.p);
    }
    if !stream.Require(n) {
      return DecodeError;
    }
    assert stream.data[..][stream.p..stream.p + n] == stream.data[stream.p..stream.p + n];
    var text := stream.ReadBytes(n);
    r := Ok(text, stream.p);
  }

  /** The end-of-object reader, entered at the marker: it moves the cursor back by two. */
  method ReadEnd(stream: Stream) returns (r: Decoded<Value>)
    requires stream.Valid() && stream.p < stream.data.Length && stream.data[stream.p] == OBJECT_END
    modifies stream`p
    ensures stream.Valid() && r == ReadObjectEof(stream.data[..], old(stream.p))
    ensures r.Ok? ==> stream.p == r.pos
  {
    if stream.p < 2 {
      return AssertFailed;
    }
    stream.Skip(-2);
    assert stream.data[..][stream.p..stream.p + 2] == stream.data[stream.p..stream.p + 2];
    var name := stream.ReadUnsigned(2);
    if name != 0 {
      return DecodeError;
    }
    var marker := stream.Read1();
    r := Ok(ObjectEnd, stream.p);
  }

  /** Decodes any value: looks at the marker, steps back over it and calls the reader for it. */
  method ReadValue(stream: Stream) returns (r: Decoded<Value>)
    requires stream.Valid()
    modifies stream`p
    ensures stream.Valid() && r == ReadAny(stream.data[..], old(stream.p))
    ensures r.Ok? ==> stream.p == r.pos
    decreases stream.data.Length - stream.p, 0
  {
    ghost var b, start := stream.data[..], stream.p;
    if !stream.Require(1) {
      return DecodeError;
    }
    var marker := stream.Read1();
    stream.Skip(-1);
    if marker == NULL {
      return Ok(Null, stream.p);
    } else if marker == UNDEFINED {
      return Ok(Undefined, stream.p);
    } else if marker == OBJECT_END {
      r := ReadEnd(stream);
    } else if marker == STRING || marker == BOOLEAN || marker == NUMBER {
      r := ReadScalar(stream);
    } else if marker == OBJECT {
      marker := stream.Read1();
      var props := ReadProperties(stream);
      r := AsObject(props);
    } else if marker == ECMA_ARRAY {
      marker := stream.Read1();
      if !stream.Require(4) {
        return DecodeError;
      }
      assert b[start + 1..start + 5] == stream.data[start + 1..start + 5];
      var count := stream.ReadUnsigned(4);
      FromBigEndianBounds(b[start + 1..start + 5]);
      var props := ReadProperties(stream);
      r := AsArray(AsInt32(count), props);
    } else {
      return InvalidMarker;
    }
  }

  method ReadScalar(stream: Stream) returns (r: Decoded<Value>)
    requires stream.Valid() && stream.p < stream.data.Length
    requires stream.data[stream.p] == STRING || stream.data[stream.p] == BOOLEAN || stream.data[stream.p] == NUMBER
    modifies stream`p
    ensures stream.Valid() && r == ReadAny(stream.data[..], old(stream.p))
    ensures r.Ok? ==> stream.p == r.pos
  {
    hide ReadUtf8;
    var marker := stream.Read1();
    if marker == STRING {
      var text := ReadText(stream);
      r := match text
           case Ok(t, pos) => Ok(String(t), pos)
           case _ => DecodeError;
    } else if marker == BOOLEAN {
      if !stream.Require(1) {
        return DecodeError;
      }
      var flag := stream.Read1();
      r := Ok(Boolean(flag != 0), stream.p);
    } else {
      if !stream.Require(8) {
        return DecodeError;
      }
      assert stream.data[..][stream.p..stream.p + 8] == stream.data[stream.p..stream.p + 8];
      var bits := stream.ReadUnsigned(8);
      r := Ok(Number(bits), stream.p);
    }
  }

  /** The property loop of objects and arrays.  It ends at an end-of-object or with the bytes. */
  method ReadProperties(stream: Stream) returns (r: Decoded<seq<Property>>)
    requires stream.Valid()
    modifies stream`p
    ensures stream.Valid() && r == ReadProps(stream.data[..], old(stream.p), [])
    ensures r.Ok? ==> stream.p == r.pos
    decreases stream.data.Length - stream.p, 1
  {
    hide ReadUtf8, ReadAny, Put;
    ghost var b := stream.data[..];
    var table := new PropertyTable();
    while !stream.Empty()
      invariant stream.Valid() && old(stream.p) <= stream.p && b == stream.data[..]
      invariant ReadProps(b, old(stream.p), []) == ReadProps(b, stream.p, table.props)
      decreases stream.data.Length - stream.p
    {
      var name := ReadText(stream);
      if !name.Ok? {
        return DecodeError;
      }
      var value := ReadValue(stream);
      match value
      case DecodeError => return DecodeError;
      case InvalidMarker => return InvalidMarker;
      case AssertFailed => return AssertFailed;
      case Ok(v, _) =>
        if name.value == [] || v.ObjectEnd? {
          return Ok(table.props, stream.p);
        }
        table.Set(name.value, v);
    }
    r := Ok(table.props, stream.p);
  }

  // ----- Writers -----

  /** The bytes `x` fit into `data` from `p` on. */
  predicate Fits(data: seq<byte>, p: nat, x: seq<byte>) {
    p + |x| <= |data|
  }

  /** `data` with the bytes `x` laid over it from `p` on. */
  function Overlaid(data: seq<byte>, p: nat, x: seq<byte>): seq<byte>
    requires Fits(data, p, x)
  {
    data[..p] + x + data[p + |x|..]
  }

  lemma OverlaidTwice(data: seq<byte>, p: nat, x: seq<byte>, y: seq<byte>)
    requires Fits(data, p, x + y)
    ensures Fits(Overlaid(data, p, x), p + |x|, y)
    ensures Overlaid(Overlaid(data, p, x), p + |x|, y) == Overlaid(data, p, x + y)
  {
    var d := Overlaid(data, p, x);
    assert d[..p + |x|] == data[..p] + x;
    assert d[p + |x| + |y|..] == data[p + |x| + |y|..];
  }

  method WriteBytes(stream: Stream, x: seq<byte>) returns (ok: bool)
    requires stream.Valid() && |x| > 0
    modifies stream`p, stream.data
    ensures stream.Valid() && (ok <==> Fits(old(stream.data[..]), old(stream.p), x))
    ensures ok ==> stream.p == old(stream.p) + |x| && stream.data[..] == Overlaid(old(stream.data[..]), old(stream.p), x)
    ensures !ok ==> stream.p == old(stream.p) && stream.data[..] == old(stream.data[..])
  {
    ok := stream.Require(|x|);
    if ok {
      stream.Write(x);
      assert stream.data[..] == stream.data[..stream.p] + stream.data[stream.p..];
    }
  }

  method WriteText(stream: Stream, text: Text) returns (ok: bool)
    requires stream.Valid()
    modifies stream`p, stream.data
    ensures stream.Valid() && (ok <==> Fits(old(stream.data[..]), old(stream.p), Utf8(text)))
    ensures ok ==> stream.p == old(stream.p) + |Utf8(text)|
                   && stream.data[..] == Overlaid(old(stream.data[..]), old(stream.p), Utf8(text))
  {
    var n := BigEndian(|text| % TWO_16, 2);
    ok := WriteBytes(stream, n);
    if ok && |text| > 0 {
      ok := WriteBytes(stream, text);
    }
    if ok {
      OverlaidTwice(old(stream.data[..]), old(stream.p), n, text);
    }
  }

  lemma {:induction false} EncodePropsSplit(a: seq<Property>, b: seq<Property>)
    ensures EncodeProps(a + b) == EncodeProps(a) + EncodeProps(b)
    decreases |a|
  {
    hide Encode, Utf8;
    if a == [] {
      assert a + b == b;
    } else {
      assert (a + b)[1..] == a[1..] + b;
      EncodePropsSplit(a[1..], b);
    }
  }

  lemma EncodeOneMore(props: seq<Property>, i: nat)
    requires i < |props|
    ensures EncodeProps(props[..i + 1]) == EncodeProps(props[..i]) + (Utf8(props[i].name) + Encode(props[i].value))
    ensures |EncodeProps(props[..i + 1])| <= |EncodeProps(props)|
  {
    hide Encode, Utf8;
    assert props[..i + 1] == props[..i] + [props[i]];
    EncodePropsSplit(props[..i], [props[i]]);
    assert [props[i]][1..] == [];
    assert props == props[..i + 1] + props[i + 1..];
    EncodePropsSplit(props[..i + 1], props[i + 1..]);
  }

  /** Writes any value; it fails exactly if the value does not fit. */
  method WriteValue(stream: Stream, v: Value) returns (ok: bool)
    requires stream.Valid()
    modifies stream`p, stream.data
    ensures stream.Valid() && (ok <==> Fits(old(stream.data[..]), old(stream.p), Encode(v)))
    ensures ok ==> stream.p == old(stream.p) + |Encode(v)|
                   && stream.data[..] == Overlaid(old(stream.data[..]), old(stream.p), Encode(v))
    decreases v, 2
  {
    hide Overlaid, EncodeProps, Utf8, BigEndian;
    ghost var d, p0 := stream.data[..], stream.p;
    match v
    case Object(props) =>
      assert [OBJECT] + [] == [OBJECT];
      ok := WriteObject(stream, OBJECT, [], props);
    case EcmaArray(count, props) =>
      ok := WriteObject(stream, ECMA_ARRAY, BigEndian(count % TWO_32, 4), props);
    case String(text) =>
      ok := WriteBytes(stream, [STRING]);
      if ok {
        ok := WriteText(stream, text);
      }
      if ok {
        OverlaidTwice(d, p0, [STRING], Utf8(text));
      }
    case Number(bits) =>
      ok := WriteTwo(stream, [NUMBER], BigEndian(bits, 8));
    case Boolean(flag) =>
      var b: byte := if flag then 1 else 0;
      assert Encode(v) == [BOOLEAN] + [b];
      ok := WriteTwo(stream, [BOOLEAN], [b]);
    case Null =>
      ok := WriteBytes(stream, [NULL]);
    case Undefined =>
      ok := WriteBytes(stream, [UNDEFINED]);
    case ObjectEnd =>
      assert [0, 0] + [OBJECT_END] == OBJECT_EOF;
      ok := WriteTwo(stream, [0, 0], [OBJECT_END]);
  }

  method WriteTwo(stream: Stream, x: seq<byte>, y: seq<byte>) returns (ok: bool)
    requires stream.Valid() && |x| > 0 && |y| > 0
    modifies stream`p, stream.data
    ensures stream.Valid() && (ok <==> Fits(old(stream.data[..]), old(stream.p), x + y))
    ensures ok ==> stream.p == old(stream.p) + |x + y|
                   && stream.data[..] == Overlaid(old(stream.data[..]), old(stream.p), x + y)
  {
    ok := WriteBytes(stream, x);
    if ok {
      ok := WriteBytes(stream, y);
      if ok {
        OverlaidTwice(old(stream.data[..]), old(stream.p), x, y);
      }
    }
  }

  /** The marker of an object or array, and the count that only an array has. */
  method WriteHead(stream: Stream, marker: byte, count: seq<byte>) returns (ok: bool)
    requires stream.Valid()
    modifies stream`p, stream.data
    ensures stream.Valid() && (ok <==> Fits(old(stream.data[..]), old(stream.p), [marker] + count))
    ensures ok ==> stream.p == old(stream.p) + |[marker] + count|
                   && stream.data[..] == Overlaid(old(stream.data[..]), old(stream.p), [marker] + count)
  {
    if count == [] {
      assert [marker] + count == [marker];
      ok := WriteBytes(stream, [marker]);
    } else {
      ok := WriteTwo(stream, [marker], count);
    }
  }

  /** Header, properties and end-of-object, for objects and arrays alike. */
  method WriteObject(stream: Stream, marker: byte, count: seq<byte>, props: seq<Property>) returns (ok: bool)
    requires stream.Valid()
    modifies stream`p, stream.data
    ensures stream.Valid()
    ensures var all := [marker] + count + EncodeProps(props) + OBJECT_EOF;
            && (ok <==> Fits(old(stream.data[..]), old(stream.p), all))
            && (ok ==> stream.p == old(stream.p) + |all| && stream.data[..] == Overlaid(old(stream.data[..]), old(stream.p), all))
    decreases props, 1
  {
    hide EncodeProps, Overlaid;
    ghost var d, p0, head, body := stream.data[..], stream.p, [marker] + count, EncodeProps(props);
    ok := WriteHead(stream, marker, count);
    if !ok { return; }
    ok := WriteProperties(stream, props);
    if !ok { return; }
    OverlaidTwice(d, p0, head, body);
    ok := WriteTwo(stream, [0, 0], [OBJECT_END]);
    assert [0, 0] + [OBJECT_END] == OBJECT_EOF;
    if ok {
      OverlaidTwice(d, p0, head + body, OBJECT_EOF);
    }
  }

  method WriteProperties(stream: Stream, props: seq<Property>) returns (ok: bool)
    requires stream.Valid()
    modifies stream`p, stream.data
    ensures stream.Valid() && (ok <==> Fits(old(stream.data[..]), old(stream.p), EncodeProps(props)))
    ensures ok ==> stream.p == old(stream.p) + |EncodeProps(props)|
                   && stream.data[..] == Overlaid(old(stream.data[..]), old(stream.p), EncodeProps(props))
    decreases props, 0
  {
    hide Encode, Utf8, Overlaid;
    ghost var d, p0 := stream.data[..], stream.p;
    var i := 0;
    NothingWritten(d, p0, props);
    while i < |props|
      invariant 0 <= i <= |props| && stream.Valid()
      invariant Fits(d, p0, EncodeProps(props[..i])) && stream.p == p0 + |EncodeProps(props[..i])|
      invariant stream.data[..] == Overlaid(d, p0, EncodeProps(props[..i]))
    {
      EncodeOneMore(props, i);
      var done, name, value := EncodeProps(props[..i]), Utf8(props[i].name), Encode(props[i].value);
      ok := WriteText(stream, props[i].name);
      if !ok { return; }
      ok := WriteValue(stream, props[i].value);
      if !ok { return; }
      OverlaidTwice(d, p0, done, name + value);
      OverlaidTwice(Overlaid(d, p0, done), p0 + |done|, name, value);
      i := i + 1;
    }
    assert props[..i] == props;
    ok := true;
  }

  lemma NothingWritten(d: seq<byte>, p: nat, props: seq<Property>)
    requires p <= |d|
    ensures EncodeProps(props[..0]) == [] && Fits(d, p, []) && Overlaid(d, p, []) == d
  {
  }

  // ----- Sizes and packets -----

  lemma {:induction false} PropsSizeSplit(a: seq<Property>, b: seq<Property>)
    ensures PropsSize(a + b) == PropsSize(a) + PropsSize(b)
    decreases |a|
  {
    if a == [] {
      assert a + b == b;
    } else {
      assert (a + b)[1..] == a[1..] + b;
      PropsSizeSplit(a[1..], b);
    }
  }

  /** The size calculation, which walks the value without writing anything. */
  method ValueSize(v: Value) returns (n: nat)
    ensures n == |Encode(v)|
    decreases v, 1
  {
    SizeIsExact(v);
    match v
    case Object(props) =>
      n := PropertiesSize(props);
      n := 1 + n + 3;
    case EcmaArray(_, props) =>
      n := PropertiesSize(props);
      n := 1 + 4 + n + 3;
    case String(text) =>
      n := 1 + Utf8Size(text);
    case Number(_) => n := 1 + 8;
    case Boolean(_) => n := 1 + 1;
    case Null => n := 1;
    case Undefined => n := 1;
    case ObjectEnd => n := 2 + 1;
  }

  method PropertiesSize(props: seq<Property>) returns (n: nat)
    ensures n == |EncodeProps(props)|
    decreases props, 0
  {
    n := 0;
    PropsSizeIsExact(props);
    for i := 0 to |props|
      invariant n == PropsSize(props[..i])
    {
      assert props[..i + 1] == props[..i] + [props[i]] && [props[i]][1..] == [];
      PropsSizeSplit(props[..i], [props[i]]);
      SizeIsExact(props[i].value);
      var size := ValueSize(props[i].value);
      n := n + Utf8Size(props[i].name) + size;
    }
    assert props[..|props|] == props;
  }
}
