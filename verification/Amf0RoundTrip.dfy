/** Which values come back from being written and read.  Null and undefined are not stepped over, so a reader
    that meets one falls behind the writer, takes the marker for the length of a long name, and overtakes.
    It is shown here that it never falls in step again. */
module Amf0RoundTrip {
  import opened Bytes
  import opened Amf0

  // ----- The properties still to be read decide -----

  ghost function Names(props: seq<Property>): set<Text> {
    set x <- props :: x.name
  }

  /** The properties of `acc` that none of `later` replaces. */
  ghost function Surviving(acc: seq<Property>, later: seq<Property>): seq<Property> {
    if acc == [] then []
    else (if acc[0].name in Names(later) then [] else [acc[0]]) + Surviving(acc[1..], later)
  }

  lemma {:induction false} SurvivingConcat(a: seq<Property>, c: seq<Property>, later: seq<Property>)
    ensures Surviving(a + c, later) == Surviving(a, later) + Surviving(c, later)
    decreases |a|
  {
    if a == [] {
      assert a + c == c;
    } else {
      assert (a + c)[1..] == a[1..] + c;
      SurvivingConcat(a[1..], c, later);
    }
  }

  lemma {:induction false} SurvivingSame(acc: seq<Property>, one: seq<Property>, two: seq<Property>)
    requires forall i :: 0 <= i < |acc| ==> (acc[i].name in Names(one) <==> acc[i].name in Names(two))
    ensures Surviving(acc, one) == Surviving(acc, two)
    decreases |acc|
  {
    if acc != [] {
      SurvivingSame(acc[1..], one, two);
    }
  }

  lemma {:induction false} SurvivingPut(acc: seq<Property>, e: Property, later: seq<Property>, both: seq<Property>)
    requires DistinctKeys(acc) && Names(both) == Names(later) + {e.name}
    ensures Surviving(Without(acc, e.name), later) == Surviving(acc, both)
    decreases |acc|
  {
    if acc != [] {
      assert DistinctKeys(acc[1..]);
      if acc[0].name == e.name {
        SurvivingSame(acc[1..], later, both);
      } else {
        SurvivingPut(acc[1..], e, later, both);
        assert Without(acc, e.name)[1..] == Without(acc[1..], e.name);
      }
    }
  }

  /** What was collected before matters only where no property to come replaces it. */
  lemma {:induction false} LaterWins(b: seq<byte>, p: nat, acc: seq<Property>)
    requires p <= |b| && DistinctKeys(acc)
    ensures var all, later := ReadProps(b, p, acc), ReadProps(b, p, []);
            (all.Ok? <==> later.Ok?) &&
            (all.Ok? ==> all.pos == later.pos && all.value == Surviving(acc, later.value) + later.value)
    decreases |b| - p
  {
    hide ReadAny, ReadUtf8, FromBigEndian, Without, DistinctKeys;
    assert ReadProps(b, |b|, []) == Ok([], |b|);
    SurvivingNone(acc);
    if p < |b| && ReadUtf8(b, p).Ok? && ReadAny(b, ReadUtf8(b, p).pos).Ok? {
      var name, o := ReadUtf8(b, p).value, ReadAny(b, ReadUtf8(b, p).pos);
      if name != [] && !o.value.ObjectEnd? {
        var e := Property(name, o.value);
        OneProperty(b, p, acc);
        OneProperty(b, p, []);
        PutDistinct(acc, name, o.value);
        LaterWins(b, o.pos, Put(acc, name, o.value));
        NothingRemoved([], name);
        assert [] + [e] == [e];
        AloneDistinct(e);
        LaterWins(b, o.pos, [e]);
        if ReadProps(b, o.pos, []).Ok? {
          PutSurvives(acc, e, ReadProps(b, o.pos, []).value);
        }
      }
    }
  }

  lemma AloneDistinct(e: Property)
    ensures DistinctKeys([e])
  {}

  lemma {:induction false} SurvivingNone(acc: seq<Property>)
    ensures Surviving(acc, []) == acc
    decreases |acc|
  {
    if acc != [] {
      SurvivingNone(acc[1..]);
    }
  }

  lemma AddsName(e: Property, later: seq<Property>)
    ensures Names(Surviving([e], later) + later) == Names(later) + {e.name}
    ensures Surviving([e], later) == if e.name in Names(later) then [] else [e]
  {
    assert [e][1..] == [] && Surviving([], later) == [];
    assert Surviving([e], later) == if e.name in Names(later) then [] else [e];
    var both := Surviving([e], later) + later;
    if e.name in Names(later) {
      assert both == later;
    } else {
      assert both == [e] + later;
      assert both[0] == e && forall x <- later :: x in both;
    }
  }

  lemma PutSurvives(acc: seq<Property>, e: Property, later: seq<Property>)
    requires DistinctKeys(acc)
    ensures var both := Surviving([e], later) + later;
            Surviving(Put(acc, e.name, e.value), later) + later == Surviving(acc, both) + both
  {
    var both := Surviving([e], later) + later;
    AddsName(e, later);
    SurvivingPut(acc, e, later, both);
    SurvivingConcat(Without(acc, e.name), [e], later);
  }

  /** One turn of the property loop: the bytes have ended, the object has ended, or one property was read,
      which counts unless a later one replaces it. */
  lemma Turn(b: seq<byte>, p: nat, props: seq<Property>, end: nat)
    requires p <= |b| && ReadProps(b, p, []) == Ok(props, end)
    ensures p == |b| ==> props == [] && end == |b|
    ensures p < |b| ==> ReadUtf8(b, p).Ok? && ReadAny(b, ReadUtf8(b, p).pos).Ok?
    ensures p < |b| ==>
              var name, o := ReadUtf8(b, p).value, ReadAny(b, ReadUtf8(b, p).pos);
              if name == [] || o.value.ObjectEnd? then props == [] && end == o.pos
              else
                var later := ReadProps(b, o.pos, []);
                later.Ok? && later.pos == end &&
                if name in Names(later.value) then later.value == props
                else props == [Property(name, o.value)] + later.value
  {
    hide ReadAny, ReadUtf8, FromBigEndian, Without, DistinctKeys, Surviving;
    if p < |b| {
      var name, o := ReadUtf8(b, p).value, ReadAny(b, ReadUtf8(b, p).pos);
      if name != [] && !o.value.ObjectEnd? {
        var e := Property(name, o.value);
        OneProperty(b, p, []);
        NothingRemoved([], name);
        assert [] + [e] == [e];
        AloneDistinct(e);
        LaterWins(b, o.pos, [e]);
        AddsName(e, ReadProps(b, o.pos, []).value);
      }
    }
  }

  // ----- Texts in the bytes -----

  function Length(b: seq<byte>, p: nat): int
    requires p + 2 <= |b|
  {
    var high: int := b[p];
    256 * high + b[p + 1]
  }

  lemma LengthBytes(b: seq<byte>, p: nat)
    requires p + 2 <= |b|
    ensures U16At(b, p) == Length(b, p)
  {
    var s := b[p..p + 2];
    assert s[1] == b[p + 1] && s[..1] == [b[p]] && [b[p]][..0] == [];
    assert FromBigEndian(s) == FromBigEndian([b[p]]) * 256 + b[p + 1];
  }

  /** Where a text that is not empty was read stand its length and its bytes. */
  lemma TextBytes(b: seq<byte>, p: nat)
    requires p <= |b| && ReadUtf8(b, p).Ok?
    ensures p + 2 <= |b|
    ensures var Ok(text, end) := ReadUtf8(b, p);
            end == p + 2 + |text| <= |b| &&
            if text == [] then b[p] >= 0x80 || b[p] == b[p + 1] == 0
            else b[p] < 0x80 && Length(b, p) == |text| && text == b[p + 2..end]
  {
    hide FromBigEndian;
    LengthBytes(b, p);
  }

  ghost predicate Same(b: seq<byte>, i: nat, j: nat, n: nat) {
    i + n <= |b| && j + n <= |b| && b[i..i + n] == b[j..j + n]
  }

  lemma SameByte(b: seq<byte>, i: nat, j: nat, n: nat, k: nat)
    requires Same(b, i, j, n) && k < n
    ensures b[i + k] == b[j + k]
  {
    assert b[i..i + n][k] == b[j..j + n][k];
  }

  lemma SameLength(b: seq<byte>, i: nat, j: nat)
    requires i + 2 <= |b| && j + 2 <= |b| && Length(b, i) == Length(b, j)
    ensures b[i] == b[j] && b[i + 1] == b[j + 1]
  {}

  /** The same text read in two places. */
  lemma SameText(b: seq<byte>, i: nat, j: nat)
    requires i <= |b| && j <= |b| && ReadUtf8(b, i).Ok? && ReadUtf8(b, j).Ok?
    requires ReadUtf8(b, i).value == ReadUtf8(b, j).value != []
    ensures Same(b, i, j, 2 + |ReadUtf8(b, i).value|)
  {
    hide ReadUtf8;
    TextBytes(b, i);
    TextBytes(b, j);
    var text := ReadUtf8(b, i).value;
    var n := 2 + |text|;
    SameLength(b, i, j);
    assert b[i..i + n] == [b[i], b[i + 1]] + b[i + 2..i + n];
    assert b[j..j + n] == [b[j], b[j + 1]] + b[j + 2..j + n];
  }

  // ----- Runs of one marker -----

  /** The name whose length and bytes are all the same byte. */
  ghost function Run(m: byte): Text {
    seq(257 * m, _ => m)
  }

  ghost predicate Filled(b: seq<byte>, i: nat, j: nat, m: byte) {
    i <= j <= |b| && forall t :: i <= t < j ==> b[t] == m
  }

  lemma RunForward(b: seq<byte>, i: nat, k: nat, n: nat, m: byte)
    requires k > 0 && Same(b, i, i + k, n) && Filled(b, i, i + k, m)
    ensures Filled(b, i, i + k + n, m)
  {
    for u := 0 to n
      invariant Filled(b, i, i + k + u, m)
    {
      SameByte(b, i, i + k, n, u);
    }
  }

  lemma RunBack(b: seq<byte>, i: nat, k: nat, n: nat, m: byte)
    requires k > 0 && Same(b, i, i + k, n) && Filled(b, i + n, i + n + k, m)
    ensures Filled(b, i, i + n + k, m)
  {
    for u := n downto 0
      invariant Filled(b, i + u, i + n + k, m)
    {
      SameByte(b, i, i + k, n, u);
      assert b[i + u] == b[i + u + k] == m;
    }
  }

  lemma RunText(b: seq<byte>, p: nat, m: byte)
    requires p <= |b| && ReadUtf8(b, p).Ok? && 0 < m && Filled(b, p, p + 2 + |ReadUtf8(b, p).value|, m)
    requires ReadUtf8(b, p).value != []
    ensures ReadUtf8(b, p).value == Run(m)
  {
    hide ReadUtf8;
    TextBytes(b, p);
  }

  // ----- Bytes that only end objects -----

  /** From `i` on, nothing but ends of objects, counted from the end of the bytes. */
  ghost predicate OnlyEnds(b: seq<byte>, i: nat) {
    forall t :: i <= t < |b| ==> b[t] == EndByte(|b| - t)
  }

  function EndByte(k: nat): byte {
    if k % 3 == 1 then OBJECT_END else 0
  }

  /** Bytes that are repeated whole ends of objects later belong to the ends, too. */
  lemma Pull(b: seq<byte>, i: nat, j: nat, n: nat)
    requires Same(b, i, j, n) && i < j && (j - i) % 3 == 0 && OnlyEnds(b, i + n)
    ensures OnlyEnds(b, i)
  {
    for u := n downto 0
      invariant OnlyEnds(b, i + u)
    {
      SameByte(b, i, j, n, u);
      assert b[j + u] == EndByte(|b| - (j + u));
      assert EndByte(|b| - (j + u)) == EndByte(|b| - (i + u));
    }
  }

  lemma TextInEnds(b: seq<byte>, p: nat)
    requires p < |b| && OnlyEnds(b, p) && ReadUtf8(b, p).Ok?
    ensures var Ok(text, end) := ReadUtf8(b, p);
            end == p + 2 + |text| && |text| == match (|b| - p) % 3 case 0 => 0 case 1 => 2304 case _ => 9
  {
    hide ReadUtf8;
    TextBytes(b, p);
    assert b[p] == EndByte(|b| - p) && b[p + 1] == EndByte(|b| - (p + 1));
  }

  /** What a turn of the property loop does there. */
  lemma TurnInEnds(b: seq<byte>, p: nat)
    requires p < |b| && OnlyEnds(b, p) && ReadUtf8(b, p).Ok? && ReadAny(b, ReadUtf8(b, p).pos).Ok?
    ensures var name, o := ReadUtf8(b, p).value, ReadAny(b, ReadUtf8(b, p).pos);
            match (|b| - p) % 3
            case 0 => name == [] && o.value.ObjectEnd? && o.pos == p + 3
            case 1 => |name| == 2304 && o.value.Number? && o.pos == p + 2315
            case _ => |name| == 9 && o.value.Number? && o.pos == p + 20
  {
    hide ReadUtf8, ReadProps;
    TextInEnds(b, p);
    var p1 := ReadUtf8(b, p).pos;
    assert b[p1] == EndByte(|b| - p1);
  }

  // ----- What was written -----

  /** Numbers within their widths: what a value of the program can hold. */
  predicate Representable(v: Value)
    decreases v
  {
    match v
    case Number(bits) => bits < TWO_32 * TWO_32
    case Object(props) => forall i :: 0 <= i < |props| ==> Representable(props[i].value)
    case EcmaArray(count, props) => IsInt32(count) && forall i :: 0 <= i < |props| ==> Representable(props[i].value)
    case _ => true
  }

  /** Properties that can be read and whose numbers are within their widths. */
  ghost predicate Fine(props: seq<Property>) {
    ReadableTable(props) && forall i :: 0 <= i < |props| ==> Representable(props[i].value)
  }

  ghost predicate Wrote(b: seq<byte>, p: nat, props: seq<Property>) {
    At(b, p, EncodeProps(props)) && At(b, p + |EncodeProps(props)|, OBJECT_EOF)
  }

  ghost function After(p: nat, props: seq<Property>): nat {
    p + |EncodeProps(props)| + 3
  }

  lemma FineRest(props: seq<Property>)
    requires Fine(props) && props != []
    ensures Fine(props[1..]) && props[0].name !in Names(props[1..]) && 0 < |props[0].name| < 0x8000
    ensures Readable(props[0].value) && Representable(props[0].value)
  {
    var rest := props[1..];
    assert forall i :: 0 <= i < |rest| ==> rest[i] == props[i + 1];
  }

  lemma WroteFirst(b: seq<byte>, p: nat, props: seq<Property>)
    requires Wrote(b, p, props) && props != [] && |props[0].name| < 0x8000
    ensures p <= |b| && ReadUtf8(b, p) == Ok(props[0].name, p + 2 + |props[0].name|)
    ensures var q := p + 2 + |props[0].name|;
            At(b, q, Encode(props[0].value)) && Wrote(b, q + |Encode(props[0].value)|, props[1..]) &&
            After(q + |Encode(props[0].value)|, props[1..]) == After(p, props)
  {
    hide ReadUtf8, At, Encode, BigEndian;
    var Property(name, value) := props[0];
    AtSplit(b, p, Utf8(name) + Encode(value), EncodeProps(props[1..]));
    AtSplit(b, p, Utf8(name), Encode(value));
    ReadBackUtf8(b, p, name);
    AtInside(b, p, Utf8(name));
  }

  lemma AtInside(b: seq<byte>, p: nat, x: seq<byte>)
    requires At(b, p, x)
    ensures p + |x| <= |b|
    ensures forall k :: 0 <= k < |x| ==> b[p + k] == x[k]
  {
    forall k | 0 <= k < |x| ensures b[p + k] == x[k] {
      assert b[p..p + |x|][k] == b[p + k];
    }
  }

  lemma WroteEnd(b: seq<byte>, p: nat)
    requires Wrote(b, p, [])
    ensures p + 3 <= |b| && b[p] == b[p + 1] == 0 && b[p + 2] == OBJECT_END
  {
    AtInside(b, p, OBJECT_EOF);
    assert b[p + 0] == 0;
  }

  lemma WroteInside(b: seq<byte>, p: nat, props: seq<Property>)
    requires Wrote(b, p, props)
    ensures After(p, props) <= |b|
  {}

  /** The marker that a value is written with. */
  function Marker(v: Value): byte {
    match v
    case Number(_) => NUMBER
    case Boolean(_) => BOOLEAN
    case String(_) => STRING
    case Null => NULL
    case Undefined => UNDEFINED
    case ObjectEnd => 0
    case Object(_) => OBJECT
    case EcmaArray(_, _) => ECMA_ARRAY
  }

  lemma WroteMarker(b: seq<byte>, p: nat, v: Value)
    requires At(b, p, Encode(v))
    ensures p < |b| && b[p] == Marker(v)
    ensures v == Null || v == Undefined ==> |Encode(v)| == 1
    ensures v.Number? ==> |Encode(v)| == 9
  {
    hide BigEndian, EncodeProps, Utf8;
    AtInside(b, p, Encode(v));
    assert b[p + 0] == Encode(v)[0];
  }

  /** Nothing but ends of objects leaves room for two short properties at most, and for no null. */
  lemma {:induction false} PropsInEnds(b: seq<byte>, p: nat, props: seq<Property>)
    requires Wrote(b, p, props) && Fine(props) && OnlyEnds(b, p)
    ensures (|b| - p) % 3 == 0 ==> props == []
    ensures forall x <- props :: |x.name| == 9 || (|x.name| == 2304 && (|b| - p) % 3 == 1)
    ensures NullsIn(props) == 0
    decreases |props|
  {
    hide ReadUtf8, Encode, EncodeProps, At, ReadableTable, Representable, Readable;
    if props != [] {
      FineRest(props);
      WroteFirst(b, p, props);
      TextInEnds(b, p);
      var q := p + 2 + |props[0].name|;
      WroteMarker(b, q, props[0].value);
      assert b[q] == EndByte(|b| - q);
      NotTheEnd(props[0].value);
      PropsInEnds(b, q + 9, props[1..]);
      assert forall x <- props :: x == props[0] || x in props[1..];
    }
  }

  lemma NotTheEnd(v: Value)
    requires Readable(v)
    ensures v != ObjectEnd && (Marker(v) == 0 ==> v.Number? && Nulls(v) == 0)
  {}

  // ----- A reader ahead of the writer -----

  /** The reader is whole ends of objects ahead, and nothing else is left. */
  ghost predicate OnlyEndsBetween(b: seq<byte>, written: nat, read: nat) {
    written <= read && (read - written) % 3 == 0 && OnlyEnds(b, written)
  }

  /** The reader, at a property, is ahead by two bytes or more, or by one after a null named `prev`. */
  ghost predicate Ahead(b: seq<byte>, written: nat, read: nat, prev: Text) {
    read <= |b| &&
    if read == written + 1 then NullAt(b, read) && (b[written] == b[read] ==> prev == Run(b[read]))
    else read >= written + 2 && !OnlyEndsBetween(b, written, read)
  }

  /** The reader has left an object ahead of the writer, or at the end of the bytes. */
  ghost predicate Astray(b: seq<byte>, written: nat, read: nat) {
    written <= read <= |b| && (read >= written + 2 || read == |b|) && !OnlyEndsBetween(b, written, read)
  }

  lemma StillAhead(b: seq<byte>, written: nat, read: nat, props: seq<Property>)
    requires Astray(b, written, read) && Wrote(b, written, props)
    ensures Ahead(b, written, read, [])
  {
    WroteInside(b, written, props);
  }

  /** One byte ahead, right after a null: the next name of both would be that of the null. */
  lemma OneAhead(b: seq<byte>, written: nat, prev: Text)
    requires written + 1 <= |b| && Ahead(b, written, written + 1, prev)
    requires ReadUtf8(b, written).Ok? && ReadUtf8(b, written + 1).Ok?
    requires ReadUtf8(b, written).value == ReadUtf8(b, written + 1).value != []
    ensures ReadUtf8(b, written).value == prev
  {
    hide ReadUtf8;
    var n := 2 + |ReadUtf8(b, written).value|;
    SameText(b, written, written + 1);
    SameByte(b, written, written + 1, n, 0);
    RunForward(b, written, 1, n, b[written]);
    RunText(b, written, b[written]);
  }

  /** A null read at two bytes ahead leaves the reader one byte ahead. */
  lemma TwoAhead(b: seq<byte>, written: nat, name: Text)
    requires written + 2 <= |b| && name != []
    requires ReadUtf8(b, written).Ok? && ReadUtf8(b, written).value == name
    requires ReadUtf8(b, written + 2).Ok? && ReadUtf8(b, written + 2).value == name
    requires var q := written + 2 + |name|; NullAt(b, q) && NullAt(b, q + 2) && b[q] == b[q + 2]
    ensures var q := written + 2 + |name|; Ahead(b, q + 1, q + 2, name)
  {
    hide ReadUtf8;
    var q := written + 2 + |name|;
    SameText(b, written, written + 2);
    if b[q + 1] == b[q] {
      RunBack(b, written, 2, 2 + |name|, b[q]);
      RunText(b, written, b[q]);
    }
  }

  /** The end of an object, read ahead of where it was written. */
  lemma EndAhead(b: seq<byte>, written: nat, read: nat, prev: Text, end: nat)
    requires Wrote(b, written, []) && Ahead(b, written, read, prev) && ReadProps(b, read, []) == Ok([], end)
    ensures Astray(b, After(written, []), end)
  {
    hide ReadUtf8, ReadAny, ReadProps, Wrote;
    WroteEnd(b, written);
    Turn(b, read, [], end);
    if read == |b| {
      EndsExtend(b, written);
    } else {
      TextBytes(b, read);
      var name, o := ReadUtf8(b, read).value, ReadAny(b, ReadUtf8(b, read).pos);
      assert read >= written + 2;
      if OnlyEndsBetween(b, written + 3, end) {
        if read == written + 2 {
          assert b[read + 1] == EndByte(|b| - (read + 1));
          MarkerRead(b, ReadUtf8(b, read).pos);
        } else {
          TurnInEnds(b, read);
          EndsExtend(b, written);
        }
      }
    }
  }

  lemma EndsExtend(b: seq<byte>, p: nat)
    requires p + 3 <= |b| && b[p] == b[p + 1] == 0 && b[p + 2] == OBJECT_END
    ensures OnlyEnds(b, p + 3) && (|b| - p) % 3 == 0 ==> OnlyEnds(b, p)
  {}

  /** A property that is replaced later takes the reader further ahead. */
  lemma ReplacedAhead(b: seq<byte>, written: nat, props: seq<Property>, read: nat, prev: Text)
    requires Wrote(b, written, props) && Fine(props) && Ahead(b, written, read, prev) && read < |b|
    requires ReadUtf8(b, read).Ok? && ReadAny(b, ReadUtf8(b, read).pos).Ok?
    requires ReadUtf8(b, read).value != [] && ReadUtf8(b, read).value in Names(props)
    ensures Ahead(b, written, ReadAny(b, ReadUtf8(b, read).pos).pos, [])
  {
    hide ReadUtf8, ReadAny, Wrote, Fine;
    TextBytes(b, read);
    var name, o := ReadUtf8(b, read).value, ReadAny(b, ReadUtf8(b, read).pos);
    if OnlyEndsBetween(b, written, o.pos) {
      TurnInEnds(b, read);
      PropsInEnds(b, written, props);
    }
  }

  lemma MarkerRead(b: seq<byte>, p: nat)
    requires p <= |b| && ReadAny(b, p).Ok?
    ensures var Ok(v, end) := ReadAny(b, p);
            p < |b| && (!v.ObjectEnd? ==> b[p] == Marker(v)) &&
            match v
            case Number(bits) => end == p + 9 && FromBigEndian(b[p + 1..p + 9]) == bits
            case Boolean(_) => end == p + 2
            case String(text) => ReadUtf8(b, p + 1) == Ok(text, end)
            case Null => end == p
            case Undefined => end == p
            case ObjectEnd => end == p + 1
            case Object(props) => ReadProps(b, p + 1, []) == Ok(props, end)
            case EcmaArray(count, props) =>
              p + 5 <= |b| && Int32At(b, p + 1) == count && ReadProps(b, p + 5, []) == Ok(props, end)
  {
    hide ReadProps, FromBigEndian, ReadUtf8;
  }

  lemma EndBytes(b: seq<byte>, i: nat, j: nat)
    requires OnlyEnds(b, i) && i <= j < |b|
    ensures b[j] == 0 || b[j] == OBJECT_END
  {}

  lemma TextAhead(b: seq<byte>, i: nat, j: nat)
    requires i < j <= |b| && ReadUtf8(b, i).Ok? && ReadUtf8(b, j).Ok?
    requires ReadUtf8(b, i).value == ReadUtf8(b, j).value != []
    ensures OnlyEndsBetween(b, ReadUtf8(b, i).pos, ReadUtf8(b, j).pos) ==> OnlyEnds(b, i)
  {
    hide ReadUtf8, OnlyEnds;
    TextBytes(b, i);
    TextBytes(b, j);
    SameText(b, i, j);
    if OnlyEndsBetween(b, ReadUtf8(b, i).pos, ReadUtf8(b, j).pos) {
      Pull(b, i, j, 2 + |ReadUtf8(b, i).value|);
    }
  }

  /** A number, boolean or string in step with its copy. */
  lemma ScalarAhead(b: seq<byte>, i: nat, j: nat, v: Value)
    requires v.Number? || v.Boolean? || v.String?
    requires i + 2 <= j <= |b| && ReadAny(b, i).Ok? && ReadAny(b, j).Ok?
    requires ReadAny(b, i).value == v == ReadAny(b, j).value
    ensures ReadAny(b, j).pos - j == ReadAny(b, i).pos - i
    ensures OnlyEndsBetween(b, ReadAny(b, i).pos, ReadAny(b, j).pos) ==> OnlyEnds(b, i)
  {
    hide ReadAny, FromBigEndian, ReadUtf8, OnlyEnds;
    MarkerRead(b, i);
    MarkerRead(b, j);
    if v.String? {
      TextBytes(b, i + 1);
      TextBytes(b, j + 1);
    }
    var p, q := ReadAny(b, i).pos, ReadAny(b, j).pos;
    if OnlyEndsBetween(b, p, q) {
      if v.Number? {
        SameField(b, i, j, 8);
        Pull(b, i, j, 9);
      } else {
        if v.String? && v.text != [] {
          TextAhead(b, i + 1, j + 1);
        }
        EndBytes(b, if v.String? && v.text != [] then i + 1 else p, j);
      }
    }
  }

  lemma SameField(b: seq<byte>, i: nat, j: nat, n: nat)
    requires i + 1 + n <= |b| && j + 1 + n <= |b| && b[i] == b[j]
    requires FromBigEndian(b[i + 1..i + 1 + n]) == FromBigEndian(b[j + 1..j + 1 + n])
    ensures Same(b, i, j, 1 + n)
  {
    BigEndianOnto(b[i + 1..i + 1 + n]);
    BigEndianOnto(b[j + 1..j + 1 + n]);
    assert b[i..i + 1 + n] == [b[i]] + b[i + 1..i + 1 + n];
    assert b[j..j + 1 + n] == [b[j]] + b[j + 1..j + 1 + n];
  }

  function HeadSize(v: Value): nat {
    if v.Object? then 1 else 5
  }

  lemma WroteHead(b: seq<byte>, p: nat, v: Value)
    requires (v.Object? || v.EcmaArray?) && Representable(v) && At(b, p, Encode(v))
    ensures Wrote(b, p + HeadSize(v), v.props) && After(p + HeadSize(v), v.props) == p + |Encode(v)|
    ensures p + HeadSize(v) <= |b|
    ensures v.EcmaArray? ==> Int32At(b, p + 1) == v.count
    ensures ReadAny(b, p) == if v.Object? then AsObject(ReadProps(b, p + 1, []))
                             else AsArray(v.count, ReadProps(b, p + 5, []))
  {
    hide ReadProps, ReadAny, At, BigEndian, FromBigEndian;
    var head := if v.Object? then [OBJECT] else [ECMA_ARRAY] + BigEndian(v.count % TWO_32, 4);
    AtSplit(b, p, head + EncodeProps(v.props), OBJECT_EOF);
    AtSplit(b, p, head, EncodeProps(v.props));
    AtInside(b, p, head);
    if v.Object? {
      ObjectHead(b, p);
    } else {
      ArrayHead(b, p, v.count);
      AtSplit(b, p, [ECMA_ARRAY], BigEndian(v.count % TWO_32, 4));
      CountBytes(b, p + 1, v.count);
    }
  }

  lemma CountBytes(b: seq<byte>, p: nat, count: int)
    requires IsInt32(count) && At(b, p, BigEndian(count % TWO_32, 4))
    ensures p + 4 <= |b| && Int32At(b, p) == count
  {
    hide BigEndian, FromBigEndian;
    Int32RoundTrip(count);
  }

  /** A container whose head is read ahead of where it was written. */
  lemma HeadAhead(b: seq<byte>, i: nat, j: nat, v: Value)
    requires (v.Object? || v.EcmaArray?) && Representable(v) && At(b, i, Encode(v))
    requires i + 2 <= j <= |b| && ReadAny(b, j).Ok? && ReadAny(b, j).value == v
    ensures j + HeadSize(v) <= |b| && ReadProps(b, j + HeadSize(v), []) == Ok(v.props, ReadAny(b, j).pos)
    ensures Ahead(b, i + HeadSize(v), j + HeadSize(v), [])
  {
    hide ReadProps, ReadAny, FromBigEndian, ReadUtf8, Encode, EncodeProps, At, Representable, OnlyEnds;
    WroteHead(b, i, v);
    WroteMarker(b, i, v);
    MarkerRead(b, j);
    if OnlyEndsBetween(b, i + HeadSize(v), j + HeadSize(v)) {
      if v.EcmaArray? {
        SameCount(b, i, j);
        Pull(b, i, j, 5);
      }
      EndBytes(b, if v.Object? then i + 1 else i, j);
    }
  }

  lemma SameCount(b: seq<byte>, i: nat, j: nat)
    requires i + 5 <= |b| && j + 5 <= |b| && b[i] == b[j] && Int32At(b, i + 1) == Int32At(b, j + 1)
    ensures Same(b, i, j, 5)
  {
    hide FromBigEndian;
    FromBigEndianBounds(b[i + 1..i + 5]);
    FromBigEndianBounds(b[j + 1..j + 5]);
    SameField(b, i, j, 4);
  }

  /** A null read ahead of where it was written. */
  lemma NullAhead(b: seq<byte>, written: nat, props: seq<Property>, read: nat)
    requires Wrote(b, written, props) && Fine(props) && props != []
    requires Ahead(b, written, read, []) && read >= written + 2
    requires props[0].value == Null || props[0].value == Undefined
    requires ReadUtf8(b, read).Ok? && ReadUtf8(b, read).value == props[0].name
    requires ReadAny(b, ReadUtf8(b, read).pos) == Ok(props[0].value, ReadUtf8(b, read).pos)
    ensures Ahead(b, written + 3 + |props[0].name|, ReadUtf8(b, read).pos, props[0].name)
  {
    hide ReadUtf8, ReadAny, ReadProps, Wrote, Fine, OnlyEnds, At, Encode, EncodeProps, Readable, Representable, Run;
    FineRest(props);
    WroteFirst(b, written, props);
    var name := props[0].name;
    var q := written + 2 + |name|;
    WroteMarker(b, q, props[0].value);
    TextBytes(b, read);
    var p := ReadUtf8(b, read).pos;
    MarkerRead(b, p);
    if read == written + 2 {
      TwoAhead(b, written, name);
    } else if OnlyEndsBetween(b, q + 1, p) {
      EndBytes(b, q + 1, p);
    }
  }

  /** A number, boolean or string property read ahead of where it was written. */
  lemma ScalarPropertyAhead(b: seq<byte>, written: nat, props: seq<Property>, read: nat)
    requires Wrote(b, written, props) && Fine(props) && props != []
    requires Ahead(b, written, read, []) && read >= written + 2
    requires props[0].value.Number? || props[0].value.Boolean? || props[0].value.String?
    requires ReadUtf8(b, read).Ok? && ReadUtf8(b, read).value == props[0].name
    requires ReadAny(b, ReadUtf8(b, read).pos).Ok? && ReadAny(b, ReadUtf8(b, read).pos).value == props[0].value
    ensures var next := written + 2 + |props[0].name| + |Encode(props[0].value)|;
            Ahead(b, next, ReadAny(b, ReadUtf8(b, read).pos).pos, [])
  {
    hide ReadUtf8, ReadAny, Wrote, Fine, OnlyEnds, Encode, At;
    FineRest(props);
    WroteFirst(b, written, props);
    var Property(name, value) := props[0];
    var i, j := ReadUtf8(b, written).pos, ReadUtf8(b, read).pos;
    TextBytes(b, read);
    ScalarEncodable(value);
    ReadBackScalar(b, i, value);
    ScalarAhead(b, i, j, value);
    TextAhead(b, written, read);
  }

  lemma ScalarEncodable(v: Value)
    requires (v.Number? || v.Boolean? || v.String?) && Readable(v) && Representable(v)
    ensures Encodable(v)
  {}

  /** A reader ahead of the writer, who has yet to find the properties that were written, leaves the object
      ahead of it. */
  lemma {:induction false} StaysAhead(b: seq<byte>, written: nat, props: seq<Property>, read: nat, prev: Text, end: nat)
    requires Wrote(b, written, props) && Fine(props) && prev !in Names(props)
    requires Ahead(b, written, read, prev) && ReadProps(b, read, []) == Ok(props, end)
    ensures Astray(b, After(written, props), end)
    decreases |b| - read, 1
  {
    hide ReadUtf8, ReadAny, ReadProps, Wrote, Fine, OnlyEnds, Encode, EncodeProps, Ahead, Astray, At, NullAt;
    Turn(b, read, props, end);
    if props == [] {
      EndAhead(b, written, read, prev, end);
    } else {
      var Ok(name, p) := ReadUtf8(b, read);
      var Ok(value, q) := ReadAny(b, p);
      var later := ReadProps(b, q, []).value;
      NamesFine(props);
      if name in Names(later) {
        ReplacedAhead(b, written, props, read, prev);
        StaysAhead(b, written, props, q, [], end);
      } else {
        assert props[0] == Property(name, value) && props[1..] == later;
        PropertyAhead(b, written, props, read, prev, end);
      }
    }
  }

  lemma NamesFine(props: seq<Property>)
    requires Fine(props)
    ensures [] !in Names(props)
  {}

  lemma FineInside(v: Value)
    requires (v.Object? || v.EcmaArray?) && Readable(v) && Representable(v)
    ensures Fine(v.props)
  {}

  /** The case of a property that counts. */
  lemma {:induction false} PropertyAhead(b: seq<byte>, written: nat, props: seq<Property>, read: nat, prev: Text, end: nat)
    requires Wrote(b, written, props) && Fine(props) && props != [] && prev !in Names(props)
    requires Ahead(b, written, read, prev)
    requires ReadUtf8(b, read).Ok? && ReadUtf8(b, read).value == props[0].name
    requires ReadAny(b, ReadUtf8(b, read).pos).Ok? && ReadAny(b, ReadUtf8(b, read).pos).value == props[0].value
    requires ReadProps(b, ReadAny(b, ReadUtf8(b, read).pos).pos, []) == Ok(props[1..], end)
    ensures Astray(b, After(written, props), end)
    decreases |b| - read, 0
  {
    hide ReadUtf8, ReadAny, ReadProps, Wrote, Fine, OnlyEndsBetween, Encode, EncodeProps, Astray, At, NullAt;
    hide Readable, Representable;
    FineRest(props);
    WroteFirst(b, written, props);
    var Property(name, value) := props[0];
    var rest := props[1..];
    if read == written + 1 {
      OneAhead(b, written, prev);
    } else {
      var i, j := written + 2 + |name|, ReadUtf8(b, read).pos;
      var next, q := i + |Encode(value)|, ReadAny(b, j).pos;
      TextBytes(b, read);
      NamesFine(rest);
      MarkerRead(b, j);
      NotTheEnd(value);
      if value == Null || value == Undefined {
        WroteMarker(b, i, value);
        NullAhead(b, written, props, read);
        StaysAhead(b, next, rest, q, name, end);
      } else if value.Object? || value.EcmaArray? {
        HeadAhead(b, i, j, value);
        WroteHead(b, i, value);
        FineInside(value);
        NamesFine(value.props);
        StaysAhead(b, i + HeadSize(value), value.props, j + HeadSize(value), [], q);
        StillAhead(b, next, q, rest);
        StaysAhead(b, next, rest, q, [], end);
      } else {
        ScalarPropertyAhead(b, written, props, read);
        StaysAhead(b, next, rest, q, [], end);
      }
    }
  }

  // ----- A reader behind the writer -----

  /** A reader behind the writer, at a marker of null or undefined that it left, which it takes for the
      length of a name: if the object ends there, or the property does not count, it has overtaken. */
  lemma Overtakes(b: seq<byte>, written: nat, props: seq<Property>, read: nat, end: nat)
    requires Wrote(b, written, props) && Fine(props) && NullAt(b, read)
    requires read == written - 1 || (read == written - 2 && b[read + 1] == b[read])
    requires ReadProps(b, read, []) == Ok(props, end)
    ensures ReadUtf8(b, read).Ok? && ReadUtf8(b, read).value != [] && ReadAny(b, ReadUtf8(b, read).pos).Ok?
    ensures var Ok(value, q) := ReadAny(b, ReadUtf8(b, read).pos);
            Astray(b, After(written, props), end) ||
            (props != [] && props[0] == Property(ReadUtf8(b, read).value, value) &&
             ReadProps(b, q, []) == Ok(props[1..], end))
  {
    hide ReadUtf8, ReadAny, ReadProps, Wrote, Fine, OnlyEnds, EncodeProps, Run;
    Turn(b, read, props, end);
    TextBytes(b, read);
    var Ok(name, p) := ReadUtf8(b, read);
    var Ok(value, q) := ReadAny(b, p);
    if value.ObjectEnd? {
      WroteEnd(b, written);
      MarkerRead(b, p);
      NothingWritten();
    } else {
      var later := ReadProps(b, q, []).value;
      if name in Names(later) {
        WroteInside(b, written, props);
        if OnlyEnds(b, written) {
          PropsInEnds(b, written, props);
          EndBytes(b, written, written);
        }
        NamesFine(props);
        StaysAhead(b, written, props, q, [], end);
      } else {
        assert props[1..] == later;
      }
    }
  }

  lemma NothingWritten()
    ensures EncodeProps([]) == []
  {}

  lemma TwoBehind(b: seq<byte>, written: nat, props: seq<Property>, m: byte, end: nat)
    requires Wrote(b, written, props) && Fine(props) && written >= 2
    requires NullAt(b, written - 2) && Filled(b, written - 2, written, m) && Run(m) !in Names(props)
    requires ReadProps(b, written - 2, []) == Ok(props, end)
    ensures Astray(b, After(written, props), end)
  {
    hide ReadUtf8, ReadAny, ReadProps, Wrote, Fine, EncodeProps, Encode, Astray, At, Run;
    var read := written - 2;
    Overtakes(b, written, props, read, end);
    if !Astray(b, After(written, props), end) {
      FineRest(props);
      WroteFirst(b, written, props);
      SameText(b, read, written);
      RunForward(b, read, 2, 2 + |props[0].name|, m);
      RunText(b, read, m);
    }
  }

  lemma OneBehind(b: seq<byte>, written: nat, props: seq<Property>, end: nat)
    requires Wrote(b, written, props) && Fine(props) && written >= 1
    requires NullAt(b, written - 1) && ReadProps(b, written - 1, []) == Ok(props, end)
    ensures Astray(b, After(written, props), end)
  {
    hide ReadUtf8, ReadAny, ReadProps, Wrote, Fine, EncodeProps, Encode, Astray, At, Run;
    var read := written - 1;
    var m := b[read];
    Overtakes(b, written, props, read, end);
    if !Astray(b, After(written, props), end) {
      FineRest(props);
      WroteFirst(b, written, props);
      var Property(name, value) := props[0];
      var n := 2 + |name|;
      SameText(b, read, written);
      TextBytes(b, read);
      RunForward(b, read, 1, n, m);
      RunText(b, read, m);
      MarkerRead(b, read + n);
      NotTheEnd(value);
      WroteMarker(b, written + n, value);
      TwoBehind(b, written + n + 1, props[1..], m, end);
    }
  }

  // ----- A reader in step -----

  lemma {:induction false} ReadableEncodes(v: Value)
    requires Representable(v) && Readable(v) && Nulls(v) == 0
    ensures Encodable(v) && UniqueKeys(v)
    decreases v, 1
  {
    if v.Object? || v.EcmaArray? {
      ReadableEncodesProps(v.props);
    }
  }

  lemma {:induction false} ReadableEncodesProps(props: seq<Property>)
    requires NullsIn(props) == 0
    requires forall i :: 0 <= i < |props| ==>
               0 < |props[i].name| < 0x8000 && Representable(props[i].value) && Readable(props[i].value)
    ensures EncodableProps(props) && UniqueInside(props)
    decreases props, 0
  {
    if props != [] {
      ReadableEncodes(props[0].value);
      ReadableEncodesProps(props[1..]);
    }
  }

  lemma NeverAnEnd(b: seq<byte>, p: nat)
    requires At(b, p, Encode(ObjectEnd))
    ensures ReadAny(b, p) != Ok(ObjectEnd, p + |Encode(ObjectEnd)|)
  {
    assert b[p] == b[p..p + 3][0];
  }

  /** A reader that starts in step loses it at the first null. */
  lemma {:induction false} LosesStep(b: seq<byte>, p: nat, props: seq<Property>, end: nat)
    requires Wrote(b, p, props) && Fine(props) && NullsIn(props) > 0 && p <= |b|
    requires ReadProps(b, p, []) == Ok(props, end)
    ensures Astray(b, After(p, props), end)
    decreases |b| - p
  {
    hide ReadUtf8, ReadAny, ReadProps, Wrote, Fine, EncodeProps, Encode, Astray, Ahead, At, OnlyEnds;
    hide Readable, Representable;
    FineRest(props);
    WroteFirst(b, p, props);
    WroteInside(b, p, props);
    Turn(b, p, props, end);
    NamesFine(props);
    var Property(name, written) := props[0];
    var i := p + 2 + |name|;
    var next := i + |Encode(written)|;
    var Ok(value, q) := ReadAny(b, i);
    var later := ReadProps(b, q, []).value;
    if name in Names(later) {
      ReplacedInStep(b, p, props, q);
      StaysAhead(b, p, props, q, [], end);
    } else {
      assert value == written && later == props[1..];
      NamesFine(later);
      MarkerRead(b, i);
      if written == Null || written == Undefined {
        WroteMarker(b, i, written);
        OneBehind(b, next, later, end);
      } else if Nulls(written) == 0 {
        ReadableEncodes(written);
        ComesBack(b, i, written);
        LosesStep(b, next, later, end);
      } else {
        WroteHead(b, i, written);
        FineInside(written);
        LosesStep(b, i + HeadSize(written), written.props, q);
        StillAhead(b, next, q, later);
        StaysAhead(b, next, later, q, [], end);
      }
    }
  }

  lemma ReplacedInStep(b: seq<byte>, p: nat, props: seq<Property>, read: nat)
    requires Wrote(b, p, props) && Fine(props) && NullsIn(props) > 0 && p + 3 <= read <= |b|
    ensures Ahead(b, p, read, [])
  {
    hide Wrote, Fine, OnlyEnds;
    if OnlyEnds(b, p) {
      PropsInEnds(b, p, props);
    }
  }

  // ----- The round trip -----

  /** The round trip.  A value comes back, in the same order and without a byte too many, exactly if its
      texts are short enough, its names not empty, no object or array in it has a name twice, and it holds
      no null, undefined or end of object. */
  lemma RoundTrip(b: seq<byte>, p: nat, v: Value)
    requires Representable(v) && At(b, p, Encode(v))
    ensures ReadAny(b, p) == Ok(v, p + |Encode(v)|) <==> Readable(v) && Nulls(v) == 0
  {
    hide Encode, ReadAny, ReadProps, EncodeProps, At, Representable, Readable;
    AtInside(b, p, Encode(v));
    if Readable(v) && Nulls(v) == 0 {
      ReadableEncodes(v);
      ComesBack(b, p, v);
    } else if ReadAny(b, p) == Ok(v, p + |Encode(v)|) {
      WroteMarker(b, p, v);
      MarkerRead(b, p);
      if v == ObjectEnd {
        NeverAnEnd(b, p);
      }
      DecoderYields(b, p);
      if v.Object? || v.EcmaArray? {
        WroteHead(b, p, v);
        FineInside(v);
        LosesStep(b, p + HeadSize(v), v.props, p + |Encode(v)|);
      }
    }
  }
}
