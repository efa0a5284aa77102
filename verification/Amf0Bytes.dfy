/** Which bytes a decoded value stands for, whoever wrote them. */
module Amf0Bytes {
  import opened Bytes
  import opened Amf0
  import opened Amf0RoundTrip

  /** The bytes from p to q are those of v: its marker, and what follows the marker. Null and undefined are
      not stepped over, and an end of object has an empty name before it. */
  ghost predicate Denotes(b: seq<byte>, p: nat, v: Value, q: nat) {
    && p < |b| && q <= |b|
    && match v
       case Number(bits) => b[p] == 0 && q == p + 9 && b[p + 1..q] == BigEndian(bits, 8)
       case Boolean(flag) => b[p] == 1 && q == p + 2 && (flag <==> b[p + 1] != 0)
       case String(text) => b[p] == 2 && TextStands(b, p + 1, text, q)
       case Object(props) => b[p] == 3 && p < q && forall x :: x in props ==> PropertyStands(b, p + 1, x, q)
       case Null => b[p] == 5 && q == p
       case Undefined => b[p] == 6 && q == p
       case EcmaArray(count, props) =>
         && b[p] == 8 && p + 5 <= q && IsInt32(count) && b[p + 1..p + 5] == BigEndian(count % TWO_32, 4)
         && forall x :: x in props ==> PropertyStands(b, p + 5, x, q)
       case ObjectEnd => b[p] == 9 && q == p + 1 && p >= 2 && b[p - 2] == b[p - 1] == 0
  }

  /** A length of two bytes and as many bytes of text; a length that is negative counts as none. */
  ghost predicate TextStands(b: seq<byte>, p: nat, text: Text, q: nat) {
    && p + 2 <= |b| && q == p + 2 + |text| <= |b| && text == b[p + 2..q]
    && if text == [] then b[p] >= 0x80 || b[p] == b[p + 1] == 0 else b[p] < 0x80 && Length(b, p) == |text|
  }

  /** Somewhere from p on, before `end`, stands a property: its name, and a value decoded right after it. */
  ghost predicate PropertyStands(b: seq<byte>, p: nat, x: Property, end: nat) {
    exists i, j :: p <= i < j <= end && StandsAt(b, x, i, j)
  }

  ghost predicate StandsAt(b: seq<byte>, x: Property, i: nat, j: nat) {
    j <= |b| && TextStands(b, i, x.name, j) && ReadAny(b, j).Ok? && ReadAny(b, j).value == x.value
  }

  lemma TextRead(b: seq<byte>, p: nat)
    requires p <= |b| && ReadUtf8(b, p).Ok?
    ensures TextStands(b, p, ReadUtf8(b, p).value, ReadUtf8(b, p).pos)
  {
    hide ReadUtf8;
    TextBytes(b, p);
  }

  /** Every property of a decoded table was read from the bytes, or was there before. */
  lemma {:induction false} TableStands(b: seq<byte>, p: nat, acc: seq<Property>, x: Property)
    requires p <= |b| && DistinctKeys(acc) && ReadProps(b, p, acc).Ok? && x in ReadProps(b, p, acc).value && x !in acc
    ensures PropertyStands(b, p, x, ReadProps(b, p, acc).pos)
    decreases |b| - p
  {
    hide ReadUtf8, ReadAny, FromBigEndian, DistinctKeys, TextStands;
    if p < |b| {
      var Ok(name, p1) := ReadUtf8(b, p);
      var o := ReadAny(b, p1);
      if name != [] && !o.value.ObjectEnd? {
        var acc' := Put(acc, name, o.value);
        var end := ReadProps(b, o.pos, acc').pos;
        assert end == ReadProps(b, p, acc).pos;
        PutDistinct(acc, name, o.value);
        if x in acc' {
          PutMembers(acc, name, o.value, x);
          TextRead(b, p);
          assert p <= p < p1 <= end && StandsAt(b, x, p, p1);
        } else {
          TableStands(b, o.pos, acc', x);
          var i, j :| o.pos <= i < j <= end && StandsAt(b, x, i, j);
          assert p <= i < j <= end && StandsAt(b, x, i, j);
        }
      }
    }
  }

  lemma PutMembers(acc: seq<Property>, name: Text, value: Value, x: Property)
    requires DistinctKeys(acc) && x in Put(acc, name, value)
    ensures x == Property(name, value) || x in acc
  {
    hide Without;
    var r := Without(acc, name);
    if x in r {
      var i :| 0 <= i < |r| && r[i] == x;
      WithoutKey(acc, name, i);
    }
  }

  /** A decoded value is the one its bytes denote; any other marker is refused. */
  lemma DecodedDenotes(b: seq<byte>, p: nat)
    requires p <= |b|
    ensures ReadAny(b, p).Ok? ==> Denotes(b, p, ReadAny(b, p).value, ReadAny(b, p).pos)
    ensures p < |b| && (b[p] == 4 || b[p] == 7 || b[p] >= 10) ==> ReadAny(b, p) == InvalidMarker
  {
    if ReadAny(b, p).Ok? {
      var Ok(v, q) := ReadAny(b, p);
      MarkerRead(b, p);
      match v
      case Number(bits) => BigEndianOnto(b[p + 1..p + 9]);
      case String(text) => TextRead(b, p + 1);
      case ObjectEnd => EndStands(b, p);
      case Object(props) => PropsStand(b, p + 1);
      case EcmaArray(count, props) =>
        CountStands(b, p + 1);
        PropsStand(b, p + 5);
      case _ =>
    }
  }

  /** Scalars are decoded from whatever bytes denote them: any flag but zero is true, and bytes after the
      value do not matter. */
  lemma ScalarsAccepted(b: seq<byte>, p: nat, v: Value, q: nat)
    requires Denotes(b, p, v, q) && (v.Boolean? || v.String? || v.Null? || v.Undefined? || (v.Number? && v.bits < TWO_32 * TWO_32))
    ensures ReadAny(b, p) == Ok(v, q)
  {
    match v
    case Number(bits) =>
      Powers();
      BigEndianRoundTrip(bits, 8);
    case String(text) =>
      LengthBytes(b, p + 1);
    case _ =>
  }

  lemma PropsStand(b: seq<byte>, p: nat)
    requires p <= |b| && ReadProps(b, p, []).Ok?
    ensures forall x :: x in ReadProps(b, p, []).value ==> PropertyStands(b, p, x, ReadProps(b, p, []).pos)
  {
    hide ReadProps;
    forall x | x in ReadProps(b, p, []).value ensures PropertyStands(b, p, x, ReadProps(b, p, []).pos) {
      TableStands(b, p, [], x);
    }
  }

  lemma CountStands(b: seq<byte>, p: nat)
    requires p + 4 <= |b|
    ensures b[p..p + 4] == BigEndian(Int32At(b, p) % TWO_32, 4)
  {
    hide FromBigEndian, BigEndian;
    BigEndianOnto(b[p..p + 4]);
    FromBigEndianBounds(b[p..p + 4]);
  }

  lemma EndStands(b: seq<byte>, p: nat)
    requires p < |b| && ReadAny(b, p).Ok? && ReadAny(b, p).value.ObjectEnd?
    ensures b[p] == 9 && p >= 2 && b[p - 2] == b[p - 1] == 0
  {
    hide ReadProps, ReadUtf8;
    LengthBytes(b, p - 2);
  }
}
