/** What the peer of the server finds in the packets it is sent: which value or number at which offset,
    under which message type and on which chunk stream. */
module PacketReading {
  import opened Bytes
  import opened Amf0
  import opened Amf0RoundTrip
  import opened Packets

  /** From p to q stands the value v: its marker, and the value itself for a reader that reads there,
      exactly if it is one that can be read. */
  ghost predicate Found(b: seq<byte>, p: nat, v: Value, q: nat) {
    && p < q <= |b| && b[p] == Marker(v)
    && (Representable(v) ==> (ReadAny(b, p) == Ok(v, q) <==> Readable(v) && Nulls(v) == 0))
  }

  ghost predicate FoundInt32(b: seq<byte>, p: nat, v: int) {
    p + 4 <= |b| && (IsInt32(v) ==> Int32At(b, p) == v)
  }

  /** What is found in each packet. */
  ghost predicate Carries(k: Packet, b: seq<byte>) {
    match k
    case ConnectAppRes(name, id, props, info) =>
      var p := 3 + |name|;
      var q := p + 9 + Size(Object(props));
      && Found(b, 0, String(name), p) && Found(b, p, Number(id), p + 9)
      && Found(b, p + 9, Object(props), q) && Found(b, q, Object(info), |b|)
    case CreateStreamRes(name, id, sid) =>
      var p := 3 + |name|;
      && Found(b, 0, String(name), p) && Found(b, p, Number(id), p + 9)
      && Found(b, p + 9, Null, p + 10) && Found(b, p + 10, Number(sid), |b|)
    case FMLEStartRes(name, id) =>
      var p := 3 + |name|;
      && Found(b, 0, String(name), p) && Found(b, p, Number(id), p + 9)
      && Found(b, p + 9, Null, p + 10) && Found(b, p + 10, Undefined, |b|)
    case PlayRes(name, id, desc) =>
      var p := 3 + |name|;
      && Found(b, 0, String(name), p) && Found(b, p, Number(id), p + 9)
      && Found(b, p + 9, Null, p + 10) && Found(b, p + 10, Object(desc), |b|)
    case OnBWDone(name, id) =>
      var p := 3 + |name|;
      && Found(b, 0, String(name), p) && Found(b, p, Number(id), p + 9)
      && Found(b, p + 9, Null, |b|)
    case OnStatusCall(name, id, status) =>
      var p := 3 + |name|;
      && Found(b, 0, String(name), p) && Found(b, p, Number(id), p + 9)
      && Found(b, p + 9, Null, p + 10) && Found(b, p + 10, Object(status), |b|)
    case OnStatusData(name, status) =>
      Found(b, 0, String(name), 3 + |name|) && Found(b, 3 + |name|, Object(status), |b|)
    case SampleAccess(name, video, audio) =>
      var p := 3 + |name|;
      && Found(b, 0, String(name), p)
      && Found(b, p, Boolean(video), p + 2) && Found(b, p + 2, Boolean(audio), |b|)
    case OnMetaData(name, metadata) =>
      Found(b, 0, String(name), 3 + |name|) && Found(b, 3 + |name|, Object(metadata), |b|)
    case SetWindowAckSize(window) => |b| == 4 && FoundInt32(b, 0, window)
    case SetChunkSize(size) => |b| == 4 && FoundInt32(b, 0, size)
    case SetPeerBandwidth(bandwidth, limit) => |b| == 5 && FoundInt32(b, 0, bandwidth) && (b[4] - limit) % 256 == 0
    case UserControl(event, data) => |b| == 6 && (U16At(b, 0) - event) % 0x10000 == 0 && FoundInt32(b, 2, data)
  }

  /** Commands go out as type 20, data as type 18, on the chunk streams for connection and stream; the
      control packets each have their type, and share chunk stream 2. */
  predicate GoesAs(k: Packet, messageType: int, cid: int) {
    match k
    case ConnectAppRes(_, _, _, _) => messageType == 20 && cid == 3
    case CreateStreamRes(_, _, _) => messageType == 20 && cid == 3
    case FMLEStartRes(_, _) => messageType == 20 && cid == 3
    case PlayRes(_, _, _) => messageType == 20 && cid == 5
    case OnBWDone(_, _) => messageType == 20 && cid == 3
    case OnStatusCall(_, _, _) => messageType == 20 && cid == 5
    case OnStatusData(_, _) => messageType == 18 && cid == 5
    case SampleAccess(_, _, _) => messageType == 18 && cid == 5
    case OnMetaData(_, _) => messageType == 18 && cid == 4
    case SetWindowAckSize(_) => messageType == 5 && cid == 2
    case SetChunkSize(_) => messageType == 1 && cid == 2
    case SetPeerBandwidth(_, _) => messageType == 6 && cid == 2
    case UserControl(_, _) => messageType == 4 && cid == 2
  }

  lemma PacketCarries(k: Packet)
    ensures Carries(k, PacketBytes(k)) && GoesAs(k, MessageType(k), PreferCid(k))
  {
    if IsControl(k) {
      ControlCarries(k);
    } else {
      FieldsCarry(k);
    }
  }

  lemma ControlCarries(k: Packet)
    requires IsControl(k)
    ensures Carries(k, PacketBytes(k))
  {
    hide BigEndian, FromBigEndian;
    var b := PacketBytes(k);
    match k
    case SetWindowAckSize(window) => NumberAt([], window, []);
    case SetChunkSize(size) => NumberAt([], size, []);
    case SetPeerBandwidth(bandwidth, limit) => NumberAt([], bandwidth, [limit % TWO_8]);
    case UserControl(event, data) =>
      var e := BigEndian(event % TWO_16, 2);
      NumberAt(e, data, []);
      assert e + BigEndian(data % TWO_32, 4) + [] == b && b[0..2] == e;
      Powers();
      BigEndianRoundTrip(event % TWO_16, 2);
  }

  lemma NumberAt(pre: seq<byte>, v: int, post: seq<byte>)
    ensures FoundInt32(pre + BigEndian(v % TWO_32, 4) + post, |pre|, v)
    ensures pre == [] ==> pre + BigEndian(v % TWO_32, 4) + post == BigEndian(v % TWO_32, 4) + post
    ensures post == [] ==> pre + BigEndian(v % TWO_32, 4) + post == pre + BigEndian(v % TWO_32, 4)
  {
    hide BigEndian, FromBigEndian;
    var b := pre + BigEndian(v % TWO_32, 4) + post;
    assert b[|pre|..|pre| + 4] == BigEndian(v % TWO_32, 4);
    if IsInt32(v) {
      Int32RoundTrip(v);
    }
  }

  // ----- Values one after another -----

  /** Where the i-th of some values begins. */
  function Offset(fields: seq<Value>, i: nat): nat
    requires i <= |fields|
  {
    if i == 0 then 0 else Offset(fields, i - 1) + Size(fields[i - 1])
  }

  lemma {:induction false} OffsetIs(fields: seq<Value>, i: nat)
    requires i <= |fields|
    ensures |EncodeAll(fields[..i])| == Offset(fields, i)
  {
    if i > 0 {
      OffsetIs(fields, i - 1);
      EncodeAllNext(fields, i - 1);
      SizeIsExact(fields[i - 1]);
    }
  }

  lemma {:induction false} PrefixEncoded(fields: seq<Value>, i: nat)
    requires i <= |fields|
    ensures EncodeAll(fields[..i]) <= EncodeAll(fields)
    decreases |fields| - i
  {
    if i < |fields| {
      PrefixEncoded(fields, i + 1);
      EncodeAllNext(fields, i);
    } else {
      assert fields[..i] == fields;
    }
  }

  /** Values written one after another are found one after another. */
  lemma FoundInTurn(fields: seq<Value>, i: nat)
    requires i < |fields|
    ensures Found(EncodeAll(fields), Offset(fields, i), fields[i], Offset(fields, i + 1))
    ensures Offset(fields, |fields|) == |EncodeAll(fields)|
  {
    hide Encode, EncodeAll, ReadAny, Size, Readable, Representable;
    var b, v := EncodeAll(fields), fields[i];
    OffsetIs(fields, i);
    OffsetIs(fields, i + 1);
    OffsetIs(fields, |fields|);
    assert fields[..|fields|] == fields;
    EncodeAllNext(fields, i);
    PrefixEncoded(fields, i + 1);
    var p := Offset(fields, i);
    SizeIsExact(v);
    SomeSize(v);
    assert b[..p + |Encode(v)|] == EncodeAll(fields[..i]) + Encode(v);
    assert b[p..p + |Encode(v)|] == Encode(v);
    WroteMarker(b, p, v);
    if Representable(v) {
      RoundTrip(b, p, v);
    }
  }

  lemma SomeSize(v: Value)
    ensures Size(v) > 0
  {}

  /** Two, three or four values. */
  lemma FewFound(f: seq<Value>)
    requires 2 <= |f| <= 4
    ensures var b := EncodeAll(f);
            var p, q := Size(f[0]), Size(f[0]) + Size(f[1]);
            && Found(b, 0, f[0], p) && Found(b, p, f[1], q)
            && if |f| == 2 then q == |b|
               else
                 var r := q + Size(f[2]);
                 Found(b, q, f[2], r) && if |f| == 3 then r == |b| else Found(b, r, f[3], |b|)
  {
    hide Size, EncodeAll, Found;
    FoundInTurn(f, 0);
    FoundInTurn(f, 1);
    if |f| > 2 {
      FoundInTurn(f, 2);
    }
    if |f| > 3 {
      FoundInTurn(f, 3);
    }
  }

  lemma FieldsCarry(k: Packet)
    requires !IsControl(k)
    ensures Carries(k, PacketBytes(k))
  {
    hide Found, EncodeAll, PropsSize, FoundInt32;
    FewFound(Fields(k));
  }
}
