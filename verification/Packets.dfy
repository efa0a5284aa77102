/** The packets the server sends: the size each announces, and the bytes it encodes itself into. */
module Packets {
  import opened Bytes
  import ChunkFormat
  import opened Amf0
  import opened Amf0Stream

  const MSG_USER_CONTROL := 4
  const MSG_SET_PEER_BANDWIDTH := 6
  const MSG_AMF0_DATA := 18
  const MSG_AMF0_COMMAND := 20

  const CID_PROTOCOL_CONTROL := 2
  const CID_OVER_CONNECTION := 3
  const CID_OVER_CONNECTION_2 := 4
  const CID_OVER_STREAM := 5

  datatype Packet =
    | ConnectAppRes(name: Text, transactionId: nat, connectProps: seq<Property>, info: seq<Property>)
    | CreateStreamRes(name: Text, transactionId: nat, streamId: nat)
    | FMLEStartRes(name: Text, transactionId: nat)
    | PlayRes(name: Text, transactionId: nat, desc: seq<Property>)
    | OnBWDone(name: Text, transactionId: nat)
    | OnStatusCall(name: Text, transactionId: nat, status: seq<Property>)
    | OnStatusData(name: Text, status: seq<Property>)
    | SampleAccess(name: Text, video: bool, audio: bool)
    | OnMetaData(name: Text, metadata: seq<Property>)
    | SetWindowAckSize(window: int)
    | SetChunkSize(chunkSize: int)
    | SetPeerBandwidth(bandwidth: int, limit: int)
    | UserControl(eventType: int, eventData: int)

  function PreferCid(k: Packet): int {
    match k
    case ConnectAppRes(_, _, _, _) => CID_OVER_CONNECTION
    case CreateStreamRes(_, _, _) => CID_OVER_CONNECTION
    case FMLEStartRes(_, _) => CID_OVER_CONNECTION
    case OnBWDone(_, _) => CID_OVER_CONNECTION
    case PlayRes(_, _, _) => CID_OVER_STREAM
    case OnStatusCall(_, _, _) => CID_OVER_STREAM
    case OnStatusData(_, _) => CID_OVER_STREAM
    case SampleAccess(_, _, _) => CID_OVER_STREAM
    case OnMetaData(_, _) => CID_OVER_CONNECTION_2
    case _ => CID_PROTOCOL_CONTROL
  }

  function MessageType(k: Packet): int {
    match k
    case OnStatusData(_, _) => MSG_AMF0_DATA
    case SampleAccess(_, _, _) => MSG_AMF0_DATA
    case OnMetaData(_, _) => MSG_AMF0_DATA
    case SetWindowAckSize(_) => ChunkFormat.MSG_WINDOW_ACK_SIZE
    case SetChunkSize(_) => ChunkFormat.MSG_SET_CHUNK_SIZE
    case SetPeerBandwidth(_, _) => MSG_SET_PEER_BANDWIDTH
    case UserControl(_, _) => MSG_USER_CONTROL
    case _ => MSG_AMF0_COMMAND
  }

  // ----- The size a packet announces -----

  const NumberSize := 1 + 8
  const NullSize := 1
  const UndefinedSize := 1
  const BooleanSize := 1 + 1

  function StringSize(text: Text): nat {
    1 + Utf8Size(text)
  }

  function ObjectSize(props: seq<Property>): nat {
    1 + PropsSize(props) + 3
  }

  function GetSize(k: Packet): nat {
    match k
    case ConnectAppRes(name, _, props, info) => StringSize(name) + NumberSize + ObjectSize(props) + ObjectSize(info)
    case CreateStreamRes(name, _, _) => StringSize(name) + NumberSize + NullSize + NumberSize
    case FMLEStartRes(name, _) => StringSize(name) + NumberSize + NullSize + UndefinedSize
    case PlayRes(name, _, desc) => StringSize(name) + NumberSize + NullSize + ObjectSize(desc)
    case OnBWDone(name, _) => StringSize(name) + NumberSize + NullSize
    case OnStatusCall(name, _, status) => StringSize(name) + NumberSize + NullSize + ObjectSize(status)
    case OnStatusData(name, status) => StringSize(name) + ObjectSize(status)
    case SampleAccess(name, _, _) => StringSize(name) + BooleanSize + BooleanSize
    case OnMetaData(name, metadata) => StringSize(name) + ObjectSize(metadata)
    case SetWindowAckSize(_) => 4
    case SetChunkSize(_) => 4
    case SetPeerBandwidth(_, _) => 5
    case UserControl(_, _) => 2 + 4
  }

  // ----- The bytes a packet writes -----

  predicate IsControl(k: Packet) {
    k.SetWindowAckSize? || k.SetChunkSize? || k.SetPeerBandwidth? || k.UserControl?
  }

  /** The integers of a control packet, big-endian and without markers. */
  function ControlBytes(k: Packet): seq<byte>
    requires IsControl(k)
  {
    match k
    case SetWindowAckSize(window) => BigEndian(window % TWO_32, 4)
    case SetChunkSize(size) => BigEndian(size % TWO_32, 4)
    case SetPeerBandwidth(bandwidth, limit) => BigEndian(bandwidth % TWO_32, 4) + [limit % TWO_8]
    case UserControl(event, data) => BigEndian(event % TWO_16, 2) + BigEndian(data % TWO_32, 4)
  }

  /** The values any other packet writes, in order. */
  function Fields(k: Packet): seq<Value>
    requires !IsControl(k)
  {
    match k
    case ConnectAppRes(name, id, props, info) => [String(name), Number(id), Object(props), Object(info)]
    case CreateStreamRes(name, id, sid) => [String(name), Number(id), Null, Number(sid)]
    case FMLEStartRes(name, id) => [String(name), Number(id), Null, Undefined]
    case PlayRes(name, id, desc) => [String(name), Number(id), Null, Object(desc)]
    case OnBWDone(name, id) => [String(name), Number(id), Null]
    case OnStatusCall(name, id, status) => [String(name), Number(id), Null, Object(status)]
    case OnStatusData(name, status) => [String(name), Object(status)]
    case SampleAccess(name, video, audio) => [String(name), Boolean(video), Boolean(audio)]
    case OnMetaData(name, metadata) => [String(name), Object(metadata)]
  }

  function EncodeAll(fields: seq<Value>): seq<byte> {
    if fields == [] then [] else EncodeAll(fields[..|fields| - 1]) + Encode(fields[|fields| - 1])
  }

  function PacketBytes(k: Packet): seq<byte> {
    if IsControl(k) then ControlBytes(k) else EncodeAll(Fields(k))
  }

  lemma EncodeAllNext(fields: seq<Value>, i: nat)
    requires i < |fields|
    ensures EncodeAll(fields[..i + 1]) == EncodeAll(fields[..i]) + Encode(fields[i])
  {
    hide Encode;
    assert fields[..i + 1][..i] == fields[..i];
  }

  function SizeOfAll(fields: seq<Value>): nat {
    if fields == [] then 0 else Size(fields[0]) + SizeOfAll(fields[1..])
  }

  lemma {:induction false} SizeOfAllIs(fields: seq<Value>, i: nat)
    requires i <= |fields|
    ensures |EncodeAll(fields)| == |EncodeAll(fields[..i])| + SizeOfAll(fields[i..])
    decreases |fields| - i
  {
    hide Encode, Size;
    if i < |fields| {
      EncodeAllNext(fields, i);
      SizeIsExact(fields[i]);
      SizeOfAllIs(fields, i + 1);
      assert fields[i..][1..] == fields[i + 1..];
    } else {
      assert fields[..i] == fields;
    }
  }

  /** The size every packet announces is the number of bytes it writes. */
  lemma GetSizeIsExact(k: Packet)
    ensures GetSize(k) == |PacketBytes(k)|
  {
    if !IsControl(k) {
      hide Encode, EncodeAll, SizeOfAll, Size, FieldSize, Fields, GetSize;
      var f := Fields(k);
      SizeOfAllIs(f, 0);
      NothingEncoded();
      assert f[..0] == [] && f[0..] == f;
      FieldSum(k);
      SizeOfFew(f);
    }
  }

  lemma FieldSum(k: Packet)
    requires !IsControl(k)
    ensures var f := Fields(k);
            2 <= |f| <= 4 &&
            GetSize(k) == FieldSize(f[0]) + FieldSize(f[1]) + (if |f| > 2 then FieldSize(f[2]) else 0)
                          + if |f| > 3 then FieldSize(f[3]) else 0
  {
    hide PropsSize, Size;
  }

  /** The size of a value, by the functions packets sum up. */
  function FieldSize(v: Value): nat {
    match v
    case Number(_) => NumberSize
    case Boolean(_) => BooleanSize
    case String(text) => StringSize(text)
    case Null => NullSize
    case Undefined => UndefinedSize
    case Object(props) => ObjectSize(props)
    case _ => Size(v)
  }

  lemma FieldSizeIsSize(v: Value)
    ensures FieldSize(v) == Size(v)
  {}

  lemma SizeOfFew(f: seq<Value>)
    requires 2 <= |f| <= 4
    ensures SizeOfAll(f) == FieldSize(f[0]) + FieldSize(f[1]) + (if |f| > 2 then FieldSize(f[2]) else 0)
                            + if |f| > 3 then FieldSize(f[3]) else 0
  {
    hide Size, FieldSize;
    forall i | 0 <= i < |f| ensures Size(f[i]) == FieldSize(f[i]) {
      FieldSizeIsSize(f[i]);
    }
    assert f[1..][1..] == f[2..];
    if |f| > 2 {
      assert f[2..][1..] == f[3..];
    }
    if |f| > 3 {
      assert f[3..][1..] == [];
    }
  }

  lemma NothingEncoded()
    ensures EncodeAll([]) == []
  {}

  // ----- Encoding -----

  method ObjectSizeOf(props: seq<Property>) returns (n: nat)
    ensures n == ObjectSize(props)
  {
    PropsSizeIsExact(props);
    n := PropertiesSize(props);
    n := 1 + n + 3;
  }

  /** The size calculation, which walks the packet's objects without writing anything. */
  method PacketSize(k: Packet) returns (n: nat)
    ensures n == GetSize(k)
  {
    match k
    case ConnectAppRes(name, _, props, info) =>
      var a := ObjectSizeOf(props);
      var b := ObjectSizeOf(info);
      n := StringSize(name) + NumberSize + a + b;
    case CreateStreamRes(name, _, _) => n := StringSize(name) + NumberSize + NullSize + NumberSize;
    case FMLEStartRes(name, _) => n := StringSize(name) + NumberSize + NullSize + UndefinedSize;
    case PlayRes(name, _, desc) =>
      var a := ObjectSizeOf(desc);
      n := StringSize(name) + NumberSize + NullSize + a;
    case OnBWDone(name, _) => n := StringSize(name) + NumberSize + NullSize;
    case OnStatusCall(name, _, status) =>
      var a := ObjectSizeOf(status);
      n := StringSize(name) + NumberSize + NullSize + a;
    case OnStatusData(name, status) =>
      var a := ObjectSizeOf(status);
      n := StringSize(name) + a;
    case SampleAccess(name, _, _) => n := StringSize(name) + BooleanSize + BooleanSize;
    case OnMetaData(name, metadata) =>
      var a := ObjectSizeOf(metadata);
      n := StringSize(name) + a;
    case SetWindowAckSize(_) => n := 4;
    case SetChunkSize(_) => n := 4;
    case SetPeerBandwidth(_, _) => n := 5;
    case UserControl(_, _) => n := 2 + 4;
  }

  /** Writes values one after another until one does not fit. */
  method WriteFields(stream: Stream, fields: seq<Value>) returns (ok: bool)
    requires stream.Valid()
    modifies stream`p, stream.data
    ensures stream.Valid() && (ok <==> Fits(old(stream.data[..]), old(stream.p), EncodeAll(fields)))
    ensures ok ==> stream.p == old(stream.p) + |EncodeAll(fields)|
                   && stream.data[..] == Overlaid(old(stream.data[..]), old(stream.p), EncodeAll(fields))
  {
    hide Encode, Overlaid, EncodeAll;
    ghost var d, p0 := stream.data[..], stream.p;
    NothingEncoded();
    NothingWritten(d, p0, []);
    var i := 0;
    assert fields[..0] == [];
    while i < |fields|
      invariant 0 <= i <= |fields| && stream.Valid()
      invariant Fits(d, p0, EncodeAll(fields[..i])) && stream.p == p0 + |EncodeAll(fields[..i])|
      invariant stream.data[..] == Overlaid(d, p0, EncodeAll(fields[..i]))
    {
      EncodeAllNext(fields, i);
      SizeOfAllIs(fields, i + 1);
      ok := WriteValue(stream, fields[i]);
      if !ok { return; }
      OverlaidTwice(d, p0, EncodeAll(fields[..i]), Encode(fields[i]));
      i := i + 1;
    }
    assert fields[..i] == fields;
    ok := true;
  }

  /** Two integers of a control packet, after one check that both fit. */
  method WriteControl(stream: Stream, x: seq<byte>, y: seq<byte>) returns (ok: bool)
    requires stream.Valid() && |x| > 0
    modifies stream`p, stream.data
    ensures stream.Valid() && (ok <==> Fits(old(stream.data[..]), old(stream.p), x + y))
    ensures ok ==> stream.p == old(stream.p) + |x + y|
                   && stream.data[..] == Overlaid(old(stream.data[..]), old(stream.p), x + y)
  {
    ok := stream.Require(|x| + |y|);
    if ok {
      stream.Write(x);
      stream.Write(y);
      assert stream.data[..] == stream.data[..stream.p] + stream.data[stream.p..];
    }
  }

  /** Writes a packet; it fails exactly if the packet does not fit. */
  method EncodePacket(stream: Stream, k: Packet) returns (ok: bool)
    requires stream.Valid()
    modifies stream`p, stream.data
    ensures stream.Valid() && (ok <==> Fits(old(stream.data[..]), old(stream.p), PacketBytes(k)))
    ensures ok ==> stream.p == old(stream.p) + |PacketBytes(k)|
                   && stream.data[..] == Overlaid(old(stream.data[..]), old(stream.p), PacketBytes(k))
  {
    hide Overlaid, EncodeAll, BigEndian;
    match k
    case SetWindowAckSize(window) =>
      assert BigEndian(window % TWO_32, 4) + [] == PacketBytes(k);
      ok := WriteControl(stream, BigEndian(window % TWO_32, 4), []);
    case SetChunkSize(size) =>
      assert BigEndian(size % TWO_32, 4) + [] == PacketBytes(k);
      ok := WriteControl(stream, BigEndian(size % TWO_32, 4), []);
    case SetPeerBandwidth(bandwidth, limit) =>
      ok := WriteControl(stream, BigEndian(bandwidth % TWO_32, 4), [limit % TWO_8]);
    case UserControl(event, data) =>
      ok := WriteControl(stream, BigEndian(event % TWO_16, 2), BigEndian(data % TWO_32, 4));
    case _ => ok := WriteFields(stream, Fields(k));
  }

  /** A packet encoded into a buffer of the size it announces: every write fits, and the buffer is full
      when the last one is done. */
  method EncodePayload(k: Packet) returns (ok: bool, payload: seq<byte>)
    ensures ok && payload == PacketBytes(k)
  {
    hide Overlaid, PacketBytes;
    GetSizeIsExact(k);
    var size := PacketSize(k);
    var buffer := new byte[size];
    var stream := new Stream(buffer);
    WholeBuffer(buffer[..], PacketBytes(k));
    ok := EncodePacket(stream, k);
    payload := buffer[..];
  }

  lemma WholeBuffer(d: seq<byte>, x: seq<byte>)
    requires |d| == |x|
    ensures Overlaid(d, 0, x) == x && (x != [] ==> Fits(d, 0, x))
  {
  }

  // ----- Reading the control packets -----

  /** The chunk size a peer decodes is the one announced. */
  lemma ChunkSizeReadBack(size: int)
    requires IsInt32(size)
    ensures |PacketBytes(SetChunkSize(size))| == 4 && Int32At(PacketBytes(SetChunkSize(size)), 0) == size
  {
    var b := PacketBytes(SetChunkSize(size));
    Int32RoundTrip(size);
    assert b[0..4] == b;
  }
}
