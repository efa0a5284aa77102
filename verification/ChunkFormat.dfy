/** What the receiving side of the chunk layer makes of a byte string: one chunk,
    one message, or a whole stream of messages.  These functions are the
    specification of the methods in module Protocol. */
module ChunkFormat {
  import opened Bytes

  const EXTENDED_TIMESTAMP := 0xFFFFFF
  const DEFAULT_CHUNK_SIZE := 128
  const MIN_CHUNK_SIZE := 2

  const MSG_SET_CHUNK_SIZE := 1
  const MSG_WINDOW_ACK_SIZE := 5

  datatype Error =
    | SocketRead
    | SocketTimeout
    | SocketWrite
    | ChunkStart
    | InvalidSize
    | MessageDecode
    | ChunkSize
    | OutOfBoundsCopy  // where the program would copy outside the allocated payload

  datatype Header = Header(
    messageType: int,
    payloadLength: int,
    timestampDelta: int,
    streamId: int,
    timestamp: int)

  const NoHeader := Header(0, 0, 0, 0, 0)

  /** A message under reassembly: the length its payload was allocated with
      (0 while there is no payload yet) and the bytes copied so far. */
  datatype Partial = Partial(capacity: nat, bytes: seq<byte>)

  datatype Message = Message(header: Header, payload: seq<byte>)

  datatype ChunkState = ChunkState(
    header: Header,
    extended: bool,
    msg: Option<Partial>,
    msgCount: nat)

  const FreshChunk := ChunkState(NoHeader, false, None, 0)

  datatype Receiver = Receiver(streams: map<int, ChunkState>, chunkSize: int)

  const FreshReceiver := Receiver(map[], DEFAULT_CHUNK_SIZE)

  // ----- Basic header -----

  datatype Basic = Basic(fmt: int, cid: int, size: nat)

  function ReadBasic(b: seq<byte>): (r: Option<Basic>)
    ensures r.Some? ==> 0 <= r.value.fmt <= 3 && 1 <= r.value.size <= 3 && r.value.size <= |b|
  {
    if |b| < 1 then None
    else
      var fmt, low := b[0] / 64, b[0] % 64;
      if low > 1 then Some(Basic(fmt, low, 1))
      else if low == 0 then
        if |b| < 2 then None else Some(Basic(fmt, 64 + AsInt8(b[1]), 2))
      else
        if |b| < 3 then None else Some(Basic(fmt, 64 + AsInt8(b[1]) + AsInt8(b[2]) * 256, 3))
  }

  // ----- Message header -----

  function HeaderSize(fmt: int): nat {
    if fmt == 0 then 11 else if fmt == 1 then 7 else if fmt == 2 then 3 else 0
  }

  datatype HeaderOutcome =
    | HeaderStarved(cs: ChunkState)
    | HeaderFailed(error: Error, cs: ChunkState)
    | HeaderRead(cs: ChunkState, size: nat)

  /** The fields a header of the given format carries; the others are inherited. */
  function ParseFields(h: Header, fmt: int, b: seq<byte>): Header
    requires 0 <= fmt <= 2 && HeaderSize(fmt) <= |b|
  {
    var delta := U24At(b, 0);
    var time := if fmt == 0 then delta else AddInt32(h.timestamp, delta);
    var time' := if delta >= EXTENDED_TIMESTAMP then EXTENDED_TIMESTAMP else time;
    var h1 := h.(timestampDelta := delta, timestamp := time');
    var h2 := if fmt <= 1 then h1.(payloadLength := U24At(b, 3), messageType := AsInt8(b[6])) else h1;
    if fmt == 0 then h2.(streamId := LittleInt32At(b, 7)) else h2
  }

  /** Which bytes a header's fields are read from, and which are inherited instead. */
  lemma FieldBytes(h: Header, fmt: int, b: seq<byte>)
    requires 0 <= fmt <= 2 && HeaderSize(fmt) <= |b|
    ensures var p := ParseFields(h, fmt, b);
            && |b| >= 3 && p.timestampDelta == Weighted(0, b[0], b[1], b[2])
            && (if fmt == 2 then p.payloadLength == h.payloadLength && p.messageType == h.messageType
                else |b| >= 7 && p.payloadLength == Weighted(0, b[3], b[4], b[5]) && (p.messageType - b[6]) % 256 == 0)
            && (if fmt != 0 then p.streamId == h.streamId
                else |b| >= 11 && (p.streamId - Weighted(b[10], b[9], b[8], b[7])) % TWO_32 == 0)
            && p.timestamp == if p.timestampDelta >= 0xFFFFFF then 0xFFFFFF
                              else if fmt == 0 then p.timestampDelta else AddInt32(h.timestamp, p.timestampDelta)
  {
    hide FromBigEndian, FromLittleEndian;
    assert b[0..3] == [b[0], b[1], b[2]];
    FourBytes(0, b[0], b[1], b[2]);
    if fmt <= 1 {
      assert b[3..6] == [b[3], b[4], b[5]];
      FourBytes(0, b[3], b[4], b[5]);
    }
    if fmt == 0 {
      assert b[7..11] == [b[7], b[8], b[9], b[10]];
      FourBytesLittle(b[7], b[8], b[9], b[10]);
    }
  }

  function ApplyFormat(cs: ChunkState, fmt: int, begins: bool, b: seq<byte>): ChunkState
    requires 0 <= fmt <= 3 && HeaderSize(fmt) <= |b|
  {
    if fmt <= 2 then
      var h := ParseFields(cs.header, fmt, b);
      cs.(header := h, extended := h.timestampDelta >= EXTENDED_TIMESTAMP)
    else if begins && !cs.extended then
      cs.(header := cs.header.(timestamp := AddInt32(cs.header.timestamp, cs.header.timestampDelta)))
    else cs
  }

  function FinishHeader(cs: ChunkState, size: nat): HeaderOutcome {
    if cs.header.payloadLength < 0 then HeaderFailed(InvalidSize, cs)
    else HeaderRead(cs.(msgCount := cs.msgCount + 1), size)
  }

  /** `b` holds what follows the basic header. */
  function ReadHeader(cs: ChunkState, fmt: int, b: seq<byte>): (r: HeaderOutcome)
    requires 0 <= fmt <= 3
    ensures r.HeaderRead? ==> r.size <= |b| && r.cs.msg.Some? && r.cs.header.payloadLength >= 0
  {
    if cs.msgCount == 0 && fmt != 0 then HeaderFailed(ChunkStart, cs)
    else if cs.msg.Some? && fmt == 0 then HeaderFailed(ChunkStart, cs)
    else
      var begun := if cs.msg.None? then cs.(msg := Some(Partial(0, []))) else cs;
      var size := HeaderSize(fmt);
      if |b| < size then HeaderStarved(begun)
      else
        var cs1 := ApplyFormat(begun, fmt, cs.msg.None?, b);
        if !cs1.extended then FinishHeader(cs1, size)
        else if |b| < size + 4 then HeaderStarved(cs1)
        else FinishHeader(cs1.(header := cs1.header.(timestamp := Int32At(b, size))), size + 4)
  }

  /** A chunk stream begins with a full header, and a message under way is not begun again: nothing else in
      a header is refused, as lengths are never negative on the wire. */
  lemma RefusedStarts(cs: ChunkState, fmt: int, b: seq<byte>)
    requires 0 <= fmt <= 3 && cs.header.payloadLength >= 0
    ensures ReadHeader(cs, fmt, b).HeaderFailed? <==> (cs.msgCount == 0 && fmt != 0) || (cs.msg.Some? && fmt == 0)
    ensures ReadHeader(cs, fmt, b).HeaderFailed? ==> ReadHeader(cs, fmt, b) == HeaderFailed(ChunkStart, cs)
  {
    hide FromBigEndian;
  }

  // ----- Payload -----

  datatype StreamOutcome =
    | StreamStarved(cs: ChunkState)
    | StreamFailed(error: Error, cs: ChunkState)
    | StreamRead(cs: ChunkState, size: nat, message: Option<Message>)

  /** `b` holds what follows the message header. */
  function ReadPayload(cs: ChunkState, chunkSize: int, b: seq<byte>): (r: StreamOutcome)
    requires cs.msg.Some?
    ensures r.StreamRead? ==> r.size <= |b|
  {
    var h, part := cs.header, cs.msg.value;
    if h.payloadLength == 0 then
      StreamRead(cs.(msg := None), 0, Some(Message(h, part.bytes)))
    else
      var n := Min(h.payloadLength - |part.bytes|, chunkSize);
      var room := if part.capacity == 0 && h.payloadLength > 0 then h.payloadLength else part.capacity;
      var cs1 := cs.(msg := Some(Partial(room, part.bytes)));
      if |b| < n then StreamStarved(cs1)
      else if n < 0 || |part.bytes| + n > room then StreamFailed(OutOfBoundsCopy, cs1)
      else
        var bytes := part.bytes + b[..n];
        if |bytes| == h.payloadLength then StreamRead(cs.(msg := None), n, Some(Message(h, bytes)))
        else StreamRead(cs.(msg := Some(Partial(room, bytes))), n, None)
  }

  /** Header and payload of one chunk; `b` holds what follows the basic header. */
  function ReadStream(cs: ChunkState, fmt: int, chunkSize: int, b: seq<byte>): (r: StreamOutcome)
    requires 0 <= fmt <= 3
    ensures r.StreamRead? ==> r.size <= |b|
  {
    match ReadHeader(cs, fmt, b)
    case HeaderStarved(cs1) => StreamStarved(cs1)
    case HeaderFailed(e, cs1) => StreamFailed(e, cs1)
    case HeaderRead(cs1, mh) =>
      match ReadPayload(cs1, chunkSize, b[mh..])
      case StreamRead(cs2, n, m) => StreamRead(cs2, mh + n, m)
      case other => other
  }

  // ----- One chunk -----

  datatype ChunkOutcome =
    | ChunkStarved(r: Receiver)
    | ChunkFailed(error: Error, r: Receiver)
    | ChunkRead(r: Receiver, size: nat, message: Option<Message>)

  function StreamOf(r: Receiver, cid: int): ChunkState {
    if cid in r.streams then r.streams[cid] else FreshChunk
  }

  function Put(r: Receiver, cid: int, cs: ChunkState): Receiver {
    r.(streams := r.streams[cid := cs])
  }

  function ReadChunk(r: Receiver, b: seq<byte>): (o: ChunkOutcome)
    ensures o.ChunkRead? ==> 1 <= o.size <= |b| && o.r.chunkSize == r.chunkSize
  {
    match ReadBasic(b)
    case None => ChunkStarved(r)
    case Some(Basic(fmt, cid, bh)) =>
      match ReadStream(StreamOf(r, cid), fmt, r.chunkSize, b[bh..])
      case StreamStarved(cs) => ChunkStarved(Put(r, cid, cs))
      case StreamFailed(e, cs) => ChunkFailed(e, Put(r, cid, cs))
      case StreamRead(cs, n, m) => ChunkRead(Put(r, cid, cs), bh + n, m)
  }

  // ----- One message -----

  datatype HookOutcome = HookFailed(error: Error) | HookDone(chunkSize: int)

  /** What `on_recv_message` makes of a whole message. */
  function Hook(chunkSize: int, m: Message): HookOutcome {
    if m.header.messageType != MSG_SET_CHUNK_SIZE && m.header.messageType != MSG_WINDOW_ACK_SIZE then
      HookDone(chunkSize)
    else if |m.payload| < 4 then HookFailed(MessageDecode)
    else if m.header.messageType == MSG_WINDOW_ACK_SIZE then HookDone(chunkSize)
    else
      var size := Int32At(m.payload, 0);
      if size < MIN_CHUNK_SIZE then HookFailed(ChunkSize) else HookDone(size)
  }

  predicate IsEmpty(m: Message) {
    |m.payload| == 0 || m.header.payloadLength <= 0
  }

  datatype Received =
    | Starved(r: Receiver, rest: seq<byte>)
    | Failed(error: Error, r: Receiver, rest: seq<byte>)
    | Delivered(r: Receiver, rest: seq<byte>, message: Message)

  function Receive(r: Receiver, b: seq<byte>): (o: Received)
    ensures |o.rest| <= |b|
    ensures o.Delivered? ==> |o.rest| < |b|
    decreases |b|
  {
    match ReadChunk(r, b)
    case ChunkStarved(r') => Starved(r', b)
    case ChunkFailed(e, r') => Failed(e, r', b)
    case ChunkRead(r', n, message) =>
      if message.None? || IsEmpty(message.value) then Receive(r', b[n..])
      else
        match Hook(r'.chunkSize, message.value)
        case HookFailed(e) => Failed(e, r', b[n..])
        case HookDone(size) => Delivered(r'.(chunkSize := size), b[n..], message.value)
  }

  /** A receiver never works with a chunk size below two, whatever it is sent: smaller ones are refused, and
      so is an announcement too short to hold one. */
  lemma {:induction false} ChunkSizeStaysLegal(r: Receiver, b: seq<byte>)
    requires r.chunkSize >= 2
    ensures Receive(r, b).r.chunkSize >= 2
    ensures Receive(r, b).Delivered? ==>
              var m, r' := Receive(r, b).message, Receive(r, b).r;
              if m.header.messageType == 1 then |m.payload| >= 4 && r'.chunkSize == Int32At(m.payload, 0)
              else r'.chunkSize == r.chunkSize && (m.header.messageType == 5 ==> |m.payload| >= 4)
    decreases |b|
  {
    hide ReadStream, ReadBasic, IsEmpty, Int32At;
    var o := ReadChunk(r, b);
    if o.ChunkRead? && (o.message.None? || IsEmpty(o.message.value)) {
      ChunkSizeStaysLegal(o.r, b[o.size..]);
    }
  }

  /** What a call leaves unread is the end of the bytes it was given. */
  lemma {:induction false} ReceiveLeavesSuffix(r: Receiver, b: seq<byte>)
    ensures var rest := Receive(r, b).rest; rest == b[|b| - |rest|..]
    decreases |b|
  {
    hide ReadChunk, Hook, IsEmpty;
    var o := ReadChunk(r, b);
    if o.ChunkRead? && (o.message.None? || IsEmpty(o.message.value)) {
      ReceiveLeavesSuffix(o.r, b[o.size..]);
      assert Receive(r, b) == Receive(o.r, b[o.size..]);
    }
  }

  // ----- A whole stream -----

  /** The messages a receiver hands over until it needs more bytes or fails, and how it ends. */
  datatype Session = Session(messages: seq<Message>, end: Received)

  function ReceiveAll(r: Receiver, b: seq<byte>): (s: Session)
    ensures !s.end.Delivered?
    decreases |b|
  {
    match Receive(r, b)
    case Delivered(r', rest, m) =>
      var s := ReceiveAll(r', rest);
      Session([m] + s.messages, s.end)
    case other => Session([], other)
  }
}
