/** The sending half of the chunk layer, as bytes on the wire: several chunk streams,
    each cutting its messages into chunks, interleaved in any order.  The main result
    is that a receiver fed those bytes rebuilds every message. */
module ChunkWire {
  import opened Bytes
  import opened ChunkFormat

  // ----- Message headers as a history of forms -----

  /** The four message header forms; each leaves out what it inherits. */
  datatype Form =
    | Full(timestamp: int, length: nat, messageType: int, streamId: int)
    | Delta(delta: int, length: nat, messageType: int)
    | DeltaOnly(delta: int)
    | Same

  /** The forms that began the messages of one chunk stream, oldest first. */
  type History = seq<Form>

  predicate Rooted(h: History) {
    |h| > 0 && h[0].Full?
  }

  function Last(h: History): Form
    requires |h| > 0
  {
    h[|h| - 1]
  }

  function Before(h: History): History
    requires |h| > 0
  {
    h[..|h| - 1]
  }

  /** The delta in force: a full header's timestamp counts as one. */
  function DeltaOf(h: History): int
    requires Rooted(h)
  {
    match Last(h)
    case Full(time, _, _, _) => time
    case Delta(d, _, _) => d
    case DeltaOnly(d) => d
    case Same => DeltaOf(Before(h))
  }

  /** The latest full timestamp plus the deltas in force of the messages begun since. */
  function TimeOf(h: History): int
    requires Rooted(h)
  {
    if Last(h).Full? then Last(h).timestamp else TimeOf(Before(h)) + DeltaOf(h)
  }

  function LengthOf(h: History): nat
    requires Rooted(h)
  {
    match Last(h)
    case Full(_, n, _, _) => n
    case Delta(_, n, _) => n
    case _ => LengthOf(Before(h))
  }

  function TypeOf(h: History): int
    requires Rooted(h)
  {
    match Last(h)
    case Full(_, _, t, _) => t
    case Delta(_, _, t) => t
    case _ => TypeOf(Before(h))
  }

  function StreamIdOf(h: History): int
    requires Rooted(h)
  {
    if Last(h).Full? then Last(h).streamId else StreamIdOf(Before(h))
  }

  predicate Extended(h: History)
    requires Rooted(h)
  {
    Last(h).Full? && Last(h).timestamp >= EXTENDED_TIMESTAMP
  }

  predicate Timed(h: History) {
    Rooted(h) && 0 <= TimeOf(h) < TWO_31
  }

  /** What a sender may put next on a chunk stream: fields that fit their widths,
      deltas without an extended field, and a timestamp that stays a positive int32. */
  predicate LegalForm(h: History, f: Form) {
    match f
    case Full(time, n, t, sid) => 0 <= time < TWO_31 && n < TWO_24 && IsInt8(t) && IsInt32(sid)
    case Delta(d, n, t) =>
      Rooted(h) && 0 <= d < EXTENDED_TIMESTAMP && n < TWO_24 && IsInt8(t) && TimeOf(h) + d < TWO_31
    case DeltaOnly(d) =>
      Rooted(h) && 0 <= d < EXTENDED_TIMESTAMP && TimeOf(h) + d < TWO_31
    case Same =>
      Rooted(h) && !Extended(h) && TimeOf(h) + DeltaOf(h) < TWO_31
  }

  /** Control messages the receiver acts on must be ones it can decode. */
  predicate LegalPayload(messageType: int, payload: seq<byte>) {
    && (messageType == MSG_SET_CHUNK_SIZE && payload != [] ==>
          |payload| >= 4 && Int32At(payload, 0) >= MIN_CHUNK_SIZE)
    && (messageType == MSG_WINDOW_ACK_SIZE && payload != [] ==> |payload| >= 4)
  }

  // ----- Interleaved chunk streams -----

  /** One chunk stream: its headers so far, its latest message and how much of it was sent. */
  datatype Lane = Lane(history: History, payload: seq<byte>, sent: nat)

  predicate Busy(lane: Lane) {
    lane.sent < |lane.payload|
  }

  datatype Mux = Mux(lanes: map<int, Lane>, size: int)

  const FreshMux := Mux(map[], DEFAULT_CHUNK_SIZE)

  datatype Action =
    | Begin(cid: int, form: Form, payload: seq<byte>)
    | Continue(cid: int)

  function HistoryOf(mux: Mux, cid: int): History {
    if cid in mux.lanes then mux.lanes[cid].history else []
  }

  predicate Enabled(mux: Mux, a: Action) {
    mux.size > 0 &&
    match a
    case Begin(cid, f, payload) =>
      var h := HistoryOf(mux, cid);
      && Usable(cid)
      && (cid in mux.lanes ==> !Busy(mux.lanes[cid]))
      && LegalForm(h, f)
      && Rooted(h + [f])
      && |payload| == LengthOf(h + [f])
      && LegalPayload(TypeOf(h + [f]), payload)
    case Continue(cid) =>
      Usable(cid) && cid in mux.lanes && Busy(mux.lanes[cid]) && Timed(mux.lanes[cid].history)
  }

  function LaneAfter(mux: Mux, a: Action): Lane
    requires Enabled(mux, a)
  {
    match a
    case Begin(cid, f, payload) =>
      Lane(HistoryOf(mux, cid) + [f], payload, Min(|payload|, mux.size))
    case Continue(cid) =>
      var lane := mux.lanes[cid];
      lane.(sent := lane.sent + Min(|lane.payload| - lane.sent, mux.size))
  }

  function Next(mux: Mux, a: Action): Mux
    requires Enabled(mux, a)
  {
    var lane := LaneAfter(mux, a);
    var announces := !Busy(lane) && TypeOf(lane.history) == MSG_SET_CHUNK_SIZE && |lane.payload| >= 4;
    Mux(mux.lanes[a.cid := lane], if announces then Int32At(lane.payload, 0) else mux.size)
  }

  /** A message as its sender means it. */
  datatype Delivery = Delivery(messageType: int, streamId: int, timestamp: int, payload: seq<byte>)

  function Carried(lane: Lane): Delivery
    requires Rooted(lane.history)
  {
    Delivery(TypeOf(lane.history), StreamIdOf(lane.history), TimeOf(lane.history), lane.payload)
  }

  /** The message an action completes; empty ones are not handed over. */
  function Completed(mux: Mux, a: Action): seq<Delivery>
    requires Enabled(mux, a)
  {
    var lane := LaneAfter(mux, a);
    if Busy(lane) || lane.payload == [] then [] else [Carried(lane)]
  }

  // ----- Bytes -----

  function Fmt(f: Form): int {
    match f
    case Full(_, _, _, _) => 0
    case Delta(_, _, _) => 1
    case DeltaOnly(_) => 2
    case Same => 3
  }

  /** The chunk stream ids that can be told to the receiver, which reads the bytes after the first as signed. */
  predicate Usable(cid: int) {
    cid >= 2 && (cid < 64 || ((cid - 64) % 256 < 128 && (cid - 64) / 256 < 128))
  }

  /** The basic header of one byte, of two or of three. */
  function BasicBytes(fmt: int, cid: int): (s: seq<byte>)
    requires 0 <= fmt <= 3 && Usable(cid)
    ensures 1 <= |s| <= 3
  {
    if cid < 64 then [fmt * 64 + cid]
    else if cid < 64 + 256 then [fmt * 64, cid - 64]
    else [fmt * 64 + 1, (cid - 64) % 256, (cid - 64) / 256]
  }

  /** The four extra timestamp bytes, when the header needs them. */
  function ExtraTime(time: int): (s: seq<byte>)
    requires 0 <= time < TWO_31
    ensures |s| == if time >= EXTENDED_TIMESTAMP then 4 else 0
  {
    if time >= EXTENDED_TIMESTAMP then BigEndian(time, 4) else []
  }

  function Byte8(t: int): byte {
    t % TWO_8
  }

  /** A type-0 header without its extended timestamp. */
  function FullBytes(f: Form): (s: seq<byte>)
    requires f.Full? && 0 <= f.timestamp < TWO_31
    ensures |s| == 11
  {
    BigEndian(if f.timestamp >= EXTENDED_TIMESTAMP then EXTENDED_TIMESTAMP else f.timestamp, 3)
    + BigEndian(f.length, 3) + [Byte8(f.messageType)] + LittleEndian(f.streamId % TWO_32, 4)
  }

  function FormBytes(h: History, f: Form): (s: seq<byte>)
    requires LegalForm(h, f)
  {
    match f
    case Full(time, n, t, sid) => FullBytes(f) + ExtraTime(time)
    case Delta(d, n, t) => BigEndian(d, 3) + BigEndian(n, 3) + [Byte8(t)]
    case DeltaOnly(d) => BigEndian(d, 3)
    case Same => []
  }

  function ContinueBytes(h: History): seq<byte>
    requires Timed(h)
  {
    if Extended(h) then BigEndian(TimeOf(h), 4) else []
  }

  function Emit(mux: Mux, a: Action): seq<byte>
    requires Enabled(mux, a)
  {
    match a
    case Begin(cid, f, payload) =>
      BasicBytes(Fmt(f), cid) + FormBytes(HistoryOf(mux, cid), f) + payload[..Min(|payload|, mux.size)]
    case Continue(cid) =>
      var lane := mux.lanes[cid];
      BasicBytes(3, cid) + ContinueBytes(lane.history)
      + lane.payload[lane.sent..lane.sent + Min(|lane.payload| - lane.sent, mux.size)]
  }

  // ----- Sender and receiver in step -----

  predicate HeaderAgrees(h: History, cs: ChunkState) {
    && Timed(h)
    && cs.header.messageType == TypeOf(h)
    && cs.header.payloadLength == LengthOf(h)
    && cs.header.streamId == StreamIdOf(h)
    && cs.header.timestamp == TimeOf(h)
    && cs.extended == Extended(h)
    && (!Extended(h) ==> cs.header.timestampDelta == DeltaOf(h) && 0 <= DeltaOf(h))
    && cs.msgCount > 0
  }

  /** The partial payload is exactly what was sent of the message, and less than all of it. */
  predicate InStep(lane: Lane, cs: ChunkState) {
    && HeaderAgrees(lane.history, cs)
    && |lane.payload| == LengthOf(lane.history)
    && LegalPayload(TypeOf(lane.history), lane.payload)
    && lane.sent <= |lane.payload|
    && (Busy(lane) ==> lane.sent > 0)
    && cs.msg == if Busy(lane) then Some(Partial(|lane.payload|, lane.payload[..lane.sent])) else None
  }

  predicate Sync(mux: Mux, r: Receiver) {
    && mux.size >= MIN_CHUNK_SIZE
    && r.chunkSize == mux.size
    && r.streams.Keys == mux.lanes.Keys
    && forall cid :: cid in mux.lanes ==> Usable(cid) && InStep(mux.lanes[cid], r.streams[cid])
  }

  // ----- Reading back one header -----

  lemma ReadU24(pre: seq<byte>, v: nat, post: seq<byte>)
    requires v < TWO_24
    ensures U24At(pre + BigEndian(v, 3) + post, |pre|) == v
  {
    var b := pre + BigEndian(v, 3) + post;
    assert b[|pre|..|pre| + 3] == BigEndian(v, 3);
    Powers();
    BigEndianRoundTrip(v, 3);
  }

  lemma ReadInt32(pre: seq<byte>, v: nat, post: seq<byte>)
    requires v < TWO_31
    ensures Int32At(pre + BigEndian(v, 4) + post, |pre|) == v
  {
    var b := pre + BigEndian(v, 4) + post;
    assert b[|pre|..|pre| + 4] == BigEndian(v, 4);
    Int32RoundTrip(v);
  }

  lemma FullFields(h: Header, f: Form, tail: seq<byte>)
    requires LegalForm([], f) && f.Full?
    ensures var p := ParseFields(h, 0, FullBytes(f) + tail);
            && p.messageType == f.messageType && p.payloadLength == f.length && p.streamId == f.streamId
            && if f.timestamp >= EXTENDED_TIMESTAMP then p.timestampDelta == EXTENDED_TIMESTAMP
               else p.timestampDelta == f.timestamp && p.timestamp == f.timestamp
  {
    hide FromBigEndian, BigEndian, LittleEndian;
    var time := if f.timestamp >= EXTENDED_TIMESTAMP then EXTENDED_TIMESTAMP else f.timestamp;
    var t3, n3, ty, s4 := BigEndian(time, 3), BigEndian(f.length, 3), [Byte8(f.messageType)], LittleEndian(f.streamId % TWO_32, 4);
    var b := FullBytes(f) + tail;
    assert b == [] + t3 + (n3 + ty + s4 + tail);
    ReadU24([], time, n3 + ty + s4 + tail);
    assert b == t3 + n3 + (ty + s4 + tail);
    ReadU24(t3, f.length, ty + s4 + tail);
    assert b[7..11] == s4;
    Int32RoundTrip(f.streamId);
  }

  lemma DeltaFields(h: Header, f: Form, tail: seq<byte>)
    requires f.Delta? && 0 <= f.delta < EXTENDED_TIMESTAMP && f.length < TWO_24 && IsInt8(f.messageType)
    requires 0 <= h.timestamp && h.timestamp + f.delta < TWO_31
    ensures ParseFields(h, 1, BigEndian(f.delta, 3) + BigEndian(f.length, 3) + [Byte8(f.messageType)] + tail)
         == Header(f.messageType, f.length, f.delta, h.streamId, h.timestamp + f.delta)
  {
    var t3, n3, ty := BigEndian(f.delta, 3), BigEndian(f.length, 3), [Byte8(f.messageType)];
    var b := t3 + n3 + ty + tail;
    assert b == [] + t3 + (n3 + ty + tail);
    ReadU24([], f.delta, n3 + ty + tail);
    assert b == t3 + n3 + (ty + tail);
    ReadU24(t3, f.length, ty + tail);
  }

  predicate Idle(h: History, cs: ChunkState) {
    if h == [] then cs == FreshChunk else HeaderAgrees(h, cs) && cs.msg.None?
  }

  /** The header part of a chunk that begins a message took `size` bytes and left the stream
      with an empty message under the history `h`. */
  predicate Began(o: HeaderOutcome, h: History, size: nat) {
    && o.HeaderRead? && o.size == size
    && HeaderAgrees(h, o.cs) && o.cs.msg == Some(Partial(0, []))
  }

  lemma BeginFull(h: History, cs: ChunkState, f: Form, tail: seq<byte>)
    requires Idle(h, cs) && LegalForm(h, f) && f.Full? && Rooted(h + [f])
    ensures Began(ReadHeader(cs, 0, FormBytes(h, f) + tail), h + [f], |FormBytes(h, f)|)
  {
    hide ParseFields, FullBytes, BigEndian;
    var rest := ExtraTime(f.timestamp) + tail;
    var b := FormBytes(h, f) + tail;
    assert b == FullBytes(f) + rest;
    FullFields(cs.header, f, rest);
    if f.timestamp >= EXTENDED_TIMESTAMP {
      assert b == FullBytes(f) + BigEndian(f.timestamp, 4) + tail;
      ReadInt32(FullBytes(f), f.timestamp, tail);
    }
  }

  lemma BeginDelta(h: History, cs: ChunkState, f: Form, tail: seq<byte>)
    requires Idle(h, cs) && LegalForm(h, f) && f.Delta? && Rooted(h + [f])
    ensures Began(ReadHeader(cs, 1, FormBytes(h, f) + tail), h + [f], |FormBytes(h, f)|)
  {
    assert Before(h + [f]) == h && Last(h + [f]) == f;
    DeltaFields(cs.header, f, tail);
  }

  lemma BeginDeltaOnly(h: History, cs: ChunkState, f: Form, tail: seq<byte>)
    requires Idle(h, cs) && LegalForm(h, f) && f.DeltaOnly? && Rooted(h + [f])
    ensures Began(ReadHeader(cs, 2, FormBytes(h, f) + tail), h + [f], |FormBytes(h, f)|)
  {
    assert Before(h + [f]) == h && Last(h + [f]) == f;
    assert FormBytes(h, f) + tail == [] + BigEndian(f.delta, 3) + tail;
    ReadU24([], f.delta, tail);
  }

  lemma BeginSame(h: History, cs: ChunkState, f: Form, tail: seq<byte>)
    requires Idle(h, cs) && LegalForm(h, f) && f.Same? && Rooted(h + [f])
    ensures Began(ReadHeader(cs, 3, FormBytes(h, f) + tail), h + [f], |FormBytes(h, f)|)
  {
    assert Before(h + [f]) == h && Last(h + [f]) == f;
    assert FormBytes(h, f) + tail == tail;
  }

  /** A message's first header, read by a stream that is between messages. */
  lemma BeginHeader(h: History, cs: ChunkState, f: Form, tail: seq<byte>)
    requires Idle(h, cs) && LegalForm(h, f) && Rooted(h + [f])
    ensures Began(ReadHeader(cs, Fmt(f), FormBytes(h, f) + tail), h + [f], |FormBytes(h, f)|)
  {
    match f
    case Full(_, _, _, _) => BeginFull(h, cs, f, tail);
    case Delta(_, _, _) => BeginDelta(h, cs, f, tail);
    case DeltaOnly(_) => BeginDeltaOnly(h, cs, f, tail);
    case Same => BeginSame(h, cs, f, tail);
  }

  /** A type-3 header in the middle of a message leaves the header alone. */
  lemma ContinueHeader(lane: Lane, cs: ChunkState, tail: seq<byte>)
    requires InStep(lane, cs) && Busy(lane)
    ensures ReadHeader(cs, 3, ContinueBytes(lane.history) + tail)
         == HeaderRead(cs.(msgCount := cs.msgCount + 1), |ContinueBytes(lane.history)|)
  {
    var h := lane.history;
    if Extended(h) {
      assert ContinueBytes(h) + tail == [] + BigEndian(TimeOf(h), 4) + tail;
      ReadInt32([], TimeOf(h), tail);
    } else {
      assert ContinueBytes(h) + tail == tail;
    }
  }

  // ----- One action -----

  /** What two bytes, or three, are read as: chunk stream 64 and what they count on, if they are below 128;
      and another one, if they are not. */
  lemma BasicIds(fmt: int, x: byte, y: byte, tail: seq<byte>)
    requires 0 <= fmt <= 3
    ensures ReadBasic([(fmt * 64) as byte, x] + tail) == Some(Basic(fmt, 64 + x, 2)) <==> x < 128
    ensures ReadBasic([(fmt * 64 + 1) as byte, x, y] + tail) == Some(Basic(fmt, 64 + x + 256 * y, 3)) <==> x < 128 && y < 128
  {
  }

  lemma ReadBasicBytes(fmt: int, cid: int, tail: seq<byte>)
    requires 0 <= fmt <= 3 && Usable(cid)
    ensures ReadBasic(BasicBytes(fmt, cid) + tail) == Some(Basic(fmt, cid, |BasicBytes(fmt, cid)|))
    ensures (BasicBytes(fmt, cid) + tail)[|BasicBytes(fmt, cid)|..] == tail
  {
    if cid >= 64 {
      BasicIds(fmt, (cid - 64) % 256, (cid - 64) / 256, tail);
    }
  }

  /** Reading the payload part of a chunk brings the receiver where the sender is. */
  lemma PayloadInStep(before: Lane, cs: ChunkState, size: int, rest: seq<byte>)
    requires HeaderAgrees(before.history, cs) && size > 0
    requires |before.payload| == LengthOf(before.history)
    requires before.sent < |before.payload| || (before.payload == [] && before.sent == 0)
    requires LegalPayload(TypeOf(before.history), before.payload)
    requires cs.msg == Some(Partial(if before.sent == 0 then 0 else |before.payload|, before.payload[..before.sent]))
    ensures var n := Min(|before.payload| - before.sent, size);
            var after := before.(sent := before.sent + n);
            var o := ReadPayload(cs, size, before.payload[before.sent..before.sent + n] + rest);
            && o.StreamRead? && o.size == n && InStep(after, o.cs)
            && (if Busy(after) then o.message == None
                else o.message == Some(Message(cs.header, before.payload)))
  {
    var n := Min(|before.payload| - before.sent, size);
    var piece := before.payload[before.sent..before.sent + n];
    assert (piece + rest)[..n] == piece;
    assert before.payload[..before.sent] + piece == before.payload[..before.sent + n];
    if before.sent + n == |before.payload| {
      assert before.payload[..before.sent + n] == before.payload;
    }
  }

  function AsDelivery(m: Message): Delivery {
    Delivery(m.header.messageType, m.header.streamId, m.header.timestamp, m.payload)
  }

  /** A chunk was read off the wire and its stream is where `lane` is; nothing else moved. */
  predicate ReadInStep(o: ChunkOutcome, r: Receiver, cid: int, size: nat, lane: Lane) {
    && o.ChunkRead? && o.size == size
    && o.r.chunkSize == r.chunkSize
    && cid in o.r.streams && o.r == Put(r, cid, o.r.streams[cid])
    && InStep(lane, o.r.streams[cid])
    && (o.message == None <==> Busy(lane))
    && (o.message != None ==>
          AsDelivery(o.message.value) == Carried(lane) && o.message.value.header.payloadLength == |lane.payload|)
  }

  /** Header and payload together, for either kind of chunk. */
  lemma ChunkOfParts(r: Receiver, fmt: int, cid: int, hb: seq<byte>, before: Lane, rest: seq<byte>)
    requires 0 <= fmt <= 3 && Usable(cid) && r.chunkSize > 0
    requires Rooted(before.history) && |before.payload| == LengthOf(before.history)
    requires before.sent < |before.payload| || (before.payload == [] && before.sent == 0)
    requires LegalPayload(TypeOf(before.history), before.payload)
    requires var n := Min(|before.payload| - before.sent, r.chunkSize);
             var o := ReadHeader(StreamOf(r, cid), fmt, hb + (before.payload[before.sent..before.sent + n] + rest));
             && o.HeaderRead? && o.size == |hb| && HeaderAgrees(before.history, o.cs)
             && o.cs.msg == Some(Partial(if before.sent == 0 then 0 else |before.payload|, before.payload[..before.sent]))
    ensures var n := Min(|before.payload| - before.sent, r.chunkSize);
            var b := BasicBytes(fmt, cid) + hb + before.payload[before.sent..before.sent + n];
            ReadInStep(ReadChunk(r, b + rest), r, cid, |b|, before.(sent := before.sent + n))
  {
    hide ReadHeader, ReadPayload, ReadBasic, LegalPayload, InStep;
    var n := Min(|before.payload| - before.sent, r.chunkSize);
    var piece := before.payload[before.sent..before.sent + n];
    var b := BasicBytes(fmt, cid) + hb + piece + rest;
    assert b == BasicBytes(fmt, cid) + (hb + (piece + rest));
    ReadBasicBytes(fmt, cid, hb + (piece + rest));
    var o := ReadHeader(StreamOf(r, cid), fmt, hb + (piece + rest));
    assert (hb + (piece + rest))[o.size..] == piece + rest;
    PayloadInStep(before, o.cs, r.chunkSize, rest);
  }

  /** One chunk, read off the front of the wire. */
  lemma ChunkInStep(mux: Mux, a: Action, r: Receiver, rest: seq<byte>)
    requires Sync(mux, r) && Enabled(mux, a)
    ensures ReadInStep(ReadChunk(r, Emit(mux, a) + rest), r, a.cid, |Emit(mux, a)|, LaneAfter(mux, a))
  {
    hide ReadChunk, ReadHeader, LegalForm, FormBytes, BasicBytes, LegalPayload, ReadInStep, TypeOf, LengthOf;
    var cid := a.cid;
    match a
    case Begin(_, f, payload) =>
      var h := HistoryOf(mux, cid);
      var before := Lane(h + [f], payload, 0);
      var piece := payload[..Min(|payload|, mux.size)];
      assert piece == payload[0..Min(|payload|, mux.size)];
      BeginHeader(h, StreamOf(r, cid), f, piece + rest);
      ChunkOfParts(r, Fmt(f), cid, FormBytes(h, f), before, rest);
    case Continue(_) =>
      var before := mux.lanes[cid];
      var n := Min(|before.payload| - before.sent, mux.size);
      ContinueHeader(before, StreamOf(r, cid), before.payload[before.sent..before.sent + n] + rest);
      ChunkOfParts(r, 3, cid, ContinueBytes(before.history), before, rest);
  }

  /** One action, seen by the loop that hands over messages: either it goes on with the rest of
      the wire, or it delivers the completed message. */
  lemma ActionInStep(mux: Mux, a: Action, r: Receiver, rest: seq<byte>) returns (r': Receiver)
    requires Sync(mux, r) && Enabled(mux, a)
    ensures Sync(Next(mux, a), r')
    ensures var o := Receive(r, Emit(mux, a) + rest);
            if Completed(mux, a) == [] then o == Receive(r', rest)
            else o.Delivered? && o.r == r' && o.rest == rest && [AsDelivery(o.message)] == Completed(mux, a)
  {
    hide ReadChunk, Emit, Enabled, LegalPayload;
    ChunkInStep(mux, a, r, rest);
    var b := Emit(mux, a) + rest;
    var o, lane := ReadChunk(r, b), LaneAfter(mux, a);
    assert b[o.size..] == rest;
    r' := o.r.(chunkSize := Next(mux, a).size);
    HookInStep(mux, a, o.r, lane);
    assert Sync(Next(mux, a), r') by {
      hide InStep;
      assert r'.streams == r.streams[a.cid := o.r.streams[a.cid]];
    }
  }

  /** The receiver takes up an announced chunk size exactly when the sender does. */
  lemma HookInStep(mux: Mux, a: Action, r: Receiver, lane: Lane)
    requires Enabled(mux, a) && mux.size >= MIN_CHUNK_SIZE && r.chunkSize == mux.size
    requires lane == LaneAfter(mux, a) && Rooted(lane.history) && LegalPayload(TypeOf(lane.history), lane.payload)
    ensures Usable(a.cid)
    ensures Next(mux, a).size >= MIN_CHUNK_SIZE
    ensures (Busy(lane) || lane.payload == []) ==> Next(mux, a).size == mux.size
    ensures !Busy(lane) && lane.payload != [] ==>
              forall m: Message | m.payload == lane.payload && m.header.messageType == TypeOf(lane.history) ::
                Hook(r.chunkSize, m) == HookDone(Next(mux, a).size)
  {
  }

  // ----- Whole runs -----

  predicate Legal(mux: Mux, run: seq<Action>)
    decreases |run|
  {
    run == [] || (Enabled(mux, run[0]) && Legal(Next(mux, run[0]), run[1..]))
  }

  function After(mux: Mux, run: seq<Action>): Mux
    requires Legal(mux, run)
    decreases |run|
  {
    if run == [] then mux else After(Next(mux, run[0]), run[1..])
  }

  function Wire(mux: Mux, run: seq<Action>): seq<byte>
    requires Legal(mux, run)
    decreases |run|
  {
    if run == [] then [] else Emit(mux, run[0]) + Wire(Next(mux, run[0]), run[1..])
  }

  function Completions(mux: Mux, run: seq<Action>): seq<Delivery>
    requires Legal(mux, run)
    decreases |run|
  {
    if run == [] then [] else Completed(mux, run[0]) + Completions(Next(mux, run[0]), run[1..])
  }

  function Deliveries(ms: seq<Message>): seq<Delivery> {
    if ms == [] then [] else [AsDelivery(ms[0])] + Deliveries(ms[1..])
  }

  lemma {:induction false} DeliveriesConcat(a: seq<Message>, b: seq<Message>)
    ensures Deliveries(a + b) == Deliveries(a) + Deliveries(b)
  {
    if a == [] {
      assert a + b == b;
    } else {
      assert (a + b)[1..] == a[1..] + b;
      DeliveriesConcat(a[1..], b);
    }
  }

  /** One action at the front of the wire adds what it completes to the session. */
  lemma ActionInSession(mux: Mux, a: Action, r: Receiver, rest: seq<byte>) returns (r': Receiver, ms: seq<Message>)
    requires Sync(mux, r) && Enabled(mux, a)
    ensures Sync(Next(mux, a), r')
    ensures Deliveries(ms) == Completed(mux, a)
    ensures ReceiveAll(r, Emit(mux, a) + rest)
         == Session(ms + ReceiveAll(r', rest).messages, ReceiveAll(r', rest).end)
  {
    hide Sync, Emit, Enabled, Completed, Receive, Next;
    r' := ActionInStep(mux, a, r, rest);
    if Completed(mux, a) == [] {
      ms := [];
    } else {
      ms := [Receive(r, Emit(mux, a) + rest).message];
    }
  }

  lemma NothingToRead(r: Receiver)
    ensures ReceiveAll(r, []) == Session([], Starved(r, []))
  {
  }

  /** Any interleaving of chunk streams: the receiver hands over every non-empty message whole,
      once and in completion order, with the type, stream id and timestamp its sender means, and
      ends in step with the sender, holding of each message exactly what was sent of it. */
  lemma {:induction false} InterleavingReassembled(mux: Mux, run: seq<Action>, r: Receiver) returns (r': Receiver)
    requires Sync(mux, r) && Legal(mux, run)
    ensures Sync(After(mux, run), r')
    ensures Deliveries(ReceiveAll(r, Wire(mux, run)).messages) == Completions(mux, run)
    ensures ReceiveAll(r, Wire(mux, run)).end == Starved(r', [])
    decreases |run|
  {
    hide Sync, Emit, Enabled, Completed, ReceiveAll, Next;
    if run == [] {
      r' := r;
      NothingToRead(r);
    } else {
      var a, mux' := run[0], Next(mux, run[0]);
      var rest := Wire(mux', run[1..]);
      var r1, ms := ActionInSession(mux, a, r, rest);
      r' := InterleavingReassembled(mux', run[1..], r1);
      DeliveriesConcat(ms, ReceiveAll(r1, rest).messages);
    }
  }

  /** In step, a stream has a partial payload exactly while its message is under way: the bytes sent so
      far and no others, at least one, and fewer than the header declares. It can then be continued. */
  lemma BusyLanesContinue(mux: Mux, r: Receiver, cid: int)
    requires Sync(mux, r) && cid in mux.lanes
    ensures Enabled(mux, Continue(cid)) <==> Busy(mux.lanes[cid])
    ensures Busy(mux.lanes[cid]) <==> r.streams[cid].msg.Some?
    ensures r.streams[cid].msg.Some? ==> var lane, bytes := mux.lanes[cid], r.streams[cid].msg.value.bytes;
              bytes == lane.payload[..lane.sent] && 0 < |bytes| < r.streams[cid].header.payloadLength == |lane.payload|
  {
  }
}
