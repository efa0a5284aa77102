/** `send_message` as the bytes it puts on the wire, and the round trip: a receiver fed the
    bytes of any list of messages hands the non-empty ones back. */
module ChunkSend {
  import opened Bytes
  import opened ChunkFormat
  import opened ChunkWire
  import opened Packets

  /** A message to send: either raw bytes, or a packet that is encoded when it is sent. */
  datatype Outgoing = Outgoing(
    cid: int,
    timestamp: int,
    length: int,
    messageType: int,
    streamId: int,
    payload: seq<byte>,
    packet: Option<Packet>)

  /** The message that carries a packet: its header is the packet's, its payload still to be encoded. */
  function OfPacket(k: Packet, timestamp: int, streamId: int): Outgoing {
    Outgoing(PreferCid(k), timestamp, GetSize(k), MessageType(k), streamId, [], Some(k))
  }

  /** A message as it goes out. */
  function Encoded(m: Outgoing): Outgoing {
    if m.packet.Some? then m.(payload := PacketBytes(m.packet.value)) else m
  }

  function ShortTime(time: int): (s: seq<byte>)
    ensures |s| == 3
  {
    if time >= EXTENDED_TIMESTAMP then BigEndian(EXTENDED_TIMESTAMP, 3) else BigEndian(time % TWO_24, 3)
  }

  function LongTime(time: int): seq<byte> {
    if time >= EXTENDED_TIMESTAMP then BigEndian(time % TWO_32, 4) else []
  }

  function FirstHeader(m: Outgoing): seq<byte> {
    [m.cid % 64 as byte] + ShortTime(m.timestamp) + BigEndian(m.length % TWO_24, 3) + [Byte8(m.messageType)]
    + LittleEndian(m.streamId % TWO_32, 4) + LongTime(m.timestamp)
  }

  function NextHeader(m: Outgoing): seq<byte> {
    [192 + m.cid % 64 as byte] + LongTime(m.timestamp)
  }

  /** The first header byte by byte: chunk stream, timestamp, length and type big-endian, stream id
      little-endian, and the timestamp once more if it does not fit three bytes. */
  lemma FirstHeaderBytes(m: Outgoing)
    ensures var b := FirstHeader(m);
            var time := if m.timestamp >= 0xFFFFFF then 0xFFFFFF else m.timestamp % TWO_24;
            var length, id := m.length % TWO_24, m.streamId % TWO_32;
            && |b| == (if m.timestamp >= 0xFFFFFF then 16 else 12) && b[0] == m.cid % 64
            && b[1] == time / 65536 && b[2] == time / 256 % 256 && b[3] == time % 256
            && b[4] == length / 65536 && b[5] == length / 256 % 256 && b[6] == length % 256
            && b[7] == m.messageType % 256
            && b[8] == id % 256 && b[9] == id / 256 % 256 && b[10] == id / 65536 % 256 && b[11] == id / 16777216
            && b[12..] == NextHeader(m)[1..]
  {
    hide BigEndian, LittleEndian;
    var time := if m.timestamp >= 0xFFFFFF then 0xFFFFFF else m.timestamp % TWO_24;
    ThreeBytesAre(time);
    ThreeBytesAre(m.length % TWO_24);
    StreamIdBytes(m.streamId % TWO_32);
    var b := FirstHeader(m);
    assert b[1..4] == BigEndian(time, 3) && b[4..7] == BigEndian(m.length % TWO_24, 3);
    assert b[8..12] == LittleEndian(m.streamId % TWO_32, 4) && b[12..] == LongTime(m.timestamp);
  }

  /** The other headers: type 3 and the chunk stream, and the timestamp under the same condition. */
  lemma NextHeaderBytes(m: Outgoing)
    ensures var b := NextHeader(m);
            && |b| == (if m.timestamp >= 0xFFFFFF then 5 else 1) && b[0] == 3 * 64 + m.cid % 64
            && (m.timestamp >= 0xFFFFFF ==> var time := m.timestamp % TWO_32;
                  b[1] == time / 16777216 && b[2] == time / 65536 % 256 && b[3] == time / 256 % 256 && b[4] == time % 256)
  {
    hide BigEndian;
    if m.timestamp >= 0xFFFFFF {
      FourBytesAre(m.timestamp % TWO_32);
    }
  }

  lemma ThreeBytesAre(v: nat)
    requires v < TWO_24
    ensures BigEndian(v, 3) == [v / 65536, v / 256 % 256, v % 256]
  {
    hide BigEndian;
    Powers();
    BigEndianAt(v, 3, 0);
    BigEndianAt(v, 3, 1);
    BigEndianAt(v, 3, 2);
  }

  lemma FourBytesAre(v: nat)
    requires v < TWO_32
    ensures BigEndian(v, 4) == [v / 16777216, v / 65536 % 256, v / 256 % 256, v % 256]
  {
    hide BigEndian;
    Powers();
    BigEndianAt(v, 4, 0);
    BigEndianAt(v, 4, 1);
    BigEndianAt(v, 4, 2);
    BigEndianAt(v, 4, 3);
  }

  lemma StreamIdBytes(v: nat)
    requires v < TWO_32
    ensures LittleEndian(v, 4) == [v % 256, v / 256 % 256, v / 65536 % 256, v / 16777216]
  {
    hide LittleEndian;
    Powers();
    LittleEndianAt(v, 4, 0);
    LittleEndianAt(v, 4, 1);
    LittleEndianAt(v, 4, 2);
    LittleEndianAt(v, 4, 3);
  }

  /** The type-3 chunks that carry the payload from `sent` on. */
  function SendFrom(m: Outgoing, sent: nat, size: int): seq<byte>
    requires size > 0 && sent <= |m.payload|
    decreases |m.payload| - sent
  {
    if sent == |m.payload| then []
    else
      var n := Min(|m.payload| - sent, size);
      NextHeader(m) + m.payload[sent..sent + n] + SendFrom(m, sent + n, size)
  }

  function SendBytes(m: Outgoing, size: int): seq<byte>
    requires size > 0
  {
    var n := Min(|m.payload|, size);
    FirstHeader(m) + m.payload[..n] + SendFrom(m, n, size)
  }

  function SizeAfterSend(m: Outgoing, size: int): int {
    if m.messageType == MSG_SET_CHUNK_SIZE && m.packet.Some? && m.packet.value.SetChunkSize? then m.packet.value.chunkSize
    else size
  }

  /** The messages the round trip is promised for: packets, whatever they carry, and raw messages whose
      length field is the size of their payload. */
  predicate Sendable(m: Outgoing) {
    && 0 <= m.timestamp < TWO_31 && IsInt32(m.streamId) && m.length < TWO_24
    && match m.packet
       case Some(k) =>
         && m == Encoded(OfPacket(k, m.timestamp, m.streamId))
         && (k.SetChunkSize? ==> IsInt32(k.chunkSize) && k.chunkSize >= MIN_CHUNK_SIZE)
       case None =>
         && 2 <= m.cid <= 63 && m.length == |m.payload| && IsInt8(m.messageType) && m.messageType != MSG_SET_CHUNK_SIZE
         && (m.messageType == MSG_WINDOW_ACK_SIZE && m.payload != [] ==> |m.payload| >= 4)
  }

  /** A packet's length field is right because the size it announces is exact, and a receiver can decode
      the control packets. */
  lemma SendableFacts(m: Outgoing)
    requires Sendable(m)
    ensures 2 <= m.cid <= 63 && m.length == |m.payload| < TWO_24 && IsInt8(m.messageType)
    ensures LegalPayload(m.messageType, m.payload)
    ensures m.messageType == MSG_SET_CHUNK_SIZE ==>
              m.packet.Some? && m.packet.value.SetChunkSize? && Int32At(m.payload, 0) == m.packet.value.chunkSize
  {
    if m.packet.Some? {
      hide PacketBytes, GetSize;
      GetSizeIsExact(m.packet.value);
      match m.packet.value
      case SetChunkSize(size) => ChunkSizeReadBack(size);
      case SetWindowAckSize(window) => WindowSize(window);
      case _ =>
    }
  }

  lemma WindowSize(window: int)
    ensures |PacketBytes(SetWindowAckSize(window))| == 4
  {}

  function FormOf(m: Outgoing): Form
    requires m.length >= 0
  {
    Full(m.timestamp, m.length, m.messageType, m.streamId)
  }

  // ----- Sending is a run of chunks -----

  lemma {:induction false} ConcatRuns(mux: Mux, a: seq<Action>, b: seq<Action>)
    requires Legal(mux, a) && Legal(After(mux, a), b)
    ensures Legal(mux, a + b)
    ensures After(mux, a + b) == After(After(mux, a), b)
    ensures Wire(mux, a + b) == Wire(mux, a) + Wire(After(mux, a), b)
    ensures Completions(mux, a + b) == Completions(mux, a) + Completions(After(mux, a), b)
    decreases |a|
  {
    hide Enabled, Next, Emit, Completed;
    if a == [] {
      assert a + b == b;
    } else {
      assert (a + b)[0] == a[0] && (a + b)[1..] == a[1..] + b;
      ConcatRuns(Next(mux, a[0]), a[1..], b);
    }
  }

  lemma OneAction(mux: Mux, a: Action)
    requires Enabled(mux, a)
    ensures Legal(mux, [a])
    ensures After(mux, [a]) == Next(mux, a)
    ensures Wire(mux, [a]) == Emit(mux, a)
    ensures Completions(mux, [a]) == Completed(mux, a)
  {
    hide Enabled, Next, Emit, Completed;
    var run := [a];
    assert run[0] == a && run[1..] == [];
    assert Wire(mux, run) == Emit(mux, a) + Wire(Next(mux, a), []);
    assert Completions(mux, run) == Completed(mux, a) + Completions(Next(mux, a), []);
  }

  /** The lane of message `m` once `sent` bytes of it are out. */
  function LaneOf(h: History, m: Outgoing, sent: nat): Lane
    requires m.length >= 0
  {
    Lane(h + [FormOf(m)], m.payload, sent)
  }

  /** What one message leaves of the sender: its lane finished and its chunk size in force. */
  function Sent(mux: Mux, m: Outgoing): Mux
    requires m.length >= 0
  {
    Mux(mux.lanes[m.cid := LaneOf(HistoryOf(mux, m.cid), m, |m.payload|)], SizeAfterSend(m, mux.size))
  }

  function Expected(m: Outgoing): seq<Delivery> {
    if m.payload == [] then [] else [Delivery(m.messageType, m.streamId, m.timestamp, m.payload)]
  }

  lemma FullHistory(h: History, m: Outgoing)
    requires Sendable(m) && (h == [] || Rooted(h))
    ensures var h' := h + [FormOf(m)];
            && Timed(h') && TimeOf(h') == m.timestamp && LengthOf(h') == m.length && TypeOf(h') == m.messageType
            && StreamIdOf(h') == m.streamId && Extended(h') == (m.timestamp >= EXTENDED_TIMESTAMP)
    ensures LegalForm(h, FormOf(m))
    ensures LegalPayload(m.messageType, m.payload)
    ensures m.messageType == MSG_SET_CHUNK_SIZE ==> Int32At(m.payload, 0) == SizeAfterSend(m, 0)
  {
    SendableFacts(m);
    hide Sendable, LegalPayload;
  }

  /** An action that brings the lane of `m` to `sent` bytes. */
  lemma ActionOf(mux: Mux, a: Action, h: History, m: Outgoing, sent: nat)
    requires Sendable(m) && (h == [] || Rooted(h)) && Enabled(mux, a) && a.cid == m.cid && sent <= |m.payload|
    requires LaneAfter(mux, a) == LaneOf(h, m, sent)
    ensures Next(mux, a).lanes == mux.lanes[m.cid := LaneOf(h, m, sent)]
    ensures Next(mux, a).size == if sent < |m.payload| then mux.size else SizeAfterSend(m, mux.size)
    ensures Completed(mux, a) == if sent < |m.payload| then [] else Expected(m)
  {
    FullHistory(h, m);
  }

  lemma MoreBytes(mux: Mux, h: History, m: Outgoing, sent: nat)
    requires Sendable(m) && mux.size > 0 && (h == [] || Rooted(h))
    requires sent < |m.payload| && m.cid in mux.lanes && mux.lanes[m.cid] == LaneOf(h, m, sent)
    ensures var a, n := Continue(m.cid), Min(|m.payload| - sent, mux.size);
            && Enabled(mux, a) && LaneAfter(mux, a) == LaneOf(h, m, sent + n)
            && Emit(mux, a) == NextHeader(m) + m.payload[sent..sent + n]
  {
    hide BigEndian, LegalPayload, LegalForm, Sendable, Usable, BasicBytes;
    SendableFacts(m);
    ShortId(3, m.cid);
    FullHistory(h, m);
  }

  lemma ShortId(fmt: int, cid: int)
    requires 0 <= fmt <= 3 && 2 <= cid <= 63
    ensures Usable(cid) && BasicBytes(fmt, cid) == [fmt * 64 + cid] && cid % 64 == cid
  {}

  lemma {:induction false} TailIsRun(mux: Mux, h: History, m: Outgoing, sent: nat) returns (run: seq<Action>)
    requires Sendable(m) && mux.size > 0 && (h == [] || Rooted(h))
    requires sent < |m.payload| && m.cid in mux.lanes && mux.lanes[m.cid] == LaneOf(h, m, sent)
    ensures Legal(mux, run)
    ensures Wire(mux, run) == SendFrom(m, sent, mux.size)
    ensures Completions(mux, run) == Expected(m)
    ensures After(mux, run) == Mux(mux.lanes[m.cid := LaneOf(h, m, |m.payload|)], SizeAfterSend(m, mux.size))
    decreases |m.payload| - sent
  {
    hide Legal, Completions, Wire, After, Completed, Next, Sendable, Enabled, Emit, LaneAfter, NextHeader;
    var a, n := Continue(m.cid), Min(|m.payload| - sent, mux.size);
    MoreBytes(mux, h, m, sent);
    ActionOf(mux, a, h, m, sent + n);
    OneAction(mux, a);
    var mux' := Next(mux, a);
    if sent + n == |m.payload| {
      run := [a];
      assert SendFrom(m, sent + n, mux.size) == [];
    } else {
      var more := TailIsRun(mux', h, m, sent + n);
      ConcatRuns(mux, [a], more);
      run := [a] + more;
      assert mux'.lanes[m.cid := LaneOf(h, m, |m.payload|)] == mux.lanes[m.cid := LaneOf(h, m, |m.payload|)];
    }
  }

  predicate Quiet(mux: Mux) {
    && mux.size > 0
    && forall cid :: cid in mux.lanes ==> !Busy(mux.lanes[cid]) && Rooted(mux.lanes[cid].history)
  }

  lemma BeginBytes(mux: Mux, m: Outgoing)
    requires Sendable(m) && Quiet(mux)
    ensures var a := Begin(m.cid, FormOf(m), m.payload);
            Enabled(mux, a) && Emit(mux, a) == FirstHeader(m) + m.payload[..Min(|m.payload|, mux.size)]
  {
    hide BigEndian, LittleEndian, LegalPayload, Sendable, Usable, BasicBytes;
    SendableFacts(m);
    ShortId(0, m.cid);
    FullHistory(HistoryOf(mux, m.cid), m);
    assert LongTime(m.timestamp) == ExtraTime(m.timestamp);
    assert FirstHeader(m) == BasicBytes(0, m.cid) + FormBytes(HistoryOf(mux, m.cid), FormOf(m));
  }

  /** Sending one message is a legal run of its chunk stream. */
  lemma SendIsRun(mux: Mux, m: Outgoing) returns (run: seq<Action>)
    requires Sendable(m) && Quiet(mux)
    ensures Legal(mux, run) && After(mux, run) == Sent(mux, m)
    ensures Wire(mux, run) == SendBytes(m, mux.size)
    ensures Completions(mux, run) == Expected(m)
  {
    hide Legal, Completions, Wire, After, Completed, Next, LegalForm, LegalPayload, FirstHeader, Enabled, Emit;
    var h := HistoryOf(mux, m.cid);
    var a, n := Begin(m.cid, FormOf(m), m.payload), Min(|m.payload|, mux.size);
    BeginBytes(mux, m);
    ActionOf(mux, a, h, m, n);
    OneAction(mux, a);
    var mux' := Next(mux, a);
    if n == |m.payload| {
      run := [a];
      assert SendFrom(m, n, mux.size) == [];
    } else {
      var more := TailIsRun(mux', h, m, n);
      ConcatRuns(mux, [a], more);
      run := [a] + more;
      assert mux'.lanes[m.cid := LaneOf(h, m, |m.payload|)] == mux.lanes[m.cid := LaneOf(h, m, |m.payload|)];
    }
  }

  // ----- Any list of messages -----

  function SendAll(ms: seq<Outgoing>, size: int): seq<byte>
    requires size > 0 && forall m :: m in ms ==> Sendable(m)
    decreases |ms|
  {
    if ms == [] then []
    else
      assert Sendable(ms[0]);
      SendBytes(ms[0], size) + SendAll(ms[1..], SizeAfterSend(ms[0], size))
  }

  function SizeAfterAll(ms: seq<Outgoing>, size: int): int
    decreases |ms|
  {
    if ms == [] then size else SizeAfterAll(ms[1..], SizeAfterSend(ms[0], size))
  }

  function ExpectedAll(ms: seq<Outgoing>): seq<Delivery> {
    if ms == [] then [] else Expected(ms[0]) + ExpectedAll(ms[1..])
  }

  lemma SentQuiet(mux: Mux, m: Outgoing)
    requires Sendable(m) && Quiet(mux)
    ensures m.length >= 0 && Quiet(Sent(mux, m)) && Sent(mux, m).size == SizeAfterSend(m, mux.size)
  {
    SendableFacts(m);
    FullHistory(HistoryOf(mux, m.cid), m);
  }

  lemma {:induction false} SendAllIsRun(mux: Mux, ms: seq<Outgoing>) returns (run: seq<Action>)
    requires Quiet(mux) && forall m :: m in ms ==> Sendable(m)
    ensures Legal(mux, run) && Quiet(After(mux, run)) && After(mux, run).size == SizeAfterAll(ms, mux.size)
    ensures Wire(mux, run) == SendAll(ms, mux.size)
    ensures Completions(mux, run) == ExpectedAll(ms)
    decreases |ms|
  {
    if ms == [] {
      run := [];
    } else {
      hide Legal, Completions, Wire, After, SendBytes, Sendable, Quiet, Sent;
      var first := SendIsRun(mux, ms[0]);
      SentQuiet(mux, ms[0]);
      var more := SendAllIsRun(Sent(mux, ms[0]), ms[1..]);
      ConcatRuns(mux, first, more);
      run := first + more;
    }
  }

  /** The round trip: whatever list of messages is sent, chunk size changes included, a fresh
      receiver fed those bytes hands back the non-empty ones in order, is left between messages
      with nothing unread, and has the sender's chunk size. */
  lemma RoundTrip(ms: seq<Outgoing>) returns (r: Receiver)
    requires forall m :: m in ms ==> Sendable(m)
    ensures var s := ReceiveAll(FreshReceiver, SendAll(ms, DEFAULT_CHUNK_SIZE));
            && Deliveries(s.messages) == ExpectedAll(ms)
            && s.end == Starved(r, [])
            && r.chunkSize == SizeAfterAll(ms, DEFAULT_CHUNK_SIZE)
            && forall cid :: cid in r.streams ==> r.streams[cid].msg.None?
  {
    hide Legal, Completions, Wire, After, SendAll, ReceiveAll;
    var run := SendAllIsRun(FreshMux, ms);
    r := InterleavingReassembled(FreshMux, run, FreshReceiver);
  }
}
