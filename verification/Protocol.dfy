/** The protocol object: its socket, its input buffer and its chunk streams, updated in place
    by the methods that read and write the chunk layer. */
module Protocol {
  import opened Bytes
  import opened ChunkFormat
  import opened ChunkSend
  import opened Packets
  import opened ChunkSplit

  const SOCKET_READ_SIZE := 4096

  predicate IsSocketError(e: Error) {
    e == SocketRead || e == SocketTimeout
  }

  /** The peer: `incoming` is what it has sent that was not read yet, `sent` what it was sent.
      Reads are split anywhere and may fail at any time; a failed write may have sent a part. */
  class Socket {
    var incoming: seq<byte>
    var sent: seq<byte>
    // How many reads failed although bytes were still to come, and how many writes failed.
    ghost var interrupted: nat
    ghost var failedWrites: nat

    constructor (fromPeer: seq<byte>)
      ensures incoming == fromPeer && sent == [] && interrupted == 0 && failedWrites == 0
    {
      incoming, sent := fromPeer, [];
      interrupted, failedWrites := 0, 0;
    }

    /** What an operation that reads until something fails tells of the socket: it gives a socket error
        only when one read failed, and unless that was an interruption, all bytes are read. */
    twostate predicate ReadUntil(new err: Option<Error>)
      reads this
    {
      && |incoming| <= |old(incoming)|
      && interrupted == old(interrupted) + if err.Some? && IsSocketError(err.value) && incoming != [] then 1 else 0
    }

    twostate predicate WroteUntil(new err: Option<Error>)
      reads this
    {
      failedWrites == old(failedWrites) + if err.Some? then 1 else 0
    }

    method Read() returns (err: Option<Error>, bytes: seq<byte>)
      modifies this`incoming, this`interrupted
      ensures err.None? ==> 0 < |bytes| <= SOCKET_READ_SIZE && old(incoming) == bytes + incoming
      ensures err.Some? ==> IsSocketError(err.value) && incoming == old(incoming)
      ensures ReadUntil(err)
    {
      var fails, waited: bool := *, *;
      if fails || incoming == [] {
        interrupted := interrupted + if incoming == [] then 0 else 1;
        return Some(if waited then SocketTimeout else SocketRead), [];
      }
      var n :| 0 < n <= SOCKET_READ_SIZE && n <= |incoming|;
      err, bytes := None, incoming[..n];
      incoming := incoming[n..];
    }

    method Writev(header: seq<byte>, payload: seq<byte>) returns (err: Option<Error>)
      modifies this`sent, this`failedWrites
      ensures err.None? ==> sent == old(sent) + header + payload
      ensures err.Some? ==> err.value == SocketWrite && old(sent) <= sent <= old(sent) + header + payload
      ensures WroteUntil(err)
    {
      var all := header + payload;
      if * {
        var n :| 0 <= n <= |all|;
        sent := sent + all[..n];
        assert sent <= old(sent) + all && old(sent) + all == old(sent) + header + payload;
        failedWrites := failedWrites + 1;
        return Some(SocketWrite);
      }
      sent := sent + header + payload;
      err := None;
    }
  }

  class Buffer {
    var data: seq<byte>

    constructor ()
      ensures data == []
    {
      data := [];
    }

    method Erase(n: nat)
      requires n <= |data|
      modifies this
      ensures data == old(data)[n..]
    {
      data := data[n..];
    }

    method Append(bytes: seq<byte>)
      modifies this
      ensures data == old(data) + bytes
    {
      data := data + bytes;
    }

    /** Reads until enough bytes are buffered; no byte is lost or reordered on the way. */
    method EnsureBufferBytes(skt: Socket, required: nat) returns (err: Option<Error>)
      modifies this, skt`incoming, skt`interrupted
      ensures skt.ReadUntil(err)
      ensures data + skt.incoming == old(data) + old(skt.incoming)
      ensures old(data) <= data
      ensures err.None? ==> required <= |data|
      ensures err.Some? ==> IsSocketError(err.value) && |data| < required
    {
      err := None;
      while |data| < required
        invariant err.None?
        invariant data + skt.incoming == old(data) + old(skt.incoming)
        invariant old(data) <= data && skt.ReadUntil(None)
        decreases |skt.incoming|
      {
        var bytes;
        err, bytes := skt.Read();
        if err.Some? {
          return;
        }
        ghost var before := data;
        Append(bytes);
        assert before + (bytes + skt.incoming) == data + skt.incoming;
      }
    }
  }

  class ChunkStream {
    var header: Header
    var extended: bool
    var msg: Option<Partial>
    var msgCount: nat

    ghost function State(): ChunkState
      reads this
    {
      ChunkState(header, extended, msg, msgCount)
    }

    constructor ()
      ensures State() == FreshChunk
    {
      header, extended, msg, msgCount := NoHeader, false, None, 0;
    }
  }

  class RtmpProtocol {
    const skt: Socket
    const buffer: Buffer
    var chunkStreams: map<int, ChunkStream>
    var inChunkSize: int
    var outChunkSize: int

    /** Distinct chunk stream ids have distinct chunk stream objects. */
    ghost predicate Valid()
      reads this
    {
      && outChunkSize > 0
      && forall a, b :: a in chunkStreams && b in chunkStreams && a != b ==> chunkStreams[a] != chunkStreams[b]
    }

    ghost function State(): Receiver
      reads this, chunkStreams.Values
    {
      Receiver(map cid | cid in chunkStreams :: chunkStreams[cid].State(), inChunkSize)
    }

    /** The byte stream still to be decoded: what is buffered and what is still to come. */
    ghost function Pending(): seq<byte>
      reads this, buffer, skt
    {
      buffer.data + skt.incoming
    }

    constructor (socket: Socket)
      ensures Valid() && State() == FreshReceiver && Pending() == socket.incoming
      ensures skt == socket && outChunkSize == DEFAULT_CHUNK_SIZE && fresh(buffer) && chunkStreams == map[]
    {
      skt := socket;
      buffer := new Buffer();
      chunkStreams := map[];
      inChunkSize, outChunkSize := DEFAULT_CHUNK_SIZE, DEFAULT_CHUNK_SIZE;
    }

    // ----- Receiving -----

    method ReadBasicHeader() returns (err: Option<Error>, fmt: int, cid: int, bh: nat)
      modifies buffer, skt`incoming, skt`interrupted
      ensures skt.ReadUntil(err)
      ensures Pending() == old(Pending())
      ensures err.None? ==> ReadBasic(buffer.data) == Some(Basic(fmt, cid, bh))
      ensures err.Some? ==> IsSocketError(err.value) && ReadBasic(buffer.data) == None
    {
      fmt, cid, bh := 0, 0, 0;
      err := buffer.EnsureBufferBytes(skt, 1);
      if err.Some? { return; }
      fmt, cid, bh := buffer.data[0] / 64, buffer.data[0] % 64, 1;
      if cid > 1 { return; }
      if cid == 0 {
        err := buffer.EnsureBufferBytes(skt, 2);
        if err.Some? { return; }
        cid := 64 + AsInt8(buffer.data[1]);
        bh := 2;
      } else {
        err := buffer.EnsureBufferBytes(skt, 3);
        if err.Some? { return; }
        cid := 64 + AsInt8(buffer.data[1]) + AsInt8(buffer.data[2]) * 256;
        bh := 3;
      }
    }

    /** What `ReadHeader` says of the bytes buffered so far is what the method did. */
    method ReadMessageHeader(chunk: ChunkStream, fmt: int, bh: nat) returns (err: Option<Error>, mh: nat)
      requires 0 <= fmt <= 3 && bh <= |buffer.data|
      modifies chunk, buffer, skt`incoming, skt`interrupted
      ensures skt.ReadUntil(err)
      ensures Pending() == old(Pending()) && bh <= |buffer.data| && old(buffer.data) <= buffer.data
      ensures var o := ReadHeader(old(chunk.State()), fmt, buffer.data[bh..]);
              match err
              case None => o == HeaderRead(chunk.State(), mh)
              case Some(e) => if IsSocketError(e) then o == HeaderStarved(chunk.State()) else o == HeaderFailed(e, chunk.State())
    {
      hide ApplyFormat, FromBigEndian, HeaderSize;
      mh := 0;
      var begins := chunk.msg.None?;
      if chunk.msgCount == 0 && fmt != 0 {
        return Some(ChunkStart), mh;
      }
      if chunk.msg.Some? && fmt == 0 {
        return Some(ChunkStart), mh;
      }
      if chunk.msg.None? {
        chunk.msg := Some(Partial(0, []));
      }
      mh := HeaderSize(fmt);
      err := buffer.EnsureBufferBytes(skt, bh + mh);
      if err.Some? { return; }
      ghost var begun, seen := chunk.State(), buffer.data;
      ApplyHeader(chunk, fmt, begins, bh);
      if chunk.extended {
        mh := mh + 4;
        err := ReadExtendedTimestamp(chunk, bh + mh - 4);
        HeaderFieldsStay(begun, fmt, begins, bh, seen, buffer.data);
        if err.Some? { return; }
      }
      if chunk.header.payloadLength < 0 {
        return Some(InvalidSize), mh;
      }
      chunk.msgCount := chunk.msgCount + 1;
    }

    /** The four bytes of an extended timestamp, which follow the other fields. */
    method ReadExtendedTimestamp(chunk: ChunkStream, at: nat) returns (err: Option<Error>)
      requires at <= |buffer.data|
      modifies chunk`header, buffer, skt`incoming, skt`interrupted
      ensures skt.ReadUntil(err)
      ensures Pending() == old(Pending()) && old(buffer.data) <= buffer.data
      ensures err.None? ==> at + 4 <= |buffer.data| && chunk.header == old(chunk.header).(timestamp := Int32At(buffer.data, at))
      ensures err.Some? ==> IsSocketError(err.value) && |buffer.data| < at + 4 && chunk.header == old(chunk.header)
    {
      err := buffer.EnsureBufferBytes(skt, at + 4);
      if err.None? {
        chunk.header := chunk.header.(timestamp := Int32At(buffer.data, at));
      }
    }

    method ApplyHeader(chunk: ChunkStream, fmt: int, begins: bool, bh: nat)
      requires 0 <= fmt <= 3 && bh + HeaderSize(fmt) <= |buffer.data|
      modifies chunk`header, chunk`extended
      ensures chunk.State() == ApplyFormat(old(chunk.State()), fmt, begins, buffer.data[bh..])
    {
      hide ParseFields;
      if fmt <= 2 {
        ReadHeaderFields(chunk, fmt, bh);
      } else if begins && !chunk.extended {
        chunk.header := chunk.header.(timestamp := AddInt32(chunk.header.timestamp, chunk.header.timestampDelta));
      }
    }

    /** The fields of a type-0, type-1 or type-2 header, one after the other. */
    method ReadHeaderFields(chunk: ChunkStream, fmt: int, bh: nat)
      requires 0 <= fmt <= 2 && bh + HeaderSize(fmt) <= |buffer.data|
      modifies chunk`header, chunk`extended
      ensures chunk.header == ParseFields(old(chunk.header), fmt, buffer.data[bh..])
      ensures chunk.extended == (chunk.header.timestampDelta >= EXTENDED_TIMESTAMP)
    {
      ghost var b := buffer.data[bh..];
      assert b[0..3] == buffer.data[bh..bh + 3];
      chunk.header := chunk.header.(timestampDelta := U24At(buffer.data, bh));
      if fmt == 0 {
        chunk.header := chunk.header.(timestamp := chunk.header.timestampDelta);
      } else {
        chunk.header := chunk.header.(timestamp := AddInt32(chunk.header.timestamp, chunk.header.timestampDelta));
      }
      chunk.extended := chunk.header.timestampDelta >= EXTENDED_TIMESTAMP;
      if chunk.extended {
        chunk.header := chunk.header.(timestamp := EXTENDED_TIMESTAMP);
      }
      if fmt <= 1 {
        assert b[3..6] == buffer.data[bh + 3..bh + 6] && b[6] == buffer.data[bh + 6];
        chunk.header := chunk.header.(payloadLength := U24At(buffer.data, bh + 3));
        chunk.header := chunk.header.(messageType := AsInt8(buffer.data[bh + 6]));
        if fmt == 0 {
          assert b[7..11] == buffer.data[bh + 7..bh + 11];
          chunk.header := chunk.header.(streamId := LittleInt32At(buffer.data, bh + 7));
        }
      }
    }

    method ReadMessagePayload(chunk: ChunkStream, bh: nat, mh: nat)
      returns (err: Option<Error>, size: nat, message: Option<Message>)
      requires chunk.msg.Some? && chunk.header.payloadLength >= 0 && bh + mh <= |buffer.data|
      modifies chunk, buffer, skt`incoming, skt`interrupted
      ensures skt.ReadUntil(err)
      ensures err.None? ==>
                && ReadPayload(old(chunk.State()), inChunkSize, old(Pending())[bh + mh..]) == StreamRead(chunk.State(), size, message)
                && Pending() == old(Pending())[bh + mh + size..]
      ensures err.Some? ==>
                && Pending() == old(Pending()) && message == None && old(buffer.data) <= buffer.data
                && var o := ReadPayload(old(chunk.State()), inChunkSize, buffer.data[bh + mh..]);
                   if IsSocketError(err.value) then o == StreamStarved(chunk.State())
                   else o == StreamFailed(err.value, chunk.State())
    {
      err, size, message := None, 0, None;
      var part := chunk.msg.value;
      if chunk.header.payloadLength == 0 {
        assert old(Pending())[bh + mh..] == buffer.data[bh + mh..] + skt.incoming;
        buffer.Erase(bh + mh);
        message := Some(Message(chunk.header, part.bytes));
        chunk.msg := None;
        return;
      }
      var n := Min(chunk.header.payloadLength - |part.bytes|, inChunkSize);
      if part.capacity == 0 {
        part := Partial(chunk.header.payloadLength, part.bytes);
        chunk.msg := Some(part);
      }
      if n < 0 {
        return Some(OutOfBoundsCopy), size, message;
      }
      err := buffer.EnsureBufferBytes(skt, bh + mh + n);
      if err.Some? { return; }
      if |part.bytes| + n > part.capacity {
        return Some(OutOfBoundsCopy), size, message;
      }
      size := n;
      message := AppendPiece(chunk, bh + mh, n);
    }

    /** Adds n bytes after a header to the message, which is handed over when it is whole. */
    method AppendPiece(chunk: ChunkStream, header: nat, n: nat) returns (message: Option<Message>)
      requires chunk.msg.Some? && header + n <= |buffer.data|
      modifies chunk`msg, buffer
      ensures Pending() == old(Pending())[header + n..]
      ensures var part := old(chunk.msg.value);
              var bytes := part.bytes + old(Pending())[header..][..n];
              if |bytes| == chunk.header.payloadLength then chunk.msg.None? && message == Some(Message(chunk.header, bytes))
              else chunk.msg == Some(Partial(part.capacity, bytes)) && message.None?
    {
      message := None;
      var piece := TakePiece(header, n);
      var part := Partial(chunk.msg.value.capacity, chunk.msg.value.bytes + piece);
      chunk.msg := Some(part);
      if chunk.header.payloadLength == |part.bytes| {
        message := Some(Message(chunk.header, part.bytes));
        chunk.msg := None;
      }
    }

    /** Takes n bytes after a header out of the buffer, and the header with them. */
    method TakePiece(header: nat, n: nat) returns (piece: seq<byte>)
      requires header + n <= |buffer.data|
      modifies buffer
      ensures piece == old(Pending())[header..][..n] && Pending() == old(Pending())[header + n..]
    {
      piece := buffer.data[header..header + n];
      ghost var all := buffer.data + skt.incoming;
      assert all[header..][..n] == piece && all[header + n..] == buffer.data[header + n..] + skt.incoming;
      buffer.Erase(header + n);
    }

    /** The chunk stream object of a chunk stream id, made on first use. */
    method FindChunkStream(cid: int) returns (chunk: ChunkStream)
      requires Valid()
      modifies this`chunkStreams
      ensures Valid() && cid in chunkStreams && chunkStreams[cid] == chunk
      ensures chunk.State() == StreamOf(old(State()), cid)
      ensures cid in old(chunkStreams) ==> chunkStreams == old(chunkStreams)
      ensures cid !in old(chunkStreams) ==> fresh(chunk) && chunkStreams == old(chunkStreams)[cid := chunk]
    {
      if cid !in chunkStreams {
        chunk := new ChunkStream();
        chunkStreams := chunkStreams[cid := chunk];
      } else {
        chunk := chunkStreams[cid];
      }
    }

    /** Header and payload of one chunk, after its basic header of `bh` bytes. */
    method ReadChunkBody(chunk: ChunkStream, fmt: int, bh: nat)
      returns (err: Option<Error>, size: nat, message: Option<Message>)
      requires 0 <= fmt <= 3 && bh <= |buffer.data|
      modifies chunk, buffer, skt`incoming, skt`interrupted
      ensures skt.ReadUntil(err)
      ensures err.None? ==>
                && ReadStream(old(chunk.State()), fmt, inChunkSize, old(Pending())[bh..])
                   == StreamRead(chunk.State(), size, message)
                && Pending() == old(Pending())[bh + size..]
      ensures err.Some? ==>
                && Pending() == old(Pending()) && message == None && old(buffer.data) <= buffer.data
                && var o := ReadStream(old(chunk.State()), fmt, inChunkSize, buffer.data[bh..]);
                   if IsSocketError(err.value) then o == StreamStarved(chunk.State())
                   else o == StreamFailed(err.value, chunk.State())
    {
      hide ReadHeader, ReadPayload;
      size, message := 0, None;
      var mh;
      err, mh := ReadMessageHeader(chunk, fmt, bh);
      if err.Some? { return; }
      ghost var read, all := buffer.data, old(Pending());
      err, size, message := ReadMessagePayload(chunk, bh, mh);
      ghost var longer := if err.Some? then buffer.data else all;
      assert read <= longer;
      ghost var more := longer[|read|..];
      assert longer[bh..] == read[bh..] + more && longer[bh..][mh..] == longer[bh + mh..];
      HeaderStable(old(chunk.State()), fmt, read[bh..], more);
      size := mh + size;
    }

    /** The body of a chunk of stream `cid`: the other streams stay as they are. */
    method ReadChunkOf(cid: int, fmt: int, bh: nat)
      returns (err: Option<Error>, size: nat, message: Option<Message>)
      requires Valid() && 0 <= fmt <= 3 && bh <= |buffer.data|
      modifies this`chunkStreams, buffer, skt`incoming, skt`interrupted, chunkStreams.Values
      ensures skt.ReadUntil(err)
      ensures Valid() && fresh(chunkStreams.Values - old(chunkStreams.Values))
      ensures err.None? ==>
                var o := ReadStream(StreamOf(old(State()), cid), fmt, inChunkSize, old(Pending())[bh..]);
                && o.StreamRead? && o.size == size && o.message == message
                && State() == Put(old(State()), cid, o.cs) && Pending() == old(Pending())[bh + size..]
      ensures err.Some? ==>
                && Pending() == old(Pending()) && message == None && old(buffer.data) <= buffer.data
                && var o := ReadStream(StreamOf(old(State()), cid), fmt, inChunkSize, buffer.data[bh..]);
                   && State() == Put(old(State()), cid, o.cs)
                   && if IsSocketError(err.value) then o.StreamStarved? else o.StreamFailed? && o.error == err.value
    {
      hide ReadStream;
      ghost var before := State();
      var chunk := FindChunkStream(cid);
      err, size, message := ReadChunkBody(chunk, fmt, bh);
      forall c | c in chunkStreams && c != cid
        ensures c in before.streams && chunkStreams[c].State() == before.streams[c]
      {
        assert chunkStreams[c] != chunk && c in old(chunkStreams);
      }
      OnlyOneStreamChanged(before, cid);
    }

    lemma OnlyOneStreamChanged(before: Receiver, cid: int)
      requires cid in chunkStreams && chunkStreams.Keys == before.streams.Keys + {cid} && inChunkSize == before.chunkSize
      requires forall c :: c in chunkStreams && c != cid ==> c in before.streams && chunkStreams[c].State() == before.streams[c]
      ensures State() == Put(before, cid, chunkStreams[cid].State())
    {}

    /** Reads one chunk.  The outcome is the one `ReadChunk` gives for the pending bytes, however
        the socket splits them; a failed read leaves what it gives for the bytes buffered so far. */
    method RecvInterlacedMessage() returns (err: Option<Error>, message: Option<Message>)
      requires Valid()
      modifies this, buffer, skt`incoming, skt`interrupted, chunkStreams.Values
      ensures skt.ReadUntil(err)
      ensures Valid() && fresh(chunkStreams.Values - old(chunkStreams.Values))
      ensures inChunkSize == old(inChunkSize) && outChunkSize == old(outChunkSize)
      ensures err.None? ==>
                var o := ReadChunk(old(State()), old(Pending()));
                o.ChunkRead? && State() == o.r && message == o.message && Pending() == old(Pending())[o.size..]
      ensures err.Some? ==>
                && Pending() == old(Pending()) && message == None
                && if IsSocketError(err.value) then ReadChunk(old(State()), buffer.data) == ChunkStarved(State())
                   else ReadChunk(old(State()), old(Pending())) == ChunkFailed(err.value, State())
    {
      hide ReadBasic, ReadStream, ReadChunk;
      message := None;
      var fmt, cid, bh;
      err, fmt, cid, bh := ReadBasicHeader();
      if err.Some? {
        ChunkWithoutBasic(old(State()), buffer.data);
        return;
      }
      ghost var seen, r, all := buffer.data, old(State()), old(Pending());
      var size;
      err, size, message := ReadChunkOf(cid, fmt, bh);
      ghost var longer := if err.Some? then buffer.data else all;
      assert longer == seen + longer[|seen|..];
      BasicStable(seen, longer[|seen|..]);
      ChunkOfBody(r, longer, Basic(fmt, cid, bh));
      if err.Some? && !IsSocketError(err.value) {
        ChunkStable(r, buffer.data, skt.incoming);
      }
    }

    /** Takes up an announced chunk size, and refuses a control message it cannot decode. */
    method OnRecvMessage(m: Message) returns (err: Option<Error>)
      modifies this`inChunkSize
      ensures match Hook(old(inChunkSize), m)
              case HookFailed(e) => err == Some(e) && inChunkSize == old(inChunkSize)
              case HookDone(size) => err.None? && inChunkSize == size
      ensures err.Some? ==> !IsSocketError(err.value)
    {
      err := None;
      if m.header.messageType == MSG_SET_CHUNK_SIZE || m.header.messageType == MSG_WINDOW_ACK_SIZE {
        if |m.payload| < 4 {
          return Some(MessageDecode);
        }
        if m.header.messageType == MSG_SET_CHUNK_SIZE {
          var size := Int32At(m.payload, 0);
          if size < MIN_CHUNK_SIZE {
            return Some(ChunkSize);
          }
          inChunkSize := size;
        }
      }
    }

    /** A call that ended with `err` or `message`, in the state it left. */
    ghost function Outcome(err: Option<Error>, message: Option<Message>): Received
      reads this, chunkStreams.Values, buffer, skt
      requires err.None? ==> message.Some?
    {
      match err
      case None => Delivered(State(), Pending(), message.value)
      case Some(e) => if IsSocketError(e) then Starved(State(), Pending()) else Failed(e, State(), Pending())
    }

    /** Reads one chunk and, if it completes a message that is not empty, hands the message over. */
    method RecvOne() returns (err: Option<Error>, message: Option<Message>)
      requires Valid()
      modifies this, buffer, skt`incoming, skt`interrupted, chunkStreams.Values
      ensures skt.ReadUntil(err)
      ensures Valid() && outChunkSize == old(outChunkSize)
      ensures fresh(chunkStreams.Values - old(chunkStreams.Values))
      ensures err.Some? && IsSocketError(err.value) ==>
                Pending() == old(Pending()) && ReadChunk(old(State()), buffer.data) == ChunkStarved(State())
      ensures err.None? && message.None? ==>
                Receive(old(State()), old(Pending())) == Receive(State(), Pending()) && |Pending()| < |old(Pending())|
      ensures (err.None? && message.Some?) || (err.Some? && !IsSocketError(err.value)) ==>
                Receive(old(State()), old(Pending())) == Outcome(err, message)
    {
      hide ReadChunk, Hook, IsEmpty, Receive;
      ReceiveByChunks(State(), Pending());
      err, message := RecvInterlacedMessage();
      if err.Some? { return; }
      if message.None? || IsEmpty(message.value) {
        message := None;
        return;
      }
      ghost var streams := State().streams;
      err := OnRecvMessage(message.value);
      assert State().streams == streams;
    }

    /** Reads chunks until a non-empty message is whole.  When a read fails, `boundary` is the
        state at the last chunk boundary: the messages still to come are those of that state, and
        only the chunk under way was begun.  If no read was interrupted, the outcome is that of the
        pending bytes, however they were split. */
    method RecvMessage() returns (err: Option<Error>, message: Option<Message>, ghost boundary: Receiver)
      requires Valid()
      modifies this, buffer, skt`incoming, skt`interrupted, chunkStreams.Values
      ensures skt.ReadUntil(err)
      ensures Valid() && outChunkSize == old(outChunkSize)
      ensures fresh(chunkStreams.Values - old(chunkStreams.Values))
      ensures err.None? ==> message.Some?
      ensures err.None? || !IsSocketError(err.value) || skt.interrupted == old(skt.interrupted) ==>
                Receive(old(State()), old(Pending())) == Outcome(err, message)
      ensures err.Some? && IsSocketError(err.value) ==>
                && Receive(old(State()), old(Pending())) == Receive(boundary, Pending())
                && ReadChunk(boundary, buffer.data) == ChunkStarved(State())
    {
      hide ReadChunk, Receive;
      boundary := State();
      while true
        invariant Valid() && outChunkSize == old(outChunkSize) && skt.ReadUntil(None)
        invariant fresh(chunkStreams.Values - old(chunkStreams.Values))
        invariant boundary == State()
        invariant Receive(old(State()), old(Pending())) == Receive(State(), Pending())
        decreases |Pending()|
      {
        err, message := RecvOne();
        if err.Some? {
          StarvedAtOnce(boundary, buffer.data);
          assert skt.incoming == [] ==> Pending() == buffer.data;
          return;
        }
        if message.Some? {
          return;
        }
        boundary := State();
      }
    }

    // ----- Sending -----

    method OnSendMessage(m: Outgoing)
      modifies this`outChunkSize
      ensures outChunkSize == SizeAfterSend(m, old(outChunkSize))
    {
      if m.messageType == MSG_SET_CHUNK_SIZE && m.packet.Some? && m.packet.value.SetChunkSize? {
        outChunkSize := m.packet.value.chunkSize;
      }
    }

    /** One chunk: its header and as much of the payload as the chunk size allows. */
    method SendChunk(m: Outgoing, p: nat) returns (err: Option<Error>, n: nat)
      requires outChunkSize > 0 && (p == 0 || p < |m.payload|)
      modifies skt`sent, skt`failedWrites
      ensures skt.WroteUntil(err)
      ensures n == Min(|m.payload| - p, outChunkSize)
      ensures err.None? ==>
                && old(skt.sent) <= skt.sent
                && skt.sent + (if p + n < |m.payload| then ToSend(m, p + n, outChunkSize) else [])
                   == old(skt.sent) + ToSend(m, p, outChunkSize)
      ensures err.Some? ==> old(skt.sent) <= skt.sent <= old(skt.sent) + ToSend(m, p, outChunkSize)
    {
      hide FirstHeader, NextHeader, SendBytes, SendFrom, ToSend;
      var header := if p == 0 then FirstHeader(m) else NextHeader(m);
      n := Min(|m.payload| - p, outChunkSize);
      NextChunk(m, p, outChunkSize);
      err := skt.Writev(header, m.payload[p..p + n]);
      AppendThrough(old(skt.sent), header, m.payload[p..p + n], SendFrom(m, p + n, outChunkSize));
    }

    /** Encodes the packet a message carries, which never fails, and sends the message. */
    method SendMessage(msg: Outgoing) returns (err: Option<Error>)
      requires Valid() && SizeAfterSend(msg, 1) > 0
      modifies this`outChunkSize, skt`sent, skt`failedWrites
      ensures skt.WroteUntil(err)
      ensures Valid()
      ensures err.None? ==>
                && skt.sent == old(skt.sent) + SendBytes(Encoded(msg), old(outChunkSize))
                && outChunkSize == SizeAfterSend(msg, old(outChunkSize))
      ensures err.Some? ==>
                && outChunkSize == old(outChunkSize)
                && old(skt.sent) <= skt.sent <= old(skt.sent) + SendBytes(Encoded(msg), old(outChunkSize))
    {
      hide SendBytes, PacketBytes;
      var m := msg;
      if msg.packet.Some? {
        var _, payload := EncodePayload(msg.packet.value);
        m := msg.(payload := payload);
      }
      err := SendEncoded(m);
    }

    /** Cuts a message into one type-0 chunk and type-3 chunks.  All of it goes out, in order; if
        a write fails, a prefix of it went out and the chunk size is left alone. */
    method SendEncoded(m: Outgoing) returns (err: Option<Error>)
      requires Valid() && SizeAfterSend(m, 1) > 0
      modifies this`outChunkSize, skt`sent, skt`failedWrites
      ensures skt.WroteUntil(err)
      ensures Valid()
      ensures err.None? ==>
                && skt.sent == old(skt.sent) + SendBytes(m, old(outChunkSize))
                && outChunkSize == SizeAfterSend(m, old(outChunkSize))
      ensures err.Some? ==>
                && outChunkSize == old(outChunkSize)
                && old(skt.sent) <= skt.sent <= old(skt.sent) + SendBytes(m, old(outChunkSize))
    {
      hide SendBytes, SendFrom, ToSend;
      var p, done := 0, false;
      ghost var size, total := outChunkSize, old(skt.sent) + SendBytes(m, outChunkSize);
      ToSendAll(m, size);
      while !done
        invariant p <= |m.payload| && outChunkSize == size > 0
        invariant !done && p > 0 ==> p < |m.payload|
        invariant old(skt.sent) <= skt.sent && skt.WroteUntil(None)
        invariant skt.sent + (if done then [] else ToSend(m, p, size)) == total
        decreases !done, |m.payload| - p
      {
        var n;
        err, n := SendChunk(m, p);
        if err.Some? {
          return;
        }
        if |m.payload| > 0 {
          p := p + n;
        }
        done := !(p < |m.payload|);
      }
      err := None;
      OnSendMessage(m);
    }
  }

  /** Bytes that arrive later do not change the fields read; an integer in the buffer is the one read from
      the start of the header. */
  lemma HeaderFieldsStay(cs: ChunkState, fmt: int, begins: bool, bh: nat, seen: seq<byte>, data: seq<byte>)
    requires 0 <= fmt <= 3 && bh + HeaderSize(fmt) <= |seen| && seen <= data
    ensures ApplyFormat(cs, fmt, begins, data[bh..]) == ApplyFormat(cs, fmt, begins, seen[bh..])
    ensures bh + HeaderSize(fmt) + 4 <= |data| ==> Int32At(data[bh..], HeaderSize(fmt)) == Int32At(data, bh + HeaderSize(fmt))
  {
    hide ApplyFormat, FromBigEndian;
    var more := data[|seen|..];
    assert data[bh..] == seen[bh..] + more;
    FormatStable(cs, fmt, begins, seen[bh..], more);
    var n := HeaderSize(fmt);
    if bh + n + 4 <= |data| {
      assert data[bh..][n..n + 4] == data[bh + n..bh + n + 4];
    }
  }

  lemma ChunkWithoutBasic(r: Receiver, b: seq<byte>)
    requires ReadBasic(b) == None
    ensures ReadChunk(r, b) == ChunkStarved(r)
  {
  }

  /** A chunk is its basic header and its body. */
  lemma ChunkOfBody(r: Receiver, b: seq<byte>, basic: Basic)
    requires ReadBasic(b) == Some(basic)
    ensures ReadChunk(r, b) ==
            match ReadStream(StreamOf(r, basic.cid), basic.fmt, r.chunkSize, b[basic.size..])
            case StreamStarved(cs) => ChunkStarved(Put(r, basic.cid, cs))
            case StreamFailed(e, cs) => ChunkFailed(e, Put(r, basic.cid, cs))
            case StreamRead(cs, n, m) => ChunkRead(Put(r, basic.cid, cs), basic.size + n, m)
  {
  }

  /** A message is one chunk, and then the rest. */
  lemma ReceiveByChunks(r: Receiver, b: seq<byte>)
    ensures match ReadChunk(r, b)
            case ChunkStarved(_) => true
            case ChunkFailed(e, r') => Receive(r, b) == Failed(e, r', b)
            case ChunkRead(r', n, m) =>
              if m.None? || IsEmpty(m.value) then Receive(r, b) == Receive(r', b[n..])
              else match Hook(r'.chunkSize, m.value)
                   case HookFailed(e) => Receive(r, b) == Failed(e, r', b[n..])
                   case HookDone(size) => Receive(r, b) == Delivered(r'.(chunkSize := size), b[n..], m.value)
  {
    hide ReadChunk, Hook, IsEmpty;
  }

  lemma StarvedAtOnce(r: Receiver, b: seq<byte>)
    ensures ReadChunk(r, b).ChunkStarved? ==> Receive(r, b) == Starved(ReadChunk(r, b).r, b)
  {
    hide ReadChunk;
  }

  /** What `send_message` still has to write when `p` bytes of the payload are out. */
  ghost function ToSend(m: Outgoing, p: nat, size: int): seq<byte>
    requires p <= |m.payload| && size > 0
  {
    if p == 0 then SendBytes(m, size) else SendFrom(m, p, size)
  }

  lemma ToSendAll(m: Outgoing, size: int)
    requires size > 0
    ensures ToSend(m, 0, size) == SendBytes(m, size)
  {
  }

  lemma NextChunk(m: Outgoing, p: nat, size: int)
    requires p <= |m.payload| && size > 0 && (p == 0 || p < |m.payload|)
    ensures var n := Min(|m.payload| - p, size);
            var header := if p == 0 then FirstHeader(m) else NextHeader(m);
            && ToSend(m, p, size) == header + m.payload[p..p + n] + SendFrom(m, p + n, size)
            && SendFrom(m, p + n, size) == if p + n < |m.payload| then ToSend(m, p + n, size) else []
  {
    hide FirstHeader, NextHeader;
    if p == 0 {
      assert m.payload[..Min(|m.payload|, size)] == m.payload[0..Min(|m.payload|, size)];
    }
  }

  lemma AppendThrough(a: seq<byte>, b: seq<byte>, c: seq<byte>, d: seq<byte>)
    ensures a + (b + c + d) == a + b + c + d
    ensures a + b + c <= a + (b + c + d)
    ensures a + b + c + [] == a + b + c
  {
  }
}
