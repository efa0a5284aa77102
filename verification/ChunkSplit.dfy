/** How the receiver depends on the way its bytes arrive: not at all while it is never
    interrupted, and exactly when it survives a read time-out in the middle of a chunk. */
module ChunkSplit {
  import opened Bytes
  import opened ChunkFormat

  // ----- More bytes change nothing that was already decided -----

  lemma SliceOfLonger(b: seq<byte>, more: seq<byte>, p: nat, q: nat)
    requires p <= q <= |b|
    ensures (b + more)[p..q] == b[p..q]
    ensures (b + more)[p..] == b[p..] + more
  {
  }

  lemma FieldsStable(h: Header, fmt: int, b: seq<byte>, more: seq<byte>)
    requires 0 <= fmt <= 2 && HeaderSize(fmt) <= |b|
    ensures ParseFields(h, fmt, b + more) == ParseFields(h, fmt, b)
  {
    hide FromBigEndian, FromLittleEndian;
    SliceOfLonger(b, more, 0, 3);
    if fmt <= 1 {
      SliceOfLonger(b, more, 3, 6);
    }
    if fmt == 0 {
      SliceOfLonger(b, more, 7, 11);
    }
  }

  lemma FormatStable(cs: ChunkState, fmt: int, begins: bool, b: seq<byte>, more: seq<byte>)
    requires 0 <= fmt <= 3 && HeaderSize(fmt) <= |b|
    ensures ApplyFormat(cs, fmt, begins, b + more) == ApplyFormat(cs, fmt, begins, b)
  {
    hide ParseFields;
    if fmt <= 2 {
      FieldsStable(cs.header, fmt, b, more);
    }
  }

  lemma HeaderStable(cs: ChunkState, fmt: int, b: seq<byte>, more: seq<byte>)
    requires 0 <= fmt <= 3 && !ReadHeader(cs, fmt, b).HeaderStarved?
    ensures ReadHeader(cs, fmt, b + more) == ReadHeader(cs, fmt, b)
  {
    hide ApplyFormat, FromBigEndian;
    var size := HeaderSize(fmt);
    if |b| >= size {
      FormatStable(if cs.msg.None? then cs.(msg := Some(Partial(0, []))) else cs, fmt, cs.msg.None?, b, more);
      if |b| >= size + 4 {
        SliceOfLonger(b, more, size, size + 4);
      }
    }
  }

  lemma PayloadStable(cs: ChunkState, chunkSize: int, b: seq<byte>, more: seq<byte>)
    requires cs.msg.Some? && !ReadPayload(cs, chunkSize, b).StreamStarved?
    ensures ReadPayload(cs, chunkSize, b + more) == ReadPayload(cs, chunkSize, b)
  {
    var n := Min(cs.header.payloadLength - |cs.msg.value.bytes|, chunkSize);
    if 0 <= n <= |b| {
      SliceOfLonger(b, more, 0, n);
      assert (b + more)[..n] == b[..n];
    }
  }

  lemma StreamStable(cs: ChunkState, fmt: int, chunkSize: int, b: seq<byte>, more: seq<byte>)
    requires 0 <= fmt <= 3 && !ReadStream(cs, fmt, chunkSize, b).StreamStarved?
    ensures ReadStream(cs, fmt, chunkSize, b + more) == ReadStream(cs, fmt, chunkSize, b)
  {
    hide ReadHeader, ReadPayload;
    HeaderStable(cs, fmt, b, more);
    var o := ReadHeader(cs, fmt, b);
    if o.HeaderRead? {
      SliceOfLonger(b, more, o.size, |b|);
      PayloadStable(o.cs, chunkSize, b[o.size..], more);
    }
  }

  lemma BasicStable(b: seq<byte>, more: seq<byte>)
    requires ReadBasic(b).Some?
    ensures ReadBasic(b + more) == ReadBasic(b)
  {
  }

  /** A chunk is decided by its own bytes. */
  lemma ChunkStable(r: Receiver, b: seq<byte>, more: seq<byte>)
    requires !ReadChunk(r, b).ChunkStarved?
    ensures ReadChunk(r, b + more) == ReadChunk(r, b)
  {
    hide ReadStream, ReadBasic;
    BasicStable(b, more);
    var Basic(fmt, cid, bh) := ReadBasic(b).value;
    SliceOfLonger(b, more, bh, |b|);
    StreamStable(StreamOf(r, cid), fmt, r.chunkSize, b[bh..], more);
  }

  /** A message handed over, or an error, is decided by the bytes up to its end. */
  lemma {:induction false} ReceiveStable(r: Receiver, b: seq<byte>, more: seq<byte>)
    ensures match Receive(r, b)
            case Starved(r', rest) => true
            case Failed(e, r', rest) => Receive(r, b + more) == Failed(e, r', rest + more)
            case Delivered(r', rest, m) => Receive(r, b + more) == Delivered(r', rest + more, m)
    decreases |b|
  {
    hide ReadChunk, Hook, IsEmpty;
    var o := ReadChunk(r, b);
    if !o.ChunkStarved? {
      ChunkStable(r, b, more);
      if o.ChunkRead? {
        SliceOfLonger(b, more, o.size, |b|);
        if o.message.None? || IsEmpty(o.message.value) {
          ReceiveStable(o.r, b[o.size..], more);
          assert Receive(r, b) == Receive(o.r, b[o.size..]);
          assert Receive(r, b + more) == Receive(o.r, b[o.size..] + more);
        }
      }
    }
  }

  // ----- Time-outs in the middle of a chunk -----

  /** States the receiver cannot tell apart: it only asks whether the message count is zero. */
  predicate AlikeStream(a: ChunkState, b: ChunkState) {
    && a.header == b.header && a.extended == b.extended && a.msg == b.msg
    && (a.msgCount == 0 <==> b.msgCount == 0)
  }

  predicate AlikeOutcome(a: StreamOutcome, b: StreamOutcome) {
    match a
    case StreamStarved(cs) => b.StreamStarved? && AlikeStream(cs, b.cs)
    case StreamFailed(e, cs) => b.StreamFailed? && e == b.error && AlikeStream(cs, b.cs)
    case StreamRead(cs, n, m) => b.StreamRead? && n == b.size && m == b.message && AlikeStream(cs, b.cs)
  }

  /** Whether a chunk stream, starved by the bytes `b` after the basic header, may simply be
      called again: never in a type-0 chunk, and in a type-1 or type-2 chunk only if no delta was
      already added to the timestamp. */
  predicate Resumable(fmt: int, b: seq<byte>) {
    && fmt != 0
    && ((fmt == 1 || fmt == 2) && |b| >= HeaderSize(fmt) ==> U24At(b, 0) == 0 || U24At(b, 0) >= EXTENDED_TIMESTAMP)
  }

  /** The capacity of a payload is settled before its first byte is awaited. */
  lemma CapacitySettled(cs: ChunkState, chunkSize: int, b: seq<byte>, count: nat)
    requires cs.msg.Some? && cs.msgCount > 0 && count > 0 && cs.header.payloadLength > 0
    ensures var part := cs.msg.value;
            var room := if part.capacity == 0 then cs.header.payloadLength else part.capacity;
            AlikeOutcome(ReadPayload(cs.(msg := Some(Partial(room, part.bytes)), msgCount := count), chunkSize, b),
                         ReadPayload(cs, chunkSize, b))
  {
  }

  /** A second reading of the same header, by the state the first one left. */
  lemma HeaderAgain(cs: ChunkState, fmt: int, b: seq<byte>, part: Partial)
    requires 1 <= fmt <= 3 && ReadHeader(cs, fmt, b).HeaderRead?
    ensures var o := ReadHeader(cs, fmt, b);
            var again := ReadHeader(o.cs.(msg := Some(part)), fmt, b);
            && again.HeaderRead? && again.size == o.size
            && again.cs == o.cs.(msg := Some(part), msgCount := o.cs.msgCount + 1, header := again.cs.header)
            && (again.cs.header == o.cs.header <==> Resumable(fmt, b))
  {
    hide FromBigEndian;
  }

  /** Starved in the header: calling again is calling with all the bytes at once. */
  lemma ResumeInHeader(cs: ChunkState, fmt: int, b: seq<byte>, more: seq<byte>)
    requires 1 <= fmt <= 3 && ReadHeader(cs, fmt, b).HeaderStarved?
    ensures Resumable(fmt, b)
    ensures ReadHeader(ReadHeader(cs, fmt, b).cs, fmt, b + more) == ReadHeader(cs, fmt, b + more)
  {
    hide FromBigEndian;
    var begun := if cs.msg.None? then cs.(msg := Some(Partial(0, []))) else cs;
    if |b| >= HeaderSize(fmt) {
      FormatStable(begun, fmt, cs.msg.None?, b, more);
    }
  }

  lemma PayloadKeepsHeader(cs: ChunkState, chunkSize: int, b: seq<byte>)
    requires cs.msg.Some?
    ensures ReadPayload(cs, chunkSize, b).cs.header == cs.header
    ensures ReadPayload(cs, chunkSize, b).StreamFailed? ==> ReadPayload(cs, chunkSize, b).error == OutOfBoundsCopy
  {
  }

  /** Starved in the payload of a type-1, type-2 or type-3 chunk. */
  lemma ResumeInPayload(cs: ChunkState, fmt: int, chunkSize: int, b: seq<byte>, more: seq<byte>)
    requires 1 <= fmt <= 3
    requires ReadHeader(cs, fmt, b).HeaderRead? && ReadStream(cs, fmt, chunkSize, b).StreamStarved?
    ensures AlikeOutcome(ReadStream(ReadStream(cs, fmt, chunkSize, b).cs, fmt, chunkSize, b + more),
                         ReadStream(cs, fmt, chunkSize, b + more))
            <==> Resumable(fmt, b)
  {
    var o := ReadHeader(cs, fmt, b);
    var left := ReadStream(cs, fmt, chunkSize, b).cs;
    var all, tail := b + more, (b + more)[o.size..];
    var part := left.msg.value;
    LeftInPayload(cs, fmt, chunkSize, b);
    hide ReadHeader, ReadPayload, U24At;
    HeaderStable(cs, fmt, b, more);
    HeaderAgain(cs, fmt, all, part);
    SameDelta(fmt, b, more);
    var again := ReadHeader(left, fmt, all);
    CapacitySettled(o.cs, chunkSize, tail, o.cs.msgCount + 1);
    PayloadKeepsHeader(again.cs, chunkSize, tail);
    PayloadKeepsHeader(o.cs, chunkSize, tail);
  }

  /** What a call starved in the payload leaves: the header read, and the capacity settled. */
  lemma LeftInPayload(cs: ChunkState, fmt: int, chunkSize: int, b: seq<byte>)
    requires 1 <= fmt <= 3
    requires ReadHeader(cs, fmt, b).HeaderRead? && ReadStream(cs, fmt, chunkSize, b).StreamStarved?
    ensures var o, left := ReadHeader(cs, fmt, b), ReadStream(cs, fmt, chunkSize, b).cs;
            && left.msg.Some? && o.cs.msg.Some? && o.cs.header.payloadLength > 0 && o.cs.msgCount > 0
            && left == o.cs.(msg := Some(left.msg.value))
            && left.msg.value.bytes == o.cs.msg.value.bytes
            && left.msg.value.capacity == if o.cs.msg.value.capacity == 0 then o.cs.header.payloadLength else o.cs.msg.value.capacity
  {
    hide U24At, ParseFields;
  }

  lemma SameDelta(fmt: int, b: seq<byte>, more: seq<byte>)
    requires 1 <= fmt <= 3 && (fmt <= 2 ==> |b| >= 3) && |b| >= HeaderSize(fmt)
    ensures Resumable(fmt, b + more) <==> Resumable(fmt, b)
  {
    hide FromBigEndian;
    if fmt <= 2 {
      SliceOfLonger(b, more, 0, 3);
    }
  }

  /** After a read time-out inside a chunk, the call can be repeated as if nothing had happened
      exactly when the chunk is resumable. */
  lemma TimeoutTransparency(cs: ChunkState, fmt: int, chunkSize: int, b: seq<byte>, more: seq<byte>)
    requires 0 <= fmt <= 3 && ReadStream(cs, fmt, chunkSize, b).StreamStarved?
    ensures AlikeOutcome(ReadStream(ReadStream(cs, fmt, chunkSize, b).cs, fmt, chunkSize, b + more),
                         ReadStream(cs, fmt, chunkSize, b + more))
            <==> Resumable(fmt, b)
  {
    if fmt == 0 {
      FormatZero(cs, chunkSize, b, more);
    } else if ReadHeader(cs, fmt, b).HeaderRead? {
      ResumeInPayload(cs, fmt, chunkSize, b, more);
    } else {
      ResumeInHeader(cs, fmt, b, more);
      hide ReadHeader, ReadPayload, Resumable;
    }
  }

  /** What happens in a type-1 or type-2 chunk that is not resumable: the delta is added once more, and the
      message comes out that much too late. */
  lemma DeltaAddedAgain(cs: ChunkState, fmt: int, chunkSize: int, b: seq<byte>, more: seq<byte>)
    requires 1 <= fmt <= 2 && !Resumable(fmt, b) && ReadStream(cs, fmt, chunkSize, b).StreamStarved?
    requires ReadStream(cs, fmt, chunkSize, b + more).StreamRead?
    ensures var whole := ReadStream(cs, fmt, chunkSize, b + more);
            var again := ReadStream(ReadStream(cs, fmt, chunkSize, b).cs, fmt, chunkSize, b + more);
            var late := whole.cs.header.(timestamp := AddInt32(whole.cs.header.timestamp, U24At(b, 0)));
            && late != whole.cs.header
            && again.StreamRead? && again.size == whole.size && again.cs.header == late
            && again.message == if whole.message.None? then None else Some(Message(late, whole.message.value.payload))
  {
    var o := ReadHeader(cs, fmt, b);
    var left := ReadStream(cs, fmt, chunkSize, b).cs;
    var all, tail := b + more, (b + more)[o.size..];
    NotResumable(cs, fmt, b);
    LeftInPayload(cs, fmt, chunkSize, b);
    HeaderStable(cs, fmt, b, more);
    SliceOfLonger(b, more, 0, 3);
    HeaderLate(cs, fmt, all, left.msg.value);
    hide ReadHeader, ReadPayload, U24At;
    var late := AddInt32(o.cs.header.timestamp, U24At(b, 0));
    PayloadLate(o.cs, chunkSize, tail, late);
  }

  lemma PayloadLate(cs: ChunkState, chunkSize: int, b: seq<byte>, late: int)
    requires cs.msg.Some? && cs.header.payloadLength > 0 && ReadPayload(cs, chunkSize, b).StreamRead?
    ensures var part := cs.msg.value;
            var room := if part.capacity == 0 then cs.header.payloadLength else part.capacity;
            var h := cs.header.(timestamp := late);
            var o := ReadPayload(cs, chunkSize, b);
            var o' := ReadPayload(cs.(msg := Some(Partial(room, part.bytes)), msgCount := cs.msgCount + 1, header := h), chunkSize, b);
            && o.cs.header == cs.header && o'.StreamRead? && o'.size == o.size && o'.cs.header == h
            && o'.message == if o.message.None? then None else Some(Message(h, o.message.value.payload))
  {}

  lemma NotResumable(cs: ChunkState, fmt: int, b: seq<byte>)
    requires 1 <= fmt <= 2 && !Resumable(fmt, b) && !ReadHeader(cs, fmt, b).HeaderFailed?
    ensures ReadHeader(cs, fmt, b).HeaderRead?
  {
    hide U24At;
  }

  lemma HeaderLate(cs: ChunkState, fmt: int, b: seq<byte>, part: Partial)
    requires 1 <= fmt <= 2 && !Resumable(fmt, b) && ReadHeader(cs, fmt, b).HeaderRead?
    ensures var o := ReadHeader(cs, fmt, b);
            var late := o.cs.header.(timestamp := AddInt32(o.cs.header.timestamp, U24At(b, 0)));
            && late != o.cs.header
            && ReadHeader(o.cs.(msg := Some(part)), fmt, b)
               == HeaderRead(o.cs.(msg := Some(part), msgCount := o.cs.msgCount + 1, header := late), o.size)
  {
    hide FromBigEndian;
  }

  /** For instance, one audio byte sent a millisecond after the message before: interrupted before that
      byte, it comes out a millisecond late. */
  lemma OneMillisecondLate()
    ensures var cs := ChunkState(Header(8, 1, 0, 1, 100), false, None, 1);
            var b, all := [0, 0, 1, 0, 0, 1, 8], [0, 0, 1, 0, 0, 1, 8, 42];
            var whole, again := ReadStream(cs, 1, 128, all), ReadStream(ReadStream(cs, 1, 128, b).cs, 1, 128, all);
            && ReadStream(cs, 1, 128, b).StreamStarved? && whole.StreamRead? && again.StreamRead?
            && whole.message == Some(Message(Header(8, 1, 1, 1, 101), [42]))
            && again.message == Some(Message(Header(8, 1, 1, 1, 102), [42]))
  {
    var cs := ChunkState(Header(8, 1, 0, 1, 100), false, None, 1);
    var read := ChunkState(Header(8, 1, 1, 1, 101), false, Some(Partial(0, [])), 2);
    var b: seq<byte>, all: seq<byte> := [0, 0, 1, 0, 0, 1, 8], [0, 0, 1, 0, 0, 1, 8, 42];
    OneInThree(b);
    OneInThree(all);
    hide U24At;
    assert ReadHeader(cs, 1, b) == HeaderRead(read, 7) && ReadHeader(cs, 1, all) == HeaderRead(read, 7);
    assert b + [42] == all && all[7..] == [42] && [] + [42][..1] == [42];
    hide ReadHeader;
    DeltaAddedAgain(cs, 1, 128, b, [42]);
  }

  lemma OneInThree(b: seq<byte>)
    requires |b| >= 6 && b[0] == b[1] == b[3] == b[4] == 0 && b[2] == b[5] == 1
    ensures U24At(b, 0) == 1 && U24At(b, 3) == 1
  {
    var one: seq<byte> := [0, 0, 1];
    assert one[..2] == [0, 0] && [0, 0][..1] == [0] && FromBigEndian(one) == 1;
    assert b[0..3] == one == b[3..6];
  }

  /** An interrupted type-0 chunk is refused when it is read again. */
  lemma FormatZero(cs: ChunkState, chunkSize: int, b: seq<byte>, more: seq<byte>)
    requires ReadStream(cs, 0, chunkSize, b).StreamStarved?
    ensures var left := ReadStream(cs, 0, chunkSize, b).cs;
            ReadStream(left, 0, chunkSize, b + more) == StreamFailed(ChunkStart, left)
    ensures var o := ReadStream(cs, 0, chunkSize, b + more);
            !(o.StreamFailed? && o.error == ChunkStart)
  {
    hide ParseFields, Int32At;
  }

  // ----- Whole calls -----

  /** Receivers whose streams cannot be told apart; a stream not begun is a fresh one. */
  ghost predicate AlikeReceiver(a: Receiver, b: Receiver) {
    a.chunkSize == b.chunkSize && forall cid :: AlikeStream(StreamOf(a, cid), StreamOf(b, cid))
  }

  ghost predicate AlikeChunk(a: ChunkOutcome, b: ChunkOutcome) {
    match a
    case ChunkStarved(r) => b.ChunkStarved? && AlikeReceiver(r, b.r)
    case ChunkFailed(e, r) => b.ChunkFailed? && e == b.error && AlikeReceiver(r, b.r)
    case ChunkRead(r, n, m) => b.ChunkRead? && n == b.size && m == b.message && AlikeReceiver(r, b.r)
  }

  ghost predicate AlikeReceived(a: Received, b: Received) {
    match a
    case Starved(r, rest) => b.Starved? && rest == b.rest && AlikeReceiver(r, b.r)
    case Failed(e, r, rest) => b.Failed? && e == b.error && rest == b.rest && AlikeReceiver(r, b.r)
    case Delivered(r, rest, m) => b.Delivered? && rest == b.rest && m == b.message && AlikeReceiver(r, b.r)
  }

  /** One stream cannot tell them apart by any chunk. */
  lemma StreamsAlike(a: ChunkState, b: ChunkState, fmt: int, chunkSize: int, bytes: seq<byte>)
    requires 0 <= fmt <= 3 && AlikeStream(a, b)
    ensures AlikeOutcome(ReadStream(a, fmt, chunkSize, bytes), ReadStream(b, fmt, chunkSize, bytes))
  {
    hide ReadHeader, ReadPayload;
    HeadersAlike(a, b, fmt, bytes);
    var o, o' := ReadHeader(a, fmt, bytes), ReadHeader(b, fmt, bytes);
    if o.HeaderRead? {
      PayloadsAlike(o.cs, o'.cs, chunkSize, bytes[o.size..]);
    }
  }

  predicate AlikeHeader(a: HeaderOutcome, b: HeaderOutcome) {
    && AlikeStream(a.cs, b.cs)
    && match a
       case HeaderStarved(_) => b.HeaderStarved?
       case HeaderFailed(e, _) => b.HeaderFailed? && e == b.error
       case HeaderRead(_, n) => b.HeaderRead? && n == b.size
  }

  lemma HeadersAlike(a: ChunkState, b: ChunkState, fmt: int, bytes: seq<byte>)
    requires 0 <= fmt <= 3 && AlikeStream(a, b)
    ensures AlikeHeader(ReadHeader(a, fmt, bytes), ReadHeader(b, fmt, bytes))
  {
    hide ParseFields, Int32At;
  }

  lemma PayloadsAlike(a: ChunkState, b: ChunkState, chunkSize: int, bytes: seq<byte>)
    requires AlikeStream(a, b) && a.msg.Some?
    ensures AlikeOutcome(ReadPayload(a, chunkSize, bytes), ReadPayload(b, chunkSize, bytes))
  {
  }

  lemma PutAlike(a: Receiver, b: Receiver, cid: int, x: ChunkState, y: ChunkState)
    requires AlikeStream(x, y) && a.chunkSize == b.chunkSize
    requires forall c :: c != cid ==> AlikeStream(StreamOf(a, c), StreamOf(b, c))
    ensures AlikeReceiver(Put(a, cid, x), Put(b, cid, y))
  {
    hide AlikeStream;
    forall c ensures AlikeStream(StreamOf(Put(a, cid, x), c), StreamOf(Put(b, cid, y), c)) {
      if c != cid {
        assert StreamOf(Put(a, cid, x), c) == StreamOf(a, c) && StreamOf(Put(b, cid, y), c) == StreamOf(b, c);
      }
    }
  }

  /** If the stream a chunk belongs to ends alike, so does the receiver. */
  lemma ChunkAlike(a: Receiver, b: Receiver, bytes: seq<byte>)
    requires a.chunkSize == b.chunkSize && ReadBasic(bytes).Some?
    requires var basic := ReadBasic(bytes).value;
             && AlikeOutcome(ReadStream(StreamOf(a, basic.cid), basic.fmt, a.chunkSize, bytes[basic.size..]),
                             ReadStream(StreamOf(b, basic.cid), basic.fmt, b.chunkSize, bytes[basic.size..]))
             && forall c :: c != basic.cid ==> AlikeStream(StreamOf(a, c), StreamOf(b, c))
    ensures AlikeChunk(ReadChunk(a, bytes), ReadChunk(b, bytes))
  {
    hide ReadStream, ReadBasic, AlikeReceiver, AlikeStream, Put;
    var Basic(fmt, cid, bh) := ReadBasic(bytes).value;
    var x := ReadStream(StreamOf(a, cid), fmt, a.chunkSize, bytes[bh..]);
    var y := ReadStream(StreamOf(b, cid), fmt, b.chunkSize, bytes[bh..]);
    PutAlike(a, b, cid, x.cs, y.cs);
  }

  /** After chunks that end alike, so does the call. */
  lemma AfterChunkAlike(a: Receiver, b: Receiver, bytes: seq<byte>)
    requires AlikeChunk(ReadChunk(a, bytes), ReadChunk(b, bytes))
    ensures AlikeReceived(Receive(a, bytes), Receive(b, bytes))
    decreases |bytes|, 0
  {
    hide ReadChunk, Hook, IsEmpty, AlikeReceiver;
    var o, o' := ReadChunk(a, bytes), ReadChunk(b, bytes);
    if o.ChunkRead? {
      SameSize(o.r, o'.r);
      if o.message.None? || IsEmpty(o.message.value) {
        ReceiversAlike(o.r, o'.r, bytes[o.size..]);
        assert Receive(a, bytes) == Receive(o.r, bytes[o.size..]) && Receive(b, bytes) == Receive(o'.r, bytes[o.size..]);
      } else if Hook(o.r.chunkSize, o.message.value).HookDone? {
        ResizedAlike(o.r, o'.r, Hook(o.r.chunkSize, o.message.value).chunkSize);
      }
    }
  }

  lemma SameSize(a: Receiver, b: Receiver)
    requires AlikeReceiver(a, b)
    ensures a.chunkSize == b.chunkSize
  {}

  lemma ResizedAlike(a: Receiver, b: Receiver, size: int)
    requires AlikeReceiver(a, b)
    ensures AlikeReceiver(a.(chunkSize := size), b.(chunkSize := size))
  {
    hide AlikeStream;
    forall c ensures AlikeStream(StreamOf(a.(chunkSize := size), c), StreamOf(b.(chunkSize := size), c)) {
      assert AlikeStream(StreamOf(a, c), StreamOf(b, c));
    }
  }

  /** Receivers that cannot be told apart by their streams cannot be told apart by any call. */
  lemma {:induction false} ReceiversAlike(a: Receiver, b: Receiver, bytes: seq<byte>)
    requires AlikeReceiver(a, b)
    ensures AlikeReceived(Receive(a, bytes), Receive(b, bytes))
    decreases |bytes|, 1
  {
    hide Receive, ReadStream, AlikeOutcome;
    if ReadBasic(bytes).Some? {
      var Basic(fmt, cid, bh) := ReadBasic(bytes).value;
      assert AlikeStream(StreamOf(a, cid), StreamOf(b, cid));
      StreamsAlike(StreamOf(a, cid), StreamOf(b, cid), fmt, a.chunkSize, bytes[bh..]);
      ChunkAlike(a, b, bytes);
    }
    AfterChunkAlike(a, b, bytes);
  }

  /** Whether a receive call that read `b` of a chunk, and no more, can be repeated. */
  predicate Repeatable(b: seq<byte>) {
    match ReadBasic(b)
    case None => true
    case Some(basic) => Resumable(basic.fmt, b[basic.size..])
  }

  /** A receive call that was interrupted inside a chunk, at a place where it can be repeated, gives what
      it would have given uninterrupted; one interrupted inside a type-0 chunk never does. */
  lemma RepeatedCall(r: Receiver, b: seq<byte>, more: seq<byte>)
    requires ReadChunk(r, b).ChunkStarved?
    ensures var left := ReadChunk(r, b).r;
            && (Repeatable(b) ==> AlikeReceived(Receive(left, b + more), Receive(r, b + more)))
            && (ReadBasic(b).Some? && ReadBasic(b).value.fmt == 0 ==>
                  && Receive(left, b + more) == Failed(ChunkStart, left, b + more)
                  && !AlikeReceived(Receive(left, b + more), Receive(r, b + more)))
  {
    hide ReadStream, Resumable, AlikeOutcome, Receive;
    var left, all := ReadChunk(r, b).r, b + more;
    if ReadBasic(b).None? {
      SameAlike(r);
      ReceiversAlike(r, r, all);
    } else {
      var Basic(fmt, cid, bh) := ReadBasic(b).value;
      BasicStable(b, more);
      SliceOfLonger(b, more, bh, |b|);
      var rest := b[bh..];
      assert left == Put(r, cid, ReadStream(StreamOf(r, cid), fmt, r.chunkSize, rest).cs);
      if Repeatable(b) {
        TimeoutTransparency(StreamOf(r, cid), fmt, r.chunkSize, rest, more);
        ChunkAlike(left, r, all);
        AfterChunkAlike(left, r, all);
      }
      if fmt == 0 {
        FormatZero(StreamOf(r, cid), r.chunkSize, rest, more);
        RefusedChunk(r, left, cid, bh, all);
      }
    }
  }

  lemma ReceivedAlikeTrans(a: Received, b: Received, c: Received)
    requires AlikeReceived(a, b) && AlikeReceived(b, c)
    ensures AlikeReceived(a, c)
  {
    forall cid ensures AlikeStream(StreamOf(a.r, cid), StreamOf(c.r, cid)) {
      assert AlikeStream(StreamOf(a.r, cid), StreamOf(b.r, cid)) && AlikeStream(StreamOf(b.r, cid), StreamOf(c.r, cid));
    }
  }

  lemma SameAlike(r: Receiver)
    ensures AlikeReceiver(r, r)
  {}

  lemma RefusedChunk(r: Receiver, left: Receiver, cid: int, bh: nat, all: seq<byte>)
    requires ReadBasic(all) == Some(Basic(0, cid, bh)) && left.chunkSize == r.chunkSize && cid in left.streams
    requires ReadStream(left.streams[cid], 0, r.chunkSize, all[bh..]) == StreamFailed(ChunkStart, left.streams[cid])
    requires var o := ReadStream(StreamOf(r, cid), 0, r.chunkSize, all[bh..]); !(o.StreamFailed? && o.error == ChunkStart)
    ensures Receive(left, all) == Failed(ChunkStart, left, all)
    ensures !(Receive(r, all).Failed? && Receive(r, all).error == ChunkStart && Receive(r, all).rest == all)
  {
    hide ReadStream, ReadBasic, Hook, IsEmpty;
    assert Put(left, cid, left.streams[cid]) == left;
  }
}
