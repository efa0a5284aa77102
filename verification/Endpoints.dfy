/** Two protocol objects, one sending and one receiving: the round trip on objects and sockets. */
module Endpoints {
  import opened Bytes
  import opened ChunkFormat
  import opened ChunkWire
  import opened ChunkSend
  import opened ChunkSplit
  import opened Protocol

  function AllEncoded(ms: seq<Outgoing>): (r: seq<Outgoing>)
    ensures |r| == |ms| && forall i :: 0 <= i < |ms| ==> r[i] == Encoded(ms[i])
  {
    seq(|ms|, i requires 0 <= i < |ms| => Encoded(ms[i]))
  }

  predicate AllSendable(ms: seq<Outgoing>) {
    forall m :: m in ms ==> Sendable(Encoded(m))
  }

  lemma AllEncodedSendable(ms: seq<Outgoing>)
    requires AllSendable(ms)
    ensures forall m :: m in AllEncoded(ms) ==> Sendable(m)
  {
    hide Sendable;
  }

  /** Sends messages one after another: all their chunks go out, or a write failed and a prefix of them did. */
  method SendEach(p: RtmpProtocol, ms: seq<Outgoing>) returns (err: Option<Error>)
    requires p.Valid() && AllSendable(ms)
    modifies p`outChunkSize, p.skt`sent, p.skt`failedWrites
    ensures p.Valid() && p.skt.WroteUntil(err)
    ensures forall m :: m in AllEncoded(ms) ==> Sendable(m)
    ensures var whole := old(p.skt.sent) + SendAll(AllEncoded(ms), old(p.outChunkSize));
            if err.None? then p.skt.sent == whole && p.outChunkSize == SizeAfterAll(AllEncoded(ms), old(p.outChunkSize))
            else old(p.skt.sent) <= p.skt.sent <= whole
    decreases |ms|
  {
    hide Sendable, SendBytes, Encoded;
    AllEncodedSendable(ms);
    if ms == [] {
      return None;
    }
    SizeStaysPositive(ms[0]);
    assert AllEncoded(ms)[1..] == AllEncoded(ms[1..]);
    AllEncodedSendable(ms[1..]);
    ghost var first, size := SendBytes(Encoded(ms[0]), p.outChunkSize), SizeAfterSend(ms[0], p.outChunkSize);
    AppendThrough(p.skt.sent, first, [], SendAll(AllEncoded(ms[1..]), size));
    err := p.SendMessage(ms[0]);
    if err.Some? {
      return;
    }
    err := SendEach(p, ms[1..]);
  }

  lemma SizeStaysPositive(m: Outgoing)
    requires Sendable(Encoded(m))
    ensures SizeAfterSend(m, 1) > 0
    ensures forall size: int :: SizeAfterSend(Encoded(m), size) == SizeAfterSend(m, size)
  {}

  /** Receives messages until a call fails. However reads are split, what is returned is what the pending
      bytes hold, in order; if no read was interrupted, nothing of it is missing. */
  method ReceiveEach(p: RtmpProtocol) returns (err: Error, messages: seq<Message>)
    requires p.Valid()
    modifies p, p.buffer, p.skt`incoming, p.skt`interrupted, p.chunkStreams.Values
    ensures p.Valid() && fresh(p.chunkStreams.Values - old(p.chunkStreams.Values)) && p.skt.ReadUntil(Some(err))
    ensures messages <= ReceiveAll(old(p.State()), old(p.Pending())).messages
    ensures p.skt.interrupted == old(p.skt.interrupted) ==>
              ReceiveAll(old(p.State()), old(p.Pending())) == Session(messages, p.Outcome(Some(err), None))
    decreases |p.Pending()|
  {
    hide Receive;
    messages := [];
    ghost var r, b := p.State(), p.Pending();
    var failure, message;
    ghost var boundary;
    failure, message, boundary := p.RecvMessage();
    if failure.Some? {
      return failure.value, [];
    }
    DeliveredShorter(r, b);
    var more;
    err, more := ReceiveEach(p);
    messages := [message.value] + more;
  }

  /** Receives one message, trying again after a read time-out as long as the chunk under way allows it.
      Time-outs at such places do not show: the outcome is that of a call that was never interrupted. */
  method ReceivePatiently(p: RtmpProtocol, tries: nat) returns (err: Option<Error>, message: Option<Message>)
    requires p.Valid()
    modifies p, p.buffer, p.skt`incoming, p.skt`interrupted, p.chunkStreams.Values
    ensures p.Valid() && fresh(p.chunkStreams.Values - old(p.chunkStreams.Values))
    ensures err.None? ==> message.Some?
    ensures err.None? ==>
              AlikeReceived(Delivered(p.State(), p.Pending(), message.value), Receive(old(p.State()), old(p.Pending())))
    ensures err.Some? && !IsSocketError(err.value) ==>
              AlikeReceived(Failed(err.value, p.State(), p.Pending()), Receive(old(p.State()), old(p.Pending())))
    ensures err.Some? && IsSocketError(err.value) && Repeatable(p.buffer.data) ==>
              AlikeReceived(Receive(p.State(), p.Pending()), Receive(old(p.State()), old(p.Pending())))
    ensures p.skt.interrupted == old(p.skt.interrupted) ==>
              AlikeReceived(p.Outcome(err, message), Receive(old(p.State()), old(p.Pending())))
    ensures err == Some(SocketTimeout) && p.skt.incoming != [] && Repeatable(p.buffer.data) ==>
              p.skt.interrupted == old(p.skt.interrupted) + tries + 1
  {
    hide Receive, AlikeReceived, ReadChunk, Repeatable;
    ghost var whole := Receive(p.State(), p.Pending());
    ReceivedAlikeItself(whole);
    var left := tries;
    while true
      invariant p.Valid() && fresh(p.chunkStreams.Values - old(p.chunkStreams.Values))
      invariant AlikeReceived(Receive(p.State(), p.Pending()), whole)
      invariant 0 <= left <= tries && p.skt.interrupted >= old(p.skt.interrupted)
      invariant p.skt.incoming != [] ==> p.skt.interrupted == old(p.skt.interrupted) + (tries - left)
      decreases left
    {
      ghost var before := Receive(p.State(), p.Pending());
      ghost var boundary;
      err, message, boundary := p.RecvMessage();
      if err.None? || !IsSocketError(err.value) {
        return;
      }
      assert p.Pending() == p.buffer.data + p.skt.incoming;
      RepeatedCall(boundary, p.buffer.data, p.skt.incoming);
      if !Repeatable(p.buffer.data) {
        return;
      }
      ReceivedAlikeTrans(Receive(p.State(), p.Pending()), before, whole);
      if err.value != SocketTimeout || left == 0 {
        return;
      }
      left := left - 1;
    }
  }

  lemma ReceivedAlikeItself(o: Received)
    ensures AlikeReceived(o, o)
  {}

  lemma DeliveredShorter(r: Receiver, b: seq<byte>)
    requires Receive(r, b).Delivered?
    ensures |Receive(r, b).rest| < |b|
  {}

  /** Fewer bytes bring fewer of the same messages, and no error of their own. */
  lemma {:induction false} FewerBytes(r: Receiver, b: seq<byte>, more: seq<byte>)
    ensures var part, whole := ReceiveAll(r, b), ReceiveAll(r, b + more);
            part.messages <= whole.messages && (whole.end.Starved? ==> part.end.Starved?)
    decreases |b|
  {
    hide Receive;
    ReceiveStable(r, b, more);
    var o := Receive(r, b);
    if o.Delivered? {
      FewerBytes(o.r, o.rest, more);
    }
  }

  /** The round trip on objects: what one endpoint sends, the other returns, empty messages excepted. If a
      write fails or a read is interrupted, it returns the first of them. */
  method Exchange(ms: seq<Outgoing>)
    returns (near: RtmpProtocol, far: RtmpProtocol, failure: Option<Error>, err: Error, messages: seq<Message>)
    requires AllSendable(ms)
    ensures near.skt.failedWrites == if failure.Some? then 1 else 0
    ensures IsSocketError(err) && far.skt.interrupted == if far.skt.incoming == [] then 0 else 1
    ensures far.skt.incoming == [] ==> messages == ReceiveAll(FreshReceiver, near.skt.sent).messages
    ensures Deliveries(messages) <= ExpectedAll(AllEncoded(ms))
    ensures failure.None? && far.skt.incoming == [] ==>
              && Deliveries(messages) == ExpectedAll(AllEncoded(ms))
              && far.Pending() == [] && far.inChunkSize == near.outChunkSize
  {
    hide Sendable, SendAll, ReceiveAll, ExpectedAll;
    var nearSocket := new Socket([]);
    near := new RtmpProtocol(nearSocket);
    failure := SendEach(near, ms);
    ghost var sent, whole := near.skt.sent, SendAll(AllEncoded(ms), DEFAULT_CHUNK_SIZE);
    assert [] + whole == whole && whole == sent + whole[|sent|..];
    var farSocket := new Socket(near.skt.sent);
    far := new RtmpProtocol(farSocket);
    ghost var r := RoundTrip(AllEncoded(ms));
    FewerBytes(FreshReceiver, sent, whole[|sent|..]);
    err, messages := ReceiveEach(far);
    DeliveriesPrefix(messages, ReceiveAll(FreshReceiver, whole).messages);
  }

  lemma DeliveriesPrefix(a: seq<Message>, b: seq<Message>)
    requires a <= b
    ensures Deliveries(a) <= Deliveries(b)
  {
    assert b == a + b[|a|..];
    DeliveriesConcat(a, b[|a|..]);
  }
}
