/** Every run of a live source, against a machine that knows only positions in the history. */
module LiveRuns {
  import opened Bytes
  import opened ChunkFormat
  import opened LiveSource
  import Amf0

  // ----- What a run is to do -----

  /** What can happen to a source: publications, consumers that join and leave, and clients that take
      messages from the queue of the i-th consumer and destroy the i-th message they hold. */
  datatype Op =
    | PublishMetaData(header: Header, name: Amf0.Text, metadata: seq<Amf0.Property>)
    | PublishAudio(header: Header, payload: seq<byte>)
    | PublishVideo(header: Header, payload: seq<byte>)
    | Join
    | TakeFrom(i: nat, max: nat)
    | FreeHeld(i: nat)
    | Leave(i: nat)

  /** A consumer by positions in the history: where it joined, what was taken from its queue and what is in it. */
  datatype Seat = Seat(joined: nat, taken: seq<nat>, queued: seq<nat>)

  /** A source without messages, payloads and counts: its history, its consumers, and what clients hold. */
  datatype View = View(log: seq<Media>, seats: seq<Seat>, held: seq<nat>)

  predicate IsPublication(op: Op) {
    op.PublishMetaData? || op.PublishAudio? || op.PublishVideo?
  }

  function Published(op: Op): Media
    requires IsPublication(op)
  {
    match op
    case PublishMetaData(header, name, metadata) => Media(Metadata, header, MetadataBytes(name, metadata))
    case PublishAudio(header, payload) => Media(Audio, header, payload)
    case PublishVideo(header, payload) => Media(Video, header, payload)
  }

  function Remove<T>(s: seq<T>, i: nat): seq<T> {
    if i < |s| then s[..i] + s[i + 1..] else s
  }

  /** Every consumer has the n-th message queued. */
  function FannedOut(seats: seq<Seat>, n: nat): (r: seq<Seat>)
    ensures |r| == |seats|
  {
    seq(|seats|, i requires 0 <= i < |seats| => seats[i].(queued := seats[i].queued + [n]))
  }

  function Amount(s: Seat, max: nat): (n: nat)
    ensures n <= |s.queued|
  {
    if max == 0 then |s.queued| else Min(max, |s.queued|)
  }

  function Taking(s: Seat, max: nat): Seat {
    var n := Amount(s, max);
    Seat(s.joined, s.taken + s.queued[..n], s.queued[n..])
  }

  ghost function Step(v: View, op: Op): View {
    match op
    case Join => v.(seats := v.seats + [Seat(|v.log|, [], Prefix(v.log, |v.log|))])
    case TakeFrom(i, max) =>
      if i < |v.seats| then
        var s := v.seats[i];
        v.(seats := v.seats[i := Taking(s, max)], held := v.held + s.queued[..Amount(s, max)])
      else v
    case FreeHeld(i) => v.(held := Remove(v.held, i))
    case Leave(i) => v.(seats := Remove(v.seats, i))
    case _ => View(v.log + [Published(op)], FannedOut(v.seats, |v.log|), v.held)
  }

  ghost function Run(ops: seq<Op>): View {
    if ops == [] then View([], [], []) else Step(Run(ops[..|ops| - 1]), ops[|ops| - 1])
  }

  /** The publications among some operations. */
  function Publications(ops: seq<Op>): seq<Media> {
    if ops == [] then []
    else
      var op := ops[|ops| - 1];
      Publications(ops[..|ops| - 1]) + if IsPublication(op) then [Published(op)] else []
  }

  ghost predicate Receives(s: Seat, log: seq<Media>) {
    s.joined <= |log| && s.taken + s.queued == Stream(log, s.joined, |log|)
  }

  /** In every run the history is what was published, and what a consumer took and has queued is what was
      cached when it joined and everything since. */
  lemma {:induction false} RunDelivers(ops: seq<Op>)
    ensures Run(ops).log == Publications(ops)
    ensures forall s :: s in Run(ops).seats ==> Receives(s, Run(ops).log)
    ensures forall n :: n in Run(ops).held ==> n < |Run(ops).log|
    decreases |ops|
  {
    if ops != [] {
      hide Stream, Receives, Published, Prefix;
      var v, op := Run(ops[..|ops| - 1]), ops[|ops| - 1];
      RunDelivers(ops[..|ops| - 1]);
      forall s | s in Step(v, op).seats ensures Receives(s, Step(v, op).log) {
        StepDelivers(v, op, s);
      }
      forall n | n in Step(v, op).held ensures n < |Step(v, op).log| {
        HeldInHistory(v, op, n);
      }
    }
  }

  lemma StepDelivers(v: View, op: Op, s: Seat)
    requires (forall t :: t in v.seats ==> Receives(t, v.log)) && s in Step(v, op).seats
    ensures Receives(s, Step(v, op).log)
  {
    hide Prefix, Published;
    if op.Join? {
      assert Upto(|v.log|, |v.log|) == [];
    } else if op.TakeFrom? && op.i < |v.seats| {
      var t := v.seats[op.i];
      assert t in v.seats && t.taken + t.queued == Taking(t, op.max).taken + Taking(t, op.max).queued;
    } else if IsPublication(op) {
      var i :| 0 <= i < |v.seats| && s == FannedOut(v.seats, |v.log|)[i];
      assert v.seats[i] in v.seats;
      StreamStable(v.log, Published(op), v.seats[i].joined, |v.log|);
    }
  }

  lemma HeldInHistory(v: View, op: Op, n: nat)
    requires (forall t :: t in v.seats ==> Receives(t, v.log)) && (forall k :: k in v.held ==> k < |v.log|)
    requires n in Step(v, op).held
    ensures n < |Step(v, op).log|
  {
    hide Stream, Published;
    if op.TakeFrom? && op.i < |v.seats| && n !in v.held {
      var s := v.seats[op.i];
      assert s in v.seats && n in s.queued;
      assert n in s.taken + s.queued;
      StreamInHistory(v.log, s.joined, n);
    } else if n !in v.held {
      assert false;
    }
  }

  lemma StreamInHistory(log: seq<Media>, join: nat, n: nat)
    requires join <= |log| && n in Stream(log, join, |log|)
    ensures n < |log|
  {
    hide First, Latest;
    CachedIs(log, join, Metadata);
    CachedIs(log, join, Video);
    CachedIs(log, join, Audio);
  }

  // ----- What a source does -----

  ghost function SeatOf(c: Consumer): Seat
    reads c
  {
    Seat(c.joined, c.taken, c.queued)
  }

  ghost predicate Seated(cs: seq<Consumer>, seats: seq<Seat>)
    reads cs
  {
    |cs| == |seats| && forall i :: 0 <= i < |cs| ==> SeatOf(cs[i]) == seats[i]
  }

  /** The view is that of the source, and of the messages clients hold. */
  ghost predicate Shows(source: Source, held: seq<SharedMessage>, v: View)
    reads source, source.consumers
  {
    source.log == v.log && Positions(held) == v.held && Seated(source.consumers, v.seats)
  }

  /** The messages held are, without repetition, those that are with clients. */
  ghost predicate Holds(held: seq<SharedMessage>, p: map<SharedMessage, Place>) {
    && (forall m :: m in held ==> m in Taken(p)) && (forall m :: m in Taken(p) ==> m in held)
    && forall i, j :: 0 <= i < j < |held| ==> held[i] != held[j]
  }

  /** No payload is forgotten, and none that is gone comes back. */
  twostate predicate Keeps(source: Source)
    reads source, source.ptrs, source.consumers
  {
    && old(source.ptrs) <= source.ptrs && old(source.gone) <= source.gone
    && fresh(source.ptrs - old(source.ptrs))
    && forall c :: c in source.consumers ==> c in old(source.consumers) || fresh(c)
  }

  method Publish(source: Source, op: Op, ghost held: seq<SharedMessage>, ghost v: View)
    requires source.Valid() && Holds(held, source.place) && Shows(source, held, v) && IsPublication(op)
    modifies source, source.ptrs, source.consumers
    ensures source.Valid() && Holds(held, source.place) && Keeps(source)
    ensures Shows(source, held, Step(v, op))
  {
    hide Source.Valid, Extends, WithoutMetadata, MetadataBytes, Prefix;
    ghost var p := source.place;
    MetadataNotTaken(source);
    SeatsReceive(source);
    match op {
      case PublishMetaData(header, name, metadata) =>
        p := WithoutMetadata(p, source.cacheMetadata);
        var _ := source.OnMetaData(header, name, metadata);
      case PublishAudio(header, payload) =>
        source.OnAudio(header, payload);
      case PublishVideo(header, payload) =>
        source.OnVideo(header, payload);
    }
    TakenStays(p, source.place);
    SeatsFanned(source, v, Published(op));
  }

  lemma SeatsReceive(source: Source)
    requires source.Valid()
    ensures forall c :: c in source.consumers ==> Receives(SeatOf(c), source.log)
  {
    hide Stream;
    assert forall c :: c in source.consumers ==> source.QueueOk(c, |source.log|);
  }

  /** A queue is what is left to be taken, so a publication adds its position to each. */
  lemma SeatsFanned(source: Source, v: View, x: Media)
    requires source.Valid() && source.log == v.log + [x] && |v.seats| == |source.consumers|
    requires forall i :: 0 <= i < |v.seats| ==>
               && Receives(v.seats[i], v.log)
               && v.seats[i].joined == source.consumers[i].joined && v.seats[i].taken == source.consumers[i].taken
    ensures Seated(source.consumers, FannedOut(v.seats, |v.log|))
  {
    hide Source.Valid, Stream;
    SeatsReceive(source);
    forall i | 0 <= i < |v.seats| ensures SeatOf(source.consumers[i]) == FannedOut(v.seats, |v.log|)[i] {
      var c, s := source.consumers[i], v.seats[i];
      StreamStable(v.log, x, s.joined, |v.log|);
      assert Receives(SeatOf(c), source.log);
      assert s.taken + (s.queued + [|v.log|]) == c.taken + c.queued;
      SameRest(s.taken, s.queued + [|v.log|], c.queued);
    }
  }

  lemma SameRest(a: seq<nat>, b: seq<nat>, c: seq<nat>)
    requires a + b == a + c
    ensures b == c
  {
    assert (a + b)[|a|..] == b && (a + c)[|a|..] == c;
  }

  lemma GoneIsFreed(source: Source)
    requires source.Valid()
    ensures forall p :: p in source.ptrs ==> (p.freed <==> p in source.gone)
  {
    assert forall p :: p in source.ptrs ==> source.PtrOk(p);
  }

  lemma TakenStays(p: map<SharedMessage, Place>, q: map<SharedMessage, Place>)
    requires Extends(p, q)
    ensures Taken(q) == Taken(p)
  {}

  lemma MetadataNotTaken(source: Source)
    requires source.Valid()
    ensures Taken(WithoutMetadata(source.place, source.cacheMetadata)) == Taken(source.place)
  {
    hide First, Latest, Stream;
    assert source.CacheOk(Metadata, |source.log|);
  }

  lemma HoldsMore(held: seq<SharedMessage>, p: map<SharedMessage, Place>, packets: seq<SharedMessage>, c: Consumer)
    requires Holds(held, p) && forall m :: m in packets ==> m in p && p[m] == InQueue(c)
    requires forall i, j :: 0 <= i < j < |packets| ==> packets[i] != packets[j]
    ensures Holds(held + packets, HandedOver(p, packets))
  {
    forall i, j | 0 <= i < |held| && 0 <= j < |packets| ensures held[i] != packets[j] {
      assert held[i] in held && packets[j] in packets;
    }
  }

  lemma HoldsLess(held: seq<SharedMessage>, p: map<SharedMessage, Place>, i: nat)
    requires Holds(held, p) && i < |held|
    ensures held[i] in p && p[held[i]] == WithClient && Holds(Remove(held, i), p - {held[i]})
  {
    var rest := Remove(held, i);
    assert held[i] in Taken(p);
    forall m | m in held && m != held[i] ensures m in rest {
      var j :| 0 <= j < |held| && held[j] == m;
      assert m == if j < i then rest[j] else rest[j - 1];
    }
    forall j | 0 <= j < |rest| ensures rest[j] in held && rest[j] != held[i] {
      assert rest[j] == held[if j < i then j else j + 1];
    }
    forall j, k | 0 <= j < k < |rest| ensures rest[j] != rest[k] {
      assert rest[j] == held[if j < i then j else j + 1] && rest[k] == held[if k < i then k else k + 1];
    }
    assert Taken(p - {held[i]}) == Taken(p) - {held[i]};
  }


  method Admit(source: Source, ghost held: seq<SharedMessage>, ghost v: View)
    requires source.Valid() && Holds(held, source.place) && Shows(source, held, v)
    modifies source, source.ptrs, source.consumers
    ensures source.Valid() && Holds(held, source.place) && Keeps(source)
    ensures Shows(source, held, Step(v, Join))
  {
    hide Source.Valid, Extends, Prefix, Receives;
    ghost var p := source.place;
    var c := source.CreateConsumer();
    TakenStays(p, source.place);
    SeatsReceive(source);
    NothingTaken(SeatOf(c), v.log);
  }

  lemma NothingTaken(s: Seat, log: seq<Media>)
    requires Receives(s, log) && s.joined == |log| && s.taken == []
    ensures s == Seat(|log|, [], Prefix(log, |log|))
  {
    hide Prefix;
    assert Upto(|log|, |log|) == [];
    assert [] + s.queued == s.queued;
  }

  method TakeSome(source: Source, i: nat, max: nat, held: seq<SharedMessage>, ghost v: View) returns (held': seq<SharedMessage>)
    requires source.Valid() && Holds(held, source.place) && Shows(source, held, v) && i < |source.consumers|
    modifies source, source.ptrs, source.consumers
    ensures source.Valid() && Holds(held', source.place) && Keeps(source)
    ensures Shows(source, held', Step(v, TakeFrom(i, max)))
    ensures held <= held' <= held + old(source.consumers[i].msgs)
  {
    hide Source.Valid, HandedOver, Holds, Taking;
    ghost var p := source.place;
    var c := source.consumers[i];
    ConsumersDistinct(source);
    var packets := source.Take(c, max);
    HoldsMore(held, p, packets, c);
    held' := held + packets;
    SeatTaken(v.seats[i], SeatOf(c), Positions(packets), max);
    assert Positions(held') == v.held + Positions(packets);
  }

  lemma SeatTaken(s: Seat, s': Seat, packets: seq<nat>, max: nat)
    requires s'.joined == s.joined && s'.taken == s.taken + packets && packets + s'.queued == s.queued
    requires |packets| == Amount(s, max)
    ensures s' == Taking(s, max) && packets == s.queued[..Amount(s, max)]
  {}

  lemma ConsumersDistinct(source: Source)
    requires source.Valid()
    ensures forall i, j :: 0 <= i < j < |source.consumers| ==> source.consumers[i] != source.consumers[j]
    ensures forall c :: c in source.consumers ==> |c.queued| == |c.msgs|
  {
    hide Stream;
    assert forall c :: c in source.consumers ==> source.QueueOk(c, |source.log|);
  }

  method FreeOne(source: Source, i: nat, held: seq<SharedMessage>, ghost v: View) returns (held': seq<SharedMessage>)
    requires source.Valid() && Holds(held, source.place) && Shows(source, held, v) && i < |held|
    modifies source, source.ptrs, source.consumers
    ensures source.Valid() && Holds(held', source.place) && Keeps(source) && held' == Remove(held, i)
    ensures Shows(source, held', Step(v, FreeHeld(i)))
  {
    hide Source.Valid, Holds, Seated;
    ghost var p := source.place;
    HoldsLess(held, p, i);
    source.FreeTaken(held[i]);
    held' := Remove(held, i);
    PositionsLeft(held, i);
  }

  lemma PositionsLeft(held: seq<SharedMessage>, i: nat)
    ensures Positions(Remove(held, i)) == Remove(Positions(held), i)
  {}

  method Dismiss(source: Source, i: nat, ghost held: seq<SharedMessage>, ghost v: View)
    requires source.Valid() && Holds(held, source.place) && Shows(source, held, v) && i < |source.consumers|
    modifies source, source.ptrs, source.consumers
    ensures source.Valid() && Holds(held, source.place) && Keeps(source)
    ensures Shows(source, held, Step(v, Leave(i)))
  {
    hide Source.Valid, Holds;
    ghost var p := source.place;
    var c := source.consumers[i];
    ghost var cs := source.consumers;
    ConsumersDistinct(source);
    source.DestroyConsumer(c);
    HoldsWithout(held, p, c);
    RemovedAt(cs, source.consumers, i);
    assert Seated(cs, v.seats);
  }

  lemma RemovedAt(cs: seq<Consumer>, rest: seq<Consumer>, i: nat)
    requires i < |cs| && forall j, k :: 0 <= j < k < |cs| ==> cs[j] != cs[k]
    requires exists j :: 0 <= j < |cs| && cs[j] == cs[i] && rest == cs[..j] + cs[j + 1..]
    ensures rest == Remove(cs, i)
  {}

  lemma HoldsWithout(held: seq<SharedMessage>, p: map<SharedMessage, Place>, c: Consumer)
    requires Holds(held, p)
    ensures Holds(held, WithoutQueue(p, c))
  {
    assert Taken(WithoutQueue(p, c)) == Taken(p);
  }

  /** One operation does to the source what the machine does to its view, and clients keep the messages
      they hold unless they destroy them themselves. */
  method Do(source: Source, op: Op, held: seq<SharedMessage>, ghost v: View) returns (held': seq<SharedMessage>)
    requires source.Valid() && Holds(held, source.place) && Shows(source, held, v)
    modifies source, source.ptrs, source.consumers
    ensures source.Valid() && Holds(held', source.place) && Keeps(source)
    ensures Shows(source, held', Step(v, op))
    ensures forall p :: p in old(source.ptrs) && old(p.freed) ==> p.freed
    ensures match op
            case TakeFrom(i, _) => held <= held' <= held + if i < |old(source.consumers)| then old(source.consumers[i].msgs) else []
            case FreeHeld(i) => held' == Remove(held, i)
            case _ => held' == held
  {
    hide Source.Valid, Holds, Prefix, Published;
    held' := held;
    GoneIsFreed(source);
    match op {
      case Join =>
        Admit(source, held, v);
      case TakeFrom(i, max) =>
        if i < |source.consumers| {
          held' := TakeSome(source, i, max, held, v);
        }
      case FreeHeld(i) =>
        if i < |held| {
          held' := FreeOne(source, i, held, v);
        }
      case Leave(i) =>
        if i < |source.consumers| {
          Dismiss(source, i, held, v);
        }
      case _ =>
        Publish(source, op, held, v);
    }
    GoneIsFreed(source);
  }

  /** Every run of a source from its creation. At its end the source is where the run leads: its history is
      what was published, and every consumer took, or has queued, what was cached when it joined and
      everything since. Every payload is shared by exactly one message more than its count says, or is freed
      and shared by none; and the messages clients hold are live, with their payloads. */
  method Play(ops: seq<Op>) returns (source: Source, held: seq<SharedMessage>)
    ensures fresh(source) && source.Valid() && Holds(held, source.place)
    ensures Shows(source, held, Run(ops))
    ensures source.log == Publications(ops)
    ensures forall c :: c in source.consumers ==> Receives(SeatOf(c), source.log)
    ensures forall m :: m in held ==> m in source.place && !m.ptr.freed && IsCopy(m, source.log)
    ensures forall p :: p in source.ptrs ==>
              |Sharing(source.place.Keys, p)| == if p.freed then 0 else p.sharedCount + 1
  {
    hide Source.Valid, Sharing, Receives, IsCopy, Holds, Step;
    source := new Source();
    held := [];
    NothingHeld();
    for i := 0 to |ops|
      invariant fresh(source) && source.Valid() && Holds(held, source.place)
      invariant Shows(source, held, Run(ops[..i]))
      invariant forall p :: p in source.ptrs ==> fresh(p)
      invariant forall c :: c in source.consumers ==> fresh(c)
    {
      assert forall j :: 0 <= j < |source.consumers| ==> source.consumers[j] in source.consumers;
      assert ops[..i + 1][..i] == ops[..i];
      held := Do(source, ops[i], held, Run(ops[..i]));
    }
    assert ops[..|ops|] == ops;
    RunDelivers(ops);
    SeatsReceive(source);
    InTheEnd(source, held);
  }

  lemma NothingHeld()
    ensures Holds([], map[])
  {}

  lemma InTheEnd(source: Source, held: seq<SharedMessage>)
    requires source.Valid() && Holds(held, source.place)
    ensures forall m :: m in held ==> m in source.place && !m.ptr.freed && IsCopy(m, source.log)
    ensures forall p :: p in source.ptrs ==> |Sharing(source.place.Keys, p)| == if p.freed then 0 else p.sharedCount + 1
  {
    hide Stream, IsCopy, Sharing;
    forall m | m in held ensures m in source.place && !m.ptr.freed {
      assert m in Taken(source.place);
      source.HeldIsNotFreed(m);
    }
    forall p | p in source.ptrs ensures |Sharing(source.place.Keys, p)| == if p.freed then 0 else p.sharedCount + 1 {
      CountIsLiveMessages(source, p);
    }
  }
}
