/** A live stream: one publisher, any number of consumers, and messages whose payload is shared by
    counting references. */
module LiveSource {
  import opened Bytes
  import opened ChunkFormat
  import Amf0
  import Amf0RoundTrip
  import Packets

  const AudioMessage := 8
  const VideoMessage := 9
  const CidVideo := 6
  const CidAudio := 7
  const CidOverConnection2 := 4

  datatype Kind = Metadata | Video | Audio

  /** Something published: the history of a source is a sequence of these. */
  datatype Media = Media(kind: Kind, header: Header, payload: seq<byte>)

  // ----- What a consumer that joins after n messages is to receive -----

  /** The first, or the latest, of the first n messages that has the given kind. */
  ghost function First(log: seq<Media>, n: nat, k: Kind): Option<nat>
    requires n <= |log|
  {
    if n == 0 then None else
      var before := First(log, n - 1, k);
      if before == None && log[n - 1].kind == k then Some(n - 1) else before
  }

  ghost function Latest(log: seq<Media>, n: nat, k: Kind): Option<nat>
    requires n <= |log|
  {
    if n == 0 then None else if log[n - 1].kind == k then Some(n - 1) else Latest(log, n - 1, k)
  }

  /** What a kind's cache holds after n messages. */
  ghost function Cached(log: seq<Media>, n: nat, k: Kind): Option<nat>
    requires n <= |log|
  {
    if k == Metadata then Latest(log, n, k) else First(log, n, k)
  }

  function Ids(i: Option<nat>): seq<nat> {
    if i == None then [] else [i.value]
  }

  ghost function Prefix(log: seq<Media>, n: nat): seq<nat>
    requires n <= |log|
  {
    Ids(Cached(log, n, Metadata)) + Ids(Cached(log, n, Video)) + Ids(Cached(log, n, Audio))
  }

  function Upto(i: nat, n: nat): seq<nat>
    requires i <= n
  {
    seq(n - i, k requires 0 <= k < n - i => i + k)
  }

  /** Everything a consumer that joined after `join` messages is to receive, once n are published. */
  ghost function Stream(log: seq<Media>, join: nat, n: nat): seq<nat>
    requires join <= n <= |log|
  {
    Prefix(log, join) + Upto(join, n)
  }

  lemma {:induction false} CachedStable(log: seq<Media>, more: Media, n: nat, k: Kind)
    requires n <= |log|
    ensures First(log + [more], n, k) == First(log, n, k) && Latest(log + [more], n, k) == Latest(log, n, k)
  {
    if n > 0 {
      CachedStable(log, more, n - 1, k);
    }
  }

  lemma StreamStable(log: seq<Media>, more: Media, join: nat, n: nat)
    requires join <= n <= |log|
    ensures Stream(log + [more], join, n) == Stream(log, join, n)
    ensures Stream(log + [more], join, |log| + 1) == Stream(log, join, |log|) + [|log|]
  {
    CachedStable(log, more, join, Metadata);
    CachedStable(log, more, join, Video);
    CachedStable(log, more, join, Audio);
    assert Upto(join, |log| + 1) == Upto(join, |log|) + [|log|];
  }

  lemma {:induction false} CachedIs(log: seq<Media>, n: nat, k: Kind)
    requires n <= |log|
    ensures First(log, n, k) == None <==> forall i :: 0 <= i < n ==> log[i].kind != k
    ensures First(log, n, k).Some? ==> var i := First(log, n, k).value;
              i < n && log[i].kind == k && forall j :: 0 <= j < i ==> log[j].kind != k
    ensures Latest(log, n, k) == None <==> forall i :: 0 <= i < n ==> log[i].kind != k
    ensures Latest(log, n, k).Some? ==> var i := Latest(log, n, k).value;
              i < n && log[i].kind == k && forall j :: i < j < n ==> log[j].kind != k
  {
    if n > 0 {
      CachedIs(log, n - 1, k);
    }
  }

  /** Nobody receives the same message twice. */
  lemma StreamDistinct(log: seq<Media>, join: nat, n: nat)
    requires join <= n <= |log|
    ensures forall i, j :: 0 <= i < j < |Stream(log, join, n)| ==> Stream(log, join, n)[i] != Stream(log, join, n)[j]
  {
    hide First, Latest;
    CachedIs(log, join, Metadata);
    CachedIs(log, join, Video);
    CachedIs(log, join, Audio);
    ThreeParts(Ids(Cached(log, join, Metadata)), Ids(Cached(log, join, Video)), Ids(Cached(log, join, Audio)), log, join);
    ThenUpto(Prefix(log, join), join, n);
  }

  lemma ThenUpto(p: seq<nat>, join: nat, n: nat)
    requires join <= n && (forall i :: 0 <= i < |p| ==> p[i] < join) && forall i, j :: 0 <= i < j < |p| ==> p[i] != p[j]
    ensures forall i, j :: 0 <= i < j < |p + Upto(join, n)| ==> (p + Upto(join, n))[i] != (p + Upto(join, n))[j]
  {
    var s := p + Upto(join, n);
    assert forall i :: 0 <= i < |s| ==> s[i] == if i < |p| then p[i] else join + (i - |p|);
  }

  lemma ThreeParts(a: seq<nat>, b: seq<nat>, c: seq<nat>, log: seq<Media>, n: nat)
    requires n <= |log| && |a| <= 1 && |b| <= 1 && |c| <= 1
    requires a != [] ==> a[0] < n && log[a[0]].kind == Metadata
    requires b != [] ==> b[0] < n && log[b[0]].kind == Video
    requires c != [] ==> c[0] < n && log[c[0]].kind == Audio
    ensures var p := a + b + c; (forall i :: 0 <= i < |p| ==> p[i] < n) && forall i, j :: 0 <= i < j < |p| ==> p[i] != p[j]
  {}

  function Rank(k: Kind): nat {
    match k
    case Metadata => 0
    case Video => 1
    case Audio => 2
  }

  /** First comes the latest metadata, then the first video, then the first audio message, before everything
      published since. */
  lemma JoinOrder(log: seq<Media>, join: nat, i: nat, j: nat)
    requires join <= |log| && i < j < |Prefix(log, join)|
    ensures var p := Prefix(log, join);
            p[i] < join && p[j] < join && Rank(log[p[i]].kind) < Rank(log[p[j]].kind)
    ensures var p := Prefix(log, join);
            forall k :: 0 <= k < join && log[k].kind == log[p[i]].kind ==> if log[k].kind == Metadata then k <= p[i] else k >= p[i]
  {
    hide First, Latest;
    CachedIs(log, join, Metadata);
    CachedIs(log, join, Video);
    CachedIs(log, join, Audio);
  }

  /** Whenever it joins, a consumer receives the first audio and the first video message, and every
      message published since it joined. */
  lemma StreamComplete(log: seq<Media>, join: nat, n: nat, k: Kind)
    requires join <= n <= |log| && k != Metadata
    ensures First(log, n, k).Some? ==> First(log, n, k).value in Stream(log, join, n)
    ensures forall i :: join <= i < n ==> i in Stream(log, join, n)
  {
    forall i | join <= i < n ensures i in Stream(log, join, n) {
      assert Upto(join, n)[i - join] == i;
    }
    CachedIs(log, n, k);
    CachedIs(log, join, k);
    if First(log, n, k).Some? && First(log, n, k).value < join {
      assert First(log, join, k) == First(log, n, k);
      assert Prefix(log, join) == Ids(Cached(log, join, Metadata)) + Ids(Cached(log, join, Video)) + Ids(Cached(log, join, Audio));
    }
  }

  // ----- Shared payloads -----

  /** A payload and the count of the messages that share it, beyond the first. */
  class SharedPtr {
    const payload: seq<byte>
    const preferCid: int
    var sharedCount: int
    var freed: bool
    // The live messages that point here.
    ghost var holders: set<SharedMessage>

    constructor (payload: seq<byte>, preferCid: int)
      ensures this.payload == payload && this.preferCid == preferCid
      ensures sharedCount == 0 && !freed && holders == {}
    {
      this.payload, this.preferCid := payload, preferCid;
      sharedCount, freed, holders := 0, false, {};
    }

    /** Counted, held by exactly those messages, and freed or not. */
    ghost predicate Shared(ms: set<SharedMessage>, gone: bool)
      reads this
    {
      Counted() && holders == ms && freed == gone
    }

    ghost predicate Counted()
      reads this
    {
      && |holders| == (if freed then 0 else sharedCount + 1)
      && sharedCount >= 0
      && forall m :: m in holders ==> m.ptr == this
    }
  }

  /** Where a live message is kept. */
  datatype Place = InCache(kind: Kind) | InQueue(consumer: Consumer) | WithClient | Passing

  class SharedMessage {
    const header: Header
    const ptr: SharedPtr
    // Its position in the history.
    ghost const published: nat

    constructor Initialize(header: Header, payload: seq<byte>, ghost published: nat)
      ensures this.header == header.(payloadLength := |payload|) && this.published == published
      ensures fresh(ptr) && ptr.payload == payload && ptr.Shared({this}, false)
      ensures ptr.preferCid == if header.messageType == VideoMessage then CidVideo
                               else if header.messageType == AudioMessage then CidAudio else CidOverConnection2
    {
      var cid := if header.messageType == VideoMessage then CidVideo
                 else if header.messageType == AudioMessage then CidAudio else CidOverConnection2;
      var p := new SharedPtr(payload, cid);
      this.header, ptr := header.(payloadLength := |payload|), p;
      this.published := published;
      new;
      p.holders := {this};
    }

    constructor Share(other: SharedMessage, ghost sharing: set<SharedMessage>)
      requires other.ptr.Shared(sharing, false)
      modifies other.ptr`sharedCount, other.ptr`holders
      ensures header == other.header && ptr == other.ptr && published == other.published
      ensures ptr.Shared(sharing + {this}, false) && this !in sharing
    {
      header, ptr := other.header, other.ptr;
      published := other.published;
      new;
      ptr.sharedCount := ptr.sharedCount + 1;
      ptr.holders := ptr.holders + {this};
    }
  }

  /** The destructor: the last message that shares a payload frees it. */
  method Destroy(m: SharedMessage, ghost sharing: set<SharedMessage>)
    requires m.ptr.Shared(sharing, false) && m in sharing
    modifies m.ptr`sharedCount, m.ptr`freed, m.ptr`holders
    ensures m.ptr.Shared(sharing - {m}, sharing == {m})
    ensures m.ptr.freed <==> sharing == {m}
  {
    var p := m.ptr;
    assert sharing == {m} <==> sharing - {m} == {};
    if p.sharedCount == 0 {
      p.freed := true;
    } else {
      p.sharedCount := p.sharedCount - 1;
    }
    p.holders := p.holders - {m};
  }

  class Consumer {
    var msgs: seq<SharedMessage>
    // The positions of the messages queued, of those taken from the queue, and of the first message
    // published after the consumer joined.
    ghost var queued: seq<nat>
    ghost var taken: seq<nat>
    ghost var joined: nat

    constructor (ghost joined: nat)
      ensures msgs == [] && queued == [] && taken == [] && this.joined == joined
    {
      msgs, queued, taken, this.joined := [], [], [], joined;
    }

    /** Takes up to `max` messages from the front of the queue, or all of them when it is zero. */
    method GetPackets(max: nat) returns (packets: seq<SharedMessage>)
      requires |queued| == |msgs|
      modifies this`msgs, this`queued, this`taken
      ensures packets + msgs == old(msgs) && |packets| == if max == 0 then |old(msgs)| else Min(max, |old(msgs)|)
      ensures |queued| == |msgs| && taken + queued == old(taken + queued)
      ensures taken == old(taken) + old(queued)[..|packets|] && queued == old(queued)[|packets|..]
    {
      packets := [];
      if |msgs| == 0 {
        return;
      }
      var count := if max == 0 then |msgs| else Min(max, |msgs|);
      for i := 0 to count
        invariant packets == msgs[..i]
      {
        packets := packets + [msgs[i]];
      }
      taken, queued := taken + queued[..count], queued[count..];
      msgs := if count == |msgs| then [] else msgs[count..];
    }
  }

  class Source {
    var consumers: seq<Consumer>
    var cacheMetadata: SharedMessage?
    var cacheVideo: SharedMessage?
    var cacheAudio: SharedMessage?
    // Everything published, where each live message is kept, every payload ever shared, and those of
    // them that were freed.
    ghost var log: seq<Media>
    ghost var place: map<SharedMessage, Place>
    ghost var ptrs: set<SharedPtr>
    ghost var gone: set<SharedPtr>

    constructor ()
      ensures Valid() && log == [] && consumers == [] && place == map[] && ptrs == {}
    {
      consumers, cacheMetadata, cacheVideo, cacheAudio := [], null, null, null;
      log, place, ptrs, gone := [], map[], {}, {};
    }

    function CacheOf(k: Kind): SharedMessage?
      reads this`cacheMetadata, this`cacheVideo, this`cacheAudio
    {
      match k
      case Metadata => cacheMetadata
      case Video => cacheVideo
      case Audio => cacheAudio
    }

    ghost predicate PtrOk(p: SharedPtr)
      reads this`place, this`gone, p
    {
      p.Shared(Sharing(place.Keys, p), p in gone)
    }

    /** Every payload is counted, its holders are exactly the live messages that point to it, and every
        live message is a copy of one that was published. */
    ghost predicate Counted()
      reads this`place, this`ptrs, this`gone, this`log, ptrs
    {
      && (forall p :: p in ptrs ==> PtrOk(p)) && gone <= ptrs
      && (forall m :: m in place ==> m.ptr in ptrs && IsCopy(m, log))
    }

    /** The consumer's queue holds what it is to receive of the first n messages and did not take yet. */
    ghost predicate QueueOk(c: Consumer, n: nat)
      reads this`log, this`place, c
    {
      && c.joined <= n <= |log| && c.taken + c.queued == Stream(log, c.joined, n)
      && QueueOf(c, c.msgs, c.queued, place)
    }

    ghost predicate QueuesOk(n: nat)
      reads this`log, this`place, this`consumers, consumers
    {
      && (forall i, j :: 0 <= i < j < |consumers| ==> consumers[i] != consumers[j])
      && (forall c :: c in consumers ==> QueueOk(c, n))
    }

    ghost predicate CacheOk(k: Kind, n: nat)
      reads this`log, this`place, this`cacheMetadata, this`cacheVideo, this`cacheAudio
    {
      n <= |log| && CacheIs(CacheOf(k), k, Cached(log, n, k), place)
    }

    ghost predicate CachesOk(n: nat)
      reads this`log, this`place, this`cacheMetadata, this`cacheVideo, this`cacheAudio
    {
      forall k :: CacheOk(k, n)
    }

    /** No live message is lost: each is where its place says. */
    ghost predicate Kept(m: SharedMessage)
      requires m in place
      reads this, consumers
    {
      match place[m]
      case InCache(k) => CacheOf(k) == m
      case InQueue(c) => c in consumers && m in c.msgs
      case WithClient => true
      case Passing => false
    }

    ghost predicate Valid()
      reads this, ptrs, consumers
    {
      && Counted() && QueuesOk(|log|) && CachesOk(|log|)
      && (forall m :: m in place ==> Kept(m))
    }

    /** A copy of a live message, which shares its payload. */
    method Copy(m: SharedMessage, ghost at: Place) returns (c: SharedMessage)
      requires Counted() && m in place
      modifies this`place, ptrs
      ensures Counted() && fresh(c) && place == old(place)[c := at] && c !in old(place)
      ensures c.published == m.published && c.ptr == m.ptr && c.header == m.header
    {
      hide Sharing, IsCopy, SharedPtr.Shared;
      ghost var before := place.Keys;
      HeldIsNotFreed(m);
      c := new SharedMessage.Share(m, Sharing(before, m.ptr));
      place := place[c := at];
      assert place.Keys == before + {c};
      forall p | p in ptrs ensures PtrOk(p) {
        assert old(PtrOk(p));
        SharingWith(before, p, c);
      }
      CopyOfCopy(m, c, log);
    }

    lemma HeldIsNotFreed(m: SharedMessage)
      requires Counted() && m in place
      ensures m.ptr.Shared(Sharing(place.Keys, m.ptr), false) && m in Sharing(place.Keys, m.ptr) && m.ptr !in gone && !m.ptr.freed
    {
      SharingHas(place.Keys, m);
      assert PtrOk(m.ptr);
    }

    /** Destroys a live message. */
    method Drop(m: SharedMessage)
      requires Counted() && m in place
      modifies this`place, this`gone, ptrs
      ensures Counted() && place == old(place) - {m}
      ensures !old(m.ptr.freed) && (m.ptr.freed <==> forall o :: o in place ==> o.ptr != m.ptr)
      ensures gone == old(gone) + if m.ptr.freed then {m.ptr} else {}
    {
      hide Sharing, IsCopy, SharedPtr.Shared;
      ghost var before := place.Keys;
      HeldIsNotFreed(m);
      Destroy(m, Sharing(before, m.ptr));
      place := place - {m};
      assert place.Keys == before - {m};
      gone := gone + if m.ptr.freed then {m.ptr} else {};
      forall p | p in ptrs ensures PtrOk(p) {
        assert old(PtrOk(p));
        SharingWithout(before, p, m);
      }
      SharingNone(place.Keys, m.ptr);
      SharingWithout(before, m.ptr, m);
      assert Sharing(before, m.ptr) == {m} <==> Sharing(before, m.ptr) - {m} == {};
    }

    /** The message a publication is first kept in. */
    method NewMessage(kind: Kind, header: Header, payload: seq<byte>) returns (m: SharedMessage)
      requires Counted()
      modifies this`log, this`place, this`ptrs
      ensures Counted() && log == old(log) + [Media(kind, header, payload)] && fresh(m) && fresh(m.ptr)
      ensures m.published == |old(log)| && m !in old(place) && place == old(place)[m := Passing]
      ensures ptrs == old(ptrs) + {m.ptr}
    {
      m := new SharedMessage.Initialize(header, payload, |log|);
      log := log + [Media(kind, header, payload)];
      place := place[m := Passing];
      ptrs := ptrs + {m.ptr};
    }

    /** Everything but the message being published is where its place says. */
    ghost predicate KeptBut(m: SharedMessage)
      reads this, consumers
    {
      forall o :: o in place && o != m ==> Kept(o)
    }

    /** Appends a copy to a consumer's queue. */
    method Append(c: Consumer, m: SharedMessage)
      requires Counted() && m in place && QueueOf(c, c.msgs, c.queued, place)
      modifies this`place, ptrs, c`msgs, c`queued
      ensures Counted() && QueueOf(c, c.msgs, c.queued, place) && Extends(old(place), place)
      ensures forall o :: o in place && o !in old(place) ==> place[o] == InQueue(c) && o in c.msgs
      ensures old(c.msgs) <= c.msgs && c.queued == old(c.queued) + [m.published]
    {
      hide Counted, QueueOf;
      var copy := Copy(m, InQueue(c));
      QueueGrows(c, c.msgs, c.queued, old(place), place, copy);
      c.msgs := c.msgs + [copy];
      c.queued := c.queued + [m.published];
    }

    method Enqueue(c: Consumer, m: SharedMessage)
      requires Counted() && m in place && m.published == |log| - 1 && c in consumers && QueueOk(c, |log| - 1)
      modifies this`place, ptrs, c`msgs, c`queued
      ensures Counted() && QueueOk(c, |log|) && Extends(old(place), place)
      ensures forall o :: o in place && o !in old(place) ==> place[o] == InQueue(c) && o in c.msgs
      ensures old(c.msgs) <= c.msgs
    {
      hide Stream, Counted, QueueOf;
      StreamStep(log, c.joined);
      Append(c, m);
    }

    /** The first i consumers have what they are to have of the latest message; the others not yet. */
    ghost predicate FannedOut(i: nat)
      reads this`log, this`place, this`consumers, consumers
    {
      && |log| > 0 && (forall i, j :: 0 <= i < j < |consumers| ==> consumers[i] != consumers[j])
      && forall j :: 0 <= j < |consumers| ==> QueueOk(consumers[j], if j < i then |log| else |log| - 1)
    }

    method SendTo(i: nat, m: SharedMessage)
      requires Counted() && m in place && m.published == |log| - 1 && i < |consumers| && FannedOut(i) && KeptBut(m)
      modifies this`place, ptrs, consumers`msgs, consumers`queued
      ensures Counted() && FannedOut(i + 1) && Extends(old(place), place) && KeptBut(m)
    {
      hide Stream, Counted, QueueOf;
      var c := consumers[i];
      Enqueue(c, m);
      forall j | 0 <= j < |consumers| && j != i
        ensures QueueOk(consumers[j], if j < i then |log| else |log| - 1)
      {
        var d := consumers[j];
        QueueStays(d, d.msgs, d.queued, old(place), place);
      }
      forall o | o in place && o != m ensures Kept(o) {
        assert o in old(place) ==> old(Kept(o));
      }
    }

    /** Copies a message to every consumer, in the order they joined. */
    method FanOut(m: SharedMessage)
      requires Counted() && m in place && m.published == |log| - 1 && QueuesOk(|log| - 1) && KeptBut(m)
      modifies this`place, ptrs, consumers`msgs, consumers`queued
      ensures Counted() && QueuesOk(|log|) && Extends(old(place), place) && KeptBut(m)
      ensures old(CachesOk(|log|)) ==> CachesOk(|log|)
      ensures old(CachesOk(|log| - 1)) ==> CachesOk(|log| - 1)
    {
      hide Counted, QueueOk, KeptBut, First, Latest;
      for i := 0 to |consumers|
        invariant Counted() && Extends(old(place), place) && KeptBut(m) && FannedOut(i)
      {
        SendTo(i, m);
      }
      forall k, n: nat | n <= |log| && CacheIs(CacheOf(k), k, Cached(log, n, k), old(place)) ensures CacheOk(k, n) {
        assert CacheIs(CacheOf(k), k, Cached(log, n, k), place);
      }
      assert forall k, n: nat :: old(CacheOk(k, n)) ==> CacheOk(k, n);
    }

    /** Records a publication: it is in the history, and nowhere else yet. */
    method Record(kind: Kind, header: Header, payload: seq<byte>) returns (m: SharedMessage)
      requires Counted() && QueuesOk(|log|) && (forall o :: o in place ==> Kept(o))
      modifies this`log, this`place, this`ptrs
      ensures log == old(log) + [Media(kind, header, payload)] && m.published == |old(log)|
      ensures Counted() && QueuesOk(|old(log)|) && KeptBut(m) && fresh(m)
      ensures m !in old(place) && place == old(place)[m := Passing]
      ensures fresh(m.ptr) && ptrs == old(ptrs) + {m.ptr}
      ensures forall k :: old(CacheOk(k, |log|)) ==> CacheOk(k, |old(log)|)
    {
      hide Stream, Counted, QueueOf, First, Latest;
      m := NewMessage(kind, header, payload);
      forall c | c in consumers ensures QueueOk(c, |log| - 1) {
        StreamStable(old(log), Media(kind, header, payload), c.joined, |old(log)|);
        QueueStays(c, c.msgs, c.queued, old(place), place);
      }
      forall o | o in place && o != m ensures Kept(o) {
        assert o in old(place) && old(Kept(o));
      }
      forall k | old(CacheOk(k, |log|)) ensures CacheOk(k, |old(log)|) {
        CachedStep(old(log), Media(kind, header, payload), k);
      }
    }

    /** A copy to be kept in a cache. */
    method CacheCopy(m: SharedMessage, ghost k: Kind) returns (c: SharedMessage)
      requires Counted() && QueuesOk(|log|) && KeptBut(m) && m in place
      modifies this`place, ptrs
      ensures Counted() && QueuesOk(|log|) && fresh(c) && c !in old(place) && place == old(place)[c := InCache(k)]
      ensures c.published == m.published
      ensures forall o :: o in old(place) && o != m ==> Kept(o)
    {
      hide Stream, Counted, QueueOf;
      c := Copy(m, InCache(k));
      forall d | d in consumers ensures QueueOk(d, |log|) {
        QueueStays(d, d.msgs, d.queued, old(place), place);
      }
      forall o | o in old(place) && o != m ensures Kept(o) {
        assert old(Kept(o));
      }
    }

    /** Destroys the message a publication came in, once it is copied. */
    method Finish(m: SharedMessage)
      requires Counted() && QueuesOk(|log|) && CachesOk(|log|) && KeptBut(m) && m in place && place[m] == Passing
      modifies this`place, this`gone, ptrs
      ensures Valid() && place == old(place) - {m} && old(gone) <= gone
    {
      hide Stream, Counted, QueueOf, First, Latest;
      Drop(m);
      forall c | c in consumers ensures QueueOk(c, |log|) {
        QueueWithout(c, c.msgs, c.queued, old(place), m);
      }
      forall k ensures CacheOk(k, |log|) {
        assert old(CacheOk(k, |log|));
      }
      forall o | o in place ensures Kept(o) {
        assert old(Kept(o));
      }
    }

    /** The caches are as before the latest publication. */
    ghost predicate CachesBefore()
      reads this`log, this`place, this`cacheMetadata, this`cacheVideo, this`cacheAudio
    {
      |log| > 0 && CachesOk(|log| - 1)
    }

    /** Publishes to every consumer. The caches are left for last, and need no change unless empty. */
    method Broadcast(kind: Kind, header: Header, payload: seq<byte>) returns (m: SharedMessage)
      requires Valid() && kind != Metadata
      modifies this`log, this`place, this`ptrs, ptrs, consumers`msgs, consumers`queued
      ensures Counted() && QueuesOk(|log|) && KeptBut(m) && m in place && place[m] == Passing
      ensures log == old(log) + [Media(kind, header, payload)] && m.published == |log| - 1
      ensures CachesBefore() && (CacheOf(kind) != null ==> CachesOk(|log|))
      ensures fresh(ptrs - old(ptrs)) && old(ptrs) <= ptrs && m !in old(place) && Extends(old(place), place)
    {
      hide Counted, QueuesOk, First, Latest;
      m := Record(kind, header, payload);
      assert CachesOk(|old(log)|) by {
        assert forall k :: old(CacheOk(k, |log|));
      }
      hide CacheOk, Extends;
      ghost var p := place;
      ExtendsWith(old(place), m, Passing);
      FanOut(m);
      ExtendsTrans(old(place), p, place);
      assert Extends(p, place) && m in p && p[m] == Passing;
      StillThere(p, place, m);
      if CacheOf(kind) != null {
        CachesNeedNoChange(old(log), Media(kind, header, payload));
      }
    }

    lemma CachesNeedNoChange(before: seq<Media>, x: Media)
      requires log == before + [x] && x.kind != Metadata && CachesOk(|before|) && CacheOf(x.kind) != null
      ensures CachesOk(|log|)
    {
      hide First, Latest;
      forall k ensures CacheOk(k, |log|) {
        assert CacheOk(k, |before|);
        CachedStep(before, x, k);
      }
    }

    method OnAudio(header: Header, payload: seq<byte>)
      requires Valid()
      modifies this`log, this`place, this`ptrs, this`gone, this`cacheAudio, ptrs, consumers`msgs, consumers`queued
      ensures Valid() && log == old(log) + [Media(Audio, header, payload)]
      ensures Extends(old(place), place) && old(ptrs) <= ptrs && fresh(ptrs - old(ptrs)) && old(gone) <= gone
    {
      hide Counted, QueuesOk, CachesOk, CachesBefore, Valid, Extends, KeptBut, Cached;
      var m := Broadcast(Audio, header, payload);
      ghost var p := place;
      if cacheAudio == null {
        KeepAudio(m);
        ExtendsTrans(old(place), p, place);
      }
      p := place;
      Finish(m);
      ExtendsWithout(old(place), p, m);
    }

    method KeepAudio(m: SharedMessage)
      requires Counted() && QueuesOk(|log|) && KeptBut(m) && m in place && place[m] == Passing
      requires |log| > 0 && log[|log| - 1].kind == Audio && m.published == |log| - 1 && cacheAudio == null && CachesBefore()
      modifies this`place, this`cacheAudio, ptrs
      ensures Counted() && QueuesOk(|log|) && KeptBut(m) && m in place && place[m] == Passing && CachesOk(|log|)
      ensures Extends(old(place), place)
    {
      hide Counted, QueuesOk;
      cacheAudio := CacheCopy(m, Audio);
      forall k ensures CacheOk(k, |log|) {
        assert old(CacheOk(k, |log| - 1));
      }
    }

    method OnVideo(header: Header, payload: seq<byte>)
      requires Valid()
      modifies this`log, this`place, this`ptrs, this`gone, this`cacheVideo, ptrs, consumers`msgs, consumers`queued
      ensures Valid() && log == old(log) + [Media(Video, header, payload)]
      ensures Extends(old(place), place) && old(ptrs) <= ptrs && fresh(ptrs - old(ptrs)) && old(gone) <= gone
    {
      hide Counted, QueuesOk, CachesOk, CachesBefore, Valid, Extends, KeptBut, Cached;
      var m := Broadcast(Video, header, payload);
      ghost var p := place;
      if cacheVideo == null {
        KeepVideo(m);
        ExtendsTrans(old(place), p, place);
      }
      p := place;
      Finish(m);
      ExtendsWithout(old(place), p, m);
    }

    method KeepVideo(m: SharedMessage)
      requires Counted() && QueuesOk(|log|) && KeptBut(m) && m in place && place[m] == Passing
      requires |log| > 0 && log[|log| - 1].kind == Video && m.published == |log| - 1 && cacheVideo == null && CachesBefore()
      modifies this`place, this`cacheVideo, ptrs
      ensures Counted() && QueuesOk(|log|) && KeptBut(m) && m in place && place[m] == Passing && CachesOk(|log|)
      ensures Extends(old(place), place)
    {
      hide Counted, QueuesOk;
      cacheVideo := CacheCopy(m, Video);
      forall k ensures CacheOk(k, |log|) {
        assert old(CacheOk(k, |log| - 1));
      }
    }

    /** Destroys the cached metadata. */
    method DropMetadata()
      requires Valid()
      modifies this`place, this`gone, this`cacheMetadata, ptrs
      ensures Counted() && QueuesOk(|log|) && (forall o :: o in place ==> Kept(o))
      ensures place == WithoutMetadata(old(place), old(cacheMetadata)) && old(gone) <= gone
      ensures cacheMetadata == null && CacheOk(Video, |log|) && CacheOk(Audio, |log|)
    {
      hide Stream, Counted, QueueOf, First, Latest;
      assert CacheOk(Metadata, |log|) && CacheOk(Video, |log|) && CacheOk(Audio, |log|);
      if cacheMetadata != null {
        var m := cacheMetadata;
        Drop(m);
        forall c | c in consumers ensures QueueOk(c, |log|) {
          QueueWithout(c, c.msgs, c.queued, old(place), m);
        }
        cacheMetadata := null;
        forall o | o in place ensures Kept(o) {
          assert old(Kept(o));
        }
      }
    }

    /** Metadata gets the name of the server and is encoded again. That never fails, so it is published. */
    method OnMetaData(header: Header, name: Amf0.Text, metadata: seq<Amf0.Property>) returns (ok: bool)
      requires Valid()
      modifies this`log, this`place, this`ptrs, this`gone, this`cacheMetadata, ptrs, consumers`msgs, consumers`queued
      ensures Valid() && ok && log == old(log) + [Media(Metadata, header, MetadataBytes(name, metadata))]
      ensures Extends(WithoutMetadata(old(place), old(cacheMetadata)), place)
      ensures old(ptrs) <= ptrs && fresh(ptrs - old(ptrs)) && old(gone) <= gone
    {
      hide Valid, Extends, WithoutMetadata;
      var packet := Packets.OnMetaData(name, Amf0.Put(metadata, ServerKey(), Amf0.String(Signature())));
      var size := Packets.PacketSize(packet);
      ok := true;
      if size > 0 {
        var payload;
        ok, payload := Packets.EncodePayload(packet);
        if ok {
          PublishMetadata(header, payload);
        }
      }
    }

    method PublishMetadata(header: Header, payload: seq<byte>)
      requires Valid()
      modifies this`log, this`place, this`ptrs, this`gone, this`cacheMetadata, ptrs, consumers`msgs, consumers`queued
      ensures Valid() && log == old(log) + [Media(Metadata, header, payload)]
      ensures Extends(WithoutMetadata(old(place), old(cacheMetadata)), place)
      ensures old(ptrs) <= ptrs && fresh(ptrs - old(ptrs)) && old(gone) <= gone
    {
      hide Counted, QueuesOk, KeptBut, CacheOk, Extends, WithoutMetadata;
      DropMetadata();
      ghost var p := place;
      var m := RecordMetadata(header, payload);
      ExtendsWith(p, m, InCache(Metadata));
      ghost var q := place;
      FanOut(m);
      ExtendsTrans(p, q, place);
      AllKept(m, q);
    }

    /** Metadata goes to the history and to its empty cache. */
    method RecordMetadata(header: Header, payload: seq<byte>) returns (m: SharedMessage)
      requires Counted() && QueuesOk(|log|) && (forall o :: o in place ==> Kept(o))
      requires cacheMetadata == null && CacheOk(Video, |log|) && CacheOk(Audio, |log|)
      modifies this`log, this`place, this`ptrs, this`cacheMetadata
      ensures log == old(log) + [Media(Metadata, header, payload)] && m.published == |old(log)|
      ensures Counted() && QueuesOk(|old(log)|) && KeptBut(m) && CachesOk(|log|) && cacheMetadata == m
      ensures m !in old(place) && place == old(place)[m := InCache(Metadata)]
      ensures old(ptrs) <= ptrs && fresh(ptrs - old(ptrs))
    {
      hide Counted, QueuesOk, KeptBut, CacheOk;
      m := Record(Metadata, header, payload);
      KeepMetadata(m, old(log));
    }

    lemma AllKept(m: SharedMessage, p: map<SharedMessage, Place>)
      requires KeptBut(m) && m in p && p[m] == InCache(Metadata) && Extends(p, place) && cacheMetadata == m
      ensures forall o :: o in place ==> Kept(o)
    {}

    /** The message metadata came in is itself the one cached. */
    method KeepMetadata(m: SharedMessage, ghost log0: seq<Media>)
      requires Counted() && QueuesOk(|log0|) && KeptBut(m) && m in place && place[m] == Passing && m.published == |log0|
      requires |log| == |log0| + 1 && log == log0 + [log[|log0|]] && log[|log0|].kind == Metadata && cacheMetadata == null
      requires CacheOk(Video, |log0|) && CacheOk(Audio, |log0|)
      modifies this`place, this`cacheMetadata
      ensures Counted() && QueuesOk(|log0|) && KeptBut(m) && CachesOk(|log|)
      ensures cacheMetadata == m && place == old(place)[m := InCache(Metadata)]
    {
      hide Stream, Counted, QueueOf, First, Latest;
      ghost var p := place;
      cacheMetadata := m;
      Settle(m, InCache(Metadata));
      forall c | c in consumers ensures QueueOk(c, |log0|) {
        assert old(QueueOk(c, |log0|));
        QueueElsewhere(c, c.msgs, c.queued, p, m, InCache(Metadata));
      }
      forall k ensures CacheOk(k, |log|) {
        CachedStep(log0, log[|log0|], k);
      }
      forall o | o in place && o != m ensures Kept(o) {
        assert old(Kept(o));
      }
    }

    /** A live message is now kept elsewhere. */
    ghost method Settle(m: SharedMessage, at: Place)
      requires Counted() && m in place
      modifies this`place
      ensures Counted() && place == old(place)[m := at]
    {
      place := place[m := at];
      assert place.Keys == old(place.Keys);
    }

    /** A consumer is joining: everything is in order but the contents of its queue. */
    ghost predicate Joining(c: Consumer)
      reads this, ptrs, consumers, c
    {
      && Counted() && CachesOk(|log|) && (forall o :: o in place ==> Kept(o))
      && (forall i, j :: 0 <= i < j < |consumers| ==> consumers[i] != consumers[j])
      && (forall d :: d in consumers && d != c ==> QueueOk(d, |log|))
      && c in consumers && QueueOf(c, c.msgs, c.queued, place)
    }

    /** Gives a joining consumer a copy of what a cache holds, if anything. */
    method Give(c: Consumer, m: SharedMessage?, ghost k: Kind)
      requires Joining(c) && m == CacheOf(k)
      modifies this`place, ptrs, c`msgs, c`queued
      ensures Extends(old(place), place)
      ensures Joining(c) && c.queued == old(c.queued) + Ids(Cached(log, |log|, k))
    {
      hide Stream, Counted, QueueOf, First, Latest;
      assert CacheOk(k, |log|);
      if m != null {
        Append(c, m);
        forall d | d in consumers && d != c ensures QueueOk(d, |log|) {
          QueueStays(d, d.msgs, d.queued, old(place), place);
        }
        forall o | o in place ensures Kept(o) {
          assert o in old(place) ==> old(Kept(o));
        }
        forall j ensures CacheOk(j, |log|) {
          assert old(CacheOk(j, |log|));
        }
      }
    }

    /** A consumer that joins gets copies of the cached messages, and everything published from then on. */
    method CreateConsumer() returns (c: Consumer)
      requires Valid()
      modifies this`place, this`consumers, ptrs
      ensures Valid() && fresh(c) && consumers == old(consumers) + [c] && c.joined == |log| && c.taken == []
      ensures Extends(old(place), place)
    {
      hide Joining, Valid, Cached;
      c := Admit();
      Give(c, cacheMetadata, Metadata);
      Give(c, cacheVideo, Video);
      Give(c, cacheAudio, Audio);
      Joined(c);
    }

    method Admit() returns (c: Consumer)
      requires Valid()
      modifies this`consumers
      ensures fresh(c) && consumers == old(consumers) + [c] && Joining(c)
      ensures c.joined == |log| && c.taken == [] && c.queued == []
    {
      hide Counted, CachesOk, QueueOf, Stream;
      c := new Consumer(|log|);
      consumers := consumers + [c];
      EmptyQueue(c, place);
    }

    lemma Joined(c: Consumer)
      requires Joining(c) && c.joined == |log| && c.taken == []
      requires c.queued == [] + Ids(Cached(log, |log|, Metadata)) + Ids(Cached(log, |log|, Video)) + Ids(Cached(log, |log|, Audio))
      ensures Valid()
    {
      hide Cached, QueueOf, Counted;
      assert Upto(|log|, |log|) == [];
      assert c.taken + c.queued == Stream(log, |log|, |log|);
    }

    /** A client takes messages from its consumer's queue; they are its own from then on. */
    method Take(c: Consumer, max: nat) returns (packets: seq<SharedMessage>)
      requires Valid() && c in consumers
      modifies this`place, c`msgs, c`queued, c`taken
      ensures Valid() && packets + c.msgs == old(c.msgs)
      ensures |packets| == if max == 0 then |old(c.msgs)| else Min(max, |old(c.msgs)|)
      ensures forall m :: m in packets ==> m in old(place) && old(place)[m] == InQueue(c)
      ensures forall i, j :: 0 <= i < j < |packets| ==> packets[i] != packets[j]
      ensures place == HandedOver(old(place), packets)
      ensures c.taken == old(c.taken) + Positions(packets) && Positions(packets) + c.queued == old(c.queued)
    {
      hide Stream, Counted, QueueOf, First, Latest, HandedOver;
      ghost var p := place;
      assert QueueOk(c, |log|);
      packets := Fetch(c, max);
      forall d | d in consumers && d != c ensures QueueOk(d, |log|) {
        assert old(QueueOk(d, |log|));
        QueueUntaken(d, c, packets, d.msgs, d.queued, p, place);
      }
      forall k ensures CacheIs(CacheOf(k), k, Cached(log, |log|, k), p) {
        assert old(CacheOk(k, |log|));
      }
      CachesUntaken(c, packets, p);
      forall m | m in place ensures Kept(m) {
        assert old(Kept(m));
        HandedOverAt(p, packets, m);
      }
    }

    method Fetch(c: Consumer, max: nat) returns (packets: seq<SharedMessage>)
      requires Counted() && QueueOk(c, |log|)
      modifies this`place, c`msgs, c`queued, c`taken
      ensures Counted() && QueueOk(c, |log|) && packets + c.msgs == old(c.msgs)
      ensures |packets| == if max == 0 then |old(c.msgs)| else Min(max, |old(c.msgs)|)
      ensures forall m :: m in packets ==> m in old(place) && old(place)[m] == InQueue(c)
      ensures forall i, j :: 0 <= i < j < |packets| ==> packets[i] != packets[j]
      ensures place == HandedOver(old(place), packets)
      ensures c.taken == old(c.taken) + Positions(packets) && Positions(packets) + c.queued == old(c.queued)
    {
      hide Stream, Counted, QueueOf, First, Latest, HandedOver;
      ghost var p, msgs, queued := place, c.msgs, c.queued;
      QueuePlaces(c, msgs, queued, p);
      packets := c.GetPackets(max);
      FrontPositions(packets, msgs);
      HandOver(packets);
      QueueTaken(c, packets, msgs, queued, p, place);
      DistinctFront(c, packets, msgs, queued, p);
    }

    /** The messages now belong to a client. */
    ghost method HandOver(packets: seq<SharedMessage>)
      requires Counted()
      modifies this`place
      ensures Counted() && place == HandedOver(old(place), packets)
    {
      place := HandedOver(place, packets);
    }

    lemma CachesUntaken(c: Consumer, packets: seq<SharedMessage>, p: map<SharedMessage, Place>)
      requires forall k :: CacheIs(CacheOf(k), k, Cached(log, |log|, k), p)
      requires (forall m :: m in packets ==> m in p && p[m] == InQueue(c)) && place == HandedOver(p, packets)
      ensures CachesOk(|log|)
    {
      forall k ensures CacheOk(k, |log|) {
        assert CacheIs(CacheOf(k), k, Cached(log, |log|, k), p);
      }
    }

    /** A client destroys a message it took. */
    method FreeTaken(m: SharedMessage)
      requires Valid() && m in place && place[m] == WithClient
      modifies this`place, this`gone, ptrs
      ensures Valid() && place == old(place) - {m} && old(gone) <= gone && !old(m.ptr.freed)
      ensures m.ptr.freed <==> forall o :: o in place ==> o.ptr != m.ptr
    {
      hide Stream, Counted, QueueOf, First, Latest;
      Drop(m);
      forall c | c in consumers ensures QueueOk(c, |log|) {
        QueueWithout(c, c.msgs, c.queued, old(place), m);
      }
      forall k ensures CacheOk(k, |log|) {
        assert old(CacheOk(k, |log|));
      }
      forall o | o in place ensures Kept(o) {
        assert old(Kept(o));
      }
    }

    /** A consumer is leaving: of its queue, the messages from position i on are left. */
    ghost predicate Leaving(c: Consumer, i: nat)
      reads this, ptrs, consumers, c
    {
      && Counted() && CachesOk(|log|)
      && (forall a, b :: 0 <= a < b < |consumers| ==> consumers[a] != consumers[b])
      && (forall d :: d in consumers && d != c ==> QueueOk(d, |log|))
      && i <= |c.msgs| && |c.queued| == |c.msgs| && QueueOf(c, c.msgs[i..], c.queued[i..], place)
      && (forall m :: m in place ==> if place[m] == InQueue(c) then m in c.msgs[i..] else Kept(m))
    }

    method DropQueued(c: Consumer, i: nat)
      requires Leaving(c, i) && i < |c.msgs|
      modifies this`place, this`gone, ptrs
      ensures Leaving(c, i + 1) && old(gone) <= gone
      ensures c.msgs[i] in old(place) && old(place)[c.msgs[i]] == InQueue(c) && place == old(place) - {c.msgs[i]}
    {
      hide Stream, Counted, First, Latest;
      var m := c.msgs[i];
      assert c.msgs[i..][0] == m;
      Drop(m);
      QueueShrinks(c, c.msgs[i..], c.queued[i..], old(place));
      assert c.msgs[i..][1..] == c.msgs[i + 1..] && c.queued[i..][1..] == c.queued[i + 1..];
      forall d | d in consumers && d != c ensures QueueOk(d, |log|) {
        assert old(QueueOk(d, |log|));
        QueueWithout(d, d.msgs, d.queued, old(place), m);
      }
      forall k ensures CacheOk(k, |log|) {
        assert old(CacheOk(k, |log|));
      }
      forall o | o in place && place[o] != InQueue(c) ensures Kept(o) {
        assert old(Kept(o));
      }
    }

    /** The destructor of a consumer: what is left in its queue is destroyed, and the source forgets it. */
    method DestroyConsumer(c: Consumer)
      requires Valid() && c in consumers
      modifies this`place, this`gone, this`consumers, ptrs, c`msgs
      ensures Valid() && c !in consumers && old(gone) <= gone
      ensures place == WithoutQueue(old(place), c)
      ensures exists i :: 0 <= i < |old(consumers)| && old(consumers)[i] == c && consumers == old(consumers[..i] + consumers[i + 1..])
    {
      hide Counted, CachesOk, QueueOk, QueueOf;
      BeginsToLeave(c);
      for i := 0 to |c.msgs|
        invariant Leaving(c, i) && consumers == old(consumers) && c.msgs == old(c.msgs) && old(gone) <= gone
        invariant forall m :: m in place ==> m in old(place) && place[m] == old(place)[m]
        invariant forall m :: m in old(place) && old(place)[m] != InQueue(c) ==> m in place
      {
        DropQueued(c, i);
      }
      Forget(c);
    }

    /** The source no longer knows a consumer whose messages are all destroyed. */
    method Forget(c: Consumer)
      requires Leaving(c, |c.msgs|) && c in consumers
      modifies this`consumers, c`msgs
      ensures Valid() && c !in consumers && forall m :: m in place ==> place[m] != InQueue(c)
      ensures exists i :: 0 <= i < |old(consumers)| && old(consumers)[i] == c && consumers == old(consumers[..i] + consumers[i + 1..])
    {
      hide Counted, CachesOk, QueueOk;
      NoneQueued(c);
      c.msgs := [];
      var i :| 0 <= i < |consumers| && consumers[i] == c;
      consumers := consumers[..i] + consumers[i + 1..];
    }

    lemma NoneQueued(c: Consumer)
      requires Leaving(c, |c.msgs|)
      ensures forall m :: m in place ==> place[m] != InQueue(c)
    {
      assert c.msgs[|c.msgs|..] == [];
    }

    lemma BeginsToLeave(c: Consumer)
      requires Valid() && c in consumers
      ensures Leaving(c, 0)
    {
      hide Counted, CachesOk, Stream;
      assert QueueOk(c, |log|);
      assert c.msgs[0..] == c.msgs && c.queued[0..] == c.queued;
    }
  }

  /** The positions of messages in the history. */
  ghost function Positions(ms: seq<SharedMessage>): (r: seq<nat>)
    ensures |r| == |ms| && forall i :: 0 <= i < |ms| ==> r[i] == ms[i].published
  {
    seq(|ms|, i requires 0 <= i < |ms| => ms[i].published)
  }

  lemma FrontPositions(packets: seq<SharedMessage>, msgs: seq<SharedMessage>)
    requires packets <= msgs
    ensures Positions(packets) == Positions(msgs)[..|packets|]
  {}

  ghost function HandedOver(p: map<SharedMessage, Place>, packets: seq<SharedMessage>): (p': map<SharedMessage, Place>)
    ensures p'.Keys == p.Keys
  {
    map m | m in p :: if m in packets then WithClient else p[m]
  }

  lemma HandedOverAt(p: map<SharedMessage, Place>, packets: seq<SharedMessage>, m: SharedMessage)
    requires m in p
    ensures HandedOver(p, packets)[m] == if m in packets then WithClient else p[m]
  {}

  lemma QueuePlaces(c: Consumer, msgs: seq<SharedMessage>, queued: seq<nat>, p: map<SharedMessage, Place>)
    requires QueueOf(c, msgs, queued, p)
    ensures |msgs| == |queued| && forall m :: m in msgs ==> m in p && p[m] == InQueue(c)
    ensures queued == Positions(msgs)
  {}

  lemma QueueTaken(c: Consumer, packets: seq<SharedMessage>, msgs: seq<SharedMessage>, queued: seq<nat>,
                   p: map<SharedMessage, Place>, p': map<SharedMessage, Place>)
    requires QueueOf(c, msgs, queued, p) && packets <= msgs
    requires p' == HandedOver(p, packets)
    ensures QueueOf(c, msgs[|packets|..], queued[|packets|..], p')
  {
    var rest := msgs[|packets|..];
    forall i | 0 <= i < |rest| ensures rest[i] !in packets {
      assert rest[i] == msgs[|packets| + i];
      forall j | 0 <= j < |packets| ensures packets[j] != rest[i] { assert packets[j] == msgs[j]; }
    }
  }

  lemma DistinctFront(c: Consumer, packets: seq<SharedMessage>, msgs: seq<SharedMessage>, queued: seq<nat>, p: map<SharedMessage, Place>)
    requires QueueOf(c, msgs, queued, p) && packets <= msgs
    ensures forall i, j :: 0 <= i < j < |packets| ==> packets[i] != packets[j]
  {
    assert forall i :: 0 <= i < |packets| ==> packets[i] == msgs[i];
  }

  lemma QueueUntaken(d: Consumer, c: Consumer, packets: seq<SharedMessage>, msgs: seq<SharedMessage>, queued: seq<nat>,
                     p: map<SharedMessage, Place>, p': map<SharedMessage, Place>)
    requires QueueOf(d, msgs, queued, p) && c != d && forall m :: m in packets ==> m in p && p[m] == InQueue(c)
    requires p' == HandedOver(p, packets)
    ensures QueueOf(d, msgs, queued, p')
  {}

  lemma QueueShrinks(c: Consumer, msgs: seq<SharedMessage>, queued: seq<nat>, p: map<SharedMessage, Place>)
    requires QueueOf(c, msgs, queued, p) && msgs != []
    ensures QueueOf(c, msgs[1..], queued[1..], p - {msgs[0]})
  {}

  lemma EmptyQueue(c: Consumer, place: map<SharedMessage, Place>)
    ensures QueueOf(c, [], [], place)
  {}

  function Ascii(s: string): Amf0.Text {
    seq(|s|, i requires 0 <= i < |s| => s[i] as int % 256)
  }

  function ServerKey(): Amf0.Text {
    Ascii("server")
  }

  function Signature(): Amf0.Text {
    Ascii("rss(simple rtmp server)0.1")
  }

  /** The payload metadata is published with. */
  function MetadataBytes(name: Amf0.Text, metadata: seq<Amf0.Property>): seq<byte> {
    Packets.PacketBytes(Packets.OnMetaData(name, Amf0.Put(metadata, ServerKey(), Amf0.String(Signature()))))
  }

  /** A player reads name and properties back exactly if they can be read at all; among the properties are
      then the server's name, and all others as they were published. */
  lemma MetadataDecodes(name: Amf0.Text, metadata: seq<Amf0.Property>, key: Amf0.Text)
    requires Amf0.DistinctKeys(metadata) && Amf0RoundTrip.Representable(Amf0.Object(metadata))
    ensures var b, p := MetadataBytes(name, metadata), 3 + |name|;
            var props := Amf0.Put(metadata, ServerKey(), Amf0.String(Signature()));
            && p <= |b| && (Amf0.ReadAny(b, 0) == Amf0.Ok(Amf0.String(name), p) <==> |name| < 0x8000)
            && (Amf0.ReadAny(b, p) == Amf0.Ok(Amf0.Object(props), |b|)
                <==> Amf0.Readable(Amf0.Object(props)) && Amf0.NullsIn(props) == 0)
            && Amf0.Get(props, key) == if key == ServerKey() then Some(Amf0.String(Signature())) else Amf0.Get(metadata, key)
  {
    hide Amf0.ReadAny, Amf0.Encode, Amf0.Put, Amf0.Readable, Ascii;
    var v := Amf0.String(Signature());
    var props := Amf0.Put(metadata, ServerKey(), v);
    var s, o := Amf0.Encode(Amf0.String(name)), Amf0.Encode(Amf0.Object(props));
    var b := MetadataBytes(name, metadata);
    TwoFields(name, props);
    Amf0.PutGet(metadata, ServerKey(), v, key);
    PutRepresentable(metadata, ServerKey(), v);
    Amf0.SizeIsExact(Amf0.String(name));
    assert Amf0.At(b, 0, s + o);
    Amf0.AtSplit(b, 0, s, o);
    Amf0.StringRoundTrip(b, 0, name);
    Amf0RoundTrip.RoundTrip(b, |s|, Amf0.Object(props));
  }

  lemma TwoFields(name: Amf0.Text, props: seq<Amf0.Property>)
    ensures Packets.PacketBytes(Packets.OnMetaData(name, props)) == Amf0.Encode(Amf0.String(name)) + Amf0.Encode(Amf0.Object(props))
  {
    hide Amf0.Encode, Packets.EncodeAll;
    var f := [Amf0.String(name), Amf0.Object(props)];
    Packets.NothingEncoded();
    Packets.EncodeAllNext(f, 0);
    Packets.EncodeAllNext(f, 1);
    assert f[..0] == [] && f[..2] == f;
  }

  lemma PutRepresentable(props: seq<Amf0.Property>, key: Amf0.Text, v: Amf0.Value)
    requires Amf0.DistinctKeys(props) && Amf0RoundTrip.Representable(Amf0.Object(props)) && v.String?
    ensures Amf0RoundTrip.Representable(Amf0.Object(Amf0.Put(props, key, v)))
  {
    hide Amf0.Without;
    var r := Amf0.Without(props, key);
    forall i | 0 <= i < |r| ensures Amf0RoundTrip.Representable(r[i].value) {
      Amf0.WithoutKey(props, key, i);
      var j :| 0 <= j < |props| && props[j] == r[i];
    }
  }

  /** What a publication does to the caches: metadata is replaced, the first audio or video is kept. */
  lemma CachedStep(log: seq<Media>, x: Media, k: Kind)
    ensures Cached(log + [x], |log| + 1, k)
         == if x.kind == k && (k == Metadata || Cached(log, |log|, k) == None) then Some(|log|) else Cached(log, |log|, k)
    ensures Cached(log + [x], |log|, k) == Cached(log, |log|, k)
  {
    CachedStable(log, x, |log|, k);
  }

  /** What was live stays where it is, and nothing new is given to a client. */
  ghost predicate Extends(p: map<SharedMessage, Place>, p': map<SharedMessage, Place>) {
    (forall m :: m in p ==> m in p' && p'[m] == p[m]) && forall m :: m in p' && m !in p ==> p'[m] != WithClient
  }

  lemma ExtendsTrans(p: map<SharedMessage, Place>, q: map<SharedMessage, Place>, r: map<SharedMessage, Place>)
    requires Extends(p, q) && Extends(q, r)
    ensures Extends(p, r)
  {
    forall m | m in r && m !in p ensures r[m] != WithClient {
      if m in q {
        assert r[m] == q[m];
      }
    }
  }

  lemma StillThere(p: map<SharedMessage, Place>, q: map<SharedMessage, Place>, m: SharedMessage)
    requires Extends(p, q) && m in p
    ensures m in q && q[m] == p[m]
  {}

  lemma ExtendsItself(p: map<SharedMessage, Place>)
    ensures Extends(p, p)
  {}

  lemma ExtendsWith(p: map<SharedMessage, Place>, m: SharedMessage, at: Place)
    requires m !in p && at != WithClient
    ensures Extends(p, p[m := at])
  {}

  lemma ExtendsWithout(p: map<SharedMessage, Place>, q: map<SharedMessage, Place>, m: SharedMessage)
    requires Extends(p, q) && m !in p
    ensures Extends(p, q - {m})
  {}

  /** The live messages once the cached metadata, if any, is destroyed. */
  ghost function WithoutMetadata(p: map<SharedMessage, Place>, m: SharedMessage?): map<SharedMessage, Place> {
    if m == null then p else p - {m}
  }

  /** The live messages once those in a consumer's queue are destroyed. */
  ghost function WithoutQueue(p: map<SharedMessage, Place>, c: Consumer): map<SharedMessage, Place> {
    map m | m in p && p[m] != InQueue(c) :: p[m]
  }

  /** The messages clients hold. */
  ghost function Taken(p: map<SharedMessage, Place>): set<SharedMessage> {
    set m | m in p && p[m] == WithClient
  }

  lemma QueueGrows(c: Consumer, msgs: seq<SharedMessage>, queued: seq<nat>, p: map<SharedMessage, Place>, p': map<SharedMessage, Place>, m: SharedMessage)
    requires QueueOf(c, msgs, queued, p) && Extends(p, p') && m !in p && m in p' && p'[m] == InQueue(c)
    ensures QueueOf(c, msgs + [m], queued + [m.published], p')
  {}

  lemma QueueStays(c: Consumer, msgs: seq<SharedMessage>, queued: seq<nat>, p: map<SharedMessage, Place>, p': map<SharedMessage, Place>)
    requires QueueOf(c, msgs, queued, p) && Extends(p, p')
    ensures QueueOf(c, msgs, queued, p')
  {}

  lemma QueueWithout(c: Consumer, msgs: seq<SharedMessage>, queued: seq<nat>, p: map<SharedMessage, Place>, m: SharedMessage)
    requires QueueOf(c, msgs, queued, p) && (m in p ==> p[m] != InQueue(c))
    ensures QueueOf(c, msgs, queued, p - {m})
  {}

  lemma QueueElsewhere(c: Consumer, msgs: seq<SharedMessage>, queued: seq<nat>, p: map<SharedMessage, Place>, m: SharedMessage, at: Place)
    requires QueueOf(c, msgs, queued, p) && m in p && p[m] != InQueue(c)
    ensures QueueOf(c, msgs, queued, p[m := at])
  {}

  lemma StreamStep(log: seq<Media>, join: nat)
    requires join < |log|
    ensures Stream(log, join, |log|) == Stream(log, join, |log| - 1) + [|log| - 1]
  {
    hide Cached;
    assert Upto(join, |log|) == Upto(join, |log| - 1) + [|log| - 1];
  }

  /** A kind's cache holds a copy of the message with the given position, or nothing. */
  ghost predicate CacheIs(m: SharedMessage?, k: Kind, position: Option<nat>, place: map<SharedMessage, Place>) {
    match position
    case None => m == null
    case Some(i) => m != null && m in place && place[m] == InCache(k) && m.published == i
  }

  ghost predicate QueueOf(c: Consumer, msgs: seq<SharedMessage>, queued: seq<nat>, place: map<SharedMessage, Place>) {
    && |msgs| == |queued|
    && (forall i :: 0 <= i < |msgs| ==> msgs[i] in place && place[msgs[i]] == InQueue(c) && msgs[i].published == queued[i])
    && (forall i, j :: 0 <= i < j < |msgs| ==> msgs[i] != msgs[j])
  }

  /** Of some messages, those that share a payload. */
  ghost function Sharing(ms: set<SharedMessage>, p: SharedPtr): set<SharedMessage> {
    set m | m in ms && m.ptr == p
  }

  lemma SharingHas(ms: set<SharedMessage>, m: SharedMessage)
    requires m in ms
    ensures m in Sharing(ms, m.ptr)
  {}

  lemma SharingNone(ms: set<SharedMessage>, p: SharedPtr)
    ensures Sharing(ms, p) == {} <==> forall m :: m in ms ==> m.ptr != p
  {
    if m :| m in ms && m.ptr == p {
      assert m in Sharing(ms, p);
    }
  }

  lemma CopyOfCopy(m: SharedMessage, c: SharedMessage, log: seq<Media>)
    requires IsCopy(m, log) && c.ptr == m.ptr && c.header == m.header && c.published == m.published
    ensures IsCopy(c, log)
  {}

  lemma SharingWith(ms: set<SharedMessage>, p: SharedPtr, m: SharedMessage)
    ensures Sharing(ms + {m}, p) == if m.ptr == p then Sharing(ms, p) + {m} else Sharing(ms, p)
  {}

  lemma SharingWithout(ms: set<SharedMessage>, p: SharedPtr, m: SharedMessage)
    ensures Sharing(ms - {m}, p) == Sharing(ms, p) - {m}
    ensures m.ptr != p ==> Sharing(ms - {m}, p) == Sharing(ms, p)
  {}

  ghost predicate IsCopy(m: SharedMessage, log: seq<Media>) {
    && m.published < |log|
    && m.ptr.payload == log[m.published].payload
    && m.header == log[m.published].header.(payloadLength := |m.ptr.payload|)
  }

  // ----- What the invariant means -----

  /** The count of a payload is the number of live messages that share it, less one; it is freed
      exactly when there are none. */
  lemma CountIsLiveMessages(source: Source, p: SharedPtr)
    requires source.Valid() && p in source.ptrs
    ensures |Sharing(source.place.Keys, p)| == if p.freed then 0 else p.sharedCount + 1
  {
    assert source.PtrOk(p);
  }

  /** What a consumer took and has queued: the cached messages when it joined, then all since; nothing
      twice; and the first audio and video messages always among them. */
  lemma ConsumerReceives(source: Source, c: Consumer, k: Kind)
    requires source.Valid() && c in source.consumers
    ensures c.taken + c.queued == Prefix(source.log, c.joined) + Upto(c.joined, |source.log|)
    ensures forall i, j :: 0 <= i < j < |c.taken + c.queued| ==> (c.taken + c.queued)[i] != (c.taken + c.queued)[j]
    ensures k != Metadata && First(source.log, |source.log|, k).Some? ==>
              First(source.log, |source.log|, k).value in c.taken + c.queued
    ensures forall i :: 0 <= i < |c.msgs| ==> IsCopy(c.msgs[i], source.log) && c.msgs[i].published == c.queued[i]
  {
    hide First, Latest;
    assert source.QueueOk(c, |source.log|);
    StreamDistinct(source.log, c.joined, |source.log|);
    if k != Metadata {
      StreamComplete(source.log, c.joined, |source.log|, k);
    }
  }
}
