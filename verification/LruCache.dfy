/** A cache of entries: a chained hash table, a list of the entries nobody uses, oldest first, and
    limits on the number and the total weight of entries. */
module LruCache {

  // Keys are compared by content; what an entry holds is never looked at.
  type Key(==, !new)
  type Data(!new)

  /** The pointer that points to an entry: the head of a chain, or the `next` field of another entry. */
  datatype Link = NoLink | HeadOf(bucket: nat) | NextOf(prev: Entry)

  class Entry {
    const key: Key
    const data: Data
    const weight: nat
    var refCount: nat
    var deletePending: bool
    // The chain: the entry after this one, and the pointer to this one.
    var next: Entry?
    var pthis: Link

    constructor (key: Key, data: Data, weight: nat)
      ensures this.key == key && this.data == data && this.weight == weight
      ensures refCount == 0 && !deletePending && pthis == NoLink
    {
      this.key, this.data, this.weight := key, data, weight;
      refCount, deletePending, next, pthis := 0, false, null, NoLink;
    }
  }

  // ----- Lists without repetition -----

  ghost predicate Distinct(s: seq<Entry>) {
    forall i, j :: 0 <= i < j < |s| ==> s[i] != s[j]
  }

  /** The list with an element unlinked. */
  function Without(s: seq<Entry>, x: Entry): seq<Entry> {
    if |s| == 0 then [] else if s[0] == x then s[1..] else [s[0]] + Without(s[1..], x)
  }

  lemma {:induction false} WithoutIs(s: seq<Entry>, x: Entry)
    requires Distinct(s)
    ensures Distinct(Without(s, x))
    ensures forall y :: y in Without(s, x) ==> y in s && y != x
    ensures forall y :: y in s && y != x ==> y in Without(s, x)
    ensures x !in s ==> Without(s, x) == s
  {
    if |s| > 0 {
      var t := s[1..];
      assert s == [s[0]] + t;
      assert s[0] !in t by {
        forall i | 0 <= i < |t| ensures s[0] != t[i] { assert t[i] == s[i + 1]; }
      }
      assert Distinct(t) by {
        forall i, j | 0 <= i < j < |t| ensures t[i] != t[j] { assert t[i] == s[i + 1] && t[j] == s[j + 1]; }
      }
      WithoutIs(t, x);
      if s[0] != x {
        DistinctCons(s[0], Without(t, x));
      }
    }
  }

  lemma {:induction false} WithoutAt(s: seq<Entry>, i: nat)
    requires Distinct(s) && i < |s|
    ensures Without(s, s[i]) == s[..i] + s[i + 1..]
  {
    if i > 0 {
      WithoutAt(s[1..], i - 1);
      assert s == [s[0]] + s[1..];
    }
  }

  lemma DistinctCons(x: Entry, s: seq<Entry>)
    requires Distinct(s) && x !in s
    ensures Distinct([x] + s)
  {}

  lemma DistinctSnoc(s: seq<Entry>, x: Entry)
    requires Distinct(s) && x !in s
    ensures Distinct(s + [x])
  {}

  /** Unlinking keeps the order of the others. */
  lemma {:induction false} WithoutKeepsOrder(s: seq<Entry>, x: Entry, rank: map<Entry, int>)
    requires Ranked(s, rank)
    ensures Ranked(Without(s, x), rank) && forall y :: y in Without(s, x) ==> y in s
  {
    if |s| > 0 && s[0] != x {
      assert Ranked(s[1..], rank) by {
        forall i, j | 0 <= i < j < |s[1..]| ensures rank[s[1..][i]] < rank[s[1..][j]] {
          assert s[1..][i] == s[i + 1] && s[1..][j] == s[j + 1];
        }
      }
      WithoutKeepsOrder(s[1..], x, rank);
      var t := Without(s[1..], x);
      forall j | 0 <= j < |t| ensures rank[s[0]] < rank[t[j]] {
        assert t[j] in s[1..];
        var k :| 0 <= k < |s[1..]| && s[1..][k] == t[j];
        assert s[k + 1] == t[j];
      }
    }
  }

  ghost predicate Ranked(s: seq<Entry>, rank: map<Entry, int>) {
    (forall x :: x in s ==> x in rank) && forall i, j :: 0 <= i < j < |s| ==> rank[s[i]] < rank[s[j]]
  }

  /** A list in the order of ranks, all of them below a bound. */
  ghost predicate InOrder(s: seq<Entry>, rank: map<Entry, int>, bound: int) {
    Distinct(s) && Ranked(s, rank) && forall x :: x in s ==> rank[x] < bound
  }

  lemma InOrderWithout(s: seq<Entry>, x: Entry, rank: map<Entry, int>, bound: int)
    requires InOrder(s, rank, bound)
    ensures InOrder(Without(s, x), rank, bound)
    ensures forall y :: y in Without(s, x) ==> y in s && y != x
    ensures forall y :: y in s && y != x ==> y in Without(s, x)
    ensures x !in s ==> Without(s, x) == s
  {
    hide Without;
    WithoutIs(s, x);
    WithoutKeepsOrder(s, x, rank);
  }

  lemma InOrderWith(s: seq<Entry>, x: Entry, rank: map<Entry, int>, bound: int)
    requires InOrder(s, rank, bound) && x !in s
    ensures InOrder(s + [x], rank[x := bound], bound + 1)
  {}

  // ----- Weights -----

  ghost function Weight(s: set<Entry>): nat {
    if s == {} then 0 else
      var e :| e in s;
      e.weight + Weight(s - {e})
  }

  lemma {:induction false} WeightWithout(s: set<Entry>, x: Entry)
    requires x in s
    ensures Weight(s) == x.weight + Weight(s - {x})
  {
    var e :| e in s && Weight(s) == e.weight + Weight(s - {e});
    if e != x {
      WeightWithout(s - {e}, x);
      WeightWithout(s - {x}, e);
      assert s - {e} - {x} == s - {x} - {e};
    }
  }

  lemma WeightWith(s: set<Entry>, x: Entry)
    requires x !in s
    ensures Weight(s + {x}) == x.weight + Weight(s)
  {
    WeightWithout(s + {x}, x);
    assert s + {x} - {x} == s;
  }

  /** The running totals are those of the members. */
  ghost predicate Totals(members: set<Entry>, size: int, weight: int, linked: int) {
    size == |members| == linked && weight == Weight(members)
  }

  lemma TotalsWith(members: set<Entry>, size: int, weight: int, linked: int, e: Entry)
    requires Totals(members, size, weight, linked) && e !in members
    ensures Totals(members + {e}, size + 1, weight + e.weight, linked + 1)
  {
    WeightWith(members, e);
  }

  lemma TotalsWithout(members: set<Entry>, size: int, weight: int, linked: int, e: Entry)
    requires Totals(members, size, weight, linked) && e in members
    ensures size > 0 && weight >= e.weight && Totals(members - {e}, size - 1, weight - e.weight, linked - 1)
  {
    WeightWithout(members, e);
  }

  /** An entry is cleaned up at most once, and never while it is in the table. */
  ghost predicate CleanedOnce(cleaned: seq<Entry>, members: set<Entry>) {
    Distinct(cleaned) && forall e :: e in cleaned ==> e !in members
  }

  lemma CleanedWithout(cleaned: seq<Entry>, members: set<Entry>, e: Entry)
    requires CleanedOnce(cleaned, members) && e in members
    ensures CleanedOnce(cleaned, members - {e}) && e !in cleaned
  {}

  lemma CleanedAlso(cleaned: seq<Entry>, members: set<Entry>, e: Entry)
    requires CleanedOnce(cleaned, members) && e !in members && e !in cleaned
    ensures CleanedOnce(cleaned + [e], members)
  {
    DistinctSnoc(cleaned, e);
  }

  lemma CleanedWith(cleaned: seq<Entry>, members: set<Entry>, e: Entry)
    requires CleanedOnce(cleaned, members) && e !in cleaned
    ensures CleanedOnce(cleaned, members + {e})
  {}

  ghost function Elements(s: seq<Entry>): set<Entry> {
    set x | x in s
  }

  lemma NonEmptyHasElements(s: seq<Entry>)
    ensures s != [] ==> Elements(s) != {}
  {
    if s != [] {
      assert s[0] in Elements(s);
    }
  }

  /** The LRU list is the unused members in the order of their release. */
  ghost predicate Ordered(lru: seq<Entry>, releasedAt: map<Entry, int>, clock: int, unused: set<Entry>) {
    InOrder(lru, releasedAt, clock) && Elements(lru) == unused
  }

  lemma OrderedWithout(lru: seq<Entry>, releasedAt: map<Entry, int>, clock: int, unused: set<Entry>, e: Entry)
    requires Ordered(lru, releasedAt, clock, unused)
    ensures Ordered(Without(lru, e), releasedAt, clock, unused - {e})
    ensures e !in unused ==> Without(lru, e) == lru
  {
    hide InOrder, Without;
    InOrderWithout(lru, e, releasedAt, clock);
  }

  lemma OrderedWith(lru: seq<Entry>, releasedAt: map<Entry, int>, clock: int, unused: set<Entry>, e: Entry)
    requires Ordered(lru, releasedAt, clock, unused) && e !in unused
    ensures Ordered(lru + [e], releasedAt[e := clock], clock + 1, unused + {e}) && Without(lru + [e], e) == lru
  {
    InOrderWith(lru, e, releasedAt, clock);
    LastWithout(lru, e);
  }

  /** The map holds exactly the members not waiting to be deleted. */
  ghost predicate Mapped(live: map<Key, Entry>, visible: set<Entry>) {
    && (forall k :: k in live ==> live[k] in visible && live[k].key == k)
    && (forall e :: e in visible ==> e.key in live && live[e.key] == e)
  }

  lemma MappedWithout(live: map<Key, Entry>, visible: set<Entry>, e: Entry)
    requires Mapped(live, visible) && e in visible
    ensures Mapped(live - {e.key}, visible - {e})
  {}

  lemma MappedWith(live: map<Key, Entry>, visible: set<Entry>, e: Entry)
    requires Mapped(live, visible) && e.key !in live
    ensures Mapped(live[e.key := e], visible + {e})
  {}

  /** The total weight of a list. */
  ghost function ListWeight(s: seq<Entry>): nat {
    if |s| == 0 then 0 else ListWeight(s[..|s| - 1]) + s[|s| - 1].weight
  }

  ghost function Keys(s: seq<Entry>): set<Key> {
    set e | e in s :: e.key
  }

  function BucketOf(key: Key, hash: Key -> nat, size: nat): nat
    requires size > 0
  {
    hash(key) % size
  }

  /** Every member is in the chain of its key's bucket, once, and in no other. */
  ghost predicate Hashed(table: seq<seq<Entry>>, members: set<Entry>, hash: Key -> nat)
    requires |table| > 0
  {
    && (forall b :: 0 <= b < |table| ==> Distinct(table[b]))
    && (forall b, e :: 0 <= b < |table| && e in table[b] ==> e in members && BucketOf(e.key, hash, |table|) == b)
    && (forall e :: e in members ==> e in table[BucketOf(e.key, hash, |table|)])
  }

  ghost function TableWithout(table: seq<seq<Entry>>, e: Entry, hash: Key -> nat): (t: seq<seq<Entry>>)
    requires |table| > 0
    ensures |t| == |table|
  {
    var b := BucketOf(e.key, hash, |table|);
    table[b := Without(table[b], e)]
  }

  ghost function TableWith(table: seq<seq<Entry>>, e: Entry, hash: Key -> nat): (t: seq<seq<Entry>>)
    requires |table| > 0
    ensures |t| == |table|
  {
    var b := BucketOf(e.key, hash, |table|);
    table[b := [e] + table[b]]
  }

  // ----- The chains as they are linked -----

  ghost function NodeAt(chain: seq<Entry>, i: int): Entry? {
    if 0 <= i < |chain| then chain[i] else null
  }

  ghost predicate NodeOk(chain: seq<Entry>, b: nat, i: int)
    requires 0 <= i < |chain|
    reads {chain[i]}`next, {chain[i]}`pthis
  {
    chain[i].next == NodeAt(chain, i + 1) && chain[i].pthis == if i == 0 then HeadOf(b) else NextOf(chain[i - 1])
  }

  ghost predicate ChainOk(head: Entry?, chain: seq<Entry>, b: nat)
    reads chain`next, chain`pthis
  {
    head == NodeAt(chain, 0) && forall i :: 0 <= i < |chain| ==> NodeOk(chain, b, i)
  }

  /** From its head each chain runs through `next`, and every entry knows the pointer to it. */
  ghost predicate Chained(heads: seq<Entry?>, table: seq<seq<Entry>>, all: set<Entry>)
    requires forall b, e :: 0 <= b < |table| && e in table[b] ==> e in all
    reads all`next, all`pthis
  {
    |heads| == |table| && forall b :: 0 <= b < |table| ==> ChainOk(heads[b], table[b], b)
  }

  lemma HashedWithout(table: seq<seq<Entry>>, members: set<Entry>, hash: Key -> nat, e: Entry)
    requires |table| > 0 && Hashed(table, members, hash) && e in members
    ensures Hashed(TableWithout(table, e, hash), members - {e}, hash)
  {
    hide Without;
    var b := BucketOf(e.key, hash, |table|);
    WithoutIs(table[b], e);
    var table' := table[b := Without(table[b], e)];
    forall c, f | 0 <= c < |table'| && f in table'[c] ensures f in members - {e} && BucketOf(f.key, hash, |table|) == c {
      assert f in table[c];
    }
  }

  /** An entry is in no chain but that of its bucket. */
  lemma ChainsApart(table: seq<seq<Entry>>, members: set<Entry>, hash: Key -> nat, b: nat)
    requires |table| > 0 && Hashed(table, members, hash) && b < |table|
    ensures forall c, e :: 0 <= c < |table| && c != b && e in table[c] ==> e !in table[b]
    ensures Distinct(table[b]) && forall e :: e in table[b] ==> e in members
  {
    forall c, e | 0 <= c < |table| && c != b && e in table[c] ensures e !in table[b] {
      assert BucketOf(e.key, hash, |table|) == c;
    }
  }

  lemma HashedWith(table: seq<seq<Entry>>, members: set<Entry>, hash: Key -> nat, e: Entry)
    requires |table| > 0 && Hashed(table, members, hash) && e !in members
    ensures Hashed(TableWith(table, e, hash), members + {e}, hash)
  {
    DistinctCons(e, table[BucketOf(e.key, hash, |table|)]);
  }

  /** What a cache holds. */
  datatype Contents = Contents(members: set<Entry>, live: map<Key, Entry>, lru: seq<Entry>, cleaned: seq<Entry>, weight: int, size: int)

  /** How it is represented: the table, when entries were released, and the entries linked so far. */
  datatype Rep = Rep(c: Contents, table: seq<seq<Entry>>, releasedAt: map<Entry, int>, clock: int, linked: int)

  /** The representation stands for the contents, given the entries in use and those waiting to be deleted. */
  ghost predicate Sound(r: Rep, hash: Key -> nat, pinned: set<Entry>, pending: set<Entry>, excused: set<Entry>)
    requires |r.table| > 0
  {
    && Hashed(r.table, r.c.members, hash) && Totals(r.c.members, r.c.size, r.c.weight, r.linked)
    && Ordered(r.c.lru, r.releasedAt, r.clock, r.c.members - pinned) && Mapped(r.c.live, r.c.members - pending)
    && pending - excused <= pinned && CleanedOnce(r.c.cleaned, r.c.members)
  }

  ghost function Unchained(r: Rep, hash: Key -> nat, e: Entry): (r': Rep)
    requires |r.table| > 0
    ensures |r'.table| == |r.table|
  {
    var c := Contents(r.c.members - {e}, r.c.live, Without(r.c.lru, e), r.c.cleaned, r.c.weight - e.weight, r.c.size - 1);
    Rep(c, TableWithout(r.table, e, hash), r.releasedAt, r.clock, r.linked - 1)
  }

  lemma SoundUnchained(r: Rep, hash: Key -> nat, pinned: set<Entry>, pending: set<Entry>, e: Entry)
    requires |r.table| > 0 && Sound(r, hash, pinned, pending, {e})
    requires e in r.c.members && e in pending && e !in pinned
    ensures r.c.size > 0 && r.c.weight >= e.weight && e !in r.c.cleaned
    ensures Sound(Unchained(r, hash, e), hash, pinned, pending - {e}, {})
  {
    hide TableWithout, Hashed, Totals, Ordered, Mapped, CleanedOnce, Without;
    HashedWithout(r.table, r.c.members, hash, e);
    TotalsWithout(r.c.members, r.c.size, r.c.weight, r.linked, e);
    OrderedWithout(r.c.lru, r.releasedAt, r.clock, r.c.members - pinned, e);
    CleanedWithout(r.c.cleaned, r.c.members, e);
    assert r.c.members - {e} - pinned == r.c.members - pinned - {e};
    assert r.c.members - {e} - (pending - {e}) == r.c.members - pending;
  }

  ghost function Admitted(r: Rep, hash: Key -> nat, e: Entry): (r': Rep)
    requires |r.table| > 0
    ensures |r'.table| == |r.table|
  {
    var c := Contents(r.c.members + {e}, r.c.live[e.key := e], r.c.lru, r.c.cleaned, r.c.weight + e.weight, r.c.size + 1);
    Rep(c, TableWith(r.table, e, hash), r.releasedAt, r.clock, r.linked + 1)
  }

  lemma SoundAdmitted(r: Rep, hash: Key -> nat, pinned: set<Entry>, pending: set<Entry>, e: Entry)
    requires |r.table| > 0 && Sound(r, hash, pinned, pending, {})
    requires e !in r.c.members && e !in pending && e !in r.c.cleaned && e.key !in r.c.live
    ensures Sound(Admitted(r, hash, e), hash, pinned + {e}, pending, {})
  {
    hide TableWith, Hashed, Totals, Ordered, Mapped, CleanedOnce;
    HashedWith(r.table, r.c.members, hash, e);
    TotalsWith(r.c.members, r.c.size, r.c.weight, r.linked, e);
    MappedWith(r.c.live, r.c.members - pending, e);
    CleanedWith(r.c.cleaned, r.c.members, e);
    SetsAdmitted(r.c.members, pinned, pending, e);
  }

  lemma SetsAdmitted(members: set<Entry>, pinned: set<Entry>, pending: set<Entry>, e: Entry)
    requires e !in members && e !in pending
    ensures members + {e} - (pinned + {e}) == members - pinned
    ensures members + {e} - pending == (members - pending) + {e}
  {}

  lemma SoundMarked(r: Rep, hash: Key -> nat, pinned: set<Entry>, pending: set<Entry>, e: Entry)
    requires |r.table| > 0 && Sound(r, hash, pinned, pending, {e}) && e in r.c.members
    ensures Sound(if e in pending then r else r.(c := r.c.(live := r.c.live - {e.key})), hash, pinned, pending + {e}, {e})
  {
    hide Hashed, Totals, Ordered, Mapped, CleanedOnce;
    assert r.c.members - (pending + {e}) == r.c.members - pending - {e};
    if e !in pending {
      MappedWithout(r.c.live, r.c.members - pending, e);
    } else {
      assert pending + {e} == pending;
    }
  }

  lemma SoundCleaned(r: Rep, hash: Key -> nat, pinned: set<Entry>, pending: set<Entry>, e: Entry)
    requires |r.table| > 0 && Sound(r, hash, pinned, pending, {}) && e !in r.c.members && e !in r.c.cleaned
    ensures Sound(r.(c := r.c.(cleaned := r.c.cleaned + [e])), hash, pinned, pending, {})
  {
    hide Hashed, Totals, Ordered, Mapped, CleanedOnce;
    CleanedAlso(r.c.cleaned, r.c.members, e);
  }

  lemma SoundPinned(r: Rep, hash: Key -> nat, pinned: set<Entry>, pending: set<Entry>, e: Entry)
    requires |r.table| > 0 && Sound(r, hash, pinned, pending, {})
    ensures Sound(r.(c := r.c.(lru := Without(r.c.lru, e))), hash, pinned + {e}, pending, {})
    ensures e in pinned ==> Without(r.c.lru, e) == r.c.lru
  {
    hide Hashed, Totals, Ordered, Mapped, CleanedOnce, Without;
    OrderedWithout(r.c.lru, r.releasedAt, r.clock, r.c.members - pinned, e);
    assert r.c.members - (pinned + {e}) == r.c.members - pinned - {e};
  }

  ghost function Released(r: Rep, e: Entry): (r': Rep)
    ensures |r'.table| == |r.table|
  {
    Rep(r.c.(lru := r.c.lru + [e]), r.table, r.releasedAt[e := r.clock], r.clock + 1, r.linked)
  }

  lemma SoundReleased(r: Rep, hash: Key -> nat, pinned: set<Entry>, pending: set<Entry>, e: Entry)
    requires |r.table| > 0 && Sound(r, hash, pinned, pending, {}) && e in pinned && e in r.c.members
    ensures Sound(Released(r, e), hash, pinned - {e}, pending, {e})
    ensures e !in pending ==> Sound(Released(r, e), hash, pinned - {e}, pending, {})
    ensures Without(r.c.lru + [e], e) == r.c.lru
  {
    hide Hashed, Totals, Ordered, Mapped, CleanedOnce, Without;
    OrderedWith(r.c.lru, r.releasedAt, r.clock, r.c.members - pinned, e);
    assert r.c.members - (pinned - {e}) == (r.c.members - pinned) + {e};
  }

  lemma SoundNotExcused(r: Rep, hash: Key -> nat, pinned: set<Entry>, pending: set<Entry>, e: Entry)
    requires |r.table| > 0 && Sound(r, hash, pinned, pending, {e}) && (e in pinned || e !in pending)
    ensures Sound(r, hash, pinned, pending, {})
  {
    hide Hashed, Totals, Ordered, Mapped, CleanedOnce;
  }

  /** What an entry's place says about it. */
  lemma SoundPlaces(r: Rep, hash: Key -> nat, pinned: set<Entry>, pending: set<Entry>)
    requires |r.table| > 0 && Sound(r, hash, pinned, pending, {})
    ensures Elements(r.c.lru) == r.c.members - pinned
    ensures forall k :: k in r.c.live ==> r.c.live[k] in r.c.members - pending && r.c.live[k].key == k
    ensures forall e :: e in r.c.members - pending ==> e.key in r.c.live && r.c.live[e.key] == e
    ensures forall e :: e !in r.c.lru ==> Without(r.c.lru, e) == r.c.lru
    ensures forall e :: Sound(r, hash, pinned, pending, {e})
  {
    hide Hashed, Totals, InOrder, CleanedOnce, Without;
    forall e | e !in r.c.lru ensures Without(r.c.lru, e) == r.c.lru {
      OrderedWithout(r.c.lru, r.releasedAt, r.clock, r.c.members - pinned, e);
    }
  }

  class Cache {
    const maxSize: nat
    const maxWeight: nat
    const hash: Key -> nat
    var curSize: nat
    var curWeight: nat
    var heads: seq<Entry?>
    ghost var table: seq<seq<Entry>>
    var lru: seq<Entry>
    var hits: nat
    var lookups: nat
    var inserts: nat
    var deletes: nat
    // The entries passed to the clean-up function and freed, in order.
    var cleaned: seq<Entry>
    // The entries in the table, and the map they stand for: those not waiting to be deleted.
    ghost var members: set<Entry>
    ghost var live: map<Key, Entry>
    // When each entry was last released.
    ghost var releasedAt: map<Entry, int>
    ghost var clock: int

    ghost function Pinned(): set<Entry>
      reads this`members, members`refCount
    {
      set e | e in members && e.refCount > 0
    }

    ghost function Pending(): set<Entry>
      reads this`members, members`deletePending
    {
      set e | e in members && e.deletePending
    }

    ghost function State(): Contents
      reads this
    {
      Contents(members, live, lru, cleaned, curWeight, curSize)
    }

    ghost function Representation(): Rep
      reads this
    {
      Rep(State(), table, releasedAt, clock, inserts - deletes)
    }

    ghost predicate ValidBut(excused: set<Entry>)
      reads this, members
    {
      && |table| > 0 && curSize <= maxSize && curWeight <= maxWeight
      && Sound(Representation(), hash, Pinned(), Pending(), excused)
      && Chained(heads, table, members)
    }

    ghost predicate Valid()
      reads this, members
    {
      ValidBut({})
    }

    constructor (maxSize: nat, maxWeight: nat, hashSize: nat, hash: Key -> nat)
      requires hashSize > 0
      ensures Valid() && members == {} && live == map[] && cleaned == []
      ensures this.maxSize == maxSize && this.maxWeight == maxWeight && this.hash == hash
    {
      this.maxSize, this.maxWeight, this.hash := maxSize, maxWeight, hash;
      curSize, curWeight := 0, 0;
      heads, table, lru := seq(hashSize, _ => null), seq(hashSize, _ => []), [];
      hits, lookups, inserts, deletes := 0, 0, 0, 0;
      cleaned, members, live, releasedAt, clock := [], {}, map[], map[], 0;
    }

    /** Takes an entry out of its chain by the pointer to it, without walking the chain. */
    method Unlink(e: Entry, ghost chain: seq<Entry>, ghost b: nat, ghost i: nat)
      requires b < |heads| && i < |chain| && chain[i] == e && Distinct(chain) && ChainOk(heads[b], chain, b)
      modifies this`heads, chain`next, chain`pthis
      ensures |heads| == |old(heads)| && heads == old(heads)[b := heads[b]]
      ensures ChainOk(heads[b], chain[..i] + chain[i + 1..], b)
    {
      assert NodeOk(chain, b, i);
      if e.pthis.HeadOf? {
        heads := heads[e.pthis.bucket := e.next];
      } else {
        e.pthis.prev.next := e.next;
      }
      if e.next != null {
        e.next.pthis := e.pthis;
      }
      ghost var rest := chain[..i] + chain[i + 1..];
      forall j | 0 <= j < |rest| ensures NodeOk(rest, b, j) {
        assert old(NodeOk(chain, b, if j < i then j else j + 1));
      }
    }

    /** Unlinks a member and keeps the table of chains. */
    method UnlinkMember(e: Entry)
      requires |table| > 0 && Hashed(table, members, hash) && Chained(heads, table, members) && e in members
      modifies this`heads, this`table, members`next, members`pthis
      ensures |table| > 0 && Hashed(table, members - {e}, hash) && Chained(heads, table, members - {e})
      ensures table == TableWithout(old(table), e, hash)
    {
      hide Without;
      ghost var b := BucketOf(e.key, hash, |table|);
      ghost var before, chain := table, table[b];
      ghost var i :| 0 <= i < |chain| && chain[i] == e;
      HashedWithout(table, members, hash, e);
      WithoutAt(chain, i);
      ChainsApart(table, members, hash, b);
      Unlink(e, chain, b, i);
      table := table[b := Without(chain, e)];
      forall c | 0 <= c < |table| && c != b ensures ChainOk(heads[c], table[c], c) {
        assert old(ChainOk(heads[c], table[c], c)) && heads[c] == old(heads)[c] && table[c] == old(table)[c];
        forall j | 0 <= j < |table[c]| ensures NodeOk(table[c], c, j) {
          assert table[c][j] in before[c] && table[c][j] !in before[b] && old(NodeOk(table[c], c, j));
        }
      }
    }

    /** Takes an unused entry out of the table and of the LRU list. */
    method Unchain(e: Entry)
      requires ValidBut({e}) && e in members && e.refCount == 0 && e.deletePending
      modifies this`heads, this`table, this`curSize, this`curWeight, this`deletes, this`lru, this`members
      modifies members`next, members`pthis
      ensures Valid() && e !in cleaned
      ensures members == old(members) - {e} && lru == Without(old(lru), e)
      ensures table == TableWithout(old(table), e, hash)
      ensures deletes == old(deletes) + 1 && curWeight == old(curWeight) - e.weight && curSize == old(curSize) - 1
    {
      hide TableWithout, Sound, Without, Hashed, Chained;
      TableIsHashed({e});
      ghost var pinned, pending := Pinned(), Pending();
      ghost var r := Representation();
      SoundUnchained(r, hash, pinned, pending, e);
      UnlinkMember(e);
      members := members - {e};
      curSize, curWeight, deletes := curSize - 1, curWeight - e.weight, deletes + 1;
      lru := Without(lru, e);
      assert Representation() == Unchained(r, hash, e);
      assert Pinned() == pinned && Pending() == pending - {e};
    }

    lemma TableIsHashed(excused: set<Entry>)
      requires ValidBut(excused)
      ensures Hashed(table, members, hash) && Chained(heads, table, members)
    {}

    /** An entry in use is only marked; any other is unlinked, if it was in the table, and cleaned up. */
    method Delete(e: Entry)
      requires e in members ==> ValidBut({e})
      requires e !in members ==> Valid() && e.pthis == NoLink && e.refCount == 0 && e !in cleaned
      modifies this`heads, this`table, this`curSize, this`curWeight, this`deletes, this`lru, this`members, this`live, this`cleaned
      modifies e`deletePending, e`pthis, members`next, members`pthis
      ensures Valid() && e.deletePending
      ensures live == if old(e in members && !e.deletePending) then old(live) - {e.key} else old(live)
      ensures if old(e.refCount > 0) then members == old(members) && lru == old(lru) && cleaned == old(cleaned)
              else members == old(members) - {e} && lru == Without(old(lru), e) && cleaned == old(cleaned) + [e]
      ensures table == if e in old(members) - members then TableWithout(old(table), e, hash) else old(table)
      ensures curWeight == old(curWeight) - if e in old(members) - members then e.weight else 0
      ensures curSize == old(curSize) - if e in old(members) - members then 1 else 0
    {
      hide Sound, Without;
      Mark(e);
      if e.refCount > 0 {
        SoundNotExcused(Representation(), hash, Pinned(), Pending(), e);
        return;
      }
      if e in members {
        MembersLinked(e);
      }
      if e.pthis != NoLink {
        Unchain(e);
      } else {
        NotInList(e);
      }
      CleanUp(e);
    }

    lemma MembersLinked(e: Entry)
      requires ValidBut({e}) && e in members
      ensures e.pthis != NoLink
    {
      hide Totals, Ordered, Mapped, CleanedOnce;
      var b := BucketOf(e.key, hash, |table|);
      var i :| 0 <= i < |table[b]| && table[b][i] == e;
      assert ChainOk(heads[b], table[b], b) && NodeOk(table[b], b, i);
    }

    lemma NotInList(e: Entry)
      requires Valid() && e !in members
      ensures Without(lru, e) == lru
    {
      SoundPlaces(Representation(), hash, Pinned(), Pending());
      assert e !in Elements(lru);
    }

    method Mark(e: Entry)
      requires e in members ==> ValidBut({e})
      requires e !in members ==> Valid()
      modifies this`live, e`deletePending
      ensures if e in members then ValidBut({e}) else Valid()
      ensures e.deletePending
      ensures live == if old(e in members && !e.deletePending) then old(live) - {e.key} else old(live)
    {
      hide Sound;
      ghost var pinned, pending := Pinned(), Pending();
      if e in members {
        SoundMarked(Representation(), hash, pinned, pending, e);
        if !e.deletePending {
          live := live - {e.key};
        }
      }
      e.deletePending := true;
      assert Pinned() == pinned && Pending() == if e in members then pending + {e} else pending;
    }

    method CleanUp(e: Entry)
      requires Valid() && e !in members && e !in cleaned
      modifies this`cleaned, e`pthis
      ensures Valid() && cleaned == old(cleaned) + [e] && e.pthis == NoLink
    {
      hide Sound;
      SoundCleaned(Representation(), hash, Pinned(), Pending(), e);
      cleaned := cleaned + [e];
      e.pthis := NoLink;
    }

    /** Walks the chain of the key's bucket. */
    method Find(key: Key) returns (e: Entry?)
      requires Valid()
      ensures if key in live then e == live[key] else e == null
    {
      hide Totals, Ordered, CleanedOnce;
      var b := BucketOf(key, hash, |heads|);
      ghost var i := 0;
      e := heads[b];
      assert ChainOk(heads[b], table[b], b);
      while e != null && (e.deletePending || e.key != key)
        invariant 0 <= i <= |table[b]| && e == NodeAt(table[b], i)
        invariant forall j :: 0 <= j < i ==> table[b][j].deletePending || table[b][j].key != key
        decreases |table[b]| - i
      {
        assert NodeOk(table[b], b, i);
        e, i := e.next, i + 1;
      }
    }

    /** A hit pins the entry the map has for the key. */
    method Lookup(key: Key) returns (e: Entry?)
      requires Valid()
      modifies this`lookups, this`hits, this`lru, members`refCount
      ensures Valid() && lookups == old(lookups) + 1
      ensures key !in live ==> e == null && hits == old(hits) && lru == old(lru)
      ensures key in live ==> e == live[key] && hits == old(hits) + 1 && lru == Without(old(lru), live[key])
      ensures forall f :: f in members ==> f.refCount == old(f.refCount) + if f == e then 1 else 0
    {
      hide Sound, Without;
      lookups := lookups + 1;
      e := Find(key);
      if e != null {
        hits := hits + 1;
        LiveFacts(key);
        Pin(e);
      }
    }

    method Pin(e: Entry)
      requires Valid() && e in members
      modifies this`lru, e`refCount
      ensures Valid() && lru == Without(old(lru), e) && e.refCount == old(e.refCount) + 1
    {
      hide Sound, Without;
      ghost var pinned := Pinned();
      SoundPinned(Representation(), hash, pinned, Pending(), e);
      if e.refCount == 0 {
        lru := Without(lru, e);
      }
      e.refCount := e.refCount + 1;
      assert Pinned() == pinned + {e};
    }

    /** The last release puts the entry at the end of the LRU list, or carries out a pending delete. */
    method Release(e: Entry)
      requires Valid() && (e in members || e.refCount == 0)
      modifies this, e, members`next, members`pthis
      ensures Valid() && live == old(live)
      ensures old(e.refCount) == 0 ==> e.refCount == 0 && members == old(members) && lru == old(lru) && cleaned == old(cleaned)
      ensures old(e.refCount) > 0 ==> e.refCount == old(e.refCount) - 1
      ensures old(e.refCount) > 1 ==> members == old(members) && lru == old(lru) && cleaned == old(cleaned)
      ensures old(e.refCount) == 1 && !old(e.deletePending) ==> members == old(members) && lru == old(lru) + [e] && cleaned == old(cleaned)
      ensures old(e.refCount) == 1 ==> releasedAt == old(releasedAt)[e := old(clock)] && clock == old(clock) + 1
      ensures old(e.refCount) != 1 ==> releasedAt == old(releasedAt) && clock == old(clock)
      ensures old(e.refCount) == 1 && old(e.deletePending) ==>
                members == old(members) - {e} && lru == old(lru) && cleaned == old(cleaned) + [e]
    {
      hide Sound, Without;
      if e.refCount == 0 {
        return;
      }
      ghost var pinned, pending := Pinned(), Pending();
      ghost var r := Representation();
      SoundReleased(r, hash, pinned, pending, e);
      e.refCount := e.refCount - 1;
      if e.refCount == 0 {
        lru := lru + [e];
        releasedAt, clock := releasedAt[e := clock], clock + 1;
        assert Representation() == Released(r, e);
        assert Pinned() == pinned - {e} && Pending() == pending;
        if e.deletePending {
          Delete(e);
        }
      } else {
        assert Pinned() == pinned;
      }
    }

    /** The unused entry whose last release is longest ago; none when every entry is in use. */
    method GetLru() returns (e: Entry?)
      requires Valid()
      ensures e == null <==> members == Pinned()
      ensures e != null ==> e in members - Pinned() && e in releasedAt
      ensures e != null ==> forall f :: f in members - Pinned() && f != e ==> f in releasedAt && releasedAt[e] < releasedAt[f]
      ensures if lru == [] then e == null else e == lru[0]
    {
      hide Hashed, Totals, Mapped, CleanedOnce, Distinct;
      NonEmptyHasElements(lru);
      assert Elements(lru) == members - Pinned();
      if lru == [] {
        assert members - Pinned() == {};
        assert members == Pinned() + (members - Pinned());
        return null;
      }
      e := lru[0];
      assert e in Elements(lru);
      forall f | f in members - Pinned() && f != e ensures f in releasedAt && releasedAt[e] < releasedAt[f] {
        assert f in Elements(lru);
        var i :| 0 <= i < |lru| && lru[i] == f;
      }
    }

    lemma Listed(e: Entry)
      requires Valid() && e in lru
      ensures e in members && e.refCount == 0 && !e.deletePending && ValidBut({e})
    {
      SoundPlaces(Representation(), hash, Pinned(), Pending());
      assert e in Elements(lru);
      assert e in members - Pinned();
      assert e !in Pending() && ValidBut({e});
    }

    method EvictFirst(e: Entry, ghost start: Contents, ghost n: nat)
      requires Valid() && lru != [] && e == lru[0] && Evicted(start, State(), n)
      modifies this`heads, this`table, this`curSize, this`curWeight, this`deletes, this`lru, this`members, this`live, this`cleaned
      modifies members`deletePending, members`next, members`pthis
      ensures Valid() && Evicted(start, State(), n + 1) && members <= old(members)
      ensures forall f :: f in cleaned ==> f in old(cleaned) || f in old(members)
    {
      hide Sound, Evicted;
      Listed(e);
      ghost var before := State();
      Delete(e);
      EvictedMore(start, before, State(), n);
    }

    /** Evicts the least recently released entries, no more of them than needed for one more entry of
        the given weight; fails when all of them are not enough. */
    method MakeRoom(weight: nat) returns (ok: bool, ghost n: nat)
      requires Valid()
      modifies this`heads, this`table, this`curSize, this`curWeight, this`deletes, this`lru, this`members, this`live, this`cleaned
      modifies members`deletePending, members`next, members`pthis
      ensures Valid() && Evicted(old(State()), State(), n) && members <= old(members)
      ensures forall f :: f in cleaned ==> f in old(cleaned) || f in old(members)
      ensures ok <==> HasRoom(old(State()), n, weight, maxWeight, maxSize)
      ensures forall k :: 0 <= k < n ==> !HasRoom(old(State()), k, weight, maxWeight, maxSize)
      ensures !ok ==> n == |old(lru)|
    {
      hide ValidBut, Evicted, HasRoom, ListWeight;
      WithinLimits();
      ghost var start := State();
      EvictedNone(start);
      ok, n := ShedWeight(weight, start);
      EvictedFacts(start, State(), n, weight, maxWeight, maxSize);
      if ok && curSize >= maxSize {
        var e := GetLru();
        if e == null {
          return false, n;
        }
        EvictFirst(e, start, n);
        n := n + 1;
        EvictedFacts(start, State(), n, weight, maxWeight, maxSize);
        LighterList(start.lru, n - 1);
      }
    }

    lemma WithinLimits()
      requires Valid()
      ensures curSize <= maxSize && curWeight <= maxWeight
    {}

    /** The loop that makes room for the weight. */
    method ShedWeight(weight: nat, ghost start: Contents) returns (ok: bool, ghost n: nat)
      requires Valid() && start == State() && Evicted(start, start, 0)
      modifies this`heads, this`table, this`curSize, this`curWeight, this`deletes, this`lru, this`members, this`live, this`cleaned
      modifies members`deletePending, members`next, members`pthis
      ensures Valid() && Evicted(start, State(), n) && members <= old(members)
      ensures forall f :: f in cleaned ==> f in old(cleaned) || f in old(members)
      ensures forall k :: 0 <= k < n ==> !HasRoom(start, k, weight, maxWeight, maxSize)
      ensures if ok then curWeight + weight <= maxWeight
              else n == |start.lru| && !HasRoom(start, n, weight, maxWeight, maxSize)
    {
      hide ValidBut, Evicted, HasRoom, ListWeight;
      n := 0;
      while curWeight + weight > maxWeight
        invariant Valid() && Evicted(start, State(), n) && members <= old(members)
        invariant forall f :: f in cleaned ==> f in old(cleaned) || f in old(members)
        invariant forall k :: 0 <= k < n ==> !HasRoom(start, k, weight, maxWeight, maxSize)
        decreases |lru|
      {
        EvictedFacts(start, State(), n, weight, maxWeight, maxSize);
        var e := GetLru();
        if e == null {
          return false, n;
        }
        EvictFirst(e, start, n);
        n := n + 1;
        EvictedFacts(start, State(), n, weight, maxWeight, maxSize);
      }
      ok := true;
    }

    /** An entry as it was created, not in the table. */
    ghost predicate Unlinked(e: Entry)
      reads this`members, this`cleaned, e
    {
      e !in members && e.pthis == NoLink && e.refCount == 0 && !e.deletePending && e !in cleaned
    }

    /** Puts an entry at the head of a chain. */
    method LinkFirst(e: Entry, b: nat, ghost chain: seq<Entry>)
      requires b < |heads| && e !in chain && Distinct(chain) && ChainOk(heads[b], chain, b)
      modifies this`heads, chain`pthis, e`next, e`pthis
      ensures |heads| == |old(heads)| && heads == old(heads)[b := heads[b]]
      ensures ChainOk(heads[b], [e] + chain, b)
    {
      e.next := heads[b];
      heads := heads[b := e];
      e.pthis := HeadOf(b);
      if e.next != null {
        e.next.pthis := NextOf(e);
      }
      ghost var longer := [e] + chain;
      forall j | 0 <= j < |longer| ensures NodeOk(longer, b, j) {
        assert j > 0 ==> old(NodeOk(chain, b, j - 1));
      }
    }

    /** Links a new entry and keeps the table of chains. */
    method LinkMember(e: Entry)
      requires |table| > 0 && Hashed(table, members, hash) && Chained(heads, table, members) && e !in members
      modifies this`heads, this`table, members`pthis, e`next, e`pthis
      ensures |table| > 0 && Hashed(table, members + {e}, hash) && Chained(heads, table, members + {e})
      ensures table == TableWith(old(table), e, hash)
    {
      var b := BucketOf(e.key, hash, |heads|);
      ghost var before, chain := table, table[b];
      HashedWith(table, members, hash, e);
      ChainsApart(table, members, hash, b);
      LinkFirst(e, b, chain);
      table := table[b := [e] + chain];
      forall c | 0 <= c < |table| && c != b ensures ChainOk(heads[c], table[c], c) {
        assert old(ChainOk(heads[c], table[c], c)) && heads[c] == old(heads)[c] && table[c] == old(table)[c];
        forall j | 0 <= j < |table[c]| ensures NodeOk(table[c], c, j) {
          assert table[c][j] in before[c] && table[c][j] !in before[b] && old(NodeOk(table[c], c, j));
        }
      }
    }

    /** Adds a new entry, which comes pinned, to the table. */
    method Link(e: Entry)
      requires Valid() && Unlinked(e)
      requires curWeight + e.weight <= maxWeight && curSize < maxSize && e.key !in live
      modifies this`heads, this`table, this`curSize, this`curWeight, this`inserts, this`members, this`live
      modifies members`pthis, e`next, e`pthis, e`refCount
      ensures Valid() && e.refCount == 1 && inserts == old(inserts) + 1
      ensures members == old(members) + {e} && live == old(live)[e.key := e]
      ensures curWeight == old(curWeight) + e.weight && curSize == old(curSize) + 1
    {
      hide TableWith, Sound, Hashed, Chained, Admitted;
      TableIsHashed({});
      ghost var pinned, pending := Pinned(), Pending();
      ghost var r := Representation();
      SoundAdmitted(r, hash, pinned, pending, e);
      LinkMember(e);
      Enrol(e);
      Tally(e, r);
    }

    /** Takes a new member into the totals. */
    method Tally(e: Entry, ghost r: Rep)
      requires |r.table| > 0 && table == TableWith(r.table, e, hash) && members == r.c.members + {e}
      requires Representation() == Rep(r.c.(members := members), table, r.releasedAt, r.clock, r.linked)
      modifies this`inserts, this`curSize, this`curWeight, this`live
      ensures Representation() == Admitted(r, hash, e)
      ensures inserts == old(inserts) + 1 && live == old(live)[e.key := e]
      ensures curWeight == old(curWeight) + e.weight && curSize == old(curSize) + 1
    {
      inserts, curSize, curWeight := inserts + 1, curSize + 1, curWeight + e.weight;
      live := live[e.key := e];
    }

    /** A new member is in use from the start. */
    method Enrol(e: Entry)
      requires e !in members && e.refCount == 0 && !e.deletePending
      modifies this`members, e`refCount
      ensures members == old(members) + {e} && e.refCount == 1
      ensures Pinned() == old(Pinned()) + {e} && Pending() == old(Pending())
    {
      e.refCount := e.refCount + 1;
      members := members + {e};
    }

    /** The entry replaces any other of its key, once room is made for it; it comes pinned. */
    method Insert(e: Entry) returns (rv: int, ghost n: nat, ghost room: Contents)
      requires Valid() && Unlinked(e)
      modifies this`heads, this`table, this`curSize, this`curWeight, this`inserts, this`deletes, this`lru, this`members, this`live, this`cleaned
      modifies members`deletePending, members`next, members`pthis, e`next, e`pthis, e`refCount
      ensures Valid() && Evicted(old(State()), room, n)
      ensures rv == if HasRoom(old(State()), |old(lru)|, e.weight, maxWeight, maxSize) then 0 else -1
      ensures rv == 0 ==> State() == Added(room, e) && e.refCount == 1 && inserts == old(inserts) + 1
      ensures rv == 0 ==> HasRoom(old(State()), n, e.weight, maxWeight, maxSize)
      ensures forall k :: 0 <= k < n ==> !HasRoom(old(State()), k, e.weight, maxWeight, maxSize)
      ensures rv == -1 ==> n == |old(lru)| && State() == room
    {
      hide ValidBut, Evicted, HasRoom, Without, ListWeight;
      ghost var start := State();
      var ok;
      ok, n := MakeRoom(e.weight);
      room := State();
      RoomForAll(start, n, e.weight, maxWeight, maxSize);
      if !ok {
        return -1, n, room;
      }
      EvictedFacts(start, room, n, e.weight, maxWeight, maxSize);
      Replace(e);
      rv := 0;
    }

    /** Deletes the entry of the same key, if there is one, and links the new one. */
    method Replace(e: Entry)
      requires Valid() && Unlinked(e)
      requires curWeight + e.weight <= maxWeight && curSize < maxSize
      modifies this`heads, this`table, this`curSize, this`curWeight, this`inserts, this`deletes, this`lru, this`members, this`live, this`cleaned
      modifies members`deletePending, members`next, members`pthis, e`next, e`pthis, e`refCount
      ensures Valid() && State() == Added(old(State()), e) && e.refCount == 1 && inserts == old(inserts) + 1
    {
      hide ValidBut, Without, Added;
      var other := Find(e.key);
      if other != null {
        LiveFacts(e.key);
        Delete(other);
      }
      ghost var middle := State();
      Link(e);
      Adding(old(State()), middle, State(), e);
    }

    lemma LiveFacts(key: Key)
      requires Valid() && key in live
      ensures var o := live[key];
              && o in members && o.key == key && !o.deletePending && ValidBut({o}) && (o in lru <==> o.refCount == 0)
              && (o !in lru ==> Without(lru, o) == lru)
    {
      hide Sound, Without;
      var o := live[key];
      SoundPlaces(Representation(), hash, Pinned(), Pending());
      assert o in members - Pending();
      assert o in lru <==> o in Elements(lru);
    }

    /** Deletes everything: what is in use stays until it is released, invisible to lookups. */
    method Empty()
      requires Valid()
      modifies this`heads, this`table, this`curSize, this`curWeight, this`deletes, this`lru, this`members, this`live, this`cleaned
      modifies members`deletePending, members`next, members`pthis
      ensures Valid() && live == map[] && lru == [] && members == old(Pinned())
      ensures forall e :: e in old(members) ==> e in members || e in cleaned
    {
      AsManyHeads();
      hide ValidBut, Pinned, Pending;
      for i := 0 to |heads|
        invariant |heads| == |table| && Valid() && |table| == old(|table|) && Pinned() == old(Pinned()) && members <= old(members)
        invariant forall e :: e in old(members) ==> e in members || e in cleaned
        invariant forall b :: 0 <= b < i ==> Elements(table[b]) <= Pending()
      {
        EmptyChain(i);
        AsManyHeads();
      }
      AllPending();
    }

    lemma AllPending()
      requires Valid() && forall b :: 0 <= b < |table| ==> Elements(table[b]) <= Pending()
      ensures live == map[] && lru == [] && members == Pinned()
    {
      hide Totals, InOrder, CleanedOnce;
      assert members <= Pending() by {
        forall e | e in members ensures e in Pending() {
          assert e in Elements(table[BucketOf(e.key, hash, |table|)]);
        }
      }
      assert members == Pending() == Pinned();
      assert Elements(lru) == {} == members - Pending();
      NonEmptyHasElements(lru);
    }

    method EmptyChain(i: nat)
      requires Valid() && i < |table|
      modifies this`heads, this`table, this`curSize, this`curWeight, this`deletes, this`lru, this`members, this`live, this`cleaned
      modifies members`deletePending, members`next, members`pthis
      ensures Valid() && Pinned() == old(Pinned()) && SameElsewhere(old(table), table, i)
      ensures old(Pending()) <= Pending() && Elements(table[i]) <= Pending()
      ensures Accounted(old(members), old(cleaned), members, cleaned)
    {
      HeadOfChain(i);
      assert SameElsewhere(table, table, i) && Accounted(members, cleaned, members, cleaned);
      hide ValidBut, Pinned, Pending, Accounted, NodeAt;
      var entry := heads[i];
      ghost var j: nat := 0;
      while entry != null
        invariant Valid() && |table| == old(|table|) && Pinned() == old(Pinned()) && members <= old(members)
        invariant SameElsewhere(old(table), table, i) && Accounted(old(members), old(cleaned), members, cleaned)
        invariant j <= |table[i]| && entry == NodeAt(table[i], j)
        invariant old(Pending()) <= Pending() && Elements(table[i][..j]) <= Pending()
        decreases |table[i]| - j
      {
        ghost var m, c, t := members, cleaned, table;
        entry, j := DeleteNext(i, j, entry);
        AccountedTrans(old(members), old(cleaned), m, c, members, cleaned, old(table), t, table, i);
      }
      assert table[i][..j] == table[i];
    }

    /** Deletes one entry of a chain, having taken note of the next. */
    method DeleteNext(ghost i: nat, ghost j: nat, entry: Entry) returns (next: Entry?, ghost j': nat)
      requires Valid() && i < |table| && j < |table[i]| && entry == table[i][j] && Elements(table[i][..j]) <= Pending()
      modifies this`heads, this`table, this`curSize, this`curWeight, this`deletes, this`lru, this`members, this`live, this`cleaned
      modifies members`deletePending, members`next, members`pthis
      ensures Valid() && |table| == old(|table|) && Pinned() == old(Pinned()) && members <= old(members)
      ensures SameElsewhere(old(table), table, i) && Accounted(old(members), old(cleaned), members, cleaned)
      ensures old(Pending()) <= Pending()
      ensures j' <= |table[i]| && next == NodeAt(table[i], j') && Elements(table[i][..j']) <= Pending()
      ensures |table[i]| - j' < old(|table[i]|) - j
    {
      hide ValidBut, Pinned, Pending;
      ghost var chain := table[i];
      NextInChain(i, j);
      next := entry.next;
      DeleteChained(i, j, entry);
      j' := j;
      if entry in Pending() {
        j' := j + 1;
        assert table[i][..j'] == chain[..j] + [entry];
      } else {
        assert table[i][..j] == chain[..j];
      }
    }

    lemma AsManyHeads()
      requires Valid()
      ensures |heads| == |table|
    {}

    lemma HeadOfChain(i: nat)
      requires Valid() && i < |table|
      ensures |heads| == |table| && heads[i] == NodeAt(table[i], 0)
    {
      hide Sound;
      assert ChainOk(heads[i], table[i], i);
    }

    lemma NextInChain(i: nat, j: nat)
      requires Valid() && i < |table| && j < |table[i]|
      ensures table[i][j].next == NodeAt(table[i], j + 1)
    {
      hide Sound;
      assert ChainOk(heads[i], table[i], i) && NodeOk(table[i], i, j);
    }

    /** Deletes the j-th entry of a chain: it is gone from the chain or waits to be deleted. */
    method DeleteChained(ghost i: nat, ghost j: nat, e: Entry)
      requires Valid() && i < |table| && j < |table[i]| && e == table[i][j]
      modifies this`heads, this`table, this`curSize, this`curWeight, this`deletes, this`lru, this`members, this`live, this`cleaned
      modifies members`deletePending, members`next, members`pthis
      ensures Valid() && |table| == old(|table|) && Pinned() == old(Pinned()) && members <= old(members)
      ensures old(Pending()) <= Pending()
      ensures forall b :: 0 <= b < |table| && b != i ==> table[b] == old(table[b])
      ensures if e in Pending() then table[i] == old(table[i])
              else table[i] == old(table[i][..j] + table[i][j + 1..]) && (j < |table[i]| ==> table[i][j] != e)
      ensures forall f :: f in old(cleaned) || f in old(members) - members ==> f in cleaned
    {
      hide Sound, Without;
      ChainFacts(i, j);
      ghost var pinned, pending := Pinned(), Pending();
      Delete(e);
      assert Pinned() == pinned && pending <= Pending();
      assert e in Pending() <==> e in members;
    }

    lemma ChainFacts(i: nat, j: nat)
      requires Valid() && i < |table| && j < |table[i]|
      ensures var e := table[i][j];
              && e in members && BucketOf(e.key, hash, |table|) == i && ValidBut({e})
              && Without(table[i], e) == table[i][..j] + table[i][j + 1..]
              && (j + 1 < |table[i]| ==> table[i][j + 1] != e)
              && (e.refCount == 0 ==> e !in Pending())
    {
      hide Totals, Ordered, Mapped, CleanedOnce, Without;
      assert table[i][j] in table[i];
      WithoutAt(table[i], j);
      SoundPlaces(Representation(), hash, Pinned(), Pending());
      assert table[i][j] in Pending() ==> table[i][j] in Pending() - {};
    }
  }

  /** Of some chains at most the i-th changed. */
  ghost predicate SameElsewhere(t: seq<seq<Entry>>, t': seq<seq<Entry>>, i: nat) {
    |t| == |t'| && forall b :: 0 <= b < |t| && b != i ==> t'[b] == t[b]
  }

  /** Whatever is no longer a member was cleaned up. */
  ghost predicate Accounted(members: set<Entry>, cleaned: seq<Entry>, members': set<Entry>, cleaned': seq<Entry>) {
    && members' <= members && (forall e :: e in cleaned ==> e in cleaned')
    && forall e :: e in members ==> e in members' || e in cleaned'
  }

  lemma AccountedTrans(m: set<Entry>, c: seq<Entry>, m': set<Entry>, c': seq<Entry>, m'': set<Entry>, c'': seq<Entry>,
                       t: seq<seq<Entry>>, t': seq<seq<Entry>>, t'': seq<seq<Entry>>, i: nat)
    requires Accounted(m, c, m', c') && Accounted(m', c', m'', c'')
    requires SameElsewhere(t, t', i) && SameElsewhere(t', t'', i)
    ensures Accounted(m, c, m'', c'') && SameElsewhere(t, t'', i)
  {}

  /** A new entry put into contents: it takes the place of the live entry of its key, which is deleted
      unless it is in use. */
  ghost function Added(b: Contents, e: Entry): Contents {
    var gone := if e.key in b.live && b.live[e.key] in b.lru then [b.live[e.key]] else [];
    Contents(b.members - Elements(gone) + {e}, b.live[e.key := e],
             if e.key in b.live then Without(b.lru, b.live[e.key]) else b.lru,
             b.cleaned + gone, b.weight - ListWeight(gone) + e.weight, b.size - |gone| + 1)
  }

  /** Deleting the live entry of the key, if any, and linking the new one. */
  lemma Adding(b: Contents, m: Contents, c: Contents, e: Entry)
    requires if e.key !in b.live then m == b else
               var o := b.live[e.key];
               if o in b.lru then
                 m == Contents(b.members - {o}, b.live - {e.key}, Without(b.lru, o), b.cleaned + [o], b.weight - o.weight, b.size - 1)
               else
                 m == b.(live := b.live - {e.key}) && Without(b.lru, o) == b.lru
    requires c == Contents(m.members + {e}, m.live[e.key := e], m.lru, m.cleaned, m.weight + e.weight, m.size + 1)
    ensures c == Added(b, e)
  {
    assert b.cleaned + [] == b.cleaned;
    if e.key in b.live {
      var o := b.live[e.key];
      assert ListWeight([o][..0]) == 0 && ListWeight([o]) == o.weight && Elements([o]) == {o};
      assert (b.live - {e.key})[e.key := e] == b.live[e.key := e];
    }
  }

  /** If evicting some of the list makes room, so does evicting all of it. */
  lemma {:induction false} RoomForAll(a: Contents, n: nat, weight: nat, maxWeight: nat, maxSize: nat)
    ensures HasRoom(a, n, weight, maxWeight, maxSize) ==> HasRoom(a, |a.lru|, weight, maxWeight, maxSize)
    decreases |a.lru| - n
  {
    if n < |a.lru| {
      LighterList(a.lru, n);
      RoomForAll(a, n + 1, weight, maxWeight, maxSize);
    }
  }

  /** The first n entries of the LRU list were deleted, and nothing else happened. */
  ghost predicate Evicted(a: Contents, b: Contents, n: nat) {
    && n <= |a.lru| && b.lru == a.lru[n..] && b.cleaned == a.cleaned + a.lru[..n]
    && b.members == a.members - Elements(a.lru[..n]) && b.live == a.live - Keys(a.lru[..n])
    && b.weight == a.weight - ListWeight(a.lru[..n]) && b.size == a.size - n
  }

  lemma EvictedNone(a: Contents)
    ensures Evicted(a, a, 0)
  {
    assert a.lru[..0] == [];
  }

  lemma EvictedMore(a: Contents, b: Contents, c: Contents, n: nat)
    requires Evicted(a, b, n) && b.lru != []
    requires var e := b.lru[0];
             c == Contents(b.members - {e}, b.live - {e.key}, Without(b.lru, e), b.cleaned + [e], b.weight - e.weight, b.size - 1)
    ensures Evicted(a, c, n + 1)
  {
    assert a.lru[..n + 1] == a.lru[..n] + [a.lru[n]] && a.lru[..n + 1][..n] == a.lru[..n];
  }

  /** With n entries of the LRU list gone, one more of the given weight is within the limits. */
  ghost predicate HasRoom(a: Contents, n: nat, weight: nat, maxWeight: nat, maxSize: nat) {
    n <= |a.lru| && a.weight - ListWeight(a.lru[..n]) + weight <= maxWeight && a.size - n < maxSize
  }

  lemma EvictedFacts(a: Contents, b: Contents, n: nat, weight: nat, maxWeight: nat, maxSize: nat)
    requires Evicted(a, b, n)
    ensures |b.lru| == |a.lru| - n && b.size == a.size - n && b.weight == a.weight - ListWeight(a.lru[..n])
    ensures HasRoom(a, n, weight, maxWeight, maxSize) <==> b.weight + weight <= maxWeight && b.size < maxSize
  {}

  lemma LighterList(s: seq<Entry>, n: nat)
    requires n < |s|
    ensures ListWeight(s[..n]) <= ListWeight(s[..n + 1])
  {
    assert s[..n + 1][..n] == s[..n];
  }

  lemma {:induction false} LastWithout(s: seq<Entry>, x: Entry)
    requires x !in s
    ensures Without(s + [x], x) == s
  {
    if |s| > 0 {
      assert (s + [x])[1..] == s[1..] + [x];
      LastWithout(s[1..], x);
    }
  }

  /** An insertion succeeds exactly when the entries in use leave room for the new one. */
  lemma RoomIffPinnedFit(cache: Cache, weight: nat)
    requires cache.Valid()
    ensures HasRoom(cache.State(), |cache.lru|, weight, cache.maxWeight, cache.maxSize)
            <==> Weight(cache.Pinned()) + weight <= cache.maxWeight && |cache.Pinned()| < cache.maxSize
  {
    hide Hashed, Mapped, CleanedOnce, Weight, ListWeight, Elements;
    assert cache.lru[..|cache.lru|] == cache.lru;
    ListWeightIs(cache.lru);
    WeightSplit(cache.members, Elements(cache.lru));
    assert cache.members - Elements(cache.lru) == cache.Pinned();
    assert cache.members * Elements(cache.lru) == Elements(cache.lru);
  }

  lemma {:induction false} ListWeightIs(s: seq<Entry>)
    requires Distinct(s)
    ensures ListWeight(s) == Weight(Elements(s)) && |Elements(s)| == |s|
  {
    if |s| > 0 {
      var t, e := s[..|s| - 1], s[|s| - 1];
      ListWeightIs(t);
      assert e !in Elements(t);
      assert Elements(s) == Elements(t) + {e};
      WeightWith(Elements(t), e);
    }
  }

  lemma {:induction false} WeightSplit(s: set<Entry>, t: set<Entry>)
    requires t <= s
    ensures Weight(s) == Weight(t) + Weight(s - t) && |s| == |t| + |s - t|
    decreases t
  {
    if t == {} {
      assert s - t == s;
    } else {
      var e :| e in t;
      WeightWithout(t, e);
      WeightSplit(s, t - {e});
      assert s - (t - {e}) == (s - t) + {e};
      WeightWith(s - t, e);
    }
  }
}
