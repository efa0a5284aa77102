/** Interest in descriptors, counted per event and mirrored in the kernel's epoll set. */
module Epoll {

  /** One bit of a poll or epoll mask; `Other` stands for any bit the library does not know. */
  datatype Bit = In | Pri | Out | Err | Hup | Other

  type Mask = set<Bit>

  const Askable: Mask := {In, Pri, Out}

  datatype PollFd = PollFd(fd: int, events: Mask)

  /** What the library keeps for a descriptor: how many waiters ask for each event, and the events
      that fired, which is empty except while events are being dispatched. */
  datatype FdData = FdData(readers: nat, writers: nat, urgent: nat, revents: Mask) {
    function Count(b: Bit): nat {
      match b
      case In => readers
      case Out => writers
      case Pri => urgent
      case _ => 0
    }

    function Events(): (m: Mask)
      ensures forall b :: b in m <==> Count(b) > 0
    {
      (if readers > 0 then {In} else {}) + (if writers > 0 then {Out} else {}) + (if urgent > 0 then {Pri} else {})
    }
  }

  const NoInterest := FdData(0, 0, 0, {})

  datatype Op = Add | Mod | Del

  /** Answers of the kernel: done, EEXIST, ENOENT, or any other error. */
  datatype Answer = Done | Exists | Missing | Refused

  datatype Report = Report(fd: int, events: Mask)

  lemma SizeWith(m: map<int, Mask>, fd: int, events: Mask)
    ensures |m[fd := events]| == |m| + if fd in m then 0 else 1
    ensures |m - {fd}| == |m| - if fd in m then 1 else 0
  {
    assert m[fd := events].Keys == m.Keys + {fd};
    assert (m - {fd}).Keys == m.Keys - {fd};
  }

  /** The kernel's epoll set. It may refuse any request, for reasons of its own. */
  class Kernel {
    var interest: map<int, Mask>
    // How many requests were not done.
    ghost var refusals: nat

    constructor ()
      ensures interest == map[] && refusals == 0
    {
      interest, refusals := map[], 0;
    }

    ghost predicate Valid()
      reads this
    {
      forall fd :: fd in interest ==> interest[fd] != {}
    }

    ghost function Known(fd: int): Mask
      reads this
    {
      KnownIn(interest, fd)
    }

    method Ctl(op: Op, fd: int, events: Mask) returns (a: Answer)
      requires Valid() && (op != Del ==> events != {})
      modifies this
      ensures Valid()
      ensures a == Done ==> (fd in old(interest) <==> op != Add)
      ensures a == Done ==> interest == if op == Del then old(interest) - {fd} else old(interest)[fd := events]
      ensures a == Done ==> |interest| == old(|interest|) + if op == Add then 1 else if op == Mod then 0 else -1
      ensures a != Done ==> interest == old(interest)
      ensures refusals == old(refusals) + if a == Done then 0 else 1
      ensures a == Exists ==> op == Add && fd in interest
      ensures a == Missing ==> op != Add && fd !in interest
    {
      var refuse: bool := *;
      if refuse {
        a := Refused;
      } else if op == Add && fd in interest {
        a := Exists;
      } else if op != Add && fd !in interest {
        a := Missing;
      } else {
        a := Done;
        SizeWith(interest, fd, events);
        interest := if op == Del then interest - {fd} else interest[fd := events];
        return;
      }
      refusals := refusals + 1;
    }
  }

  /** What epoll_wait may report: distinct descriptors of the set, each with some event asked for,
      an error or a hang-up. */
  ghost predicate MayReport(interest: map<int, Mask>, evts: seq<Report>) {
    && (forall i, j :: 0 <= i < j < |evts| ==> evts[i].fd != evts[j].fd)
    && (forall i :: 0 <= i < |evts| ==>
          evts[i].fd in interest && evts[i].events != {} && evts[i].events <= interest[evts[i].fd] + {Err, Hup})
  }

  /** A thread waiting in st_poll: what it asks for, what it was told, and whether it is on the queue. */
  class Waiter {
    const pds: seq<PollFd>
    var revents: seq<Mask>
    var onIoQ: bool

    constructor (pds: seq<PollFd>)
      ensures this.pds == pds && |revents| == |pds| && !onIoQ
    {
      this.pds := pds;
      revents := seq(|pds|, _ => {});
      onIoQ := false;
    }
  }

  // ----- Counting who asks for what -----

  /** How many of `pds` ask for event b of descriptor fd. */
  function Asking(pds: seq<PollFd>, fd: int, b: Bit): nat {
    if |pds| == 0 then 0 else
      var last := pds[|pds| - 1];
      Asking(pds[..|pds| - 1], fd, b) + if last.fd == fd && b in last.events then 1 else 0
  }

  /** How many entries of the waiters' poll sets ask for event b of descriptor fd. */
  ghost function Wanted(q: seq<Waiter>, fd: int, b: Bit): nat {
    if |q| == 0 then 0 else Wanted(q[..|q| - 1], fd, b) + Asking(q[|q| - 1].pds, fd, b)
  }

  lemma AskingStep(pds: seq<PollFd>, i: nat, fd: int, b: Bit)
    requires i < |pds|
    ensures Asking(pds[..i + 1], fd, b) == Asking(pds[..i], fd, b) + if pds[i].fd == fd && b in pds[i].events then 1 else 0
  {
    assert pds[..i + 1][..i] == pds[..i];
  }

  lemma {:induction false} AskingPrefix(pds: seq<PollFd>, i: nat, fd: int, b: Bit)
    requires i <= |pds|
    ensures Asking(pds[..i], fd, b) <= Asking(pds, fd, b)
    decreases |pds| - i
  {
    if i < |pds| {
      AskingStep(pds, i, fd, b);
      AskingPrefix(pds, i + 1, fd, b);
    } else {
      assert pds[..i] == pds;
    }
  }

  lemma {:induction false} WantedConcat(p: seq<Waiter>, q: seq<Waiter>, fd: int, b: Bit)
    ensures Wanted(p + q, fd, b) == Wanted(p, fd, b) + Wanted(q, fd, b)
  {
    if |q| == 0 {
      assert p + q == p;
    } else {
      assert (p + q)[..|p + q| - 1] == p + q[..|q| - 1];
      WantedConcat(p, q[..|q| - 1], fd, b);
    }
  }

  lemma WantedOne(w: Waiter, fd: int, b: Bit)
    ensures Wanted([w], fd, b) == Asking(w.pds, fd, b)
  {
    assert [w][..0] == [];
  }

  lemma WantedWithout(q: seq<Waiter>, i: nat, fd: int, b: Bit)
    requires i < |q|
    ensures Wanted(q, fd, b) == Wanted(q[..i] + q[i + 1..], fd, b) + Asking(q[i].pds, fd, b)
  {
    assert q == q[..i] + ([q[i]] + q[i + 1..]);
    WantedConcat(q[..i], [q[i]] + q[i + 1..], fd, b);
    WantedConcat([q[i]], q[i + 1..], fd, b);
    WantedConcat(q[..i], q[i + 1..], fd, b);
    WantedOne(q[i], fd, b);
  }

  /** Somebody asks exactly when the count is not zero. */
  lemma {:induction false} SomeoneAsks(pds: seq<PollFd>, fd: int, b: Bit)
    ensures Asking(pds, fd, b) > 0 <==> exists k :: 0 <= k < |pds| && pds[k].fd == fd && b in pds[k].events
  {
    if |pds| > 0 {
      SomeoneAsks(pds[..|pds| - 1], fd, b);
    }
  }

  lemma {:induction false} SomeoneWaits(q: seq<Waiter>, fd: int, b: Bit)
    ensures Wanted(q, fd, b) > 0 <==> exists w :: w in q && Asking(w.pds, fd, b) > 0
  {
    if |q| > 0 {
      SomeoneWaits(q[..|q| - 1], fd, b);
      assert q == q[..|q| - 1] + [q[|q| - 1]];
    }
  }

  /** The poll sets the library accepts. */
  predicate Accepted(pds: seq<PollFd>) {
    forall k :: 0 <= k < |pds| ==> pds[k].fd >= 0 && pds[k].events != {} && pds[k].events <= Askable
  }

  predicate Within(pds: seq<PollFd>, size: int) {
    forall k :: 0 <= k < |pds| ==> 0 <= pds[k].fd < size
  }

  /** Counts after a poll set is added to, or taken from, a descriptor's. */
  ghost predicate Shifted(d: FdData, e: FdData, pds: seq<PollFd>, fd: int) {
    d.revents == e.revents && forall b :: e.Count(b) == d.Count(b) + if b in Askable then Asking(pds, fd, b) else 0
  }

  // ----- What a round of events means to the waiters -----

  /** The events recorded for a descriptor: an error or a hang-up counts as every event asked for. */
  function Widened(events: Mask, mask: Mask): Mask {
    if events * {Err, Hup} != {} then events + mask else events
  }

  function FiredOn(evts: seq<Report>, fd: int, mask: Mask): Mask {
    if |evts| == 0 then {} else
      var last := evts[|evts| - 1];
      if last.fd == fd then Widened(last.events, mask) else FiredOn(evts[..|evts| - 1], fd, mask)
  }

  /** The events a poll entry is told of when `fired` fired on its descriptor. */
  function Told(events: Mask, fired: Mask): Mask {
    (events * fired * Askable) + (fired * {Err, Hup})
  }

  /** What each entry of a waiter's poll set is told. */
  ghost function ToldAll(w: Waiter, fds: seq<FdData>): seq<Mask> {
    seq(|w.pds|, k requires 0 <= k < |w.pds| =>
      if 0 <= w.pds[k].fd < |fds| then Told(w.pds[k].events, fds[w.pds[k].fd].revents) else {})
  }

  ghost predicate Notified(w: Waiter, fds: seq<FdData>) {
    exists k :: 0 <= k < |w.pds| && 0 <= w.pds[k].fd < |fds| && Told(w.pds[k].events, fds[w.pds[k].fd].revents) != {}
  }

  /** The waiters that are (or are not) told of some event, in queue order. */
  ghost function Picked(q: seq<Waiter>, fds: seq<FdData>, told: bool): seq<Waiter> {
    if |q| == 0 then [] else
      var rest := Picked(q[..|q| - 1], fds, told);
      if Notified(q[|q| - 1], fds) == told then rest + [q[|q| - 1]] else rest
  }

  lemma {:induction false} FiredAt(evts: seq<Report>, i: nat, mask: Mask)
    requires i < |evts| && forall i, j :: 0 <= i < j < |evts| ==> evts[i].fd != evts[j].fd
    ensures FiredOn(evts, evts[i].fd, mask) == Widened(evts[i].events, mask)
  {
    if i < |evts| - 1 {
      FiredAt(evts[..|evts| - 1], i, mask);
    }
  }

  lemma {:induction false} FiredOnlyIfReported(evts: seq<Report>, fd: int, mask: Mask)
    ensures FiredOn(evts, fd, mask) != {} ==> exists i :: 0 <= i < |evts| && evts[i].fd == fd
  {
    if |evts| > 0 {
      FiredOnlyIfReported(evts[..|evts| - 1], fd, mask);
    }
  }

  lemma PickedStep(q: seq<Waiter>, i: nat, fds: seq<FdData>, told: bool)
    requires i < |q|
    ensures Picked(q[..i + 1], fds, told)
         == if Notified(q[i], fds) == told then Picked(q[..i], fds, told) + [q[i]] else Picked(q[..i], fds, told)
  {
    assert q[..i + 1][..i] == q[..i];
  }

  /** The walk over the queue q has passed its first `done` waiters: those told are in `woken`, the
      others are the first i of the queue as it is now. */
  ghost predicate Walking(q: seq<Waiter>, fds: seq<FdData>, done: nat, now: seq<Waiter>, i: nat, woken: seq<Waiter>) {
    && done <= |q| && i <= |now| && now[i..] == q[done..]
    && woken == Picked(q[..done], fds, true) && now[..i] == Picked(q[..done], fds, false)
  }

  lemma WalkStep(q: seq<Waiter>, fds: seq<FdData>, done: nat, now: seq<Waiter>, i: nat, woken: seq<Waiter>)
    requires Walking(q, fds, done, now, i, woken) && i < |now|
    ensures done < |q| && now[i] == q[done]
    ensures if Notified(now[i], fds) then Walking(q, fds, done + 1, now[..i] + now[i + 1..], i, woken + [now[i]])
            else Walking(q, fds, done + 1, now, i + 1, woken)
  {
    assert now[i] == now[i..][0] == q[done];
    assert now[i + 1..] == now[i..][1..] == q[done + 1..];
    PickedStep(q, done, fds, true);
    PickedStep(q, done, fds, false);
    var now' := now[..i] + now[i + 1..];
    assert now'[..i] == now[..i] && now'[i..] == now[i + 1..];
    assert now[..i + 1] == now[..i] + [now[i]];
  }

  lemma WalkGoesOn(q: seq<Waiter>, fds: seq<FdData>, done: nat, now: seq<Waiter>, i: nat, woken: seq<Waiter>)
    requires Walking(q, fds, done, now, i, woken) && i < |now|
    ensures done < |q|
  {}

  lemma WalkBegins(q: seq<Waiter>, fds: seq<FdData>)
    ensures Walking(q, fds, 0, q, 0, [])
  {
    assert q[..0] == [];
  }

  lemma WalkEnds(q: seq<Waiter>, fds: seq<FdData>, done: nat, now: seq<Waiter>, woken: seq<Waiter>)
    requires Walking(q, fds, done, now, |now|, woken)
    ensures done == |q| && woken == Picked(q, fds, true) && now == Picked(q, fds, false)
  {
    assert q[done..] == [] && q[..done] == q && now[..|now|] == now;
  }

  ghost function KnownIn(interest: map<int, Mask>, fd: int): Mask {
    if fd in interest then interest[fd] else {}
  }

  /** The kernel's view of the descriptors that fired is left alone. */
  ghost predicate FiredKept(fds: seq<FdData>, k: map<int, Mask>, k': map<int, Mask>) {
    forall fd :: 0 <= fd < |fds| && fds[fd].revents != {} ==> KnownIn(k, fd) == KnownIn(k', fd)
  }

  lemma FiredKeptTrans(fds: seq<FdData>, fds': seq<FdData>, fds'': seq<FdData>, k: map<int, Mask>, k': map<int, Mask>, k'': map<int, Mask>)
    requires SameFired(fds, fds') && SameFired(fds', fds'') && FiredKept(fds', k, k') && FiredKept(fds'', k', k'')
    ensures SameFired(fds, fds'') && FiredKept(fds'', k, k'')
  {}

  ghost predicate SameFired(fds: seq<FdData>, fds': seq<FdData>) {
    |fds| == |fds'| && forall fd :: 0 <= fd < |fds| ==> fds[fd].revents == fds'[fd].revents
  }

  lemma SameTold(w: Waiter, fds: seq<FdData>, fds': seq<FdData>)
    requires SameFired(fds', fds)
    ensures ToldAll(w, fds) == ToldAll(w, fds') && Notified(w, fds) == Notified(w, fds')
  {}

  lemma {:induction false} PickedExactly(q: seq<Waiter>, fds: seq<FdData>, told: bool)
    ensures forall w :: w in Picked(q, fds, told) <==> w in q && Notified(w, fds) == told
  {
    if |q| > 0 {
      PickedExactly(q[..|q| - 1], fds, told);
      assert q == q[..|q| - 1] + [q[|q| - 1]];
    }
  }

  lemma {:induction false} NobodyPicked(q: seq<Waiter>, fds: seq<FdData>)
    requires forall fd :: 0 <= fd < |fds| ==> fds[fd].revents == {}
    ensures Picked(q, fds, true) == [] && Picked(q, fds, false) == q
  {
    if |q| > 0 {
      NobodyPicked(q[..|q| - 1], fds);
      assert !Notified(q[|q| - 1], fds);
    }
  }

  ghost predicate WakesOn(woken: seq<Waiter>, fd: int) {
    exists w :: w in woken && exists k :: 0 <= k < |w.pds| && w.pds[k].fd == fd
  }

  lemma SameEvents(d: FdData, revents: Mask)
    ensures d.(revents := revents).Events() == d.Events()
    ensures forall b :: d.(revents := revents).Count(b) == d.Count(b)
  {}

  /** A descriptor the kernel reports always has a waiter to wake, when the kernel's mask is right. */
  lemma FiredWakes(q: seq<Waiter>, fds: seq<FdData>, evts: seq<Report>, i: nat)
    requires i < |evts| && forall i, j :: 0 <= i < j < |evts| ==> evts[i].fd != evts[j].fd
    requires 0 <= evts[i].fd < |fds| && evts[i].events != {}
    requires var mask := fds[evts[i].fd].Events(); mask != {} && evts[i].events <= mask + {Err, Hup}
    requires forall b :: b in Askable ==> fds[evts[i].fd].Count(b) == Wanted(q, evts[i].fd, b)
    ensures WakesOn(Picked(q, Marked(fds, evts), true), evts[i].fd)
  {
    var fd, mask, marks := evts[i].fd, fds[evts[i].fd].Events(), Marked(fds, evts);
    FiredAt(evts, i, mask);
    var fired := Widened(evts[i].events, mask);
    var b :| b in mask && (b in fired);
    assert b in Askable;
    SomeoneWaits(q, fd, b);
    var w :| w in q && Asking(w.pds, fd, b) > 0;
    SomeoneAsks(w.pds, fd, b);
    var k :| 0 <= k < |w.pds| && w.pds[k].fd == fd && b in w.pds[k].events;
    assert b in Told(w.pds[k].events, marks[fd].revents);
    PickedExactly(q, marks, true);
  }

  /** The descriptor table once every reported event is recorded. */
  ghost function Marked(fds: seq<FdData>, evts: seq<Report>): (m: seq<FdData>)
    ensures |m| == |fds|
    ensures forall fd :: 0 <= fd < |fds| ==> m[fd] == fds[fd].(revents := FiredOn(evts, fd, fds[fd].Events()))
  {
    seq(|fds|, fd requires 0 <= fd < |fds| => fds[fd].(revents := FiredOn(evts, fd, fds[fd].Events())))
  }

  // ----- What a round of events means, told by the reports alone -----

  ghost predicate Reported(evts: seq<Report>, fd: int, b: Bit) {
    exists i :: 0 <= i < |evts| && evts[i].fd == fd && b in evts[i].events
  }

  /** An event asked for is told if it was reported, or an error or a hang-up was; errors and hang-ups are
      told whether asked for or not; nothing else is told. */
  ghost predicate ToldOf(evts: seq<Report>, pd: PollFd, b: Bit) {
    match b
    case Other => false
    case Err => Reported(evts, pd.fd, Err)
    case Hup => Reported(evts, pd.fd, Hup)
    case _ => b in pd.events && (Reported(evts, pd.fd, b) || Reported(evts, pd.fd, Err) || Reported(evts, pd.fd, Hup))
  }

  ghost predicate Concerns(evts: seq<Report>, w: Waiter) {
    exists k, b :: 0 <= k < |w.pds| && ToldOf(evts, w.pds[k], b)
  }

  lemma FiredMeans(evts: seq<Report>, fd: int, mask: Mask, b: Bit)
    requires forall i, j :: 0 <= i < j < |evts| ==> evts[i].fd != evts[j].fd
    ensures b in FiredOn(evts, fd, mask)
            <==> Reported(evts, fd, b) || (b in mask && (Reported(evts, fd, Err) || Reported(evts, fd, Hup)))
  {
    FiredOnlyIfReported(evts, fd, mask);
    if i :| 0 <= i < |evts| && evts[i].fd == fd {
      FiredAt(evts, i, mask);
      hide FiredOn;
      var events := evts[i].events;
      assert forall c :: Reported(evts, fd, c) <==> c in events;
      assert events * {Err, Hup} != {} <==> Err in events || Hup in events by {
        assert Err in events ==> Err in events * {Err, Hup};
        assert Hup in events ==> Hup in events * {Err, Hup};
      }
    }
  }

  lemma ToldByReports(q: seq<Waiter>, fds: seq<FdData>, evts: seq<Report>, w: Waiter, k: nat, b: Bit)
    requires forall i, j :: 0 <= i < j < |evts| ==> evts[i].fd != evts[j].fd
    requires w in q && Within(w.pds, |fds|) && k < |w.pds|
    requires forall b :: b in Askable ==> fds[w.pds[k].fd].Count(b) == Wanted(q, w.pds[k].fd, b)
    ensures b in ToldAll(w, Marked(fds, evts))[k] <==> ToldOf(evts, w.pds[k], b)
  {
    hide FiredOn, Reported;
    var pd := w.pds[k];
    var mask := fds[pd.fd].Events();
    FiredMeans(evts, pd.fd, mask, b);
    if b in pd.events && b in Askable {
      SomeoneAsks(w.pds, pd.fd, b);
      SomeoneWaits(q, pd.fd, b);
    }
  }

  /** Some of a queue, in the order of the queue. */
  ghost predicate InOrder(q: seq<Waiter>, some: seq<Waiter>) {
    forall i, j :: 0 <= i < j < |some| ==> exists x, y :: 0 <= x < y < |q| && q[x] == some[i] && q[y] == some[j]
  }

  /** The queue is parted into the waiters the reports concern and the others, each in the order of the queue. */
  ghost predicate Parted(q: seq<Waiter>, woken: seq<Waiter>, rest: seq<Waiter>, evts: seq<Report>) {
    && (forall i :: 0 <= i < |woken| ==> woken[i] in q && Concerns(evts, woken[i]))
    && (forall i :: 0 <= i < |rest| ==> rest[i] in q && !Concerns(evts, rest[i]))
    && (forall i :: 0 <= i < |q| ==> q[i] in woken || q[i] in rest)
    && InOrder(q, woken) && InOrder(q, rest)
  }

  lemma {:induction false} PickedParts(q: seq<Waiter>, fds: seq<FdData>, told: bool)
    ensures var p := Picked(q, fds, told);
            && (forall i :: 0 <= i < |p| ==> p[i] in q && Notified(p[i], fds) == told)
            && (forall i :: 0 <= i < |q| && Notified(q[i], fds) == told ==> q[i] in p)
  {
    if |q| > 0 {
      PickedParts(q[..|q| - 1], fds, told);
      assert q == q[..|q| - 1] + [q[|q| - 1]];
    }
  }

  lemma {:induction false} PickedInOrder(q: seq<Waiter>, fds: seq<FdData>, told: bool)
    ensures InOrder(q, Picked(q, fds, told))
  {
    if |q| > 0 {
      var front, last := q[..|q| - 1], q[|q| - 1];
      PickedInOrder(front, fds, told);
      PickedParts(front, fds, told);
      var p, p' := Picked(front, fds, told), Picked(q, fds, told);
      assert forall i :: 0 <= i < |p| ==> p[i] in front;
      hide Picked;
      forall i, j | 0 <= i < j < |p'| ensures exists x, y :: 0 <= x < y < |q| && q[x] == p'[i] && q[y] == p'[j] {
        assert p[i] in front;
        var x :| 0 <= x < |front| && front[x] == p[i];
        if j < |p| {
          var x, y :| 0 <= x < y < |front| && front[x] == p[i] && front[y] == p[j];
          assert q[x] == p'[i] && q[y] == p'[j];
        } else {
          assert q[x] == p'[i] && q[|q| - 1] == p'[j];
        }
      }
    }
  }

  /** A round of events, for a queue whose entries are counted. */
  lemma RoundMeans(q: seq<Waiter>, fds: seq<FdData>, evts: seq<Report>)
    requires forall i, j :: 0 <= i < j < |evts| ==> evts[i].fd != evts[j].fd
    requires forall w :: w in q ==> Within(w.pds, |fds|)
    requires forall fd, b :: 0 <= fd < |fds| && b in Askable ==> fds[fd].Count(b) == Wanted(q, fd, b)
    ensures forall w :: w in q ==> ToldExactly(w, ToldAll(w, Marked(fds, evts)), evts)
    ensures Parted(q, Picked(q, Marked(fds, evts), true), Picked(q, Marked(fds, evts), false), evts)
  {
    hide Wanted, Picked, Told, ToldOf, InOrder;
    var marks := Marked(fds, evts);
    forall w | w in q ensures ToldExactly(w, ToldAll(w, marks), evts) && (Notified(w, marks) <==> Concerns(evts, w)) {
      forall k, b | 0 <= k < |w.pds| ensures b in ToldAll(w, marks)[k] <==> ToldOf(evts, w.pds[k], b) {
        ToldByReports(q, fds, evts, w, k, b);
      }
      NotifiedMeans(w, marks, evts);
    }
    PickedInOrder(q, marks, true);
    PickedInOrder(q, marks, false);
    PickedParts(q, marks, true);
    PickedParts(q, marks, false);
  }

  lemma NotifiedMeans(w: Waiter, marks: seq<FdData>, evts: seq<Report>)
    requires Within(w.pds, |marks|) && ToldExactly(w, ToldAll(w, marks), evts)
    ensures Notified(w, marks) <==> Concerns(evts, w)
  {
    hide Told, ToldOf;
    if Notified(w, marks) {
      var k :| 0 <= k < |w.pds| && 0 <= w.pds[k].fd < |marks| && Told(w.pds[k].events, marks[w.pds[k].fd].revents) != {};
      var b :| b in ToldAll(w, marks)[k];
      assert ToldOf(evts, w.pds[k], b);
    }
  }

  /** Each entry of a waiter's poll set has exactly the events it is to be told of. */
  ghost predicate ToldExactly(w: Waiter, revents: seq<Mask>, evts: seq<Report>) {
    |revents| == |w.pds| && forall k, b :: 0 <= k < |w.pds| ==> (b in revents[k] <==> ToldOf(evts, w.pds[k], b))
  }

  function More(d: FdData, m: Mask): (e: FdData)
    ensures e.revents == d.revents
    ensures forall b :: e.Count(b) == d.Count(b) + if b in m * Askable then 1 else 0
  {
    FdData(d.readers + (if In in m then 1 else 0), d.writers + (if Out in m then 1 else 0),
           d.urgent + (if Pri in m then 1 else 0), d.revents)
  }

  function Less(d: FdData, m: Mask): (e: FdData)
    requires forall b :: b in m * Askable ==> d.Count(b) > 0
    ensures More(e, m) == d
    ensures e.Events() <= d.Events()
  {
    assert In in m ==> d.Count(In) > 0;
    assert Out in m ==> d.Count(Out) > 0;
    assert Pri in m ==> d.Count(Pri) > 0;
    FdData(d.readers - (if In in m then 1 else 0), d.writers - (if Out in m then 1 else 0),
           d.urgent - (if Pri in m then 1 else 0), d.revents)
  }

  /** What taking interest away leaves of a descriptor that did not fire: the kernel knows the new
      mask, or nothing changed, or the kernel did not know the descriptor and still does not. */
  ghost predicate Settled(mask0: Mask, known0: Mask, mask: Mask, known: Mask) {
    known == mask || (mask == mask0 && known == known0) || (known0 == {} && known == {})
  }

  class EventSystem {
    const kernel: Kernel
    var fds: seq<FdData>
    var evtCount: int
    var evtSize: nat
    var ioQ: seq<Waiter>
    // Descriptors for which the kernel once refused to take interest away.
    ghost var stale: set<int>
    // The threads between entering and leaving st_poll.
    ghost var waiters: set<Waiter>

    constructor (hint: nat)
      requires hint > 0
      ensures Valid() && fresh(kernel) && ioQ == [] && waiters == {} && stale == {}
    {
      kernel := new Kernel();
      fds := seq(hint, _ => NoInterest);
      evtCount, evtSize := 0, hint;
      ioQ, stale, waiters := [], {}, {};
    }

    ghost predicate Ready()
      reads this, kernel
    {
      && kernel.Valid() && |fds| > 0 && evtSize > 0
      && (forall fd :: fd in kernel.interest ==> 0 <= fd < |fds|)
      && (stale == {} ==> evtCount == |kernel.interest|)
      && (kernel.refusals == 0 ==> stale == {})
    }

    ghost predicate Agrees(fd: int)
      requires 0 <= fd < |fds|
      reads this, kernel
    {
      kernel.Known(fd) == fds[fd].Events()
    }

    method DelOne(pd: PollFd)
      requires Ready() && 0 <= pd.fd < |fds|
      requires forall b :: b in pd.events * Askable ==> fds[pd.fd].Count(b) > 0
      modifies this`fds, this`evtCount, this`stale, kernel
      ensures Ready()
      ensures fds == old(fds)[pd.fd := Less(old(fds[pd.fd]), pd.events)]
      ensures stale == old(stale) || stale == old(stale) + {pd.fd}
      ensures kernel.refusals >= old(kernel.refusals)
      ensures forall fd :: fd != pd.fd ==> kernel.Known(fd) == old(kernel.Known(fd))
      ensures fds[pd.fd].revents != {} ==> stale == old(stale) && kernel.Known(pd.fd) == old(kernel.Known(pd.fd))
      ensures fds[pd.fd].revents == {} && pd.fd !in stale ==>
                if fds[pd.fd].Events() == old(fds[pd.fd].Events()) then kernel.Known(pd.fd) == old(kernel.Known(pd.fd))
                else kernel.Known(pd.fd) == fds[pd.fd].Events() || kernel.Known(pd.fd) == old(kernel.Known(pd.fd)) == {}
    {
      var oldEvents := fds[pd.fd].Events();
      fds := fds[pd.fd := Less(fds[pd.fd], pd.events)];
      var events := fds[pd.fd].Events();
      if events != oldEvents && fds[pd.fd].revents == {} {
        Update(pd.fd, events);
      }
    }

    /** Replaces a descriptor's mask in the kernel, or drops the descriptor. */
    method Update(fd: int, events: Mask)
      requires Ready() && 0 <= fd < |fds|
      modifies this`evtCount, this`stale, kernel
      ensures Ready()
      ensures stale == old(stale) || stale == old(stale) + {fd}
      ensures kernel.refusals >= old(kernel.refusals)
      ensures forall g :: g != fd ==> kernel.Known(g) == old(kernel.Known(g))
      ensures fd !in stale ==> kernel.Known(fd) == events || kernel.Known(fd) == old(kernel.Known(fd)) == {}
    {
      var op := if events != {} then Mod else Del;
      var a := kernel.Ctl(op, fd, events);
      if a == Done && op == Del {
        evtCount := evtCount - 1;
      }
      if a == Refused {
        stale := stale + {fd};
      }
    }

    method PollsetDel(pds: seq<PollFd>)
      requires Ready() && Within(pds, |fds|)
      requires forall fd, b :: 0 <= fd < |fds| && b in Askable ==> Asking(pds, fd, b) <= fds[fd].Count(b)
      modifies this`fds, this`evtCount, this`stale, kernel
      ensures Ready() && |fds| == old(|fds|) && old(stale) <= stale
      ensures kernel.refusals >= old(kernel.refusals)
      ensures forall fd :: 0 <= fd < |fds| ==> Shifted(fds[fd], old(fds)[fd], pds, fd)
      ensures forall fd :: 0 <= fd < |fds| && fds[fd].revents != {} ==> kernel.Known(fd) == old(kernel.Known(fd))
      ensures forall fd :: 0 <= fd < |fds| && fds[fd].revents == {} && fd !in stale ==>
                Settled(old(fds)[fd].Events(), old(kernel.Known(fd)), fds[fd].Events(), kernel.Known(fd))
    {
      for i := 0 to |pds|
        invariant Ready() && |fds| == old(|fds|) && old(stale) <= stale
        invariant kernel.refusals >= old(kernel.refusals)
        invariant forall fd :: 0 <= fd < |fds| ==> Shifted(fds[fd], old(fds)[fd], pds[..i], fd)
        invariant forall fd :: 0 <= fd < |fds| && fds[fd].revents != {} ==> kernel.Known(fd) == old(kernel.Known(fd))
        invariant forall fd :: 0 <= fd < |fds| && fds[fd].revents == {} && fd !in stale ==>
                    Settled(old(fds)[fd].Events(), old(kernel.Known(fd)), fds[fd].Events(), kernel.Known(fd))
      {
        ghost var before := fds;
        forall b | b in pds[i].events * Askable ensures fds[pds[i].fd].Count(b) > 0 {
          AskingStep(pds, i, pds[i].fd, b);
          AskingPrefix(pds, i + 1, pds[i].fd, b);
        }
        DelOne(pds[i]);
        forall fd | 0 <= fd < |fds| ensures Shifted(fds[fd], old(fds)[fd], pds[..i + 1], fd) {
          ShiftedMore(fds[fd], before[fd], old(fds)[fd], pds, i, fd);
        }
      }
      assert pds[..|pds|] == pds;
    }

    method AddOne(pd: PollFd) returns (ok: bool)
      requires Ready() && 0 <= pd.fd < |fds|
      requires pd.fd !in stale ==> Agrees(pd.fd)
      modifies this`fds, this`evtCount, this`evtSize, kernel
      ensures Ready()
      ensures fds == old(fds)[pd.fd := More(old(fds[pd.fd]), pd.events)]
      ensures forall fd :: fd != pd.fd ==> kernel.Known(fd) == old(kernel.Known(fd))
      ensures ok && pd.fd !in stale ==> Agrees(pd.fd)
      ensures !ok ==> kernel.refusals > old(kernel.refusals)
      ensures kernel.refusals >= old(kernel.refusals)
      ensures !ok ==> kernel.Known(pd.fd) == old(kernel.Known(pd.fd)) && fds[pd.fd].Events() != old(fds[pd.fd].Events())
    {
      ok := true;
      var oldEvents := fds[pd.fd].Events();
      fds := fds[pd.fd := More(fds[pd.fd], pd.events)];
      var events := fds[pd.fd].Events();
      assert oldEvents <= events;
      if events != oldEvents {
        ok := Register(pd.fd, oldEvents, events);
      }
    }

    /** Makes a widened mask known to the kernel. */
    method Register(fd: int, oldEvents: Mask, events: Mask) returns (ok: bool)
      requires Ready() && 0 <= fd < |fds| && events != {}
      requires fd !in stale ==> kernel.Known(fd) == oldEvents
      modifies this`evtCount, this`evtSize, kernel
      ensures Ready()
      ensures forall g :: g != fd ==> kernel.Known(g) == old(kernel.Known(g))
      ensures ok && fd !in stale ==> kernel.Known(fd) == events
      ensures !ok ==> kernel.Known(fd) == old(kernel.Known(fd)) && kernel.refusals > old(kernel.refusals)
      ensures kernel.refusals >= old(kernel.refusals)
    {
      ok := true;
      var op := if oldEvents != {} then Mod else Add;
      var a := kernel.Ctl(op, fd, events);
      if a != Done && (op != Add || a != Exists) {
        ok := false;
      } else if op == Add {
        evtCount := evtCount + 1;
        if evtCount > evtSize {
          EvtListExpand();
        }
      }
    }

    method EvtListExpand()
      requires evtSize > 0
      modifies this`evtSize
      ensures evtSize == old(evtSize) || (evtSize >= evtCount && evtSize >= old(evtSize))
    {
      var n := evtSize;
      while evtCount > n
        invariant n >= evtSize > 0
      {
        n := n * 2;
      }
      var granted: bool := *;
      if granted {
        evtSize := n;
      }
    }

    method FdDataExpand(maxFd: nat) returns (ok: bool)
      requires Ready()
      modifies this`fds
      ensures Ready() && Grown(old(fds), fds)
      ensures if ok then maxFd < |fds| else fds == old(fds)
    {
      var n := |fds|;
      while maxFd >= n
        invariant n >= |fds| > 0
      {
        n := n * 2;
      }
      ok := *;
      if ok {
        fds := fds + seq(n - |fds|, _ => NoInterest);
      }
    }

    /** The checks made up front: no count is touched by a poll set that is refused. */
    method CheckPollset(pds: seq<PollFd>) returns (ok: bool)
      requires Ready()
      modifies this`fds
      ensures Ready() && Grown(old(fds), fds)
      ensures ok ==> Accepted(pds) && Within(pds, |fds|)
      ensures !ok ==> !(Accepted(pds) && Within(pds, old(|fds|)))
    {
      for i := 0 to |pds|
        invariant Ready() && Grown(old(fds), fds)
        invariant Accepted(pds[..i]) && Within(pds[..i], |fds|)
      {
        var fd := pds[i].fd;
        if fd < 0 || pds[i].events == {} || pds[i].events - Askable != {} {
          return false;
        }
        if fd >= |fds| {
          var grown := FdDataExpand(fd);
          if !grown {
            return false;
          }
        }
        assert pds[..i + 1] == pds[..i] + [pds[i]];
      }
      assert pds[..|pds|] == pds;
      return true;
    }

    /** Either every entry of the poll set is counted and known to the kernel, or none is. */
    method PollsetAdd(pds: seq<PollFd>) returns (ok: bool)
      requires Ready() && Calm()
      modifies this`fds, this`evtCount, this`evtSize, this`stale, kernel
      ensures Ready() && Calm() && old(stale) <= stale && |fds| >= old(|fds|)
      ensures ok ==> Accepted(pds) && Within(pds, |fds|) && stale == old(stale)
      ensures ok ==> forall fd :: 0 <= fd < |fds| ==> Shifted(Grow(old(fds), fd), fds[fd], pds, fd)
      ensures !ok ==> Grown(old(fds), fds)
      ensures !ok && Accepted(pds) && Within(pds, old(|fds|)) ==> kernel.refusals > old(kernel.refusals)
    {
      var checked := CheckPollset(pds);
      if !checked {
        return false;
      }
      ghost var base := fds;
      assert pds[..0] == [];
      for i := 0 to |pds|
        invariant Ready() && Calm() && stale == old(stale) && |fds| == |base| && kernel.refusals >= old(kernel.refusals)
        invariant forall fd :: 0 <= fd < |fds| ==> Shifted(base[fd], fds[fd], pds[..i], fd)
      {
        ghost var before := fds;
        var added := AddOne(pds[i]);
        forall fd | 0 <= fd < |fds| ensures Shifted(base[fd], fds[fd], pds[..i + 1], fd) {
          ShiftedLess(base[fd], before[fd], fds[fd], pds, i, fd);
        }
        if !added {
          Unroll(pds[..i + 1], pds[i].fd, base, before);
          return false;
        }
      }
      assert pds[..|pds|] == pds;
      return true;
    }

    /** Takes back a poll set whose last entry the kernel refused. */
    method Unroll(pds: seq<PollFd>, last: int, ghost base: seq<FdData>, ghost before: seq<FdData>)
      requires Ready() && Within(pds, |fds|) && |base| == |before| == |fds| && 0 <= last < |fds|
      requires forall fd :: 0 <= fd < |fds| ==> base[fd].revents == {} && Shifted(base[fd], fds[fd], pds, fd)
      requires forall fd :: 0 <= fd < |fds| && fd !in stale && fd != last ==> Agrees(fd)
      requires before[last].Events() != fds[last].Events()
      requires base[last].Events() <= before[last].Events() <= fds[last].Events()
      requires last !in stale ==> kernel.Known(last) == before[last].Events()
      modifies this`fds, this`evtCount, this`stale, kernel
      ensures Ready() && Calm() && fds == base && old(stale) <= stale && kernel.refusals >= old(kernel.refusals)
    {
      PollsetDel(pds);
      forall fd | 0 <= fd < |fds| ensures fds[fd] == base[fd] {
        SameCounts(fds[fd], base[fd], pds, fd);
      }
      assert fds == base;
      forall fd | 0 <= fd < |fds| && fd !in stale ensures Agrees(fd) {
        assert Settled(old(fds)[fd].Events(), old(kernel.Known(fd)), fds[fd].Events(), kernel.Known(fd));
        assert base[fd].Events() <= old(fds)[fd].Events();
      }
    }

    /** The kernel knows the mask of every descriptor that has not fired. */
    ghost predicate QuietAgree()
      reads this, kernel
    {
      forall fd :: 0 <= fd < |fds| && fds[fd].revents == {} && fd !in stale ==> Agrees(fd)
    }

    /** No event is being dispatched, and the kernel knows every mask. */
    ghost predicate Calm()
      reads this, kernel
    {
      && (forall fd :: 0 <= fd < |fds| ==> fds[fd].revents == {})
      && (forall fd :: 0 <= fd < |fds| && fd !in stale ==> Agrees(fd))
    }

    /** The first half of st_poll: the caller joins the I/O queue, or nothing is left of the attempt. */
    method PollEnter(w: Waiter) returns (ok: bool)
      requires Valid() && w !in waiters && |w.revents| == |w.pds| && !w.onIoQ
      modifies this, kernel, w`onIoQ
      ensures Valid() && old(stale) <= stale
      ensures ok ==> Accepted(w.pds) && ioQ == old(ioQ) + [w] && waiters == old(waiters) + {w}
      ensures !ok ==> ioQ == old(ioQ) && waiters == old(waiters) && Grown(old(fds), fds)
      ensures !ok && Accepted(w.pds) && Within(w.pds, old(|fds|)) ==> kernel.refusals > old(kernel.refusals)
    {
      ok := PollsetAdd(w.pds);
      if !ok {
        assert forall fd, b :: old(|fds|) <= fd < |fds| && b in Askable ==> Wanted(ioQ, fd, b) == 0 by {
          forall fd, b | old(|fds|) <= fd < |fds| { NobodyBeyond(ioQ, old(|fds|), fd, b); }
        }
        return;
      }
      forall fd, b | 0 <= fd < |fds| && b in Askable ensures fds[fd].Count(b) == Wanted(ioQ + [w], fd, b) {
        assert Shifted(Grow(old(fds), fd), fds[fd], w.pds, fd);
        WantedConcat(ioQ, [w], fd, b);
        WantedOne(w, fd, b);
        if fd >= old(|fds|) { NobodyBeyond(ioQ, old(|fds|), fd, b); }
      }
      w.onIoQ := true;
      ioQ := ioQ + [w];
      waiters := waiters + {w};
    }

    /** Takes the waiter at position i off the queue, and its poll set out of the counts. */
    method Dequeue(i: nat, w: Waiter)
      requires Ready() && Counted() && i < |ioQ| && ioQ[i] == w
      modifies this`fds, this`evtCount, this`stale, this`ioQ, kernel, w`onIoQ
      ensures Ready() && Counted() && |fds| == old(|fds|) && old(stale) <= stale
      ensures ioQ == old(ioQ[..i] + ioQ[i + 1..]) && !w.onIoQ
      ensures forall fd :: 0 <= fd < |fds| ==> fds[fd].revents == old(fds)[fd].revents
      ensures forall fd :: 0 <= fd < |fds| && fds[fd].revents != {} ==> kernel.Known(fd) == old(kernel.Known(fd))
      ensures forall fd :: 0 <= fd < |fds| && fds[fd].revents == {} && fd !in stale && old(Agrees(fd)) ==> Agrees(fd)
    {
      forall fd, b { WantedWithout(ioQ, i, fd, b); }
      ghost var q := ioQ;
      ioQ := ioQ[..i] + ioQ[i + 1..];
      w.onIoQ := false;
      PollsetDel(w.pds);
      forall fd | 0 <= fd < |fds| && fds[fd].revents == {} && fd !in stale && old(Agrees(fd)) ensures Agrees(fd) {
        assert Settled(old(fds)[fd].Events(), old(kernel.Known(fd)), fds[fd].Events(), kernel.Known(fd));
        assert fds[fd].Events() <= old(fds)[fd].Events();
      }
      assert forall fd, b :: 0 <= fd < |fds| && b in Askable ==> fds[fd].Count(b) == Wanted(ioQ, fd, b) by {
        forall fd, b | 0 <= fd < |fds| && b in Askable ensures fds[fd].Count(b) == Wanted(ioQ, fd, b) {
          assert Shifted(fds[fd], old(fds)[fd], w.pds, fd);
          WantedWithout(q, i, fd, b);
        }
      }
    }

    /** The second half of st_poll: a thread that was not told of any event leaves the queue itself. */
    method PollLeave(w: Waiter) returns (n: nat)
      requires Valid() && w in waiters
      modifies this, kernel, w`onIoQ
      ensures Valid() && old(stale) <= stale && !w.onIoQ && waiters == old(waiters) - {w}
      ensures old(w in ioQ) ==> n == 0 && exists i :: 0 <= i < |old(ioQ)| && old(ioQ)[i] == w && ioQ == old(ioQ[..i] + ioQ[i + 1..])
      ensures !old(w in ioQ) ==> n == |set k | 0 <= k < |w.pds| && w.revents[k] != {}|
      ensures !old(w in ioQ) ==> ioQ == old(ioQ) && fds == old(fds) && kernel.interest == old(kernel.interest)
    {
      hide Wanted, Asking;
      if w.onIoQ {
        n := 0;
        var i :| 0 <= i < |ioQ| && ioQ[i] == w;
        Dequeue(i, w);
      } else {
        n := CountReady(w);
      }
      waiters := waiters - {w};
    }

    method CountReady(w: Waiter) returns (n: nat)
      requires |w.revents| == |w.pds|
      ensures n == |set k | 0 <= k < |w.pds| && w.revents[k] != {}|
    {
      n := 0;
      for k := 0 to |w.pds|
        invariant n == |set j | 0 <= j < k && w.revents[j] != {}|
      {
        assert (set j | 0 <= j < k + 1 && w.revents[j] != {})
            == (set j | 0 <= j < k && w.revents[j] != {}) + if w.revents[k] != {} then {k} else {};
        if w.revents[k] != {} {
          n := n + 1;
        }
      }
    }

    /** The loop over what epoll_wait reported. */
    method RecordFired(evts: seq<Report>)
      requires forall i :: 0 <= i < |evts| ==> 0 <= evts[i].fd < |fds|
      requires forall fd :: 0 <= fd < |fds| ==> fds[fd].revents == {}
      modifies this`fds
      ensures fds == Marked(old(fds), evts)
    {
      for i := 0 to |evts|
        invariant fds == Marked(old(fds), evts[..i])
      {
        var fd := evts[i].fd;
        assert evts[..i + 1][..i] == evts[..i];
        assert fds[fd].Events() == old(fds)[fd].Events();
        var revents := evts[i].events;
        if revents * {Err, Hup} != {} {
          revents := revents + fds[fd].Events();
        }
        fds := fds[fd := fds[fd].(revents := revents)];
      }
      assert evts[..|evts|] == evts;
    }

    method MarkFired(evts: seq<Report>)
      requires Ready() && Counted() && Queued() && Calm() && MayReport(kernel.interest, evts)
      modifies this`fds
      ensures Ready() && Counted() && Queued() && QuietAgree() && fds == Marked(old(fds), evts)
      ensures forall i :: 0 <= i < |evts| ==> evts[i].fd < |fds| && fds[evts[i].fd].revents != {} && kernel.Known(evts[i].fd) != {}
      ensures forall fd :: 0 <= fd < |fds| && fds[fd].revents != {} ==> exists i :: 0 <= i < |evts| && evts[i].fd == fd
    {
      RecordFired(evts);
      hide FiredOn, Wanted;
      forall fd | 0 <= fd < |fds|
        ensures fds[fd].Events() == old(fds)[fd].Events()
        ensures forall b :: fds[fd].Count(b) == old(fds)[fd].Count(b)
        ensures fds[fd].revents != {} ==> exists i :: 0 <= i < |evts| && evts[i].fd == fd
      {
        FiredOnlyIfReported(evts, fd, old(fds)[fd].Events());
        SameEvents(old(fds)[fd], fds[fd].revents);
      }
      forall i | 0 <= i < |evts| { FiredAt(evts, i, fds[evts[i].fd].Events()); }
    }

    /** Tells a waiter what fired on its descriptors. */
    method Tell(w: Waiter) returns (notify: bool)
      requires Within(w.pds, |fds|) && |w.revents| == |w.pds|
      modifies w`revents
      ensures w.revents == ToldAll(w, fds)
      ensures forall k, b :: 0 <= k < |w.pds| ==>
                (b in w.revents[k] <==> b in fds[w.pds[k].fd].revents && (b == Err || b == Hup || b in w.pds[k].events * Askable))
      ensures notify <==> Notified(w, fds)
    {
      notify := false;
      for k := 0 to |w.pds|
        invariant |w.revents| == |w.pds|
        invariant forall j :: 0 <= j < k ==> w.revents[j] == Told(w.pds[j].events, fds[w.pds[j].fd].revents)
        invariant notify <==> exists j :: 0 <= j < k && w.revents[j] != {}
      {
        var fired := fds[w.pds[k].fd].revents;
        var events := w.pds[k].events;
        var revents: Mask := {};
        if In in events && In in fired { revents := revents + {In}; }
        if Out in events && Out in fired { revents := revents + {Out}; }
        if Pri in events && Pri in fired { revents := revents + {Pri}; }
        if Err in fired { revents := revents + {Err}; }
        if Hup in fired { revents := revents + {Hup}; }
        assert revents == Told(events, fired);
        w.revents := w.revents[k := revents];
        if revents != {} {
          notify := true;
        }
      }
    }

    /** Tells the waiter at position i, which leaves the queue if it was told of an event. */
    method NotifyOne(i: nat, w: Waiter) returns (notify: bool)
      requires Ready() && Counted() && Queued() && QuietAgree() && i < |ioQ| && ioQ[i] == w
      modifies this`fds, this`evtCount, this`stale, this`ioQ, kernel, w
      ensures Ready() && Counted() && Queued() && QuietAgree() && |fds| == old(|fds|) && old(stale) <= stale
      ensures notify <==> Notified(w, old(fds))
      ensures ioQ == if notify then old(ioQ[..i] + ioQ[i + 1..]) else old(ioQ)
      ensures w.revents == ToldAll(w, old(fds))
      ensures SameFired(old(fds), fds)
      ensures FiredKept(fds, old(kernel.interest), kernel.interest)
    {
      hide Wanted, Asking;
      notify := Tell(w);
      if notify {
        Dequeue(i, w);
      }
    }

    /** A walk over the queue q is at position i: `done` waiters were told, those in `woken` have left. */
    ghost predicate Midway(q: seq<Waiter>, marks: seq<FdData>, known: map<int, Mask>, done: nat, i: nat, woken: seq<Waiter>)
      reads this, kernel, waiters, q
    {
      && Ready() && Counted() && Queued() && QuietAgree() && |fds| == |marks|
      && done <= |q| && i <= |ioQ| && Walking(q, marks, done, ioQ, i, woken)
      && (forall k :: 0 <= k < done ==> q[k].revents == ToldAll(q[k], marks))
      && SameFired(marks, fds) && FiredKept(fds, known, kernel.interest)
    }

    /** One step of the walk. */
    method NotifyNext(i: nat, woken: seq<Waiter>, ghost q: seq<Waiter>, ghost marks: seq<FdData>, ghost known: map<int, Mask>, ghost done: nat)
      returns (next: nat, told: seq<Waiter>)
      requires Midway(q, marks, known, done, i, woken) && i < |ioQ|
      modifies this`fds, this`evtCount, this`stale, this`ioQ, kernel, q
      ensures Midway(q, marks, known, done + 1, next, told) && old(stale) <= stale
    {
      hide Ready, Counted, Queued, QuietAgree, Walking, ToldAll, SameFired, FiredKept, Notified, Within;
      var w := ioQ[i];
      WalkStep(q, marks, done, ioQ, i, woken);
      assert w == q[done];
      ghost var fds1, known1 := fds, kernel.interest;
      var notify := NotifyOne(i, w);
      SameTold(w, fds1, marks);
      FiredKeptTrans(marks, fds1, fds, known, known1, kernel.interest);
      if notify {
        next, told := i, woken + [w];
      } else {
        next, told := i + 1, woken;
      }
    }

    /** Walks the I/O queue: whoever is told of an event leaves it, in order. */
    method NotifyAll() returns (woken: seq<Waiter>)
      requires Ready() && Counted() && Queued() && QuietAgree()
      modifies this`fds, this`evtCount, this`stale, this`ioQ, kernel, ioQ
      ensures Ready() && Counted() && Queued() && QuietAgree() && |fds| == old(|fds|) && old(stale) <= stale
      ensures woken == Picked(old(ioQ), old(fds), true) && ioQ == Picked(old(ioQ), old(fds), false)
      ensures forall w :: w in old(ioQ) ==> w.revents == ToldAll(w, old(fds))
      ensures SameFired(old(fds), fds)
      ensures FiredKept(fds, old(kernel.interest), kernel.interest)
    {
      hide Ready, Counted, Queued, QuietAgree, Walking, ToldAll, Picked;
      ghost var q, marks, known, done := ioQ, fds, kernel.interest, 0;
      WalkBegins(q, marks);
      woken := [];
      var i: nat := 0;
      while i < |ioQ|
        invariant done <= |q| && Midway(q, marks, known, done, i, woken) && old(stale) <= stale
        decreases |q| - done
      {
        WalkGoesOn(q, marks, done, ioQ, i, woken);
        i, woken := NotifyNext(i, woken, q, marks, known, done);
        done := done + 1;
      }
      WalkEnds(q, marks, done, ioQ, woken);
    }

    /** The late update of the descriptors that fired. */
    method UpdateFired(evts: seq<Report>)
      requires Ready() && Counted()
      requires forall i, j :: 0 <= i < j < |evts| ==> evts[i].fd != evts[j].fd
      requires forall i :: 0 <= i < |evts| ==> 0 <= evts[i].fd < |fds| && kernel.Known(evts[i].fd) != {}
      requires QuietAgree()
      requires forall fd :: 0 <= fd < |fds| && fds[fd].revents != {} ==> exists i :: 0 <= i < |evts| && evts[i].fd == fd
      modifies this`fds, this`evtCount, this`stale, kernel
      ensures Ready() && Counted() && Calm() && |fds| == old(|fds|) && old(stale) <= stale
    {
      for i := 0 to |evts|
        invariant Ready() && Counted() && |fds| == old(|fds|) && old(stale) <= stale
        invariant forall j :: i <= j < |evts| ==> kernel.Known(evts[j].fd) != {}
        invariant QuietAgree()
        invariant forall fd :: 0 <= fd < |fds| && fds[fd].revents != {} ==> exists j :: i <= j < |evts| && evts[j].fd == fd
      {
        var fd := evts[i].fd;
        fds := fds[fd := fds[fd].(revents := {})];
        Update(fd, fds[fd].Events());
      }
    }

    /** One round of events, as epoll_wait reports them: exactly the waiters they concern wake, in the order
        of the queue, and each is told exactly what the reports mean to it. */
    method Dispatch(evts: seq<Report>) returns (woken: seq<Waiter>)
      requires Valid() && MayReport(kernel.interest, evts) && |evts| <= evtSize
      modifies this, kernel, ioQ
      ensures Valid() && waiters == old(waiters) && old(stale) <= stale
      ensures Parted(old(ioQ), woken, ioQ, evts)
      ensures evts != [] ==> forall w :: w in old(ioQ) ==> ToldExactly(w, w.revents, evts)
      ensures forall i :: 0 <= i < |evts| && evts[i].fd !in old(stale) ==> WakesOn(woken, evts[i].fd)
    {
      RoundMeans(ioQ, fds, evts);
      hide Valid, Picked, ToldAll, Parted, ToldExactly, WakesOn;
      woken := WakeTold(evts);
    }

    method WakeTold(evts: seq<Report>) returns (woken: seq<Waiter>)
      requires Valid() && MayReport(kernel.interest, evts) && |evts| <= evtSize
      modifies this, kernel, ioQ
      ensures Valid() && waiters == old(waiters) && old(stale) <= stale
      ensures woken == Picked(old(ioQ), Marked(old(fds), evts), true)
      ensures ioQ == Picked(old(ioQ), Marked(old(fds), evts), false)
      ensures evts != [] ==> forall w :: w in old(ioQ) ==> w.revents == ToldAll(w, Marked(old(fds), evts))
      ensures forall i :: 0 <= i < |evts| && evts[i].fd !in old(stale) ==> WakesOn(woken, evts[i].fd)
    {
      woken := [];
      ghost var marks := Marked(fds, evts);
      hide Wanted, Asking, FiredOn, ToldAll, Picked;
      if |evts| == 0 {
        forall fd | 0 <= fd < |fds| { FiredOnlyIfReported(evts, fd, fds[fd].Events()); }
        NobodyPicked(ioQ, marks);
      } else {
        forall i | 0 <= i < |evts| && evts[i].fd !in stale
          ensures WakesOn(Picked(ioQ, marks, true), evts[i].fd)
        {
          FiredWakes(ioQ, fds, evts, i);
        }
        MarkFired(evts);
        woken := NotifyAll();
        UpdateFired(evts);
      }
    }

    /** A thread that waits on a descriptor keeps it open: closing is refused exactly then. */
    method FdClose(fd: int) returns (ok: bool)
      requires Valid() && 0 <= fd < |fds|
      ensures ok <==> !exists w :: w in ioQ && exists k :: 0 <= k < |w.pds| && w.pds[k].fd == fd
    {
      ok := fds[fd].readers == 0 && fds[fd].writers == 0 && fds[fd].urgent == 0;
      assert ok <==> forall b :: b in Askable ==> fds[fd].Count(b) == 0;
      assert ok <==> forall b :: b in Askable ==> Wanted(ioQ, fd, b) == 0;
      NobodyWaits(ioQ, fd);
    }

    ghost predicate Counted()
      reads this
    {
      && (forall i, j :: 0 <= i < j < |ioQ| ==> ioQ[i] != ioQ[j])
      && (forall w :: w in ioQ ==> Accepted(w.pds) && Within(w.pds, |fds|))
      && (forall fd, b :: 0 <= fd < |fds| && b in Askable ==> fds[fd].Count(b) == Wanted(ioQ, fd, b))
    }

    ghost predicate Queued()
      reads this, waiters
    {
      && (forall w :: w in ioQ ==> w in waiters)
      && (forall w :: w in waiters ==> |w.revents| == |w.pds| && (w.onIoQ <==> w in ioQ))
    }

    ghost predicate Valid()
      reads this, kernel, waiters
    {
      Ready() && Counted() && Queued() && Calm()
    }
  }

  /** While no request to drop interest was refused, the kernel's set is exactly what the queue asks for. */
  lemma KernelMirrorsQueue(es: EventSystem, fd: int, b: Bit)
    requires es.Valid() && es.stale == {}
    ensures fd in es.kernel.interest && b in es.kernel.interest[fd]
            <==> exists w :: w in es.ioQ && exists k :: 0 <= k < |w.pds| && w.pds[k].fd == fd && b in w.pds[k].events
    ensures fd in es.kernel.interest ==> es.kernel.interest[fd] != {} && es.kernel.interest[fd] <= Askable
  {
    SomeoneWaits(es.ioQ, fd, b);
    forall w | w in es.ioQ ensures Asking(w.pds, fd, b) > 0 <==> exists k :: 0 <= k < |w.pds| && w.pds[k].fd == fd && b in w.pds[k].events {
      SomeoneAsks(w.pds, fd, b);
    }
    if 0 <= fd < |es.fds| {
      assert es.Agrees(fd);
    }
  }

  /** The descriptor table after an expansion: the new entries ask for nothing. */
  ghost function Grow(fds: seq<FdData>, fd: int): FdData {
    if 0 <= fd < |fds| then fds[fd] else NoInterest
  }

  ghost predicate Grown(fds: seq<FdData>, fds': seq<FdData>) {
    |fds| <= |fds'| && forall fd :: 0 <= fd < |fds'| ==> fds'[fd] == Grow(fds, fd)
  }

  lemma NobodyBeyond(q: seq<Waiter>, size: int, fd: int, b: Bit)
    requires forall w :: w in q ==> Within(w.pds, size)
    requires fd >= size
    ensures Wanted(q, fd, b) == 0
  {
    SomeoneWaits(q, fd, b);
    forall w | w in q { SomeoneAsks(w.pds, fd, b); }
  }

  lemma SameCounts(d: FdData, base: FdData, pds: seq<PollFd>, fd: int)
    requires exists e :: Shifted(d, e, pds, fd) && Shifted(base, e, pds, fd)
    ensures d == base
  {
    assert d.Count(In) == base.Count(In) && d.Count(Out) == base.Count(Out) && d.Count(Pri) == base.Count(Pri);
  }

  lemma ShiftedLess(d0: FdData, d: FdData, e: FdData, pds: seq<PollFd>, i: nat, fd: int)
    requires i < |pds| && Shifted(d0, d, pds[..i], fd)
    requires e == if pds[i].fd == fd then More(d, pds[i].events) else d
    ensures Shifted(d0, e, pds[..i + 1], fd)
  {
    forall b | b in Askable ensures e.Count(b) == d0.Count(b) + Asking(pds[..i + 1], fd, b) {
      AskingStep(pds, i, fd, b);
    }
  }

  lemma ShiftedMore(e: FdData, d: FdData, d0: FdData, pds: seq<PollFd>, i: nat, fd: int)
    requires i < |pds| && Shifted(d, d0, pds[..i], fd)
    requires d == if pds[i].fd == fd then More(e, pds[i].events) else e
    ensures Shifted(e, d0, pds[..i + 1], fd)
  {
    forall b | b in Askable ensures d0.Count(b) == e.Count(b) + Asking(pds[..i + 1], fd, b) {
      AskingStep(pds, i, fd, b);
    }
  }

  lemma NobodyWaits(q: seq<Waiter>, fd: int)
    requires forall w :: w in q ==> Accepted(w.pds)
    ensures (forall b :: b in Askable ==> Wanted(q, fd, b) == 0)
            <==> !exists w :: w in q && exists k :: 0 <= k < |w.pds| && w.pds[k].fd == fd
  {
    forall b { SomeoneWaits(q, fd, b); }
    forall w, b | w in q { SomeoneAsks(w.pds, fd, b); }
    if w, k :| w in q && 0 <= k < |w.pds| && w.pds[k].fd == fd {
      var b :| b in w.pds[k].events;
      SomeoneAsks(w.pds, fd, b);
      SomeoneWaits(q, fd, b);
    }
  }
}
