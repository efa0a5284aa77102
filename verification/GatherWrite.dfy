/** Writing several buffers to a descriptor that takes them piecemeal. */
module GatherWrite {
  import opened Bytes

  type Data = seq<byte>

  /** The bytes a vector of buffers describes. */
  function Flat(v: seq<Data>): Data {
    if |v| == 0 then [] else v[0] + Flat(v[1..])
  }

  lemma {:induction false} FlatConcat(v: seq<Data>, w: seq<Data>)
    ensures Flat(v + w) == Flat(v) + Flat(w)
  {
    if |v| == 0 {
      assert v + w == w;
    } else {
      assert (v + w)[1..] == v[1..] + w;
      FlatConcat(v[1..], w);
    }
  }

  lemma FlatNone(v: seq<Data>)
    requires v == []
    ensures Flat(v) == []
  {}

  lemma FlatFrom(v: seq<Data>, i: nat, end: nat)
    requires i < end <= |v|
    ensures Flat(v[i..end]) == v[i] + Flat(v[i + 1..end])
  {
    assert v[i..end][1..] == v[i + 1..end];
  }

  lemma FlatPrefix(v: seq<Data>, i: nat)
    requires i < |v|
    ensures |Flat(v[..i + 1])| == |Flat(v[..i])| + |v[i]|
  {
    assert v[..i + 1] == v[..i] + [v[i]];
    FlatConcat(v[..i], [v[i]]);
  }

  /** What the operating system does with one call. */
  datatype Event = Accepts(n: nat) | Interrupted | NotReady | Fault

  datatype Written = Wrote(n: nat) | Eintr | Eagain | Failed

  /** A non-blocking descriptor. It answers each call by the next event, and fails for good when there
      is none left, so that a run is finite. */
  class Descriptor {
    var events: seq<Event>
    var sent: Data
    var faults: nat

    constructor (events: seq<Event>)
      ensures this.events == events && sent == [] && faults == 0
    {
      this.events, sent, faults := events, [], 0;
    }

    /** The system calls `write` and `writev`: some prefix of the bytes is taken, possibly none. */
    method Write(data: Data) returns (r: Written)
      modifies this
      ensures r.Wrote? ==> r.n <= |data| && sent == old(sent) + data[..r.n]
      ensures !r.Wrote? ==> sent == old(sent)
      ensures faults == old(faults) + if r == Failed then 1 else 0
      ensures r != Failed ==> |events| < |old(events)|
    {
      var event := if events == [] then Fault else events[0];
      events := if events == [] then [] else events[1..];
      match event
      case Accepts(n) =>
        r := Wrote(Min(n, |data|));
        sent := sent + data[..r.n];
      case Interrupted => r := Eintr;
      case NotReady => r := Eagain;
      case Fault =>
        r := Failed;
        faults := faults + 1;
    }

    /** Waiting for the descriptor to become writable, or obtaining memory: either succeeds or fails. */
    method Try() returns (ok: bool)
      modifies this
      ensures sent == old(sent) && |events| <= |old(events)|
      ensures faults == old(faults) + if ok then 0 else 1
    {
      ok := events != [] && events[0] != Fault;
      events := if events == [] then [] else events[1..];
      if !ok {
        faults := faults + 1;
      }
    }
  }

  /** Passes over the n bytes just written: vectors wholly written become empty, one is cut short. */
  method Advance(iov: array<Data>, start: nat, size: nat, n: nat) returns (first: nat, left: nat)
    requires 0 < size && start + size <= iov.Length && n <= |Flat(iov[start..start + size])|
    modifies iov
    ensures start <= first && first + left == start + size
    ensures Flat(iov[first..start + size]) == old(Flat(iov[start..start + size]))[n..]
    ensures forall k :: 0 <= k < iov.Length && !(start <= k < start + size) ==> iov[k] == old(iov[k])
    ensures forall k :: start <= k < first ==> iov[k] == []
    ensures left == size ==> n < |old(iov[start])| && iov[start] == old(iov[start])[n..]
  {
    hide Flat;
    var m: nat := n;
    first, left := start, size;
    ghost var end, all := start + size, Flat(iov[start..start + size]);
    while m >= |iov[first]|
      invariant start <= first < end && first + left == end
      invariant m <= |Flat(iov[first..end])| && Flat(iov[first..end])[m..] == all[n..]
      invariant forall k :: 0 <= k < iov.Length && !(start <= k < first) ==> iov[k] == old(iov[k])
      invariant forall k :: start <= k < first ==> iov[k] == []
      invariant first == start ==> m == n
      decreases left
    {
      FlatFrom(iov[..], first, end);
      m := m - |iov[first]|;
      ghost var rest := iov[first + 1..end];
      iov[first] := [];
      assert iov[first + 1..end] == rest;
      first, left := first + 1, left - 1;
      FlatNone(iov[end..end]);
      if m == 0 {
        break;
      }
    }
    if left > 0 {
      FlatFrom(iov[..], first, end);
      ghost var rest := iov[first + 1..end];
      iov[first] := iov[first][m..];
      assert iov[first + 1..end] == rest;
      FlatFrom(iov[..], first, end);
    }
  }

  /** One write, after which the vectors describe what is left. */
  method WriteSome(fd: Descriptor, iov: array<Data>, start: nat, size: nat) returns (r: Written, first: nat, left: nat)
    requires 0 < size && start + size <= iov.Length
    modifies fd, iov
    ensures start <= first && first + left == start + size
    ensures fd.sent + Flat(iov[first..start + size]) == old(fd.sent + Flat(iov[start..start + size]))
    ensures forall k :: 0 <= k < iov.Length && !(start <= k < start + size) ==> iov[k] == old(iov[k])
    ensures forall k :: start <= k < first ==> iov[k] == []
    ensures !r.Wrote? ==> left == size
    ensures |old(fd.sent)| <= |fd.sent|
    ensures left == size && old(iov[start]) != [] ==> iov[start] != []
    ensures fd.faults == old(fd.faults) + if r == Failed then 1 else 0
    ensures r != Failed ==> |fd.events| < |old(fd.events)|
  {
    hide Flat;
    ghost var sent, todo := fd.sent, Flat(iov[start..start + size]);
    if size == 1 {
      OneVector(iov[start..start + size]);
      r := fd.Write(iov[start]);
    } else {
      r := fd.Write(Flat(iov[start..start + size]));
    }
    first, left := start, size;
    if r.Wrote? {
      first, left := Advance(iov, start, size, r.n);
      Resumed(sent, todo, r.n);
    }
  }

  /** Writes everything, or leaves vectors that describe exactly what is still to be written. */
  method WritevResid(fd: Descriptor, iov: array<Data>, start: nat, size: nat) returns (rv: int, first: nat, left: nat)
    requires start + size <= iov.Length
    modifies fd, iov
    ensures rv == 0 || rv == -1
    ensures first + left == start + size && start <= first
    ensures fd.sent + Flat(iov[first..first + left]) == old(fd.sent + Flat(iov[start..start + size]))
    ensures rv == 0 ==> left == 0
    ensures |old(fd.sent)| <= |fd.sent|
    ensures rv == -1 ==> left > 0 && fd.faults > old(fd.faults)
    ensures rv == -1 && left == size && old(iov[start]) != [] ==> iov[start] != []
    ensures forall k :: start <= k < first ==> iov[k] == []
    ensures forall k :: 0 <= k < iov.Length && !(start <= k < start + size) ==> iov[k] == old(iov[k])
  {
    hide Flat;
    first, left := start, size;
    ghost var end := start + size;
    while left > 0
      invariant start <= first && first + left == end
      invariant fd.sent + Flat(iov[first..end]) == old(fd.sent + Flat(iov[start..start + size]))
      invariant forall k :: start <= k < first ==> iov[k] == []
      invariant forall k :: 0 <= k < iov.Length && !(start <= k < end) ==> iov[k] == old(iov[k])
      invariant fd.faults == old(fd.faults)
      invariant |old(fd.sent)| <= |fd.sent|
      invariant left == size && size > 0 && old(iov[start]) != [] ==> iov[start] != []
      decreases |fd.events|
    {
      var r;
      r, first, left := WriteSome(fd, iov, first, left);
      if r == Eintr {
        continue;
      }
      if r == Failed {
        return -1, first, left;
      }
      if left == 0 {
        break;
      }
      var ready := fd.Try();
      if !ready {
        return -1, first, left;
      }
    }
    assert iov[first..end] == [];
    rv := 0;
  }

  lemma OneVector(v: seq<Data>)
    requires |v| == 1
    ensures Flat(v) == v[0]
  {
    assert Flat(v[1..]) == [];
  }

  lemma Resumed(sent: Data, todo: Data, n: nat)
    requires n <= |todo|
    ensures (sent + todo[..n]) + todo[n..] == sent + todo
  {}

  /** One buffer, written whole or up to some byte. */
  method WriteResid(fd: Descriptor, buf: Data) returns (rv: int, resid: nat)
    modifies fd
    ensures resid <= |buf| && fd.sent == old(fd.sent) + buf[..|buf| - resid]
    ensures if rv == 0 then resid == 0 else rv == -1 && (buf != [] ==> resid > 0) && fd.faults > old(fd.faults)
  {
    var iov := new Data[1](_ => buf);
    OneVector(iov[0..1]);
    var first, left;
    rv, first, left := WritevResid(fd, iov, 0, 1);
    resid := |iov[0]|;
    if rv == 0 {
      FlatNone(iov[first..first + left]);
      Whole(buf);
    } else {
      OneVector(iov[0..1]);
      Taken(old(fd.sent), buf, fd.sent, iov[0]);
    }
  }

  lemma Whole(buf: Data)
    ensures buf[..|buf|] == buf
  {}

  /** Cancelling the bytes that are left gives the bytes that were taken. */
  lemma Taken(sent: Data, buf: Data, sent': Data, rest: Data)
    requires sent' + rest == sent + buf && |sent| <= |sent'|
    ensures |rest| <= |buf| && sent' == sent + buf[..|buf| - |rest|]
  {
    assert sent' == (sent' + rest)[..|sent'|];
  }

  const LocalMaxIov := 16

  /** Finds the vector that holds byte number `n` of them all. */
  method Locate(iov: seq<Data>, n: nat) returns (index: nat, offset: nat)
    requires n < |Flat(iov)|
    ensures index < |iov| && offset < |iov[index]|
    ensures |Flat(iov[..index])| + offset == n
    ensures Flat(iov)[n..] == iov[index][offset..] + Flat(iov[index + 1..])
  {
    index, offset := 0, n;
    assert iov[0..] == iov;
    while offset >= |iov[index]|
      invariant index < |iov| && |Flat(iov[..index])| + offset == n
      invariant offset < |Flat(iov[index..])| && Flat(iov)[n..] == Flat(iov[index..])[offset..]
      decreases |iov| - index
    {
      FlatFrom(iov, index, |iov|);
      FlatPrefix(iov, index);
      offset, index := offset - |iov[index]|, index + 1;
    }
    FlatFrom(iov, index, |iov|);
  }

  lemma {:induction false} FlatMonotone(v: seq<Data>, i: nat, j: nat)
    requires i <= j <= |v|
    ensures |Flat(v[..i])| <= |Flat(v[..j])|
  {
    assert v[..j] == v[..i] + v[i..j];
    FlatConcat(v[..i], v[i..j]);
  }

  /** Copies the vectors that are left, the first of them cut short. */
  method Fill(tmp: array<Data>, iov: seq<Data>, index: nat, offset: nat) returns (cnt: nat)
    requires index < |iov| && offset <= |iov[index]| && |iov| - index <= tmp.Length
    modifies tmp
    ensures cnt == |iov| - index && tmp[..cnt] == [iov[index][offset..]] + iov[index + 1..]
  {
    tmp[0] := iov[index][offset..];
    var i := index + 1;
    cnt := 1;
    while i < |iov|
      invariant i == index + cnt <= |iov| && 1 <= cnt
      invariant tmp[..cnt] == [iov[index][offset..]] + iov[index + 1..i]
    {
      tmp[cnt] := iov[i];
      cnt, i := cnt + 1, i + 1;
    }
  }

  /** The vectors st_writev passes to the system: the caller's, or its own copy of what is left. */
  ghost function Vectors(iov: seq<Data>, tmp: array<Data>, copied: bool, cnt: nat): seq<Data>
    reads tmp
  {
    if copied && cnt <= tmp.Length then tmp[..cnt] else iov
  }

  /** The vector holding a later byte is not an earlier vector. */
  lemma LaterVector(v: seq<Data>, i: nat, j: nat, offset: nat)
    requires i < |v| && j < |v| && offset < |v[j]|
    requires |Flat(v[..i])| <= |Flat(v[..j])| + offset
    ensures i <= j
  {
    FlatPrefix(v, j);
    if j < i {
      FlatMonotone(v, j + 1, i);
    }
  }

  method TotalSize(iov: seq<Data>) returns (n: nat)
    ensures n == |Flat(iov)|
  {
    n := 0;
    FlatNone(iov[..0]);
    for index := 0 to |iov|
      invariant n == |Flat(iov[..index])|
    {
      FlatPrefix(iov, index);
      n := n + |iov[index]|;
    }
    assert iov[..|iov|] == iov;
  }

  /** Copies what is left after `done` bytes, into memory that holds it: the copy made before, the local
      vectors, or new ones. */
  method CopyRest(fd: Descriptor, iov: seq<Data>, done: nat, tmp: array<Data>, copied: bool, ghost at: nat)
    returns (ok: bool, copy: array<Data>, cnt: nat, ghost at': nat)
    requires done < |Flat(iov)| && tmp.Length >= LocalMaxIov
    requires copied ==> at < |iov| && |iov| - at <= tmp.Length && |Flat(iov[..at])| <= done
    modifies fd, tmp
    ensures fd.sent == old(fd.sent) && |fd.events| <= |old(fd.events)|
    ensures fd.faults == old(fd.faults) + if ok then 0 else 1
    ensures copy == tmp || fresh(copy)
    ensures copy.Length >= LocalMaxIov
    ensures ok ==> at' < |iov| && cnt == |iov| - at' <= copy.Length && |Flat(iov[..at'])| <= done
    ensures ok ==> Flat(copy[..cnt]) == Flat(iov)[done..]
  {
    hide Flat;
    ok, copy, cnt := true, tmp, 0;
    var index, offset := Locate(iov, done);
    at' := index;
    if copied {
      LaterVector(iov, at, index, offset);
    } else if |iov| - index > LocalMaxIov {
      ok := fd.Try();
      if !ok {
        return;
      }
      copy := new Data[|iov| - index](_ => []);
    }
    cnt := Fill(copy, iov, index, offset);
    FlatConcat([iov[index][offset..]], iov[index + 1..]);
    OneVector([iov[index][offset..]]);
  }

  /** Success means that exactly the buffers, in order, were passed on; failure that a proper part was. */
  method Writev(fd: Descriptor, iov: seq<Data>) returns (rv: int)
    modifies fd
    ensures rv == |Flat(iov)| || rv == -1
    ensures rv >= 0 ==> fd.sent == old(fd.sent) + Flat(iov)
    ensures rv == -1 ==> fd.faults > old(fd.faults)
    ensures rv == -1 ==> exists n :: 0 <= n < |Flat(iov)| && Reached(old(fd.sent), Flat(iov), fd.sent, n)
  {
    hide Flat, Reached;
    ghost var all := Flat(iov);
    var nbyte := TotalSize(iov);
    rv := nbyte;
    var nleft := nbyte;
    var tmp, copied, cnt := new Data[LocalMaxIov](_ => []), false, |iov|;
    ghost var at: nat := 0;
    ReachedNone(fd.sent, all);
    while nleft > 0
      invariant rv == nbyte && 0 <= nleft <= nbyte && fresh(tmp) && tmp.Length >= LocalMaxIov
      invariant Reached(old(fd.sent), all, fd.sent, nbyte - nleft) && fd.faults == old(fd.faults)
      invariant !copied ==> nleft == nbyte && cnt == |iov|
      invariant copied ==> at < |iov| && cnt == |iov| - at <= tmp.Length && |Flat(iov[..at])| <= nbyte - nleft
      invariant Flat(Vectors(iov, tmp, copied, cnt)) == all[nbyte - nleft..]
      decreases |fd.events|
    {
      if cnt == 1 {
        OneVector(Vectors(iov, tmp, copied, cnt));
        rv := WriteLast(fd, if copied then tmp[0] else iov[0], nbyte, all, old(fd.sent));
        return;
      }
      ghost var sent := fd.sent;
      var r := fd.Write(Flat(if copied then tmp[..cnt] else iov));
      if r == Eintr {
        continue;
      }
      if r == Failed {
        return -1;
      }
      if r.Wrote? {
        ReachedMore(old(fd.sent), all, sent, nbyte - nleft, fd.sent, r.n);
        if r.n == nleft {
          return;
        }
        nleft := nleft - r.n;
        var got;
        got, tmp, cnt, at := CopyRest(fd, iov, nbyte - nleft, tmp, copied, at);
        if !got {
          return -1;
        }
        copied := true;
      }
      var ready := fd.Try();
      if !ready {
        return -1;
      }
    }
    ReachedAll(old(fd.sent), all, fd.sent);
  }

  /** Of all the bytes, exactly the first n were passed on. */
  ghost predicate Reached(before: Data, all: Data, sent: Data, n: nat) {
    n <= |all| && sent == before + all[..n]
  }

  lemma ReachedMore(before: Data, all: Data, sent: Data, done: nat, sent': Data, n: nat)
    requires Reached(before, all, sent, done) && done + n <= |all| && sent' == sent + all[done..][..n]
    ensures Reached(before, all, sent', done + n)
    ensures done + n == |all| ==> sent' == before + all
  {
    assert all[..done] + all[done..][..n] == all[..done + n];
  }

  lemma ReachedAll(before: Data, all: Data, sent: Data)
    requires Reached(before, all, sent, |all|)
    ensures sent == before + all
  {}

  lemma ReachedNone(before: Data, all: Data)
    ensures Reached(before, all, before, 0) && all[0..] == all
  {}

  /** The last vector goes through st_write. */
  method WriteLast(fd: Descriptor, buf: Data, nbyte: nat, ghost all: Data, ghost sent: Data) returns (rv: int)
    requires 0 < |buf| <= nbyte == |all| && buf == all[nbyte - |buf|..] && Reached(sent, all, fd.sent, nbyte - |buf|)
    modifies fd
    ensures rv == nbyte || rv == -1
    ensures rv >= 0 ==> fd.sent == sent + all
    ensures rv == -1 ==> fd.faults > old(fd.faults) && exists n :: 0 <= n < nbyte && Reached(sent, all, fd.sent, n)
  {
    var status, resid := WriteResid(fd, buf);
    ReachedMore(sent, all, old(fd.sent), nbyte - |buf|, fd.sent, |buf| - resid);
    rv := if status == 0 && |buf| - resid == |buf| then nbyte else -1;
  }
}
