/** The cooperative scheduler as a state machine.  A step is what one thread does between two
    context switches: the part of a library call up to where it blocks, the part after it is
    resumed, or a piece of the idle loop.  The invariant over every run ties thread states and
    flags to the run, sleep, I/O, zombie and wait queues and to the mutex owners. */
module Scheduler {
  import opened Bytes
  import opened TimeoutHeap

  type Tid = nat
  type MutexId = nat

  /** Condition variables: the user's, and the one that announces a thread's end. */
  datatype CondId = UserCond(id: nat) | Term(tid: Tid)

  /** Where a thread is: in user code, or in a library call that gave up the processor. */
  datatype Pc =
    | User
    | InSleep
    | InCond(cond: CondId)
    | InJoin(target: Tid)
    | InLock(mutex: MutexId)
    | InPoll
    | InExit

  datatype Task = Task(
    state: State,
    pc: Pc,
    interrupt: bool,
    timedOut: bool,
    onSleepQ: bool,
    onIoq: bool,
    due: int,
    joinable: bool)

  datatype IdlePhase = Dispatching | Checking | Yielding

  datatype Current = Switching | OnCpu(tid: Tid) | Idle(phase: IdlePhase)

  /** `held` is history: who got the mutex from a call that returned 0 and has not given it back. */
  datatype Vp = Vp(
    tasks: map<Tid, Task>,
    current: Current,
    runQ: seq<Tid>,
    sleepQ: set<Tid>,
    ioQ: seq<Tid>,
    zombieQ: seq<Tid>,
    condQ: map<CondId, seq<Tid>>,
    lockQ: map<MutexId, seq<Tid>>,
    owner: map<MutexId, Tid>,
    held: map<MutexId, set<Tid>>,
    clock: int)

  function CondQ(s: Vp, c: CondId): seq<Tid> {
    if c in s.condQ then s.condQ[c] else []
  }

  function LockQ(s: Vp, m: MutexId): seq<Tid> {
    if m in s.lockQ then s.lockQ[m] else []
  }

  function Held(s: Vp, m: MutexId): set<Tid> {
    if m in s.held then s.held[m] else {}
  }

  predicate Owns(s: Vp, m: MutexId, t: Tid) {
    m in s.owner && s.owner[m] == t
  }

  // ----- Queues -----

  predicate NoDup(q: seq<Tid>) {
    forall i, j :: 0 <= i < j < |q| ==> q[i] != q[j]
  }

  function Minus(q: seq<Tid>, t: Tid): seq<Tid> {
    if q == [] then [] else if q[0] == t then q[1..] else [q[0]] + Minus(q[1..], t)
  }

  lemma {:induction false} MinusMembers(q: seq<Tid>, t: Tid)
    requires NoDup(q)
    ensures NoDup(Minus(q, t))
    ensures forall x :: x in Minus(q, t) <==> x in q && x != t
  {
    if q != [] {
      var first, rest := q[0], q[1..];
      assert first !in rest;
      assert forall x :: x in q <==> x == first || x in rest;
      MinusMembers(rest, t);
      if first != t {
        hide Minus;
        ConsMembers(first, Minus(rest, t));
        assert Minus(q, t) == [first] + Minus(rest, t) by { MinusCons(q, t); }
      }
    }
  }

  lemma MinusCons(q: seq<Tid>, t: Tid)
    requires q != [] && q[0] != t
    ensures Minus(q, t) == [q[0]] + Minus(q[1..], t)
  {
  }

  lemma ConsMembers(t: Tid, q: seq<Tid>)
    requires NoDup(q) && t !in q
    ensures NoDup([t] + q)
    ensures forall x :: x in [t] + q <==> x == t || x in q
  {
  }

  lemma AppendMembers(q: seq<Tid>, t: Tid)
    requires NoDup(q) && t !in q
    ensures NoDup(q + [t])
    ensures forall x :: x in q + [t] <==> x in q || x == t
  {
  }

  // ----- Pieces of steps -----

  function Set1(s: Vp, t: Tid, k: Task): Vp {
    s.(tasks := s.tasks[t := k])
  }

  /** Off the sleep queue, runnable, at the end of the run queue - whatever the state was. */
  function MakeRunnable(s: Vp, t: Tid): Vp
    requires t in s.tasks
  {
    s.(tasks := s.tasks[t := s.tasks[t].(state := Runnable, onSleepQ := false)],
       sleepQ := s.sleepQ - {t},
       runQ := s.runQ + [t])
  }

  /** Puts the running thread to wait, on the sleep queue too if there is a time-out. */
  function Block(s: Vp, t: Tid, state: State, pc: Pc, timeout: Option<int>): Vp
    requires t in s.tasks
  {
    var k := s.tasks[t].(state := state, pc := pc);
    if timeout.None? then s.(tasks := s.tasks[t := k], current := Switching)
    else s.(tasks := s.tasks[t := k.(onSleepQ := true, due := s.clock + timeout.value)],
            sleepQ := s.sleepQ + {t}, current := Switching)
  }

  /** Wakes the threads of `q` that wait on a condition variable: the first, or all of them. */
  function Signal(s: Vp, q: seq<Tid>, broadcast: bool): Vp
    decreases |q|
  {
    if q == [] then s
    else if q[0] in s.tasks && s.tasks[q[0]].state == CondWait then
      var s' := MakeRunnable(s, q[0]);
      if broadcast then Signal(s', q[1..], true) else s'
    else Signal(s, q[1..], broadcast)
  }

  /** The longest-waiting thread that still waits for the mutex. */
  function FirstWaiter(s: Vp, q: seq<Tid>): Option<Tid> {
    if q == [] then None
    else if q[0] in s.tasks && s.tasks[q[0]].state == LockWait then Some(q[0])
    else FirstWaiter(s, q[1..])
  }

  function Ready(s: Vp, t: Tid): Vp
    requires t in s.tasks
  {
    var s1 := MakeRunnable(s, t);
    s1.(ioQ := Minus(s.ioQ, t), tasks := s1.tasks[t := s1.tasks[t].(onIoq := false)])
  }

  /** Takes off the I/O queue and makes runnable every thread whose descriptors fired. */
  function Fire(s: Vp, fired: seq<Tid>): Vp
    requires forall t :: t in fired ==> t in s.tasks
    decreases |fired|
  {
    if fired == [] then s else Fire(Ready(s, fired[0]), fired[1..])
  }

  /** Makes a sleeper runnable, and tells it so if it waits on a condition variable. */
  function TimeOut(s: Vp, t: Tid): Vp
    requires t in s.tasks
  {
    var s1 := MakeRunnable(s, t);
    Set1(s1, t, s1.tasks[t].(timedOut := s.tasks[t].timedOut || s.tasks[t].state == CondWait))
  }

  /** Makes runnable the threads whose time is up, in the given order. */
  function Expire(s: Vp, expired: seq<Tid>): Vp
    requires forall t :: t in expired ==> t in s.tasks
    decreases |expired|
  {
    if expired == [] then s
    else
      Expire(TimeOut(s, expired[0]), expired[1..])
  }

  // ----- Steps -----

  datatype Step =
    | Sleep(timeout: Option<int>)
    | Wait(cond: CondId, timeout: Option<int>)
    | SignalCond(cond: CondId, broadcast: bool)
    | Lock(mutex: MutexId)
    | TryLock(mutex: MutexId)
    | Unlock(mutex: MutexId)
    | Poll(timeout: Option<int>)
    | Interrupt(target: Tid)
    | Create(child: Tid, joinable: bool)
    | Join(target: Tid)
    | Exit
    | Resume
    | Schedule
    | Dispatch(fired: seq<Tid>)
    | CheckClock(now: int, expired: seq<Tid>)
    | IdleYield

  predicate InUserCode(s: Vp) {
    s.current.OnCpu? && s.current.tid in s.tasks && s.tasks[s.current.tid].pc == User
  }

  ghost predicate Enabled(s: Vp, a: Step) {
    match a
    case Schedule => s.current == Switching
    case Resume => s.current.OnCpu? && s.current.tid in s.tasks && s.tasks[s.current.tid].pc != User
    case Dispatch(fired) =>
      s.current == Idle(Dispatching) && NoDup(fired) && forall t :: t in fired ==> t in s.ioQ && t in s.tasks
    case CheckClock(now, expired) =>
      && s.current == Idle(Checking) && NoDup(expired)
      && (forall t :: t in expired <==> t in s.tasks && t in s.sleepQ && s.tasks[t].due <= now)
      && (forall i, j :: 0 <= i < j < |expired| ==> s.tasks[expired[i]].due <= s.tasks[expired[j]].due)
    case IdleYield => s.current == Idle(Yielding)
    case Create(child, _) =>
      && InUserCode(s) && child !in s.tasks && CondQ(s, Term(child)) == []
      && forall m :: m in s.owner ==> s.owner[m] != child
    case Interrupt(target) => InUserCode(s) && target in s.tasks
    case Wait(c, _) => InUserCode(s) && c.UserCond?
    case SignalCond(c, _) => InUserCode(s) && c.UserCond?
    case Join(target) => InUserCode(s) && target in s.tasks
    case _ => InUserCode(s)
  }

  /** Enters a blocking call, which a pending interrupt refuses. */
  function ClearInterrupt(s: Vp, t: Tid): Vp
    requires t in s.tasks
  {
    Set1(s, t, s.tasks[t].(interrupt := false))
  }

  function DoLock(s: Vp, me: Tid, m: MutexId): Vp
    requires me in s.tasks
  {
    if s.tasks[me].interrupt then ClearInterrupt(s, me)
    else if m !in s.owner then s.(owner := s.owner[m := me], held := s.held[m := Held(s, m) + {me}])
    else if s.owner[m] == me then s
    else Block(s.(lockQ := s.lockQ[m := LockQ(s, m) + [me]]), me, LockWait, InLock(m), None)
  }

  function DoUnlock(s: Vp, me: Tid, m: MutexId): Vp {
    if !Owns(s, m, me) then s
    else
      var s1 := s.(held := s.held[m := Held(s, m) - {me}]);
      match FirstWaiter(s, LockQ(s, m))
      case None => s1.(owner := s1.owner - {m})
      case Some(t) =>
        if t in s1.tasks then MakeRunnable(s1.(owner := s1.owner[m := t]), t) else s1
  }

  function DoWait(s: Vp, me: Tid, c: CondId, pc: Pc, timeout: Option<int>): Vp
    requires me in s.tasks
  {
    if s.tasks[me].interrupt then ClearInterrupt(s, me)
    else Block(s.(condQ := s.condQ[c := CondQ(s, c) + [me]]), me, CondWait, pc, timeout)
  }

  /** Lets a thread that has ended go on to clean up. */
  function Collect(s: Vp, target: Tid): Vp
    requires target in s.tasks
  {
    s.(tasks := s.tasks[target := s.tasks[target].(state := Runnable)],
       zombieQ := Minus(s.zombieQ, target), runQ := s.runQ + [target])
  }

  function DoJoin(s: Vp, me: Tid, target: Tid): Vp
    requires me in s.tasks && target in s.tasks
  {
    if !s.tasks[target].joinable || target == me || CondQ(s, Term(target)) != [] then s
    else if s.tasks[target].state == Zombie then Collect(s, target)
    else DoWait(s, me, Term(target), InJoin(target), None)
  }

  function DoExit(s: Vp, me: Tid): Vp
    requires me in s.tasks
  {
    if s.tasks[me].joinable then
      var s1 := s.(tasks := s.tasks[me := s.tasks[me].(state := Zombie, pc := InExit)], zombieQ := s.zombieQ + [me],
                   current := Switching);
      Signal(s1, CondQ(s1, Term(me)), false)
    else s.(tasks := s.tasks - {me}, current := Switching)
  }

  function DoInterrupt(s: Vp, target: Tid): Vp
    requires target in s.tasks
  {
    var k := s.tasks[target];
    if k.state == Zombie then s
    else
      var s1 := Set1(s, target, k.(interrupt := true));
      if k.state == Running || k.state == Runnable then s1 else MakeRunnable(s1, target)
  }

  /** Whether a lock call that was resumed returns 0. */
  predicate LockGranted(s: Vp, me: Tid, m: MutexId)
    requires me in s.tasks
  {
    !(s.tasks[me].interrupt && !Owns(s, m, me))
  }

  function FinishLock(s: Vp, me: Tid, m: MutexId): Vp
    requires me in s.tasks
  {
    var k, s1 := s.tasks[me], s.(lockQ := s.lockQ[m := Minus(LockQ(s, m), me)]);
    if LockGranted(s, me, m) then
      s1.(tasks := s.tasks[me := k.(pc := User)], held := s.held[m := Held(s, m) + {me}])
    else s1.(tasks := s.tasks[me := k.(pc := User, interrupt := false)])
  }

  /** A joiner that was signalled looks again whether the thread has ended. */
  function FinishJoin(s: Vp, me: Tid, target: Tid): Vp
    requires me in s.tasks
  {
    var k := s.tasks[me];
    var s1 := s.(condQ := s.condQ[Term(target) := Minus(CondQ(s, Term(target)), me)],
                 tasks := s.tasks[me := k.(pc := User, timedOut := false, interrupt := false)]);
    if k.timedOut || k.interrupt then s1
    else if target !in s1.tasks then s1
    else if s1.tasks[target].state == Zombie then Collect(s1, target)
    else DoWait(s1, me, Term(target), InJoin(target), None)
  }

  /** Leaves a blocking call after having been switched back in. */
  function DoResume(s: Vp, me: Tid): Vp
    requires me in s.tasks && s.tasks[me].pc != User
  {
    var k := s.tasks[me];
    match k.pc
    case InSleep => Set1(s, me, k.(pc := User, interrupt := false))
    case InCond(c) =>
      s.(condQ := s.condQ[c := Minus(CondQ(s, c), me)],
         tasks := s.tasks[me := k.(pc := User, timedOut := false, interrupt := false)])
    case InJoin(target) => FinishJoin(s, me, target)
    case InLock(m) => FinishLock(s, me, m)
    case InPoll =>
      s.(ioQ := if k.onIoq then Minus(s.ioQ, me) else s.ioQ,
         tasks := s.tasks[me := k.(pc := User, onIoq := false, interrupt := false)])
    case InExit => s.(tasks := s.tasks - {me}, current := Switching)
  }

  function DoSchedule(s: Vp): Vp {
    if s.runQ == [] then s.(current := Idle(Dispatching))
    else if s.runQ[0] in s.tasks then
      var t := s.runQ[0];
      s.(runQ := s.runQ[1..], current := OnCpu(t), tasks := s.tasks[t := s.tasks[t].(state := Running)])
    else s
  }

  function Next(s: Vp, a: Step): Vp
    requires Enabled(s, a)
  {
    match a
    case Schedule => DoSchedule(s)
    case Dispatch(fired) => Fire(s.(current := Idle(Checking)), fired)
    case CheckClock(now, expired) => Expire(s.(clock := now, current := Idle(Yielding)), expired)
    case IdleYield => s.(current := Switching)
    case Resume => DoResume(s, s.current.tid)
    case Sleep(timeout) =>
      var me := s.current.tid;
      if s.tasks[me].interrupt then ClearInterrupt(s, me)
      else Block(s, me, if timeout.Some? then Sleeping else Suspended, InSleep, timeout)
    case Wait(c, timeout) => DoWait(s, s.current.tid, c, InCond(c), timeout)
    case SignalCond(c, broadcast) => Signal(s, CondQ(s, c), broadcast)
    case Lock(m) => DoLock(s, s.current.tid, m)
    case TryLock(m) =>
      if m in s.owner then s
      else s.(owner := s.owner[m := s.current.tid], held := s.held[m := Held(s, m) + {s.current.tid}])
    case Unlock(m) => DoUnlock(s, s.current.tid, m)
    case Poll(timeout) =>
      var me := s.current.tid;
      if s.tasks[me].interrupt then ClearInterrupt(s, me)
      else Block(s.(ioQ := s.ioQ + [me], tasks := s.tasks[me := s.tasks[me].(onIoq := true)]), me, IoWait, InPoll, timeout)
    case Interrupt(target) => DoInterrupt(s, target)
    case Create(child, joinable) =>
      s.(tasks := s.tasks[child := Task(Runnable, User, false, false, false, false, 0, joinable)],
         runQ := s.runQ + [child])
    case Join(target) => DoJoin(s, s.current.tid, target)
    case Exit => DoExit(s, s.current.tid)
  }

  // ----- The invariant -----

  /** Who waits in the queue of condition variable `c`. */
  predicate WaitsFor(pc: Pc, c: CondId) {
    pc == InCond(c) || (pc.InJoin? && c == Term(pc.target))
  }

  /** A thread is on the run queue exactly if it is runnable, on the zombie queue exactly if it is
      a zombie and on the processor exactly if it is running. */
  predicate RunAgrees(s: Vp, t: Tid) {
    && (t in s.runQ <==> t in s.tasks && s.tasks[t].state == Runnable)
    && (t in s.zombieQ <==> t in s.tasks && s.tasks[t].state == Zombie)
    && (s.current == OnCpu(t) <==> t in s.tasks && s.tasks[t].state == Running)
  }

  /** A thread is in the time-out heap exactly if it is flagged to be, and then it waits. */
  predicate SleepAgrees(s: Vp, t: Tid) {
    && (t in s.sleepQ <==> t in s.tasks && s.tasks[t].onSleepQ)
    && (t in s.sleepQ && t in s.tasks ==>
          s.tasks[t].state == Sleeping || s.tasks[t].state == IoWait || s.tasks[t].state == CondWait)
  }

  /** A thread is on the I/O queue exactly if it is flagged to be; it polls, and while it waits for
      I/O it is there. */
  predicate IoAgrees(s: Vp, t: Tid) {
    && (t in s.ioQ <==> t in s.tasks && s.tasks[t].onIoq)
    && (t in s.tasks && s.tasks[t].onIoq ==> s.tasks[t].pc == InPoll)
    && (t in s.tasks && s.tasks[t].state == IoWait ==> s.tasks[t].onIoq)
  }

  /** The state in which a call waits. */
  predicate WaitsIn(pc: Pc, state: State) {
    match pc
    case User => false
    case InSleep => state == Sleeping || state == Suspended
    case InCond(_) => state == CondWait
    case InJoin(_) => state == CondWait
    case InLock(_) => state == LockWait
    case InPoll => state == IoWait
    case InExit => state == Zombie
  }

  predicate Waiting(state: State) {
    state != Running && state != Runnable && state != Zombie
  }

  /** The call a thread is in agrees with its state; only a condition wait that is over timed out, and
      an interrupted thread does not wait. */
  predicate PcAgrees(s: Vp, t: Tid) {
    t in s.tasks ==>
      var k := s.tasks[t];
      && (k.state == Runnable || k.state == Running || WaitsIn(k.pc, k.state))
      && (k.timedOut ==> (k.pc.InCond? || k.pc.InJoin?) && k.state != CondWait)
      && (k.interrupt ==> !Waiting(k.state))
  }

  /** What holds of one thread and the queues that thread objects are linked into. */
  predicate Agrees(s: Vp, t: Tid) {
    RunAgrees(s, t) && SleepAgrees(s, t) && IoAgrees(s, t) && PcAgrees(s, t)
  }

  ghost predicate QueueInv(s: Vp) {
    && NoDup(s.runQ) && NoDup(s.zombieQ) && NoDup(s.ioQ)
    && (s.current == Idle(Dispatching) ==> s.runQ == [])
    && forall t :: Agrees(s, t)
  }

  /** A thread is in a wait queue exactly while it is in the call that put it there. */
  predicate CondAgrees(s: Vp, c: CondId, t: Tid) {
    t in CondQ(s, c) <==> t in s.tasks && WaitsFor(s.tasks[t].pc, c)
  }

  predicate LockAgrees(s: Vp, m: MutexId, t: Tid) {
    t in LockQ(s, m) <==> t in s.tasks && s.tasks[t].pc == InLock(m)
  }

  ghost predicate WaitInv(s: Vp) {
    && (forall c :: NoDup(CondQ(s, c))) && (forall c, t :: CondAgrees(s, c, t))
    && (forall m :: NoDup(LockQ(s, m))) && (forall m, t :: LockAgrees(s, m, t))
  }

  /** A thread waits only for a mutex that another owns; a thread that stopped waiting was handed
      the mutex or interrupted; and who holds a mutex owns it. */
  predicate MutexAgrees(s: Vp, m: MutexId, t: Tid) {
    && (t in s.tasks && s.tasks[t].pc == InLock(m) ==>
          if s.tasks[t].state == LockWait then m in s.owner && s.owner[m] != t
          else Owns(s, m, t) || s.tasks[t].interrupt)
    && (t in Held(s, m) ==> Owns(s, m, t) && (t in s.tasks ==> s.tasks[t].pc != InLock(m)))
    && (Owns(s, m, t) && t in s.tasks ==> t in Held(s, m) || s.tasks[t].pc == InLock(m))
  }

  ghost predicate MutexInv(s: Vp) {
    forall m, t :: MutexAgrees(s, m, t)
  }

  ghost predicate Inv(s: Vp) {
    QueueInv(s) && WaitInv(s) && MutexInv(s)
  }

  function Start(t: Tid): Vp {
    Vp(map[t := Task(Running, User, false, false, false, false, 0, false)], OnCpu(t), [], {}, [], [], map[], map[], map[], map[], 0)
  }

  lemma StartInv(t: Tid)
    ensures Inv(Start(t))
  {
  }

  // ----- Changes of one thread -----

  /** Nothing but thread `t` changed, as far as threads and their queues are concerned. */
  ghost predicate OnlyChanged(s: Vp, s': Vp, t: Tid) {
    forall u :: u != t ==> Unchanged(s, s', u)
  }

  predicate Unchanged(s: Vp, s': Vp, u: Tid) {
    && (u in s'.tasks <==> u in s.tasks) && (u in s.tasks ==> s'.tasks[u] == s.tasks[u])
    && (u in s'.runQ <==> u in s.runQ) && (u in s'.zombieQ <==> u in s.zombieQ)
    && (u in s'.sleepQ <==> u in s.sleepQ) && (u in s'.ioQ <==> u in s.ioQ)
    && (s'.current == OnCpu(u) <==> s.current == OnCpu(u))
  }

  lemma QueueChange(s: Vp, s': Vp, t: Tid)
    requires QueueInv(s) && OnlyChanged(s, s', t) && Agrees(s', t)
    requires NoDup(s'.runQ) && NoDup(s'.zombieQ) && NoDup(s'.ioQ)
    requires s'.current == Idle(Dispatching) ==> s'.runQ == []
    ensures QueueInv(s')
  {
    hide NoDup;
    forall u ensures Agrees(s', u) {
      assert Agrees(s, u);
      if u != t {
        assert Unchanged(s, s', u);
      }
    }
  }

  /** The wait queues do not change and neither does the call a thread is in. */
  lemma WaitFrame(s: Vp, s': Vp)
    requires WaitInv(s) && s'.condQ == s.condQ && s'.lockQ == s.lockQ && s'.tasks.Keys == s.tasks.Keys
    requires forall t :: t in s.tasks ==> s'.tasks[t].pc == s.tasks[t].pc
    ensures WaitInv(s')
  {
    hide NoDup, WaitsFor;
    forall c ensures NoDup(CondQ(s', c)) {
      assert CondQ(s', c) == CondQ(s, c);
    }
    forall m ensures NoDup(LockQ(s', m)) {
      assert LockQ(s', m) == LockQ(s, m);
    }
    forall c, t ensures CondAgrees(s', c, t) {
      assert CondAgrees(s, c, t);
    }
    forall m, t ensures LockAgrees(s', m, t) {
      assert LockAgrees(s, m, t);
    }
  }

  /** The queues follow one thread into or out of a call. */
  ghost predicate QueuesFollow(s: Vp, s': Vp, t: Tid) {
    && (forall c :: NoDup(CondQ(s', c))) && (forall m :: NoDup(LockQ(s', m)))
    && (forall c :: CondAgrees(s', c, t)) && (forall m :: LockAgrees(s', m, t))
    && (forall c, u :: u != t ==> (u in CondQ(s', c) <==> u in CondQ(s, c)))
    && (forall m, u :: u != t ==> (u in LockQ(s', m) <==> u in LockQ(s, m)))
  }

  lemma WaitChange(s: Vp, s': Vp, t: Tid)
    requires WaitInv(s) && QueuesFollow(s, s', t)
    requires forall u :: u != t ==> (u in s'.tasks <==> u in s.tasks) && (u in s.tasks ==> s'.tasks[u].pc == s.tasks[u].pc)
    ensures WaitInv(s')
  {
    hide NoDup, WaitsFor, CondQ, LockQ;
    forall c, u ensures CondAgrees(s', c, u) {
      assert CondAgrees(s, c, u);
    }
    forall m, u ensures LockAgrees(s', m, u) {
      assert LockAgrees(s, m, u);
    }
  }

  /** A thread that is in no lock call, before or after, does not concern the mutexes. */
  lemma MutexOther(s: Vp, s': Vp, t: Tid)
    requires MutexInv(s) && OnlyChanged(s, s', t) && s'.owner == s.owner && s'.held == s.held
    requires t in s.tasks && !s.tasks[t].pc.InLock? && (t in s'.tasks ==> !s'.tasks[t].pc.InLock?)
    ensures MutexInv(s')
  {
    forall m, u ensures MutexAgrees(s', m, u) {
      assert MutexAgrees(s, m, u);
      if u != t {
        assert Unchanged(s, s', u);
      }
    }
  }

  // ----- Pieces of steps -----

  lemma MakeRunnableQueues(s: Vp, t: Tid)
    requires QueueInv(s) && t in s.tasks && Waiting(s.tasks[t].state) && s.current != Idle(Dispatching)
    ensures QueueInv(MakeRunnable(s, t)) && OnlyChanged(s, MakeRunnable(s, t), t)
  {
    var s' := MakeRunnable(s, t);
    assert Agrees(s, t);
    AppendMembers(s.runQ, t);
    QueueChange(s, s', t);
  }

  /** Waking a thread that is in no lock call. */
  lemma WakeInv(s: Vp, t: Tid)
    requires Inv(s) && t in s.tasks && Waiting(s.tasks[t].state) && !s.tasks[t].pc.InLock? && s.current != Idle(Dispatching)
    ensures Inv(MakeRunnable(s, t)) && OnlyChanged(s, MakeRunnable(s, t), t)
  {
    hide QueueInv, WaitInv, MutexInv;
    MakeRunnableQueues(s, t);
    WaitFrame(s, MakeRunnable(s, t));
    MutexOther(s, MakeRunnable(s, t), t);
  }

  lemma {:induction false} SignalStep(s: Vp, q: seq<Tid>, broadcast: bool)
    requires Inv(s) && s.current != Idle(Dispatching)
    ensures Inv(Signal(s, q, broadcast))
    decreases |q|
  {
    if q == [] {
    } else if q[0] in s.tasks && s.tasks[q[0]].state == CondWait {
      assert Agrees(s, q[0]);
      hide Inv;
      WakeInv(s, q[0]);
      if broadcast {
        SignalStep(MakeRunnable(s, q[0]), q[1..], true);
      }
    } else {
      SignalStep(s, q[1..], broadcast);
    }
  }

  /** One thread changes, the queues follow, and no lock call is concerned. */
  lemma OneThread(s: Vp, s': Vp, t: Tid)
    requires Inv(s) && OnlyChanged(s, s', t) && Agrees(s', t) && QueuesFollow(s, s', t)
    requires NoDup(s'.runQ) && NoDup(s'.zombieQ) && NoDup(s'.ioQ)
    requires s'.current == Idle(Dispatching) ==> s'.runQ == []
    requires s'.owner == s.owner && s'.held == s.held
    requires t in s.tasks && !s.tasks[t].pc.InLock? && (t in s'.tasks ==> !s'.tasks[t].pc.InLock?)
    ensures Inv(s')
  {
    QueueChange(s, s', t);
    forall u | u != t ensures (u in s'.tasks <==> u in s.tasks) && (u in s.tasks ==> s'.tasks[u].pc == s.tasks[u].pc) {
      assert Unchanged(s, s', u);
    }
    hide QueueInv, MutexInv, WaitInv, Agrees, QueuesFollow;
    WaitChange(s, s', t);
    MutexOther(s, s', t);
  }

  // ----- Queues that follow -----

  lemma NoQueueFollows(s: Vp, s': Vp, t: Tid)
    requires WaitInv(s) && t in s.tasks && s'.condQ == s.condQ && s'.lockQ == s.lockQ
    requires !s.tasks[t].pc.InCond? && !s.tasks[t].pc.InJoin? && !s.tasks[t].pc.InLock?
    requires t in s'.tasks ==> !s'.tasks[t].pc.InCond? && !s'.tasks[t].pc.InJoin? && !s'.tasks[t].pc.InLock?
    ensures QueuesFollow(s, s', t)
  {
    hide NoDup;
    forall c ensures CondQ(s', c) == CondQ(s, c) && CondAgrees(s', c, t) {
      assert CondAgrees(s, c, t);
    }
    forall m ensures LockQ(s', m) == LockQ(s, m) && LockAgrees(s', m, t) {
      assert LockAgrees(s, m, t);
    }
  }

  lemma SameCallFollows(s: Vp, s': Vp, t: Tid)
    requires WaitInv(s) && t in s.tasks && s'.condQ == s.condQ && s'.lockQ == s.lockQ
    requires t in s'.tasks && s'.tasks[t].pc == s.tasks[t].pc
    ensures QueuesFollow(s, s', t)
  {
    hide NoDup;
    forall c ensures CondQ(s', c) == CondQ(s, c) && CondAgrees(s', c, t) {
      assert CondAgrees(s, c, t);
    }
    forall m ensures LockQ(s', m) == LockQ(s, m) && LockAgrees(s', m, t) {
      assert LockAgrees(s, m, t);
    }
  }

  lemma EnterCondQ(s: Vp, s': Vp, t: Tid, c: CondId)
    requires WaitInv(s) && t in s.tasks && t in s'.tasks && s.tasks[t].pc == User && WaitsFor(s'.tasks[t].pc, c)
    requires s'.condQ == s.condQ[c := CondQ(s, c) + [t]] && s'.lockQ == s.lockQ
    ensures QueuesFollow(s, s', t)
  {
    assert CondAgrees(s, c, t);
    AppendMembers(CondQ(s, c), t);
    forall d ensures d != c ==> CondQ(s', d) == CondQ(s, d) {
    }
    forall d ensures CondAgrees(s', d, t) {
      assert CondAgrees(s, d, t);
    }
    forall m ensures LockQ(s', m) == LockQ(s, m) && LockAgrees(s', m, t) {
      assert LockAgrees(s, m, t);
    }
  }

  lemma LeaveCondQ(s: Vp, s': Vp, t: Tid, c: CondId)
    requires WaitInv(s) && t in s.tasks && t in s'.tasks && WaitsFor(s.tasks[t].pc, c) && s'.tasks[t].pc == User
    requires s'.condQ == s.condQ[c := Minus(CondQ(s, c), t)] && s'.lockQ == s.lockQ
    ensures QueuesFollow(s, s', t)
  {
    MinusMembers(CondQ(s, c), t);
    forall d ensures d != c ==> CondQ(s', d) == CondQ(s, d) {
    }
    forall d ensures CondAgrees(s', d, t) {
      assert CondAgrees(s, d, t);
    }
    forall m ensures LockQ(s', m) == LockQ(s, m) && LockAgrees(s', m, t) {
      assert LockAgrees(s, m, t);
    }
  }

  lemma EnterLockQ(s: Vp, s': Vp, t: Tid, m: MutexId)
    requires WaitInv(s) && t in s.tasks && t in s'.tasks && s.tasks[t].pc == User && s'.tasks[t].pc == InLock(m)
    requires s'.lockQ == s.lockQ[m := LockQ(s, m) + [t]] && s'.condQ == s.condQ
    ensures QueuesFollow(s, s', t)
  {
    assert LockAgrees(s, m, t);
    AppendMembers(LockQ(s, m), t);
    forall n ensures n != m ==> LockQ(s', n) == LockQ(s, n) {
    }
    forall n ensures LockAgrees(s', n, t) {
      assert LockAgrees(s, n, t);
    }
    forall c ensures CondQ(s', c) == CondQ(s, c) && CondAgrees(s', c, t) {
      assert CondAgrees(s, c, t);
    }
  }

  lemma LeaveLockQ(s: Vp, s': Vp, t: Tid, m: MutexId)
    requires WaitInv(s) && t in s.tasks && t in s'.tasks && s.tasks[t].pc == InLock(m) && s'.tasks[t].pc == User
    requires s'.lockQ == s.lockQ[m := Minus(LockQ(s, m), t)] && s'.condQ == s.condQ
    ensures QueuesFollow(s, s', t)
  {
    MinusMembers(LockQ(s, m), t);
    forall n ensures n != m ==> LockQ(s', n) == LockQ(s, n) {
    }
    forall n ensures LockAgrees(s', n, t) {
      assert LockAgrees(s, n, t);
    }
    forall c ensures CondQ(s', c) == CondQ(s, c) && CondAgrees(s', c, t) {
      assert CondAgrees(s, c, t);
    }
  }

  // ----- Every step keeps the invariant -----

  ghost predicate UserStep(s: Vp, me: Tid) {
    Inv(s) && s.current == OnCpu(me) && me in s.tasks && s.tasks[me].pc == User
  }

  lemma ClearInterruptStep(s: Vp, me: Tid)
    requires UserStep(s, me)
    ensures Inv(ClearInterrupt(s, me))
  {
    var s' := ClearInterrupt(s, me);
    assert Agrees(s, me);
    SameCallFollows(s, s', me);
    OneThread(s, s', me);
  }

  lemma SleepStep(s: Vp, me: Tid, timeout: Option<int>)
    requires UserStep(s, me) && !s.tasks[me].interrupt
    ensures Inv(Block(s, me, if timeout.Some? then Sleeping else Suspended, InSleep, timeout))
  {
    var s' := Block(s, me, if timeout.Some? then Sleeping else Suspended, InSleep, timeout);
    assert Agrees(s, me);
    NoQueueFollows(s, s', me);
    OneThread(s, s', me);
  }

  lemma WaitStep(s: Vp, me: Tid, c: CondId, pc: Pc, timeout: Option<int>)
    requires UserStep(s, me) && WaitsFor(pc, c)
    ensures Inv(DoWait(s, me, c, pc, timeout))
  {
    if s.tasks[me].interrupt {
      ClearInterruptStep(s, me);
    } else {
      var s' := DoWait(s, me, c, pc, timeout);
      assert Agrees(s, me);
      EnterCondQ(s, s', me, c);
      OneThread(s, s', me);
    }
  }

  lemma PollStep(s: Vp, me: Tid, timeout: Option<int>)
    requires UserStep(s, me) && !s.tasks[me].interrupt
    ensures Inv(Block(s.(ioQ := s.ioQ + [me], tasks := s.tasks[me := s.tasks[me].(onIoq := true)]), me, IoWait, InPoll, timeout))
  {
    var s' := Block(s.(ioQ := s.ioQ + [me], tasks := s.tasks[me := s.tasks[me].(onIoq := true)]), me, IoWait, InPoll, timeout);
    assert Agrees(s, me);
    AppendMembers(s.ioQ, me);
    NoQueueFollows(s, s', me);
    OneThread(s, s', me);
  }

  lemma CreateStep(s: Vp, s': Vp, child: Tid, joinable: bool)
    requires Inv(s) && Enabled(s, Create(child, joinable)) && s' == Next(s, Create(child, joinable))
    ensures Inv(s')
  {
    assert Agrees(s, child);
    AppendMembers(s.runQ, child);
    QueueChange(s, s', child);
    hide QueueInv;
    forall c ensures CondQ(s', c) == CondQ(s, c) {
    }
    forall m ensures LockQ(s', m) == LockQ(s, m) {
    }
    forall c, u ensures CondAgrees(s', c, u) {
      assert CondAgrees(s, c, u);
    }
    forall m, u ensures LockAgrees(s', m, u) {
      assert LockAgrees(s, m, u);
    }
    forall m, u ensures MutexAgrees(s', m, u) {
      assert MutexAgrees(s, m, u);
    }
  }

  lemma ScheduleStep(s: Vp)
    requires Inv(s) && s.current == Switching
    ensures Inv(DoSchedule(s))
  {
    var s' := DoSchedule(s);
    if s.runQ == [] {
      forall t ensures Agrees(s', t) {
        assert Agrees(s, t);
      }
      WaitFrame(s, s');
      forall m, t ensures MutexAgrees(s', m, t) {
        assert MutexAgrees(s, m, t);
      }
    } else {
      var t := s.runQ[0];
      assert Agrees(s, t);
      assert forall u :: u in s.runQ <==> u == t || u in s.runQ[1..];
      QueueChange(s, s', t);
      hide QueueInv;
      WaitFrame(s, s');
      forall m, u ensures MutexAgrees(s', m, u) {
        assert MutexAgrees(s, m, u);
      }
    }
  }

  lemma IdleYieldStep(s: Vp, s': Vp)
    requires Inv(s) && s.current.Idle? && s' == s.(current := Switching)
    ensures Inv(s')
  {
    forall t ensures Agrees(s', t) {
      assert Agrees(s, t);
    }
    hide QueueInv;
    WaitFrame(s, s');
    forall m, t ensures MutexAgrees(s', m, t) {
      assert MutexAgrees(s, m, t);
    }
  }

  // ----- Mutexes -----

  /** Taking a free mutex. */
  lemma AcquireStep(s: Vp, me: Tid, m: MutexId)
    requires UserStep(s, me) && m !in s.owner
    ensures Inv(s.(owner := s.owner[m := me], held := s.held[m := Held(s, m) + {me}]))
  {
    var s' := s.(owner := s.owner[m := me], held := s.held[m := Held(s, m) + {me}]);
    forall t ensures Agrees(s', t) {
      assert Agrees(s, t);
    }
    hide QueueInv;
    WaitFrame(s, s');
    forall n, t ensures MutexAgrees(s', n, t) {
      assert MutexAgrees(s, n, t);
    }
  }

  /** Waiting for a mutex that another thread owns. */
  lemma LockWaitStep(s: Vp, me: Tid, m: MutexId)
    requires UserStep(s, me) && !s.tasks[me].interrupt && m in s.owner && s.owner[m] != me
    ensures Inv(Block(s.(lockQ := s.lockQ[m := LockQ(s, m) + [me]]), me, LockWait, InLock(m), None))
  {
    var s' := Block(s.(lockQ := s.lockQ[m := LockQ(s, m) + [me]]), me, LockWait, InLock(m), None);
    assert Agrees(s, me);
    QueueChange(s, s', me);
    hide QueueInv;
    EnterLockQ(s, s', me, m);
    WaitChange(s, s', me);
    hide WaitInv;
    forall n, t ensures MutexAgrees(s', n, t) {
      assert MutexAgrees(s, n, t);
    }
  }

  lemma LockStep(s: Vp, me: Tid, m: MutexId)
    requires UserStep(s, me)
    ensures Inv(DoLock(s, me, m))
  {
    hide Inv;
    if s.tasks[me].interrupt {
      ClearInterruptStep(s, me);
    } else if m !in s.owner {
      AcquireStep(s, me, m);
    } else if s.owner[m] != me {
      LockWaitStep(s, me, m);
    }
  }

  lemma {:induction false} FirstWaiterFound(s: Vp, q: seq<Tid>)
    ensures match FirstWaiter(s, q)
            case None => forall i :: 0 <= i < |q| && q[i] in s.tasks ==> s.tasks[q[i]].state != LockWait
            case Some(t) =>
              exists k :: 0 <= k < |q| && q[k] == t && t in s.tasks && s.tasks[t].state == LockWait
                          && forall i :: 0 <= i < k && q[i] in s.tasks ==> s.tasks[q[i]].state != LockWait
    decreases |q|
  {
    if q == [] {
    } else if q[0] in s.tasks && s.tasks[q[0]].state == LockWait {
      assert q[0] == q[0];
    } else {
      FirstWaiterFound(s, q[1..]);
      match FirstWaiter(s, q[1..])
      case None =>
        forall i | 0 <= i < |q| && q[i] in s.tasks ensures s.tasks[q[i]].state != LockWait {
          if i > 0 {
            assert q[i] == q[1..][i - 1];
          }
        }
      case Some(t) =>
        var k :| 0 <= k < |q[1..]| && q[1..][k] == t && t in s.tasks && s.tasks[t].state == LockWait
                 && forall i :: 0 <= i < k && q[1..][i] in s.tasks ==> s.tasks[q[1..][i]].state != LockWait;
        assert q[k + 1] == t;
        forall i | 0 <= i < k + 1 && q[i] in s.tasks ensures s.tasks[q[i]].state != LockWait {
          if i > 0 {
            assert q[i] == q[1..][i - 1];
          }
        }
    }
  }

  /** Releasing a mutex nobody waits for. */
  lemma ReleaseStep(s: Vp, me: Tid, m: MutexId)
    requires UserStep(s, me) && Owns(s, m, me) && FirstWaiter(s, LockQ(s, m)).None?
    ensures Inv(DoUnlock(s, me, m))
  {
    var s' := DoUnlock(s, me, m);
    FirstWaiterFound(s, LockQ(s, m));
    forall t ensures Agrees(s', t) {
      assert Agrees(s, t);
    }
    hide QueueInv;
    WaitFrame(s, s');
    forall n, t ensures MutexAgrees(s', n, t) {
      assert MutexAgrees(s, n, t) && LockAgrees(s, n, t) && MutexAgrees(s, n, me);
    }
  }

  /** Handing a mutex over. */
  lemma HandOverStep(s: Vp, me: Tid, m: MutexId)
    requires UserStep(s, me) && Owns(s, m, me) && FirstWaiter(s, LockQ(s, m)).Some?
    ensures Inv(DoUnlock(s, me, m))
  {
    var t := FirstWaiter(s, LockQ(s, m)).value;
    FirstWaiterFound(s, LockQ(s, m));
    assert t in LockQ(s, m) && LockAgrees(s, m, t) && Agrees(s, t) && Agrees(s, me);
    var s' := DoUnlock(s, me, m);
    AppendMembers(s.runQ, t);
    QueueChange(s, s', t);
    hide QueueInv;
    WaitFrame(s, s');
    hide WaitInv;
    HandOverMutexes(s, me, m, t);
  }

  lemma HandOverMutexes(s: Vp, me: Tid, m: MutexId, t: Tid)
    requires MutexInv(s) && Owns(s, m, me) && FirstWaiter(s, LockQ(s, m)) == Some(t) && t in s.tasks
    requires s.tasks[t].state == LockWait && s.tasks[t].pc == InLock(m) && s.current == OnCpu(me) && Agrees(s, t)
    requires me in s.tasks && Agrees(s, me) && s.tasks[me].pc == User && t != me
    ensures MutexInv(DoUnlock(s, me, m))
  {
    hide LockQ, FirstWaiter;
    var s' := DoUnlock(s, me, m);
    forall n, u ensures MutexAgrees(s', n, u) {
      assert MutexAgrees(s, n, u) && MutexAgrees(s, n, me) && MutexAgrees(s, n, t);
    }
  }

  lemma UnlockStep(s: Vp, me: Tid, m: MutexId)
    requires UserStep(s, me)
    ensures Inv(DoUnlock(s, me, m))
  {
    if Owns(s, m, me) {
      hide Inv, DoUnlock;
      if FirstWaiter(s, LockQ(s, m)).None? {
        ReleaseStep(s, me, m);
      } else {
        HandOverStep(s, me, m);
      }
    }
  }

  // ----- Interrupt, join and exit -----

  /** Interrupting a thread that does not wait only leaves a note. */
  lemma InterruptFlagStep(s: Vp, t: Tid)
    requires Inv(s) && t in s.tasks && !Waiting(s.tasks[t].state)
    ensures Inv(Set1(s, t, s.tasks[t].(interrupt := true)))
  {
    var s' := Set1(s, t, s.tasks[t].(interrupt := true));
    assert Agrees(s, t);
    QueueChange(s, s', t);
    hide QueueInv;
    WaitFrame(s, s');
    forall m, u ensures MutexAgrees(s', m, u) {
      assert MutexAgrees(s, m, u);
    }
  }

  /** Interrupting a thread that waits makes it runnable; it stays in its wait queue until it runs. */
  lemma InterruptWaiterStep(s: Vp, t: Tid)
    requires Inv(s) && t in s.tasks && Waiting(s.tasks[t].state) && s.current != Idle(Dispatching)
    ensures Inv(DoInterrupt(s, t))
  {
    var s' := DoInterrupt(s, t);
    assert Agrees(s, t);
    AppendMembers(s.runQ, t);
    QueueChange(s, s', t);
    hide QueueInv;
    WaitFrame(s, s');
    forall m, u ensures MutexAgrees(s', m, u) {
      assert MutexAgrees(s, m, u);
    }
  }

  lemma InterruptStep(s: Vp, t: Tid)
    requires Inv(s) && t in s.tasks && s.current != Idle(Dispatching)
    ensures Inv(DoInterrupt(s, t))
  {
    if s.tasks[t].state != Zombie {
      if Waiting(s.tasks[t].state) {
        InterruptWaiterStep(s, t);
      } else {
        InterruptFlagStep(s, t);
      }
    }
  }

  lemma CollectStep(s: Vp, target: Tid)
    requires Inv(s) && target in s.tasks && s.tasks[target].state == Zombie && s.current != Idle(Dispatching)
    ensures Inv(Collect(s, target))
  {
    var s' := Collect(s, target);
    assert Agrees(s, target);
    AppendMembers(s.runQ, target);
    MinusMembers(s.zombieQ, target);
    SameCallFollows(s, s', target);
    OneThread(s, s', target);
  }

  lemma JoinStep(s: Vp, me: Tid, target: Tid)
    requires UserStep(s, me) && target in s.tasks
    ensures Inv(DoJoin(s, me, target))
  {
    hide Inv, DoWait, Collect;
    if s.tasks[target].joinable && target != me && CondQ(s, Term(target)) == [] {
      if s.tasks[target].state == Zombie {
        CollectStep(s, target);
      } else {
        WaitStep(s, me, Term(target), InJoin(target), None);
      }
    }
  }

  lemma ExitStep(s: Vp, me: Tid)
    requires UserStep(s, me)
    ensures Inv(DoExit(s, me))
  {
    assert Agrees(s, me);
    if s.tasks[me].joinable {
      var s1 := s.(tasks := s.tasks[me := s.tasks[me].(state := Zombie, pc := InExit)], zombieQ := s.zombieQ + [me],
                   current := Switching);
      AppendMembers(s.zombieQ, me);
      NoQueueFollows(s, s1, me);
      OneThread(s, s1, me);
      hide Inv;
      SignalStep(s1, CondQ(s1, Term(me)), false);
    } else {
      LeaveForGood(s, me);
    }
  }

  lemma LeaveForGood(s: Vp, me: Tid)
    requires Inv(s) && s.current == OnCpu(me) && me in s.tasks && (s.tasks[me].pc == User || s.tasks[me].pc == InExit)
    ensures Inv(s.(tasks := s.tasks - {me}, current := Switching))
  {
    var s' := s.(tasks := s.tasks - {me}, current := Switching);
    assert Agrees(s, me);
    NoQueueFollows(s, s', me);
    OneThread(s, s', me);
  }

  // ----- The idle loop -----

  /** With the run queue empty and nobody running, everyone on the I/O queue still waits. */
  lemma PollersWait(s: Vp, t: Tid)
    requires Inv(s) && s.current == Idle(Dispatching) && t in s.ioQ
    ensures t in s.tasks && s.tasks[t].state == IoWait
  {
    assert Agrees(s, t);
  }

  lemma ReadyStep(s: Vp, t: Tid)
    requires Inv(s) && s.current == Idle(Checking) && t in s.ioQ && t in s.tasks && s.tasks[t].state == IoWait
    ensures Inv(Ready(s, t)) && OnlyChanged(s, Ready(s, t), t)
  {
    var s' := Ready(s, t);
    assert Agrees(s, t);
    AppendMembers(s.runQ, t);
    MinusMembers(s.ioQ, t);
    SameCallFollows(s, s', t);
    OneThread(s, s', t);
  }

  lemma {:induction false} FireStep(s: Vp, fired: seq<Tid>)
    requires Inv(s) && s.current == Idle(Checking) && NoDup(fired)
    requires forall t :: t in fired ==> t in s.ioQ && t in s.tasks && s.tasks[t].state == IoWait
    ensures Inv(Fire(s, fired)) && Fire(s, fired).current == s.current
    decreases |fired|
  {
    if fired != [] {
      hide Inv;
      var t, s' := fired[0], Ready(s, fired[0]);
      ReadyStep(s, t);
      forall u | u in fired[1..] ensures u in s'.ioQ && u in s'.tasks && s'.tasks[u].state == IoWait {
        assert u in fired && u != t;
        assert Unchanged(s, s', u);
      }
      FireStep(s', fired[1..]);
    }
  }

  lemma TimeOutStep(s: Vp, t: Tid)
    requires Inv(s) && s.current == Idle(Yielding) && t in s.sleepQ && t in s.tasks
    ensures Inv(TimeOut(s, t)) && OnlyChanged(s, TimeOut(s, t), t)
  {
    var s' := TimeOut(s, t);
    assert Agrees(s, t);
    AppendMembers(s.runQ, t);
    SameCallFollows(s, s', t);
    OneThread(s, s', t);
  }

  lemma {:induction false} ExpireStep(s: Vp, expired: seq<Tid>)
    requires Inv(s) && s.current == Idle(Yielding) && NoDup(expired)
    requires forall t :: t in expired ==> t in s.sleepQ && t in s.tasks
    ensures Inv(Expire(s, expired)) && Expire(s, expired).current == s.current
    decreases |expired|
  {
    if expired != [] {
      hide Inv;
      var t, s' := expired[0], TimeOut(s, expired[0]);
      TimeOutStep(s, t);
      forall u | u in expired[1..] ensures u in s'.sleepQ && u in s'.tasks {
        assert u in expired && u != t;
        assert Unchanged(s, s', u);
      }
      ExpireStep(s', expired[1..]);
    }
  }

  /** The idle loop changes only what it is at. */
  lemma IdlePhaseStep(s: Vp, s': Vp)
    requires Inv(s) && s.current.Idle? && s'.current.Idle? && s'.current != Idle(Dispatching)
    requires s' == s.(current := s'.current, clock := s'.clock)
    ensures Inv(s')
  {
    forall t ensures Agrees(s', t) {
      assert Agrees(s, t);
    }
    hide QueueInv;
    WaitFrame(s, s');
    forall m, t ensures MutexAgrees(s', m, t) {
      assert MutexAgrees(s, m, t);
    }
  }

  // ----- Coming back from a blocking call -----

  ghost predicate Resumed(s: Vp, me: Tid) {
    Inv(s) && s.current == OnCpu(me) && me in s.tasks
  }

  lemma ResumeSleep(s: Vp, me: Tid)
    requires Resumed(s, me) && s.tasks[me].pc == InSleep
    ensures Inv(DoResume(s, me))
  {
    var s' := DoResume(s, me);
    assert Agrees(s, me);
    NoQueueFollows(s, s', me);
    OneThread(s, s', me);
  }

  lemma ResumePoll(s: Vp, me: Tid)
    requires Resumed(s, me) && s.tasks[me].pc == InPoll
    ensures Inv(DoResume(s, me))
  {
    var s' := DoResume(s, me);
    assert Agrees(s, me);
    MinusMembers(s.ioQ, me);
    NoQueueFollows(s, s', me);
    OneThread(s, s', me);
  }

  lemma ResumeCond(s: Vp, s': Vp, me: Tid, c: CondId)
    requires Resumed(s, me) && WaitsFor(s.tasks[me].pc, c)
    requires s' == s.(condQ := s.condQ[c := Minus(CondQ(s, c), me)],
                      tasks := s.tasks[me := s.tasks[me].(pc := User, timedOut := false, interrupt := false)])
    ensures UserStep(s', me)
  {
    assert Agrees(s, me);
    LeaveCondQ(s, s', me, c);
    OneThread(s, s', me);
  }

  lemma ResumeJoin(s: Vp, me: Tid)
    requires Resumed(s, me) && s.tasks[me].pc.InJoin?
    ensures Inv(FinishJoin(s, me, s.tasks[me].pc.target))
  {
    hide Inv, DoWait, Collect;
    var k, target := s.tasks[me], s.tasks[me].pc.target;
    var s1 := s.(condQ := s.condQ[Term(target) := Minus(CondQ(s, Term(target)), me)],
                 tasks := s.tasks[me := k.(pc := User, timedOut := false, interrupt := false)]);
    ResumeCond(s, s1, me, Term(target));
    if !k.timedOut && !k.interrupt && target in s1.tasks {
      if s1.tasks[target].state == Zombie {
        CollectStep(s1, target);
      } else {
        WaitStep(s1, me, Term(target), InJoin(target), None);
      }
    }
  }

  /** A lock call that was resumed returns 0 exactly if it was handed the mutex. */
  lemma LockResult(s: Vp, me: Tid, m: MutexId)
    requires Resumed(s, me) && s.tasks[me].pc == InLock(m)
    ensures LockGranted(s, me, m) <==> Owns(s, m, me)
  {
    assert MutexAgrees(s, m, me) && Agrees(s, me);
  }

  lemma ResumeLock(s: Vp, me: Tid, m: MutexId)
    requires Resumed(s, me) && s.tasks[me].pc == InLock(m)
    ensures Inv(FinishLock(s, me, m))
  {
    var s' := FinishLock(s, me, m);
    LockResult(s, me, m);
    assert Agrees(s, me);
    QueueChange(s, s', me);
    hide QueueInv, Agrees;
    LeaveLockQ(s, s', me, m);
    WaitChange(s, s', me);
    hide WaitInv, QueuesFollow;
    ResumeLockMutexes(s, me, m);
  }

  lemma ResumeLockMutexes(s: Vp, me: Tid, m: MutexId)
    requires MutexInv(s) && Agrees(s, me) && s.current == OnCpu(me) && me in s.tasks && s.tasks[me].pc == InLock(m)
    requires LockGranted(s, me, m) <==> Owns(s, m, me)
    ensures MutexInv(FinishLock(s, me, m))
  {
    hide LockQ, Minus;
    var s' := FinishLock(s, me, m);
    forall n, u ensures MutexAgrees(s', n, u) {
      assert MutexAgrees(s, n, u);
    }
  }

  lemma ResumeStep(s: Vp, me: Tid)
    requires Resumed(s, me) && s.tasks[me].pc != User
    ensures Inv(DoResume(s, me))
  {
    match s.tasks[me].pc
    case InSleep => ResumeSleep(s, me);
    case InPoll => ResumePoll(s, me);
    case InCond(c) => ResumeCond(s, DoResume(s, me), me, c);
    case InJoin(_) => ResumeJoin(s, me);
    case InLock(m) => ResumeLock(s, me, m);
    case InExit => LeaveForGood(s, me);
  }

  // ----- Runs -----

  lemma IdleStep(s: Vp, a: Step)
    requires Inv(s) && Enabled(s, a) && s.current.Idle?
    ensures Inv(Next(s, a))
  {
    match a
    case IdleYield => IdleYieldStep(s, Next(s, a));
    case Dispatch(fired) =>
      forall t | t in fired ensures s.tasks[t].state == IoWait {
        PollersWait(s, t);
      }
      hide Inv;
      IdlePhaseStep(s, s.(current := Idle(Checking)));
      FireStep(s.(current := Idle(Checking)), fired);
    case CheckClock(now, expired) =>
      hide Inv;
      IdlePhaseStep(s, s.(current := Idle(Yielding), clock := now));
      ExpireStep(s.(current := Idle(Yielding), clock := now), expired);
  }

  /** Every step of every thread, and of the idle loop, keeps the invariant. */
  lemma StepKeepsInv(s: Vp, a: Step)
    requires Inv(s) && Enabled(s, a)
    ensures Inv(Next(s, a))
  {
    if s.current.Idle? {
      IdleStep(s, a);
    } else {
      hide Inv;
      match a
      case Schedule => ScheduleStep(s);
      case Resume => ResumeStep(s, s.current.tid);
      case Sleep(timeout) =>
        if s.tasks[s.current.tid].interrupt { ClearInterruptStep(s, s.current.tid); } else { SleepStep(s, s.current.tid, timeout); }
      case Wait(c, timeout) => WaitStep(s, s.current.tid, c, InCond(c), timeout);
      case SignalCond(c, broadcast) => SignalStep(s, CondQ(s, c), broadcast);
      case Lock(m) => LockStep(s, s.current.tid, m);
      case TryLock(m) => if m !in s.owner { AcquireStep(s, s.current.tid, m); }
      case Unlock(m) => UnlockStep(s, s.current.tid, m);
      case Poll(timeout) =>
        if s.tasks[s.current.tid].interrupt { ClearInterruptStep(s, s.current.tid); } else { PollStep(s, s.current.tid, timeout); }
      case Interrupt(target) => InterruptStep(s, target);
      case Create(child, joinable) => CreateStep(s, Next(s, a), child, joinable);
      case Join(target) => JoinStep(s, s.current.tid, target);
      case Exit => ExitStep(s, s.current.tid);
    }
  }

  ghost predicate Run(s: Vp, run: seq<Step>)
    decreases |run|
  {
    run == [] || (Enabled(s, run[0]) && Run(Next(s, run[0]), run[1..]))
  }

  ghost function After(s: Vp, run: seq<Step>): Vp
    requires Run(s, run)
    decreases |run|
  {
    if run == [] then s else After(Next(s, run[0]), run[1..])
  }

  /** The invariant holds throughout every run from the start. */
  lemma {:induction false} RunKeepsInv(s: Vp, run: seq<Step>)
    requires Inv(s) && Run(s, run)
    ensures Inv(After(s, run))
    decreases |run|
  {
    hide Inv, Enabled, Next;
    if run != [] {
      StepKeepsInv(s, run[0]);
      RunKeepsInv(Next(s, run[0]), run[1..]);
    }
  }
}
