/** What every step does: whom it wakes, what it leaves of the other threads, and what it does to the thread
    that takes it.  From this follow when sleepers wake and that no joiner is left behind. */
module SchedulerCalls {
  import opened Bytes
  import opened TimeoutHeap
  import opened Scheduler
  import opened SchedulerRuns

  // ----- Whom a step wakes -----

  function LockWaiters(s: Vp, q: seq<Tid>): seq<Tid> {
    if q == [] then []
    else if q[0] in s.tasks && s.tasks[q[0]].state == LockWait then [q[0]] + LockWaiters(s, q[1..])
    else LockWaiters(s, q[1..])
  }

  /** A join finds the thread ended. */
  predicate Collects(s: Vp, target: Tid) {
    target in s.tasks && s.tasks[target].state == Zombie
  }

  /** The threads a step makes runnable, in the order in which they are to run. */
  ghost function Woken(s: Vp, a: Step): seq<Tid>
    requires Enabled(s, a)
  {
    match a
    case SignalCond(c, broadcast) => FirstOrAll(CondWaiters(s, CondQ(s, c)), broadcast)
    case Unlock(m) =>
      if Owns(s, m, s.current.tid) then FirstOrAll(LockWaiters(s, LockQ(s, m)), false) else []
    case Interrupt(target) => if Waiting(s.tasks[target].state) then [target] else []
    case Create(child, _) => [child]
    case Join(target) =>
      if s.tasks[target].joinable && target != s.current.tid && CondQ(s, Term(target)) == [] && Collects(s, target)
      then [target] else []
    case Exit =>
      var me := s.current.tid;
      if s.tasks[me].joinable then FirstOrAll(CondWaiters(s, CondQ(s, Term(me))), false) else []
    case Resume =>
      var k := s.tasks[s.current.tid];
      if k.pc.InJoin? && !k.timedOut && !k.interrupt && Collects(s, k.pc.target) then [k.pc.target] else []
    case Dispatch(fired) => fired
    case CheckClock(_, expired) => expired
    case _ => []
  }

  /** A thread that was made runnable: by the clock, it timed out if it waited on a condition variable; by
      an interrupt, it is told so; by its descriptors, it is off the I/O queue. */
  function AsWoken(k: Task, a: Step): Task {
    k.(state := Runnable, onSleepQ := false,
       interrupt := k.interrupt || a.Interrupt?,
       timedOut := k.timedOut || (a.CheckClock? && k.state == CondWait),
       onIoq := k.onIoq && !a.Dispatch?)
  }

  /** Another thread after a step: woken, told of an interrupt that does not wake it, or as it was. */
  function AsLeft(k: Task, t: Tid, a: Step, woken: seq<Tid>): Task {
    if t in woken then AsWoken(k, a)
    else if a == Interrupt(t) && k.state != Zombie then k.(interrupt := true)
    else k
  }

  /** A step appends the threads it wakes to the run queue and changes no other thread but its own. */
  ghost predicate Wakes(s: Vp, a: Step, s': Vp, woken: seq<Tid>) {
    && s'.runQ == s.runQ + woken
    && forall t :: t in s.tasks && s.current != OnCpu(t) ==> t in s'.tasks && s'.tasks[t] == AsLeft(s.tasks[t], t, a, woken)
  }

  lemma {:induction false} FirstLockWaiter(s: Vp, q: seq<Tid>)
    ensures FirstWaiter(s, q) == if LockWaiters(s, q) == [] then None else Some(LockWaiters(s, q)[0])
    ensures LockWaiters(s, q) != [] ==> var t := LockWaiters(s, q)[0]; t in s.tasks && s.tasks[t].state == LockWait
  {
    if q != [] {
      FirstLockWaiter(s, q[1..]);
    }
  }

  /** The threads of `woken` were made runnable one after the other, and no other changed. */
  ghost predicate Queued(s: Vp, s': Vp, woken: seq<Tid>, a: Step) {
    && s'.runQ == s.runQ + woken && s'.tasks.Keys == s.tasks.Keys
    && forall t :: t in s.tasks ==> s'.tasks[t] == if t in woken then AsWoken(s.tasks[t], a) else s.tasks[t]
  }

  lemma QueuedMore(s: Vp, s1: Vp, s': Vp, t: Tid, woken: seq<Tid>, a: Step)
    requires t in s.tasks && t !in woken && s1.runQ == s.runQ + [t] && s1.tasks == s.tasks[t := AsWoken(s.tasks[t], a)]
    requires Queued(s1, s', woken, a)
    ensures Queued(s, s', [t] + woken, a)
  {
    hide AsWoken;
    assert s.runQ + ([t] + woken) == s.runQ + [t] + woken;
    assert forall u :: u in [t] + woken <==> u == t || u in woken;
  }

  lemma ReadyWakes(s: Vp, t: Tid, a: Step)
    requires t in s.tasks && a.Dispatch?
    ensures var s1 := Ready(s, t); s1.runQ == s.runQ + [t] && s1.tasks == s.tasks[t := AsWoken(s.tasks[t], a)]
  {
    hide Minus;
  }

  lemma TimeOutWakes(s: Vp, t: Tid, a: Step)
    requires t in s.tasks && a.CheckClock?
    ensures var s1 := TimeOut(s, t); s1.runQ == s.runQ + [t] && s1.tasks == s.tasks[t := AsWoken(s.tasks[t], a)]
  {}

  lemma {:induction false} FireAs(s: Vp, fired: seq<Tid>, a: Step)
    requires NoDup(fired) && a.Dispatch? && forall t :: t in fired ==> t in s.tasks
    ensures Queued(s, Fire(s, fired), fired, a)
    decreases |fired|
  {
    if fired != [] {
      var t, s1 := fired[0], Ready(s, fired[0]);
      assert fired == [t] + fired[1..] && t !in fired[1..];
      assert Fire(s, fired) == Fire(s1, fired[1..]);
      hide Ready, Fire, Queued, AsWoken;
      ReadyWakes(s, t, a);
      FireAs(s1, fired[1..], a);
      QueuedMore(s, s1, Fire(s1, fired[1..]), t, fired[1..], a);
    }
  }

  lemma {:induction false} ExpireAs(s: Vp, expired: seq<Tid>, a: Step)
    requires NoDup(expired) && a.CheckClock? && forall t :: t in expired ==> t in s.tasks
    ensures Queued(s, Expire(s, expired), expired, a)
    decreases |expired|
  {
    if expired != [] {
      var t, s1 := expired[0], TimeOut(s, expired[0]);
      assert expired == [t] + expired[1..] && t !in expired[1..];
      assert Expire(s, expired) == Expire(s1, expired[1..]);
      hide TimeOut, Expire, Queued, AsWoken;
      TimeOutWakes(s, t, a);
      ExpireAs(s1, expired[1..], a);
      QueuedMore(s, s1, Expire(s1, expired[1..]), t, expired[1..], a);
    }
  }

  /** Every step of every run wakes exactly those threads, in that order. */
  lemma WokenExactly(s: Vp, a: Step)
    requires Inv(s) && Enabled(s, a) && a != Schedule
    ensures Wakes(s, a, Next(s, a), Woken(s, a))
  {
    hide Inv, CondQ, LockQ, Signal, Fire, Expire, DoUnlock, DoWait, DoJoin, DoExit, DoInterrupt, DoResume, Wakes, CondWaiters, LockWaiters;
    match a
    case SignalCond(c, broadcast) => SignalWoken(s, c, broadcast);
    case Unlock(m) => UnlockWoken(s, m);
    case Interrupt(target) => InterruptWoken(s, target);
    case Join(target) => JoinWoken(s, target);
    case Exit => ExitWoken(s);
    case Resume => ResumeWoken(s);
    case Dispatch(fired) => DispatchWoken(s, fired);
    case CheckClock(now, expired) => ClockWoken(s, now, expired);
    case Create(child, joinable) => CreateWoken(s, child, joinable);
    case _ => NobodyWoken(s, a);
  }

  lemma SignalWoken(s: Vp, c: CondId, broadcast: bool)
    requires Inv(s) && Enabled(s, SignalCond(c, broadcast))
    ensures Wakes(s, SignalCond(c, broadcast), Next(s, SignalCond(c, broadcast)), Woken(s, SignalCond(c, broadcast)))
  {
    assert NoDup(CondQ(s, c));
    SignalIs(s, CondQ(s, c), broadcast);
    hide Inv, Signal, CondWaiters;
  }

  lemma UnlockWoken(s: Vp, m: MutexId)
    requires Inv(s) && Enabled(s, Unlock(m))
    ensures Wakes(s, Unlock(m), Next(s, Unlock(m)), Woken(s, Unlock(m)))
  {
    FirstLockWaiter(s, LockQ(s, m));
    hide Inv, FirstWaiter, LockWaiters;
  }

  lemma InterruptWoken(s: Vp, target: Tid)
    requires Inv(s) && Enabled(s, Interrupt(target))
    ensures Wakes(s, Interrupt(target), Next(s, Interrupt(target)), Woken(s, Interrupt(target)))
  {
    assert Agrees(s, target);
    hide Inv;
  }

  lemma JoinWoken(s: Vp, target: Tid)
    requires Inv(s) && Enabled(s, Join(target))
    ensures Wakes(s, Join(target), Next(s, Join(target)), Woken(s, Join(target)))
  {
    assert Agrees(s, target);
    hide Inv, Minus;
  }

  lemma ExitWoken(s: Vp)
    requires Inv(s) && Enabled(s, Exit)
    ensures Wakes(s, Exit, Next(s, Exit), Woken(s, Exit))
  {
    var me := s.current.tid;
    if s.tasks[me].joinable {
      var q := CondQ(s, Term(me));
      var s1 := s.(tasks := s.tasks[me := s.tasks[me].(state := Zombie, pc := InExit)], zombieQ := s.zombieQ + [me],
                   current := Switching);
      assert NoDup(q);
      SignalIs(s1, q, false);
      assert CondAgrees(s, Term(me), me);
      hide Inv, Signal;
      WaitersApart(s, s1, q, me);
    }
  }

  lemma ResumeWoken(s: Vp)
    requires Inv(s) && Enabled(s, Resume)
    ensures Wakes(s, Resume, Next(s, Resume), Woken(s, Resume))
  {
    var me := s.current.tid;
    var k := s.tasks[me];
    if k.pc.InJoin? {
      RunsNow(s, k.pc.target);
      RunsNow(s, me);
      hide Inv, FinishJoin;
      FinishJoinWakes(s, me, k.pc.target);
    } else {
      hide Inv, DoResume;
      ResumeWakesNobody(s, me);
    }
  }

  /** Facts of the invariant about one thread. */
  lemma RunsNow(s: Vp, t: Tid)
    requires Inv(s)
    ensures t in s.tasks ==>
              && (s.current == OnCpu(t) <==> s.tasks[t].state == Running)
              && (s.tasks[t].state == Zombie <==> t in s.zombieQ)
              && (t in s.sleepQ <==> s.tasks[t].onSleepQ)
              && (s.tasks[t].state == Running || s.tasks[t].state == Zombie ==> !s.tasks[t].onSleepQ)
              && (s.tasks[t].state == Zombie ==> !s.tasks[t].onIoq)
  {
    assert Agrees(s, t);
  }

  lemma ResumeWakesNobody(s: Vp, me: Tid)
    requires me in s.tasks && s.tasks[me].pc != User && !s.tasks[me].pc.InJoin?
    ensures var s' := DoResume(s, me);
            s'.runQ == s.runQ && forall t :: t in s.tasks && t != me ==> t in s'.tasks && s'.tasks[t] == s.tasks[t]
  {
    hide Minus;
  }

  lemma FinishJoinWakes(s: Vp, me: Tid, target: Tid)
    requires me in s.tasks && s.tasks[me].state == Running
    requires target in s.tasks && s.tasks[target].state == Zombie ==> !s.tasks[target].onSleepQ
    ensures var s', k := FinishJoin(s, me, target), s.tasks[me];
            var woken := if !k.timedOut && !k.interrupt && Collects(s, target) then [target] else [];
            && s'.runQ == s.runQ + woken
            && forall t :: t in s.tasks && t != me ==>
                 t in s'.tasks && s'.tasks[t] == if t in woken then s.tasks[t].(state := Runnable, onSleepQ := false) else s.tasks[t]
  {
    hide Minus;
  }

  lemma DispatchWoken(s: Vp, fired: seq<Tid>)
    requires Inv(s) && Enabled(s, Dispatch(fired))
    ensures Wakes(s, Dispatch(fired), Next(s, Dispatch(fired)), Woken(s, Dispatch(fired)))
  {
    hide Inv, Fire, AsWoken;
    var a := Dispatch(fired);
    FireAs(s.(current := Idle(Checking)), fired, a);
  }

  lemma ClockWoken(s: Vp, now: int, expired: seq<Tid>)
    requires Inv(s) && Enabled(s, CheckClock(now, expired))
    ensures Wakes(s, CheckClock(now, expired), Next(s, CheckClock(now, expired)), Woken(s, CheckClock(now, expired)))
  {
    hide Inv, Expire, AsWoken;
    var a := CheckClock(now, expired);
    ExpireAs(s.(clock := now, current := Idle(Yielding)), expired, a);
  }

  lemma CreateWoken(s: Vp, child: Tid, joinable: bool)
    requires Inv(s) && Enabled(s, Create(child, joinable))
    ensures Wakes(s, Create(child, joinable), Next(s, Create(child, joinable)), Woken(s, Create(child, joinable)))
  {
    hide Inv;
  }

  lemma NobodyWoken(s: Vp, a: Step)
    requires Inv(s) && Enabled(s, a)
    requires a.Sleep? || a.Wait? || a.Lock? || a.TryLock? || a.Poll? || a.IdleYield?
    ensures Wakes(s, a, Next(s, a), [])
  {
    hide Inv, Block, DoWait, DoLock;
    match a
    case Sleep(timeout) =>
      BlockWakesNobody(s, s.current.tid, if timeout.Some? then Sleeping else Suspended, InSleep, timeout);
    case Wait(c, timeout) => WaitWakesNobody(s, s.current.tid, c, InCond(c), timeout);
    case Lock(m) => LockWakesNobody(s, s.current.tid, m);
    case Poll(timeout) =>
      var me := s.current.tid;
      var s1 := s.(ioQ := s.ioQ + [me], tasks := s.tasks[me := s.tasks[me].(onIoq := true)]);
      BlockWakesNobody(s1, me, IoWait, InPoll, timeout);
    case _ =>
  }

  lemma BlockWakesNobody(s: Vp, me: Tid, state: State, pc: Pc, timeout: Option<int>)
    requires me in s.tasks
    ensures var s' := Block(s, me, state, pc, timeout);
            && s'.runQ == s.runQ && me in s'.tasks && forall t :: t in s.tasks && t != me ==> t in s'.tasks && s'.tasks[t] == s.tasks[t]
  {}

  lemma WaitWakesNobody(s: Vp, me: Tid, c: CondId, pc: Pc, timeout: Option<int>)
    requires me in s.tasks
    ensures var s' := DoWait(s, me, c, pc, timeout);
            && s'.runQ == s.runQ && me in s'.tasks && forall t :: t in s.tasks && t != me ==> t in s'.tasks && s'.tasks[t] == s.tasks[t]
  {}

  lemma LockWakesNobody(s: Vp, me: Tid, m: MutexId)
    requires me in s.tasks
    ensures var s' := DoLock(s, me, m);
            && s'.runQ == s.runQ && me in s'.tasks && forall t :: t in s.tasks && t != me ==> t in s'.tasks && s'.tasks[t] == s.tasks[t]
  {}

  // ----- What a step does to the thread that takes it -----

  /** The call gave up the processor; with a time-out, the thread is due that much after now. */
  ghost predicate Waits(s: Vp, s': Vp, me: Tid, state: State, pc: Pc, timeout: Option<int>) {
    && s'.current == Switching && me in s'.tasks && s'.tasks[me].state == state && s'.tasks[me].pc == pc
    && (me in s'.sleepQ <==> timeout.Some?) && (timeout.Some? ==> s'.tasks[me].due == s.clock + timeout.value)
  }

  /** The call returned at once, because of an interrupt, which it used up. */
  ghost predicate Refused(s: Vp, s': Vp, me: Tid) {
    me in s.tasks && s'.current == s.current && s'.tasks == s.tasks[me := s.tasks[me].(interrupt := false)]
    && s'.ioQ == s.ioQ && s'.sleepQ == s.sleepQ && s'.condQ == s.condQ && s'.lockQ == s.lockQ && s'.owner == s.owner
  }

  /** The mutex is the caller's, who goes on running. */
  ghost predicate Gets(s: Vp, s': Vp, me: Tid, m: MutexId) {
    s'.current == s.current && s'.tasks == s.tasks && Owns(s', m, me) && me in Held(s', m) && s'.lockQ == s.lockQ
  }

  ghost predicate Blocked(s: Vp, a: Step, s': Vp)
    requires Enabled(s, a) && (a.Sleep? || a.Wait? || a.Poll? || a.Lock?)
  {
    var me := s.current.tid;
    if s.tasks[me].interrupt then Refused(s, s', me)
    else match a
      case Sleep(timeout) => Waits(s, s', me, if timeout.Some? then Sleeping else Suspended, InSleep, timeout)
      case Wait(c, timeout) => Waits(s, s', me, CondWait, InCond(c), timeout) && CondQ(s', c) == CondQ(s, c) + [me]
      case Poll(timeout) => Waits(s, s', me, IoWait, InPoll, timeout) && s'.ioQ == s.ioQ + [me]
      case Lock(m) =>
        if m !in s.owner then Gets(s, s', me, m)
        else if s.owner[m] == me then s' == s
        else Waits(s, s', me, LockWait, InLock(m), None) && LockQ(s', m) == LockQ(s, m) + [me] && s'.owner == s.owner
  }

  /** Calls that may wait: an interrupt that came before refuses them; otherwise they wait, last in their
      queue, until the time-out if there is one. A lock call waits only for a mutex somebody else has. */
  lemma CallsWait(s: Vp, a: Step)
    requires Inv(s) && Enabled(s, a) && (a.Sleep? || a.Wait? || a.Poll? || a.Lock?)
    ensures Blocked(s, a, Next(s, a))
  {
    hide Block, Waits, DoLock, DoWait;
    var me := s.current.tid;
    RunsNow(s, me);
    hide Inv;
    match a
    case Sleep(timeout) =>
      BlockWaits(s, s, me, if timeout.Some? then Sleeping else Suspended, InSleep, timeout);
    case Wait(c, timeout) => CondWaits(s, me, c, InCond(c), timeout);
    case Poll(timeout) =>
      var s1 := s.(ioQ := s.ioQ + [me], tasks := s.tasks[me := s.tasks[me].(onIoq := true)]);
      BlockWaits(s, s1, me, IoWait, InPoll, timeout);
    case Lock(m) => LockBlocks(s, m);
  }

  lemma BlockWaits(s0: Vp, s: Vp, me: Tid, state: State, pc: Pc, timeout: Option<int>)
    requires me in s.tasks && me !in s.sleepQ && s.clock == s0.clock
    ensures var s' := Block(s, me, state, pc, timeout);
            && Waits(s0, s', me, state, pc, timeout) && s'.ioQ == s.ioQ && s'.condQ == s.condQ && s'.lockQ == s.lockQ
            && s'.owner == s.owner
  {}

  lemma CondWaits(s: Vp, me: Tid, c: CondId, pc: Pc, timeout: Option<int>)
    requires me in s.tasks && me !in s.sleepQ
    ensures var s' := DoWait(s, me, c, pc, timeout);
            if s.tasks[me].interrupt then Refused(s, s', me)
            else Waits(s, s', me, CondWait, pc, timeout) && CondQ(s', c) == CondQ(s, c) + [me]
  {
    hide Block, Waits;
    BlockWaits(s, s.(condQ := s.condQ[c := CondQ(s, c) + [me]]), me, CondWait, pc, timeout);
  }

  lemma LockBlocks(s: Vp, m: MutexId)
    requires Enabled(s, Lock(m)) && s.current.tid !in s.sleepQ
    ensures Blocked(s, Lock(m), DoLock(s, s.current.tid, m))
  {
    hide Block, Waits;
    var me := s.current.tid;
    BlockWaits(s, s.(lockQ := s.lockQ[m := LockQ(s, m) + [me]]), me, LockWait, InLock(m), None);
  }

  /** Joining: refused for a thread that cannot be joined, that is the caller, or that another joins; done
      at once if the thread has ended; otherwise the caller waits for its end. */
  lemma JoinWaits(s: Vp, t: Tid)
    requires Inv(s) && Enabled(s, Join(t))
    ensures var me, s' := s.current.tid, Next(s, Join(t));
            if !s.tasks[t].joinable || t == me || CondQ(s, Term(t)) != [] then s' == s
            else if Collects(s, t) then
              s'.current == s.current && s'.tasks[me] == s.tasks[me] && t !in s'.zombieQ && t in s'.runQ
            else if s.tasks[me].interrupt then Refused(s, s', me)
            else Waits(s, s', me, CondWait, InJoin(t), None) && CondQ(s', Term(t)) == [me]
  {
    var me := s.current.tid;
    RunsNow(s, me);
    RunsNow(s, t);
    if Collects(s, t) {
      ZombiesDistinct(s);
      MinusMembers(s.zombieQ, t);
    }
    hide Inv, Minus, DoWait, Waits;
    CondWaits(s, me, Term(t), InJoin(t), None);
  }

  lemma ZombiesDistinct(s: Vp)
    requires Inv(s)
    ensures NoDup(s.zombieQ)
  {}

  /** Ending: a joinable thread waits for its joiner among the zombies, any other is gone at once. */
  lemma ExitEnds(s: Vp)
    requires Inv(s) && Enabled(s, Exit)
    ensures var me, s' := s.current.tid, Next(s, Exit);
            && s'.current == Switching
            && if s.tasks[me].joinable then me in s'.tasks && s'.tasks[me].state == Zombie && s'.zombieQ == s.zombieQ + [me]
               else me !in s'.tasks
  {
    var me := s.current.tid;
    var q := CondQ(s, Term(me));
    var s1 := s.(tasks := s.tasks[me := s.tasks[me].(state := Zombie, pc := InExit)], zombieQ := s.zombieQ + [me],
                 current := Switching);
    hide Inv, Signal;
    SignalKeeps(s1, q, me);
  }

  lemma {:induction false} SignalKeeps(s: Vp, q: seq<Tid>, t: Tid)
    requires t in s.tasks && s.tasks[t].state == Zombie
    ensures var s' := Signal(s, q, false);
            s'.current == s.current && s'.zombieQ == s.zombieQ && t in s'.tasks && s'.tasks[t] == s.tasks[t]
    decreases |q|
  {
    if q != [] {
      SignalKeeps(s, q[1..], t);
    }
  }

  /** Mutexes: taken if free, given back to nobody or to the first who waits, and to nobody else. */
  lemma MutexCalls(s: Vp, m: MutexId)
    requires Inv(s) && InUserCode(s)
    ensures var me, s' := s.current.tid, Next(s, TryLock(m));
            if m in s.owner then s' == s else Gets(s, s', me, m)
    ensures var me, s', w := s.current.tid, Next(s, Unlock(m)), LockWaiters(s, LockQ(s, m));
            if !Owns(s, m, me) then s' == s
            else me !in Held(s', m) && s'.current == s.current && if w == [] then m !in s'.owner else Owns(s', m, w[0])
  {
    FirstLockWaiter(s, LockQ(s, m));
    hide Inv, FirstWaiter, LockWaiters;
  }

  /** A new thread begins in user code, with nothing pending, and can be joined if it was so created. */
  lemma Creates(s: Vp, child: Tid, joinable: bool)
    requires Inv(s) && Enabled(s, Create(child, joinable))
    ensures var s' := Next(s, Create(child, joinable));
            && child in s'.tasks && s'.current == s.current && s'.tasks[child].pc == User && s'.tasks[child].joinable == joinable
            && !s'.tasks[child].interrupt && !s'.tasks[child].timedOut && child !in s'.sleepQ && child !in s'.ioQ
  {
    assert Agrees(s, child);
    hide Inv;
  }

  /** A call that waited ends when its thread is switched back in: the thread is in user code, off every wait
      queue, with interrupt and time-out used up, except that a joiner who finds the thread still running
      waits again, that a thread that was collected is gone, and that a lock got in spite of an interrupt
      leaves the interrupt for the next call. */
  lemma CallsReturn(s: Vp)
    requires Inv(s) && Enabled(s, Resume)
    ensures var me, s' := s.current.tid, Next(s, Resume);
            var k := s.tasks[me];
            if k.pc == InExit then me !in s'.tasks && s'.current == Switching
            else if k.pc.InJoin? && !k.timedOut && !k.interrupt && k.pc.target in s.tasks && !Collects(s, k.pc.target) then
              Waits(s, s', me, CondWait, k.pc, None) && me in CondQ(s', Term(k.pc.target))
            else
              && s'.current == s.current && me in s'.tasks && s'.tasks[me].pc == User && !s'.tasks[me].timedOut
              && (s'.tasks[me].interrupt ==> k.pc.InLock? && k.interrupt && Owns(s, k.pc.mutex, me))
              && me !in s'.ioQ && (forall c :: me !in CondQ(s', c)) && (forall m :: me !in LockQ(s', m))
  {
    var me, s' := s.current.tid, Next(s, Resume);
    RunsNow(s, me);
    ResumedState(s, me);
    StepKeepsInv(s, Resume);
    InUserCodeNotQueued(s', me);
    hide Inv, DoResume, Waits;
    ResumeOwn(s, me);
  }

  lemma ResumedState(s: Vp, me: Tid)
    requires Inv(s) && s.current == OnCpu(me)
    ensures me in s.tasks && me !in s.sleepQ && (s.tasks[me].timedOut ==> s.tasks[me].pc.InCond? || s.tasks[me].pc.InJoin?)
  {
    assert Agrees(s, me);
  }

  lemma InUserCodeNotQueued(s: Vp, me: Tid)
    requires Inv(s)
    ensures me in s.tasks && s.tasks[me].pc == User ==>
              me !in s.ioQ && (forall c :: me !in CondQ(s, c)) && forall m :: me !in LockQ(s, m)
  {
    assert Agrees(s, me);
    forall c ensures me in s.tasks && s.tasks[me].pc == User ==> me !in CondQ(s, c) {
      assert CondAgrees(s, c, me);
    }
    forall m ensures me in s.tasks && s.tasks[me].pc == User ==> me !in LockQ(s, m) {
      assert LockAgrees(s, m, me);
    }
  }

  lemma ResumeOwn(s: Vp, me: Tid)
    requires me in s.tasks && s.tasks[me].pc != User && s.tasks[me].state == Running && me !in s.sleepQ
    requires s.tasks[me].timedOut ==> s.tasks[me].pc.InCond? || s.tasks[me].pc.InJoin?
    ensures var k, s' := s.tasks[me], DoResume(s, me);
            if k.pc == InExit then me !in s'.tasks && s'.current == Switching
            else if k.pc.InJoin? && !k.timedOut && !k.interrupt && k.pc.target in s.tasks && !Collects(s, k.pc.target) then
              Waits(s, s', me, CondWait, k.pc, None) && me in CondQ(s', Term(k.pc.target))
            else
              && s'.current == s.current && me in s'.tasks && s'.tasks[me].pc == User && !s'.tasks[me].timedOut
              && (s'.tasks[me].interrupt ==> k.pc.InLock? && k.interrupt && Owns(s, k.pc.mutex, me))
  {
    var k := s.tasks[me];
    if k.pc.InJoin? {
      hide Minus, DoWait, Waits;
      var t := k.pc.target;
      var s1 := s.(condQ := s.condQ[Term(t) := Minus(CondQ(s, Term(t)), me)],
                   tasks := s.tasks[me := k.(pc := User, timedOut := false, interrupt := false)]);
      CondWaits(s1, me, Term(t), InJoin(t), None);
      WaitsFrom(s, s1, DoWait(s1, me, Term(t), InJoin(t), None), me, CondWait, k.pc, None);
    } else {
      hide Minus;
    }
  }

  lemma WaitsFrom(s: Vp, s1: Vp, s': Vp, me: Tid, state: State, pc: Pc, timeout: Option<int>)
    requires s1.clock == s.clock
    ensures Waits(s1, s', me, state, pc, timeout) == Waits(s, s', me, state, pc, timeout)
  {}

  /** The processor goes to the first thread of the run queue, or else to the idle loop, which dispatches
      events, checks the clock and yields, in turn. */
  lemma IdleTurns(s: Vp, a: Step)
    requires Inv(s) && Enabled(s, a) && (a.Schedule? || a.Dispatch? || a.CheckClock? || a.IdleYield?)
    ensures var s' := Next(s, a);
            match a
            case Schedule => s'.current == if s.runQ == [] then Idle(Dispatching) else OnCpu(s.runQ[0])
            case Dispatch(fired) => s'.current == Idle(Checking) && forall t :: t in s'.ioQ <==> t in s.ioQ && t !in fired
            case CheckClock(now, _) => s'.current == Idle(Yielding) && s'.clock == now
            case _ => s'.current == Switching
  {
    match a
    case Schedule => ScheduleTakesFirst(s);
    case Dispatch(fired) =>
      hide Inv;
      FireLeaves(s.(current := Idle(Checking)), fired);
    case CheckClock(now, expired) =>
      hide Inv;
      ExpireLeaves(s.(clock := now, current := Idle(Yielding)), expired);
    case _ =>
  }

  lemma {:induction false} FireLeaves(s: Vp, fired: seq<Tid>)
    requires NoDup(s.ioQ) && forall t :: t in fired ==> t in s.tasks
    ensures var s' := Fire(s, fired);
            && s'.current == s.current && s'.condQ == s.condQ && s'.zombieQ == s.zombieQ
            && forall t :: t in s'.ioQ <==> t in s.ioQ && t !in fired
    decreases |fired|
  {
    if fired != [] {
      MinusMembers(s.ioQ, fired[0]);
      FireLeaves(Ready(s, fired[0]), fired[1..]);
      hide Fire, Minus;
      assert fired == [fired[0]] + fired[1..];
    }
  }

  lemma {:induction false} ExpireLeaves(s: Vp, expired: seq<Tid>)
    requires forall t :: t in expired ==> t in s.tasks
    ensures var s' := Expire(s, expired);
            s'.current == s.current && s'.clock == s.clock && s'.condQ == s.condQ && s'.zombieQ == s.zombieQ
    decreases |expired|
  {
    if expired != [] {
      ExpireLeaves(TimeOut(s, expired[0]), expired[1..]);
    }
  }

  // ----- Sleepers -----

  /** A thread with a time-out stays as it is, due when it was due, until some step wakes it; and a clock
      check wakes it exactly if it is due. */
  lemma SleeperStep(s: Vp, a: Step, t: Tid)
    requires Inv(s) && Enabled(s, a) && t in s.sleepQ
    ensures var s' := Next(s, a);
            && t in s.tasks && t in s'.tasks
            && (if t in Woken(s, a) then t in s'.runQ && t !in s'.sleepQ
                else t in s'.sleepQ && s'.tasks[t].due == s.tasks[t].due && s'.tasks[t].state == s.tasks[t].state)
            && (a.CheckClock? ==> (t in Woken(s, a) <==> s.tasks[t].due <= a.now))
  {
    var s' := Next(s, a);
    SleepsAs(s, t);
    StepKeepsInv(s, a);
    RunsNow(s', t);
    if a == Schedule {
      hide Inv;
      ScheduleLeaves(s, t);
    } else {
      QueuedIfRunnable(s', t);
      WokenExactly(s, a);
      hide Inv, Next, Woken;
      assert s'.tasks[t] == AsLeft(s.tasks[t], t, a, Woken(s, a));
      ClockFinds(s, a, t);
    }
  }

  lemma SleepsAs(s: Vp, t: Tid)
    requires Inv(s) && t in s.sleepQ
    ensures t in s.tasks && s.tasks[t].onSleepQ && Waiting(s.tasks[t].state) && s.current != OnCpu(t) && t !in s.runQ
  {
    assert Agrees(s, t);
  }

  lemma QueuedIfRunnable(s: Vp, t: Tid)
    requires Inv(s)
    ensures t in s.runQ <==> t in s.tasks && s.tasks[t].state == Runnable
  {
    assert Agrees(s, t);
  }

  lemma ScheduleLeaves(s: Vp, t: Tid)
    requires s.current == Switching && t in s.tasks && t !in s.runQ
    ensures var s' := Next(s, Schedule);
            t in s'.tasks && s'.tasks[t] == s.tasks[t] && (t in s'.sleepQ <==> t in s.sleepQ)
  {}

  lemma ClockFinds(s: Vp, a: Step, t: Tid)
    requires Enabled(s, a) && t in s.sleepQ && t in s.tasks
    ensures a.CheckClock? ==> (t in Woken(s, a) <==> s.tasks[t].due <= a.now)
  {}

  /** Nothing but the clock wakes the thread along the run, and the clock is not there yet. */
  ghost predicate LeftAsleep(s: Vp, run: seq<Step>, t: Tid, due: int)
    requires Run(s, run)
    decreases |run|
  {
    run == [] ||
    ((if run[0].CheckClock? then run[0].now < due else t !in Woken(s, run[0]))
     && LeftAsleep(Next(s, run[0]), run[1..], t, due))
  }

  /** Nobody with a time-out wakes early: before it is due, only a signal, an interrupt or its descriptors
      end a wait, whatever else happens. Once it is due, the next clock check ends it. */
  lemma {:induction false} NeverEarly(s: Vp, run: seq<Step>, t: Tid)
    requires Inv(s) && Run(s, run) && t in s.sleepQ && t in s.tasks && LeftAsleep(s, run, t, s.tasks[t].due)
    ensures var s' := After(s, run);
            && Inv(s') && t in s'.sleepQ && t in s'.tasks
            && s'.tasks[t].due == s.tasks[t].due && s'.tasks[t].state == s.tasks[t].state
            && forall now, expired :: Enabled(s', CheckClock(now, expired)) ==> (t in expired <==> s.tasks[t].due <= now)
    decreases |run|
  {
    hide Woken, Next;
    if run == [] {
      hide Inv;
    } else {
      SleeperStep(s, run[0], t);
      StepKeepsInv(s, run[0]);
      hide Inv, Enabled;
      NeverEarly(Next(s, run[0]), run[1..], t);
    }
  }

  // ----- Joiners -----

  /** At most one thread joins another, and nobody waits to join one that has ended. */
  ghost predicate JoinInv(s: Vp) {
    && (forall t :: |CondQ(s, Term(t))| <= 1)
    && (forall j, t :: j in s.tasks && s.tasks[j].pc == InJoin(t) && s.tasks[j].state == CondWait ==> !Collects(s, t))
  }

  lemma OneJoiner(s: Vp, a: Step, t: Tid)
    requires Inv(s) && Enabled(s, a) && |CondQ(s, Term(t))| <= 1
    ensures |CondQ(Next(s, a), Term(t))| <= 1
  {
    hide Inv, Signal, Fire, Expire, DoExit, DoResume, DoJoin, DoWait, DoLock, DoUnlock, DoInterrupt, Block;
    match a
    case SignalCond(c, broadcast) =>
      QueueDistinct(s, c);
      SignalIs(s, CondQ(s, c), broadcast);
    case Exit => ExitKeepsQueues(s);
    case Dispatch(fired) =>
      IoDistinct(s);
      FireLeaves(s.(current := Idle(Checking)), fired);
    case CheckClock(now, expired) => ExpireLeaves(s.(clock := now, current := Idle(Yielding)), expired);
    case Resume => ResumeKeepsOne(s, t);
    case Join(target) => JoinKeepsOne(s, target, t);
    case Wait(c, timeout) => KeepsTermQueue(s, s.current.tid, c, timeout, t);
    case _ => KeepsQueues(s, a);
  }

  lemma KeepsTermQueue(s: Vp, me: Tid, c: CondId, timeout: Option<int>, t: Tid)
    requires me in s.tasks && c.UserCond?
    ensures var s' := DoWait(s, me, c, InCond(c), timeout); CondQ(s', Term(t)) == CondQ(s, Term(t))
  {}

  /** These steps concern neither the joiners nor the threads that have ended. */
  lemma KeepsQueues(s: Vp, a: Step)
    requires Enabled(s, a)
    requires a.Sleep? || a.Lock? || a.TryLock? || a.Unlock? || a.Poll? || a.Interrupt? || a.Create? || a.Schedule? || a.IdleYield?
    ensures Next(s, a).condQ == s.condQ && Next(s, a).zombieQ == s.zombieQ
  {
    hide DoLock, DoUnlock, Block, DoInterrupt;
    match a
    case Lock(m) => MutexKeepsQueues(s, s.current.tid, m);
    case Unlock(m) => MutexKeepsQueues(s, s.current.tid, m);
    case Interrupt(target) => InterruptKeepsQueues(s, target);
    case Sleep(timeout) => BlockKeepsQueues(s, s.current.tid, if timeout.Some? then Sleeping else Suspended, InSleep, timeout);
    case Poll(timeout) =>
      var me := s.current.tid;
      BlockKeepsQueues(s.(ioQ := s.ioQ + [me], tasks := s.tasks[me := s.tasks[me].(onIoq := true)]), me, IoWait, InPoll, timeout);
    case _ =>
  }

  lemma BlockKeepsQueues(s: Vp, me: Tid, state: State, pc: Pc, timeout: Option<int>)
    requires me in s.tasks
    ensures var s' := Block(s, me, state, pc, timeout); s'.condQ == s.condQ && s'.zombieQ == s.zombieQ
  {}

  lemma InterruptKeepsQueues(s: Vp, target: Tid)
    requires target in s.tasks
    ensures var s' := DoInterrupt(s, target); s'.condQ == s.condQ && s'.zombieQ == s.zombieQ
  {}

  lemma MutexKeepsQueues(s: Vp, me: Tid, m: MutexId)
    requires me in s.tasks
    ensures DoLock(s, me, m).condQ == s.condQ && DoLock(s, me, m).zombieQ == s.zombieQ
    ensures DoUnlock(s, me, m).condQ == s.condQ && DoUnlock(s, me, m).zombieQ == s.zombieQ
  {
    hide FirstWaiter;
  }

  lemma QueueDistinct(s: Vp, c: CondId)
    requires Inv(s)
    ensures NoDup(CondQ(s, c))
  {}

  lemma IoDistinct(s: Vp)
    requires Inv(s)
    ensures NoDup(s.ioQ)
  {}

  lemma ExitKeepsQueues(s: Vp)
    requires Inv(s) && Enabled(s, Exit)
    ensures Next(s, Exit).condQ == s.condQ
  {
    var me := s.current.tid;
    var s1 := s.(tasks := s.tasks[me := s.tasks[me].(state := Zombie, pc := InExit)], zombieQ := s.zombieQ + [me],
                 current := Switching);
    QueueDistinct(s, Term(me));
    hide Inv, Signal;
    SignalIs(s1, CondQ(s1, Term(me)), false);
  }

  lemma JoinKeepsOne(s: Vp, target: Tid, t: Tid)
    requires Enabled(s, Join(target)) && |CondQ(s, Term(t))| <= 1
    ensures |CondQ(Next(s, Join(target)), Term(t))| <= 1
  {}

  lemma ResumeKeepsOne(s: Vp, t: Tid)
    requires Inv(s) && Enabled(s, Resume) && |CondQ(s, Term(t))| <= 1
    ensures |CondQ(Next(s, Resume), Term(t))| <= 1
  {
    var me := s.current.tid;
    assert CondAgrees(s, Term(t), me);
    hide Inv;
    ResumeQueue(s, me, t);
  }

  lemma ResumeQueue(s: Vp, me: Tid, t: Tid)
    requires me in s.tasks && s.tasks[me].pc != User && |CondQ(s, Term(t))| <= 1
    requires me in CondQ(s, Term(t)) <==> WaitsFor(s.tasks[me].pc, Term(t))
    ensures |CondQ(DoResume(s, me), Term(t))| <= 1
  {
    var q := CondQ(s, Term(t));
    if s.tasks[me].pc == InJoin(t) {
      assert q == [me] && Minus(q, me) == [];
    } else {
      assert |Minus(q, me)| <= 1;
    }
    hide Minus;
  }

  lemma {:induction false} SignalZombies(s: Vp, q: seq<Tid>, broadcast: bool)
    ensures Signal(s, q, broadcast).zombieQ == s.zombieQ
    decreases |q|
  {
    if q != [] {
      if q[0] in s.tasks && s.tasks[q[0]].state == CondWait {
        SignalZombies(MakeRunnable(s, q[0]), q[1..], true);
      } else {
        SignalZombies(s, q[1..], broadcast);
      }
    }
  }

  /** Only by its own exit does a thread become a zombie. */
  lemma ZombiesBefore(s: Vp, a: Step, t: Tid)
    requires Inv(s) && Enabled(s, a) && Collects(Next(s, a), t) && !Collects(s, t)
    ensures a == Exit && t == s.current.tid && s.tasks[t].joinable
  {
    var s' := Next(s, a);
    StepKeepsInv(s, a);
    RunsNow(s', t);
    ZombieThreads(s, t);
    hide Inv, Signal, Fire, Expire, Minus, DoExit, DoResume, DoJoin, DoWait, DoLock, DoUnlock, DoInterrupt, Block;
    match a
    case SignalCond(c, broadcast) => SignalZombies(s, CondQ(s, c), broadcast);
    case Exit => ExitZombies(s, t);
    case Dispatch(fired) =>
      IoDistinct(s);
      FireLeaves(s.(current := Idle(Checking)), fired);
    case CheckClock(now, expired) => ExpireLeaves(s.(clock := now, current := Idle(Yielding)), expired);
    case Resume => ResumeZombies(s, t);
    case Join(target) => JoinZombies(s, target, t);
    case Wait(c, timeout) => WaitZombies(s, s.current.tid, c, InCond(c), timeout);
    case _ => KeepsQueues(s, a);
  }

  lemma ZombieThreads(s: Vp, t: Tid)
    requires Inv(s)
    ensures t in s.zombieQ <==> Collects(s, t)
  {
    assert Agrees(s, t);
  }

  lemma ExitZombies(s: Vp, t: Tid)
    requires Inv(s) && Enabled(s, Exit)
    ensures t in Next(s, Exit).zombieQ ==> t in s.zombieQ || (t == s.current.tid && s.tasks[t].joinable)
  {
    ExitEnds(s);
    hide Inv, Signal;
  }

  lemma WaitZombies(s: Vp, me: Tid, c: CondId, pc: Pc, timeout: Option<int>)
    requires me in s.tasks
    ensures DoWait(s, me, c, pc, timeout).zombieQ == s.zombieQ
  {}

  lemma JoinZombies(s: Vp, target: Tid, t: Tid)
    requires Inv(s) && Enabled(s, Join(target))
    ensures t in Next(s, Join(target)).zombieQ ==> t in s.zombieQ
  {
    ZombiesDistinct(s);
    MinusMembers(s.zombieQ, target);
    hide Inv, Minus, DoWait;
    WaitZombies(s, s.current.tid, Term(target), InJoin(target), None);
  }

  lemma ResumeZombies(s: Vp, t: Tid)
    requires Inv(s) && Enabled(s, Resume)
    ensures t in Next(s, Resume).zombieQ ==> t in s.zombieQ
  {
    var k := s.tasks[s.current.tid];
    if k.pc.InJoin? {
      MinusMembers(s.zombieQ, k.pc.target);
    }
    hide Inv, Minus;
  }

  /** A call that does not wait leaves its thread in user code. */
  lemma StaysInUserCode(s: Vp, a: Step)
    requires Inv(s) && Enabled(s, a) && (a.SignalCond? || a.TryLock? || a.Unlock? || a.Interrupt? || a.Create?)
    ensures var me := s.current.tid; me in Next(s, a).tasks && Next(s, a).tasks[me].pc == User
  {
    if a.SignalCond? {
      QueueDistinct(s, a.cond);
      hide Signal, Inv;
      SignalIs(s, CondQ(s, a.cond), a.broadcast);
    } else {
      hide Inv, FirstWaiter;
    }
  }

  /** A thread that waits to join after a step of its own just found the other still running. */
  lemma JoinsRunning(s: Vp, a: Step, t: Tid)
    requires Inv(s) && Enabled(s, a) && s.current.OnCpu?
    requires var s', me := Next(s, a), s.current.tid;
             me in s'.tasks && s'.tasks[me].pc == InJoin(t) && s'.tasks[me].state == CondWait
    ensures !Collects(s, t) && a != Exit
  {
    hide Inv, Next;
    match a
    case Exit => ExitEnds(s);
    case Join(target) => JoinWaits(s, target);
    case Resume =>
      CallsReturn(s);
      ThreadRemains(s, t);
    case Sleep(_) => CallsWait(s, a);
    case Wait(_, _) => CallsWait(s, a);
    case Poll(_) => CallsWait(s, a);
    case Lock(_) => CallsWait(s, a);
    case _ => StaysInUserCode(s, a);
  }

  lemma ThreadRemains(s: Vp, t: Tid)
    ensures t !in s.tasks ==> !Collects(s, t)
  {}

  lemma NoNewThreads(s: Vp, a: Step, j: Tid)
    requires Inv(s) && Enabled(s, a) && j in Next(s, a).tasks && j !in s.tasks
    ensures a.Create? && Next(s, a).tasks[j].pc == User
  {
    hide Inv, Signal, Fire, Expire, DoJoin, DoResume, DoUnlock, DoLock, DoWait, DoInterrupt, DoExit;
    match a
    case SignalCond(c, broadcast) =>
      QueueDistinct(s, c);
      SignalIs(s, CondQ(s, c), broadcast);
    case Exit => ExitKeepsThreads(s);
    case Dispatch(fired) => FireAs(s.(current := Idle(Checking)), fired, a);
    case CheckClock(now, expired) => ExpireAs(s.(clock := now, current := Idle(Yielding)), expired, a);
    case Create(_, _) =>
    case _ => KeepsThreads(s, a);
  }

  lemma KeepsThreads(s: Vp, a: Step)
    requires Enabled(s, a)
    requires !a.SignalCond? && !a.Exit? && !a.Dispatch? && !a.CheckClock? && !a.Create?
    ensures Next(s, a).tasks.Keys <= s.tasks.Keys
  {
    hide DoResume, DoUnlock, DoJoin;
    match a
    case Resume => ResumeKeepsThreads(s, s.current.tid);
    case Unlock(m) => UnlockKeepsThreads(s, s.current.tid, m);
    case Join(target) => JoinKeepsThreads(s, s.current.tid, target);
    case _ =>
  }

  lemma ResumeKeepsThreads(s: Vp, me: Tid)
    requires me in s.tasks && s.tasks[me].pc != User
    ensures DoResume(s, me).tasks.Keys <= s.tasks.Keys
  {
    hide Minus;
  }

  lemma UnlockKeepsThreads(s: Vp, me: Tid, m: MutexId)
    ensures DoUnlock(s, me, m).tasks.Keys <= s.tasks.Keys
  {
    hide FirstWaiter;
  }

  lemma JoinKeepsThreads(s: Vp, me: Tid, target: Tid)
    requires me in s.tasks && target in s.tasks
    ensures DoJoin(s, me, target).tasks.Keys <= s.tasks.Keys
  {
    hide Minus;
  }

  lemma ExitKeepsThreads(s: Vp)
    requires Inv(s) && Enabled(s, Exit)
    ensures Next(s, Exit).tasks.Keys <= s.tasks.Keys
  {
    var me := s.current.tid;
    var s1 := s.(tasks := s.tasks[me := s.tasks[me].(state := Zombie, pc := InExit)], zombieQ := s.zombieQ + [me],
                 current := Switching);
    QueueDistinct(s, Term(me));
    hide Inv, Signal;
    SignalIs(s1, CondQ(s1, Term(me)), false);
  }

  /** The exit of a thread wakes the one that waits to join it. */
  lemma ExitWakesJoiner(s: Vp, j: Tid)
    requires Inv(s) && JoinInv(s) && Enabled(s, Exit) && s.tasks[s.current.tid].joinable
    requires j in s.tasks && s.tasks[j].pc == InJoin(s.current.tid) && s.tasks[j].state == CondWait
    ensures Woken(s, Exit) == [j] && Next(s, Exit).runQ == s.runQ + [j]
  {
    var q := CondQ(s, Term(s.current.tid));
    assert CondAgrees(s, Term(s.current.tid), j);
    WokenExactly(s, Exit);
    hide Inv, DoExit;
    assert q == [j] && q[1..] == [];
  }

  lemma NoZombieJoined(s: Vp, a: Step, j: Tid, t: Tid)
    requires Inv(s) && Enabled(s, a) && JoinInv(s)
    requires var s' := Next(s, a); j in s'.tasks && s'.tasks[j].pc == InJoin(t) && s'.tasks[j].state == CondWait
    ensures !Collects(Next(s, a), t)
  {
    hide Inv, Woken;
    if Collects(Next(s, a), t) {
      if s.current == OnCpu(j) {
        JoinsRunning(s, a, t);
        ZombiesBefore(s, a, t);
      } else {
        StillJoining(s, a, j);
        ZombiesBefore(s, a, t);
        ExitWakesJoiner(s, j);
      }
    }
  }

  lemma StillJoining(s: Vp, a: Step, j: Tid)
    requires Inv(s) && Enabled(s, a) && s.current != OnCpu(j)
    requires var s' := Next(s, a); j in s'.tasks && s'.tasks[j].pc.InJoin? && s'.tasks[j].state == CondWait
    ensures j in s.tasks && s.tasks[j].pc == Next(s, a).tasks[j].pc && s.tasks[j].state == CondWait
    ensures a != Schedule ==> j !in Woken(s, a)
  {
    hide Inv, Woken, Next;
    if j !in s.tasks {
      NoNewThreads(s, a, j);
    }
    if a == Schedule {
      ScheduleRuns(s, j);
    } else {
      WokenExactly(s, a);
      assert Next(s, a).tasks[j] == AsLeft(s.tasks[j], j, a, Woken(s, a));
    }
  }

  lemma ScheduleRuns(s: Vp, t: Tid)
    requires s.current == Switching && t in s.tasks
    ensures var s' := Next(s, Schedule); t in s'.tasks && (s'.tasks[t] == s.tasks[t] || s'.tasks[t].state == Running)
  {}

  lemma StepKeepsJoinInv(s: Vp, a: Step)
    requires Inv(s) && JoinInv(s) && Enabled(s, a)
    ensures JoinInv(Next(s, a))
  {
    hide Inv, Next;
    var s' := Next(s, a);
    forall t ensures |CondQ(s', Term(t))| <= 1 {
      OneJoiner(s, a, t);
    }
    forall j, t | j in s'.tasks && s'.tasks[j].pc == InJoin(t) && s'.tasks[j].state == CondWait ensures !Collects(s', t) {
      NoZombieJoined(s, a, j, t);
    }
  }

  lemma {:induction false} RunKeepsJoinInv(s: Vp, run: seq<Step>)
    requires Inv(s) && JoinInv(s) && Run(s, run)
    ensures JoinInv(After(s, run))
    decreases |run|
  {
    hide Inv, JoinInv, Next, Enabled;
    if run != [] {
      StepKeepsInv(s, run[0]);
      StepKeepsJoinInv(s, run[0]);
      RunKeepsJoinInv(Next(s, run[0]), run[1..]);
    }
  }

  /** In every run, no joiner is left behind: nobody waits to join a thread that has ended, and when a thread
      ends, the one that waits for it is the next to be queued. */
  lemma JoinersWake(s: Vp)
    requires Reachable(s)
    ensures JoinInv(s)
    ensures forall j :: Enabled(s, Exit) && s.tasks[s.current.tid].joinable && j in s.tasks
              && s.tasks[j].pc == InJoin(s.current.tid) && s.tasks[j].state == CondWait
              ==> Next(s, Exit).runQ == s.runQ + [j]
  {
    hide Inv, JoinInv, Next, Run, After;
    ReachableInv(s);
    var t, run :| Run(Start(t), run) && After(Start(t), run) == s;
    StartInv(t);
    StartJoinInv(t);
    RunKeepsJoinInv(Start(t), run);
    forall j | Enabled(s, Exit) && s.tasks[s.current.tid].joinable && j in s.tasks
              && s.tasks[j].pc == InJoin(s.current.tid) && s.tasks[j].state == CondWait
      ensures Next(s, Exit).runQ == s.runQ + [j]
    {
      ExitWakesJoiner(s, j);
    }
  }

  lemma StartJoinInv(t: Tid)
    ensures JoinInv(Start(t))
  {}
}
