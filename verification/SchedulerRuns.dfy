/** What the scheduler's invariant means for every run from the start: who is queued where, who
    holds a mutex, to whom it is handed over, and that every runnable thread gets its turn. */
module SchedulerRuns {
  import opened Bytes
  import opened TimeoutHeap
  import opened Scheduler

  /** A state that some run from the start leads to. */
  ghost predicate Reachable(s: Vp) {
    exists t, run :: Run(Start(t), run) && After(Start(t), run) == s
  }

  lemma ReachableInv(s: Vp)
    requires Reachable(s)
    ensures Inv(s)
  {
    hide Inv;
    var t, run :| Run(Start(t), run) && After(Start(t), run) == s;
    StartInv(t);
    RunKeepsInv(Start(t), run);
  }

  lemma {:induction false} CountOnce(q: seq<Tid>, t: Tid)
    requires NoDup(q)
    ensures multiset(q)[t] == if t in q then 1 else 0
    decreases |q|
  {
    if q != [] {
      assert q == [q[0]] + q[1..];
      CountOnce(q[1..], t);
    }
  }

  /** Each thread is on the run queue exactly once if it is runnable and not at all otherwise, and
      in the time-out heap exactly if it is flagged, which never holds of a runnable or running thread. */
  lemma QueuedExactly(s: Vp, t: Tid)
    requires Reachable(s) && t in s.tasks
    ensures multiset(s.runQ)[t] == if s.tasks[t].state == Runnable then 1 else 0
    ensures t in s.sleepQ <==> s.tasks[t].onSleepQ
    ensures s.tasks[t].onSleepQ ==> s.tasks[t].state != Runnable && s.tasks[t].state != Running
    ensures s.tasks[t].state == Running <==> s.current == OnCpu(t)
  {
    ReachableInv(s);
    assert Agrees(s, t);
    CountOnce(s.runQ, t);
  }

  /** Dispatch, which queues threads without looking at their state, only ever finds waiting ones. */
  lemma DispatchFindsWaiters(s: Vp, t: Tid)
    requires Reachable(s) && s.current == Idle(Dispatching) && t in s.ioQ
    ensures t in s.tasks && s.tasks[t].state == IoWait && t !in s.runQ
  {
    ReachableInv(s);
    PollersWait(s, t);
    assert Agrees(s, t);
  }

  /** A runnable thread on the I/O queue, were dispatch to find it there, would be queued twice. */
  lemma EarlyDispatchQueuesTwice(s: Vp, t: Tid)
    requires Inv(s) && t in s.ioQ && t in s.tasks && s.tasks[t].state == Runnable
    ensures !NoDup(Ready(s, t).runQ)
  {
    assert Agrees(s, t);
    var q := Ready(s, t).runQ;
    var i :| 0 <= i < |s.runQ| && s.runQ[i] == t;
    assert q[i] == q[|q| - 1];
  }

  /** There are such states: a poller that was interrupted stays on the I/O queue until it runs. So the
      invariant rests on dispatch being entered only when nobody is left to run. */
  lemma EarlyDispatchPossible() returns (s: Vp, t: Tid)
    ensures Reachable(s) && t in s.ioQ && t in s.tasks && s.tasks[t].state == Runnable && !NoDup(Ready(s, t).runQ)
  {
    hide Inv, Reachable, Run, After;
    var s0 := OtherRunsAfterPoll();
    t := 0;
    s := Next(s0, Interrupt(t));
    OneStepFurther(s0, Interrupt(t));
    ReachableInv(s);
    EarlyDispatchQueuesTwice(s, t);
  }

  /** Thread 0 polls, and thread 1 runs. */
  lemma OtherRunsAfterPoll() returns (s: Vp)
    ensures Reachable(s) && InUserCode(s) && s.ioQ == [0] && 0 in s.tasks && s.tasks[0].state == IoWait
  {
    hide Inv, Reachable, Run, After;
    var s1 := TwoThreads();
    var s2 := Next(s1, Poll(None));
    OneStepFurther(s1, Poll(None));
    s := Next(s2, Schedule);
    OneStepFurther(s2, Schedule);
  }

  lemma TwoThreads() returns (s: Vp)
    ensures Reachable(s) && InUserCode(s) && s.current == OnCpu(0) && !s.tasks[0].interrupt && s.ioQ == []
    ensures s.runQ == [1] && 1 in s.tasks && s.tasks[1].pc == User
  {
    hide Inv, Reachable, Run, After;
    StartReachable(0);
    s := Next(Start(0), Create(1, false));
    OneStepFurther(Start(0), Create(1, false));
  }

  lemma StartReachable(t: Tid)
    ensures Reachable(Start(t))
  {
    assert Run(Start(t), []) && After(Start(t), []) == Start(t);
  }

  lemma OneStepFurther(s: Vp, a: Step)
    requires Reachable(s) && Enabled(s, a)
    ensures Reachable(Next(s, a))
  {
    hide Enabled, Next;
    var t, run :| Run(Start(t), run) && After(Start(t), run) == s;
    RunLonger(Start(t), run, a);
  }

  lemma {:induction false} RunLonger(s: Vp, run: seq<Step>, a: Step)
    requires Run(s, run) && Enabled(After(s, run), a)
    ensures Run(s, run + [a]) && After(s, run + [a]) == Next(After(s, run), a)
    decreases |run|
  {
    hide Enabled, Next;
    if run == [] {
      assert ([] + [a])[1..] == [];
    } else {
      RunLonger(Next(s, run[0]), run[1..], a);
      assert (run + [a])[1..] == run[1..] + [a];
    }
  }

  // ----- Mutexes -----

  /** No two threads hold a mutex at once, and who holds it owns it. */
  lemma MutualExclusion(s: Vp, m: MutexId, t: Tid, u: Tid)
    requires Reachable(s) && t in Held(s, m) && u in Held(s, m)
    ensures t == u && Owns(s, m, t)
  {
    ReachableInv(s);
    assert MutexAgrees(s, m, t) && MutexAgrees(s, m, u);
  }

  /** Nobody waits for a free mutex. */
  lemma FreeMutexHasNoWaiter(s: Vp, m: MutexId, t: Tid)
    requires Reachable(s) && m !in s.owner && t in LockQ(s, m)
    ensures t in s.tasks && s.tasks[t].state != LockWait && s.tasks[t].interrupt
  {
    ReachableInv(s);
    assert MutexAgrees(s, m, t) && LockAgrees(s, m, t);
  }

  /** A lock call that had to wait returns 0 only to the owner. */
  lemma LockReturnsToOwner(s: Vp, m: MutexId)
    requires Reachable(s) && Enabled(s, Resume) && s.tasks[s.current.tid].pc == InLock(m)
    ensures var me, s' := s.current.tid, Next(s, Resume);
            && (LockGranted(s, me, m) <==> Owns(s, m, me))
            && (LockGranted(s, me, m) ==> Held(s', m) == {me} && Owns(s', m, me))
            && (!LockGranted(s, me, m) ==> me !in Held(s', m))
  {
    var me := s.current.tid;
    ReachableInv(s);
    assert Agrees(s, me);
    LockResult(s, me, m);
    forall u ensures u in Held(s, m) && Owns(s, m, me) ==> u == me {
      assert MutexAgrees(s, m, u);
    }
    assert MutexAgrees(s, m, me);
  }

  /** Unlocking hands the mutex to the longest-waiting thread; whoever was passed over had been
      interrupted.  If there is none to hand it to, the mutex is free. */
  lemma HandOver(s: Vp, m: MutexId)
    requires Reachable(s) && Enabled(s, Unlock(m)) && Owns(s, m, s.current.tid)
    ensures var q, s' := LockQ(s, m), Next(s, Unlock(m));
            if m in s'.owner then
              exists k :: 0 <= k < |q| && q[k] == s'.owner[m] && q[k] in s.tasks && s.tasks[q[k]].state == LockWait
                          && !s.tasks[q[k]].interrupt
                          && (forall i :: 0 <= i < k ==> q[i] in s.tasks && s.tasks[q[i]].interrupt)
                          && s'.runQ == s.runQ + [q[k]]
            else forall i :: 0 <= i < |q| ==> q[i] in s.tasks && s.tasks[q[i]].interrupt
  {
    var q, s' := LockQ(s, m), Next(s, Unlock(m));
    ReachableInv(s);
    FirstWaiterFound(s, q);
    forall i | 0 <= i < |q| ensures q[i] in s.tasks && (s.tasks[q[i]].state != LockWait <==> s.tasks[q[i]].interrupt) {
      assert q[i] in q;
      assert LockAgrees(s, m, q[i]) && MutexAgrees(s, m, q[i]) && MutexAgrees(s, m, s.current.tid) && Agrees(s, q[i]);
    }
  }

  // ----- Condition variables -----

  /** The threads of a wait queue that still wait; the others were woken and have not run yet. */
  function CondWaiters(s: Vp, q: seq<Tid>): seq<Tid> {
    if q == [] then []
    else if q[0] in s.tasks && s.tasks[q[0]].state == CondWait then [q[0]] + CondWaiters(s, q[1..])
    else CondWaiters(s, q[1..])
  }

  function FirstOrAll(w: seq<Tid>, broadcast: bool): seq<Tid> {
    if broadcast || w == [] then w else [w[0]]
  }

  lemma {:induction false} WaitersApart(s: Vp, s': Vp, q: seq<Tid>, t: Tid)
    requires t !in q && forall u :: u != t ==> (u in s'.tasks <==> u in s.tasks) && (u in s.tasks ==> s'.tasks[u] == s.tasks[u])
    ensures CondWaiters(s', q) == CondWaiters(s, q) && t !in CondWaiters(s, q)
  {
    if q != [] {
      WaitersApart(s, s', q[1..], t);
    }
  }

  /** After a signal the woken threads are runnable and off the sleep queue, and no other changed. */
  predicate Awake(s: Vp, s': Vp, woken: seq<Tid>) {
    && s'.runQ == s.runQ + woken && s'.condQ == s.condQ && s'.tasks.Keys == s.tasks.Keys
    && forall t :: t in s.tasks ==>
         if t in woken then s'.tasks[t] == s.tasks[t].(state := Runnable, onSleepQ := false) && t !in s'.sleepQ
         else s'.tasks[t] == s.tasks[t] && (t in s'.sleepQ <==> t in s.sleepQ)
  }

  lemma {:induction false} SignalIs(s: Vp, q: seq<Tid>, broadcast: bool)
    requires NoDup(q)
    ensures Awake(s, Signal(s, q, broadcast), FirstOrAll(CondWaiters(s, q), broadcast))
    decreases |q|
  {
    if q != [] {
      var t := q[0];
      if t in s.tasks && s.tasks[t].state == CondWait {
        var s1 := MakeRunnable(s, t);
        assert t !in q[1..];
        WaitersApart(s, s1, q[1..], t);
        if broadcast {
          SignalIs(s1, q[1..], true);
          hide Awake, Signal, CondWaiters;
          AwakeMore(s, t, Signal(s1, q[1..], true), CondWaiters(s, q[1..]));
        }
      } else {
        SignalIs(s, q[1..], broadcast);
      }
    }
  }

  lemma AwakeMore(s: Vp, t: Tid, s': Vp, woken: seq<Tid>)
    requires t in s.tasks && t !in woken && Awake(MakeRunnable(s, t), s', woken)
    ensures Awake(s, s', [t] + woken)
  {
    forall u | u in s.tasks ensures u in [t] + woken <==> u == t || u in woken { }
  }

  /** A signal wakes the longest-waiting thread that still waits, a broadcast all of them in order;
      a wake-up is lost only when nobody waits. */
  lemma SignalWakes(s: Vp, c: CondId, broadcast: bool)
    requires Reachable(s) && Enabled(s, SignalCond(c, broadcast))
    ensures Awake(s, Next(s, SignalCond(c, broadcast)), FirstOrAll(CondWaiters(s, CondQ(s, c)), broadcast))
  {
    ReachableInv(s);
    assert NoDup(CondQ(s, c));
    SignalIs(s, CondQ(s, c), broadcast);
  }

  // ----- Every runnable thread gets its turn -----

  lemma {:induction false} SignalAppends(s: Vp, q: seq<Tid>, broadcast: bool)
    ensures s.runQ <= Signal(s, q, broadcast).runQ && Signal(s, q, broadcast).current == s.current
    decreases |q|
  {
    if q != [] {
      if q[0] in s.tasks && s.tasks[q[0]].state == CondWait {
        if broadcast {
          SignalAppends(MakeRunnable(s, q[0]), q[1..], true);
        }
      } else {
        SignalAppends(s, q[1..], broadcast);
      }
    }
  }

  lemma {:induction false} FireAppends(s: Vp, fired: seq<Tid>)
    requires forall t :: t in fired ==> t in s.tasks
    ensures s.runQ <= Fire(s, fired).runQ
    decreases |fired|
  {
    if fired != [] {
      FireAppends(Ready(s, fired[0]), fired[1..]);
    }
  }

  lemma {:induction false} ExpireAppends(s: Vp, expired: seq<Tid>)
    requires forall t :: t in expired ==> t in s.tasks
    ensures s.runQ <= Expire(s, expired).runQ
    decreases |expired|
  {
    if expired != [] {
      ExpireAppends(TimeOut(s, expired[0]), expired[1..]);
    }
  }

  /** Only the scheduler takes threads off the run queue, and it takes the first. */
  lemma RunQIsFifo(s: Vp, a: Step)
    requires Inv(s) && Enabled(s, a)
    ensures a != Schedule ==> s.runQ <= Next(s, a).runQ
    ensures a == Schedule && s.runQ != [] ==> Next(s, a).runQ == s.runQ[1..] && Next(s, a).current == OnCpu(s.runQ[0])
  {
    hide Inv, DoSchedule, DoResume, CondQ, Signal, Fire, Expire, DoLock, DoUnlock, DoWait, DoJoin, DoExit, DoInterrupt, Block;
    match a
    case SignalCond(c, broadcast) => SignalAppends(s, CondQ(s, c), broadcast);
    case Dispatch(fired) => FireAppends(s.(current := Idle(Checking)), fired);
    case CheckClock(now, expired) => ExpireAppends(s.(clock := now, current := Idle(Yielding)), expired);
    case Exit => ExitAppends(s, s.current.tid);
    case Schedule => ScheduleTakesFirst(s);
    case Resume => ResumeAppends(s, s.current.tid);
    case Lock(m) => MutexCallsAppend(s, s.current.tid, m);
    case Unlock(m) => MutexCallsAppend(s, s.current.tid, m);
    case Interrupt(target) => InterruptAppends(s, target);
    case Join(target) => JoinAppends(s, s.current.tid, target);
    case Wait(c, timeout) => WaitAppends(s, s.current.tid, c, InCond(c), timeout);
    case Sleep(timeout) => BlockAppends(s, s.current.tid, if timeout.Some? then Sleeping else Suspended, InSleep, timeout);
    case Poll(timeout) =>
      var me := s.current.tid;
      BlockAppends(s.(ioQ := s.ioQ + [me], tasks := s.tasks[me := s.tasks[me].(onIoq := true)]), me, IoWait, InPoll, timeout);
    case _ =>
  }

  lemma BlockAppends(s: Vp, me: Tid, state: State, pc: Pc, timeout: Option<int>)
    requires me in s.tasks
    ensures Block(s, me, state, pc, timeout).runQ == s.runQ
  {}

  lemma WaitAppends(s: Vp, me: Tid, c: CondId, pc: Pc, timeout: Option<int>)
    requires me in s.tasks
    ensures DoWait(s, me, c, pc, timeout).runQ == s.runQ
  {}

  lemma JoinAppends(s: Vp, me: Tid, target: Tid)
    requires me in s.tasks && target in s.tasks
    ensures s.runQ <= DoJoin(s, me, target).runQ
  {}

  lemma InterruptAppends(s: Vp, target: Tid)
    requires target in s.tasks
    ensures s.runQ <= DoInterrupt(s, target).runQ
  {}

  lemma MutexCallsAppend(s: Vp, me: Tid, m: MutexId)
    requires me in s.tasks
    ensures s.runQ <= DoLock(s, me, m).runQ && s.runQ <= DoUnlock(s, me, m).runQ
  {
    hide FirstWaiter;
  }

  lemma ExitAppends(s: Vp, me: Tid)
    requires me in s.tasks
    ensures s.runQ <= DoExit(s, me).runQ
  {
    hide Signal;
    var s1 := s.(tasks := s.tasks[me := s.tasks[me].(state := Zombie, pc := InExit)], zombieQ := s.zombieQ + [me],
                 current := Switching);
    SignalAppends(s1, CondQ(s1, Term(me)), false);
  }

  lemma ResumeAppends(s: Vp, me: Tid)
    requires me in s.tasks && s.tasks[me].pc != User
    ensures s.runQ <= DoResume(s, me).runQ
  {
  }

  lemma ScheduleTakesFirst(s: Vp)
    requires Inv(s)
    ensures s.runQ != [] ==> DoSchedule(s).runQ == s.runQ[1..] && DoSchedule(s).current == OnCpu(s.runQ[0])
  {
    if s.runQ != [] {
      assert Agrees(s, s.runQ[0]);
    }
  }

  function Schedules(run: seq<Step>): nat {
    if run == [] then 0 else (if run[0] == Schedule then 1 else 0) + Schedules(run[1..])
  }

  /** Some state along the run has thread `t` on the processor. */
  ghost predicate GetsTurn(s: Vp, run: seq<Step>, t: Tid)
    requires Run(s, run)
    decreases |run|
  {
    s.current == OnCpu(t) || (run != [] && GetsTurn(Next(s, run[0]), run[1..], t))
  }

  /** A thread with `i` others before it on the run queue has run after `i + 1` context switches,
      whatever all threads do. */
  lemma {:induction false} EveryThreadGetsItsTurn(s: Vp, run: seq<Step>, i: nat)
    requires Inv(s) && Run(s, run) && i < |s.runQ| && Schedules(run) > i
    ensures GetsTurn(s, run, s.runQ[i])
    decreases |run|
  {
    hide Inv, Enabled, Next;
    var t, a, s' := s.runQ[i], run[0], Next(s, run[0]);
    StepKeepsInv(s, a);
    RunQIsFifo(s, a);
    if a != Schedule {
      assert s'.runQ[i] == t;
      EveryThreadGetsItsTurn(s', run[1..], i);
    } else if i > 0 {
      assert s'.runQ[i - 1] == t;
      EveryThreadGetsItsTurn(s', run[1..], i - 1);
    }
  }
}
