/** The scheduler and the locks as the kernel runs them (thread.c, sync.c, timer.c): each method is a
    stretch of code that runs with interrupts off, and does what the transition system says. Every
    assert is an ASSERT of the source. */
module Threads {
  import opened Lists
  import opened SchedSpec
  import opened LockSteps
  import opened SchedLaws

  class Kernel {
    var running: Tid
    var idle: Tid
    var threads: map<Tid, Thread>
    var ready: seq<Tid>
    var locks: map<LockId, Lock>
    var semas: map<SemaId, Sema>

    function State(): Sys
      reads this
    {
      Sys(running, idle, threads, ready, locks, semas)
    }

    /** thread_init, with main running, init and idle ready. */
    constructor (mainPriority: nat, lockIds: set<LockId>, semaIds: set<SemaId>)
      ensures State() == Boot(mainPriority, lockIds, semaIds) && Inv(State())
    {
      running, idle, ready := MAIN, IDLE, [INIT, IDLE];
      threads := map[MAIN := Thread(Running, mainPriority, mainPriority, Out, map[]), IDLE := Thread(Ready, 10, 10, Out, map[]),
                     INIT := Thread(Ready, DEFAULT_PRIO, DEFAULT_PRIO, Out, map[])];
      locks := map l | l in lockIds :: Lock(1, [], NOBODY, 0);
      semas := map d | d in semaIds :: Sema(0, []);
      new;
      BootOk(mainPriority, lockIds, semaIds);
    }

    method SetStatus(t: Tid, st: Status)
      requires t in threads
      modifies this`threads
      ensures State() == WithStatus(old(State()), t, st)
    {
      threads := threads[t := threads[t].(status := st)];
    }

    /** thread_unblock. */
    method ThreadUnblock(t: Tid)
      requires t in threads && threads[t].status in {Blocked, Waiting, Hanging} && ReadyList(State())
      modifies this`threads, this`ready
      ensures State() == Unblock(old(State()), t)
    {
      assert threads[t].status in {Blocked, Waiting, Hanging};
      if threads[t].status != Ready {
        assert t !in ready;
        ready := [t] + ready;
        SetStatus(t, Ready);
      }
    }

    /** schedule. */
    method Schedule()
      requires Switchable(State())
      modifies this`running, this`threads, this`ready
      ensures State() == SchedSpec.Schedule(old(State()))
    {
      ghost var s := State();
      PutBackOk(s);
      WakeIdleOk(PutBack(s));
      var cur := threads[running];
      if cur.status == Running {
        assert running !in ready;
        ready := ready + [running];
        threads := threads[running := cur.(ticks := cur.priority, status := Ready)];
      }
      assert State() == PutBack(s);
      if ready == [] {
        ThreadUnblock(idle);
      }
      assert ready != [];
      var next := ready[0];
      ready := ready[1..];
      SetStatus(next, Running);
      running := next;
    }

    /** thread_block. */
    method ThreadBlock(st: Status)
      requires st in {Blocked, Waiting, Hanging} && running in threads && Switchable(WithStatus(State(), running, st))
      modifies this`running, this`threads, this`ready
      ensures Closed(old(WithStatus(State(), running, st)))
      ensures State() == SchedSpec.Schedule(old(WithStatus(State(), running, st)))
    {
      SetStatus(running, st);
      Schedule();
    }

    /** thread_block of a thread outside of the locks. */
    method Block(st: Status)
      requires Inv(State()) && Enabled(State(), Event.Block(st))
      modifies this`running, this`threads, this`ready
      ensures State() == Step(old(State()), Event.Block(st)) && Inv(State())
      ensures Handed(old(State()), State(), Others(old(State())), Cur(old(State())).(status := st))
    {
      hide Inv, SchedSpec.Schedule, Handed;
      BlockOk(State(), st);
      BlockLaw(State(), st);
      CurIn(State());
      ThreadBlock(st);
    }

    /** thread_unblock of a thread outside of the locks. */
    method Wake(t: Tid)
      requires Inv(State()) && Enabled(State(), Event.Wake(t))
      modifies this`threads, this`ready
      ensures State() == Step(old(State()), Event.Wake(t)) && Inv(State())
      ensures NextInTurn(old(State()), State(), t)
    {
      WakeOk(State(), t);
      ThreadUnblock(t);
    }

    /** thread_yield. */
    method ThreadYield()
      requires Inv(State()) && Enabled(State(), Yield)
      modifies this`running, this`threads, this`ready
      ensures State() == Step(old(State()), Yield) && Inv(State())
      ensures Handed(old(State()), State(), old(ready + [running]), Cur(old(State())).(status := Ready))
    {
      hide Inv, SchedSpec.Schedule, Handed;
      YieldOk(State());
      YieldLaw(State());
      CurIn(State());
      assert running !in ready;
      ready := ready + [running];
      SetStatus(running, Ready);
      Schedule();
    }

    /** intr_timer_handler. A thread whose slice is used up goes to the end of the ready list with a full
        one, and the first of the list runs; otherwise the slice gets shorter by one tick. */
    method TimerHandler()
      requires Inv(State()) && Enabled(State(), Tick)
      modifies this`running, this`threads, this`ready
      ensures State() == Step(old(State()), Tick) && Inv(State())
      ensures Cur(old(State())).ticks == 0 ==>
        Handed(old(State()), State(), old(ready + [running]),
               Cur(old(State())).(status := Ready, ticks := Cur(old(State())).priority))
      ensures Cur(old(State())).ticks > 0 ==>
        running == old(running) && ready == old(ready)
        && threads == old(threads)[running := Cur(old(State())).(ticks := Cur(old(State())).ticks - 1)]
    {
      hide LocksOk, SemasOk, SchedSpec.Schedule, Handed;
      TickOk(State());
      TickLaw(State());
      var cur := threads[running];
      if cur.ticks == 0 {
        Schedule();
      } else {
        threads := threads[running := cur.(ticks := cur.ticks - 1)];
      }
    }

    /** sema_down from the test of its value: the value is taken, or the thread waits behind the others
        and the next one runs; it comes back to this test. */
    method SemaDown(l: LockId)
      requires Inv(State()) && Cur(State()).pc == Down(l)
      modifies this`running, this`threads, this`ready, this`locks
      ensures State() == Step(old(State()), Advance) && Inv(State())
      ensures l in old(locks) && (old(locks)[l].value == 0 ==>
        Handed(old(State()), State(), Others(old(State())), Cur(old(State())).(status := Blocked))
        && locks == old(locks)[l := old(locks)[l].(waiters := old(locks)[l].waiters + [old(running)])])
    {
      hide Inv, SchedSpec.Schedule, Handed;
      ghost var s := State();
      DownLaw(s, l);
      DownOk(s, l);
      InCode(s);
      CurIn(s);
      var k := locks[l];
      if k.value == 0 {
        QueuedOk(s, l);
        WillSwitch(s, l);
        assert running !in k.waiters;
        locks := locks[l := k.(waiters := k.waiters + [running])];
        ThreadBlock(Blocked);
      } else {
        TakenOk(s, l);
        locks := locks[l := k.(value := k.value - 1)];
        assert locks[l].value == 0;
        threads := threads[running := threads[running].(pc := SetHolder(l))];
      }
    }

    lemma WillSwitch(s: Sys, l: LockId)
      requires Inv(s) && l in s.locks && Cur(s).pc == Down(l)
      ensures Switchable(Queued(s, l))
    {
      hide LocksOk, SemasOk;
      Here(s, l);
      QueuedSwitchable(s, l);
    }

    /** sema_up of the lock the running thread gives back: who has waited longest is the next in turn. */
    method SemaUp(l: LockId)
      requires Inv(State()) && Cur(State()).pc == Up(l)
      modifies this`threads, this`ready, this`locks
      ensures State() == Step(old(State()), Advance) && Inv(State())
      ensures l in old(locks) && l in locks && running == old(running)
      ensures var ws := old(locks)[l].waiters;
        if ws == [] then ready == old(ready) && locks[l].waiters == []
        else ready == [ws[0]] + old(ready) && locks[l].waiters == ws[1..]
    {
      hide Inv, WakeFirst;
      ghost var s := State();
      UpLaw(s, l);
      UpOk(s, l);
      CurIn(s);
      assert locks[l].value == 0;
      WakeWaiter(l);
      locks := locks[l := locks[l].(value := locks[l].value + 1)];
      assert locks[l].value == 1;
      threads := threads[running := threads[running].(pc := Out, nest := threads[running].nest[l := 0])];
    }

    /** sema_up, the waking of the first waiter. */
    method WakeWaiter(l: LockId)
      requires Inv(State()) && Cur(State()).pc == Up(l) && l in locks
      modifies this`threads, this`ready, this`locks
      ensures forall t :: t in old(locks)[l].waiters ==> t in old(threads)
      ensures State() == WakeFirst(old(State()), l) && l in locks && running in threads
      ensures locks[l] == old(locks)[l].(waiters := locks[l].waiters) && Cur(State()) == Cur(old(State()))
    {
      hide Inv;
      ghost var s := State();
      WakeFirstOk(s, l);
      CurIn(s);
      IsReadyList(s);
      if locks[l].waiters != [] {
        var first := locks[l].waiters[0];
        assert first in locks[l].waiters;
        locks := locks[l := locks[l].(waiters := locks[l].waiters[1..])];
        ThreadUnblock(first);
      }
    }

    lemma IsReadyList(s: Sys)
      requires Inv(s)
      ensures ReadyList(s)
    {
    }

    /** sema_down of a semaphore that belongs to no lock, from the test of its value. */
    method SemaDownAt(d: SemaId)
      requires Inv(State()) && Cur(State()).pc == Await(d)
      modifies this`running, this`threads, this`ready, this`semas
      ensures State() == Step(old(State()), Advance) && Inv(State())
      ensures d in old(semas) && (old(semas)[d].value == 0 ==>
        Handed(old(State()), State(), Others(old(State())), Cur(old(State())).(status := Blocked))
        && semas == old(semas)[d := Sema(0, old(semas)[d].waiters + [old(running)])])
    {
      hide Inv, SchedSpec.Schedule, Handed;
      ghost var s := State();
      AwaitLaw(s, d);
      AwaitOk(s, d);
      CurIn(s);
      var m := semas[d];
      if m.value == 0 {
        assert running !in m.waiters;
        semas := semas[d := m.(waiters := m.waiters + [running])];
        ThreadBlock(Blocked);
      } else {
        semas := semas[d := m.(value := m.value - 1)];
        assert semas[d].value == 0;
        threads := threads[running := threads[running].(pc := Out)];
      }
    }

    /** sema_up of a semaphore that belongs to no lock, in an interrupt handler. */
    method SemaUpAt(d: SemaId)
      requires Inv(State()) && Enabled(State(), Event.Signal(d))
      modifies this`threads, this`ready, this`semas
      ensures State() == Step(old(State()), Event.Signal(d)) && Inv(State())
      ensures var ws := old(semas)[d].waiters;
        if ws == [] then ready == old(ready) && semas == old(semas)[d := Sema(1, [])]
        else NextInTurn(old(State()), State(), ws[0]) && semas == old(semas)[d := Sema(1, ws[1..])]
    {
      hide Inv;
      ghost var s := State();
      SignalLaw(s, d);
      SignalOk(s, d);
      IsReadyList(s);
      assert semas[d].value == 0;
      if semas[d].waiters != [] {
        var first := semas[d].waiters[0];
        assert first in semas[d].waiters;
        semas := semas[d := semas[d].(waiters := semas[d].waiters[1..])];
        ThreadUnblock(first);
      }
      semas := semas[d := semas[d].(value := semas[d].value + 1)];
      assert semas[d].value == 1;
      assert State() == Signalled(s, d);
    }

    /** lock_acquire, lock_release and sema_down, one statement at a time. */
    method Execute()
      requires Inv(State()) && Enabled(State(), Advance)
      modifies this
      ensures State() == Step(old(State()), Advance) && Inv(State())
    {
      hide Inv;
      ghost var s := State();
      CurIn(s);
      AdvanceOk(s);
      if !threads[running].pc.Await? { InCode(s); }
      var th, t := threads[running], running;
      match th.pc
      case Down(l) => SemaDown(l);
      case Up(l) => SemaUp(l);
      case Await(d) => SemaDownAt(d);
      case Acquire(l) =>
        MoveTo(if locks[l].holder != t then Down(l) else Again(l));
      case SetHolder(l) =>
        SetHolderOk(s, l);
        locks := locks[l := locks[l].(holder := t)];
        MoveTo(SetOne(l));
      case SetOne(l) =>
        SetOneOk(s, l);
        assert locks[l].repeat == 0;
        locks := locks[l := locks[l].(repeat := 1)];
        Return(l, 1);
      case Again(l) =>
        locks := locks[l := locks[l].(repeat := locks[l].repeat + 1)];
        Return(l, Nest(th, l) + 1);
      case Release(l) =>
        ReleaseOk(s, l);
        assert locks[l].holder == t;
        MoveTo(if locks[l].repeat > 1 then Less(l) else ClearHolder(l));
      case Less(l) =>
        LessOk(s, l);
        Here(s, l);
        locks := locks[l := locks[l].(repeat := locks[l].repeat - 1)];
        Return(l, Nest(th, l) - 1);
      case ClearHolder(l) =>
        ClearHolderOk(s, l);
        assert locks[l].repeat == 1;
        locks := locks[l := locks[l].(holder := NOBODY)];
        MoveTo(ClearCount(l));
      case ClearCount(l) =>
        locks := locks[l := locks[l].(repeat := 0)];
        MoveTo(Up(l));
    }

    method MoveTo(pc: Pc)
      requires running in threads
      modifies this`threads
      ensures State() == SetPc(old(State()), pc)
    {
      threads := threads[running := threads[running].(pc := pc)];
    }

    method Return(l: LockId, n: nat)
      requires running in threads
      modifies this`threads
      ensures State() == Leave(old(State()), l, n)
    {
      threads := threads[running := threads[running].(pc := Out, nest := threads[running].nest[l := n])];
    }
  }
}
