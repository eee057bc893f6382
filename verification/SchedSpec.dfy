/** Threads, the ready list, and locks as a transition system (thread.c, sync.c, timer.c). A step is
    a stretch of code that runs with interrupts off, or one statement of lock_acquire and
    lock_release, between which the timer may switch threads. */
module SchedSpec {
  import opened Lists

  type Tid = nat
  type LockId = nat
  type SemaId = nat

  datatype Status = Running | Ready | Blocked | Waiting | Hanging

  /** Where a thread is in lock_acquire and lock_release of a lock, or in sema_down of a semaphore
      that belongs to no lock. */
  datatype Pc =
    | Out
    | Acquire(l: LockId)    // before the test of the holder
    | Down(l: LockId)       // in sema_down, interrupts off
    | SetHolder(l: LockId)  // back from sema_down
    | SetOne(l: LockId)     // holder set, count not yet
    | Again(l: LockId)      // holder already, before the increment
    | Release(l: LockId)    // before the tests of lock_release
    | Less(l: LockId)       // count above one, before the decrement
    | ClearHolder(l: LockId)
    | ClearCount(l: LockId)
    | Up(l: LockId)         // before sema_up
    | Await(d: SemaId)      // in sema_down of a semaphore of its own, interrupts off

  predicate InLock(pc: Pc) {
    !pc.Out? && !pc.Await?
  }

  /** The fields of task_struct that matter here, the program counter, and for each lock how many
      acquisitions the thread has not yet released. */
  datatype Thread = Thread(status: Status, ticks: nat, priority: nat, pc: Pc, nest: map<LockId, nat>)

  const NOBODY: int := -1

  /** struct lock with its semaphore. */
  datatype Lock = Lock(value: nat, waiters: seq<Tid>, holder: int, repeat: nat)

  /** struct semaphore, where it is not part of a lock: disk_done of a channel. */
  datatype Sema = Sema(value: nat, waiters: seq<Tid>)

  datatype Sys = Sys(running: Tid, idle: Tid, threads: map<Tid, Thread>, ready: seq<Tid>,
                     locks: map<LockId, Lock>, semas: map<SemaId, Sema>)

  function Nest(th: Thread, l: LockId): nat {
    if l in th.nest then th.nest[l] else 0
  }

  // ------------------------------------------------------------------
  // thread.c
  // ------------------------------------------------------------------

  function With(s: Sys, t: Tid, th: Thread): Sys {
    s.(threads := s.threads[t := th])
  }

  function WithStatus(s: Sys, t: Tid, st: Status): Sys
    requires t in s.threads
  {
    With(s, t, s.threads[t].(status := st))
  }

  /** thread_unblock of a thread that is blocked, waiting or hanging: to the front of the list. */
  function Unblock(s: Sys, t: Tid): Sys
    requires t in s.threads
  {
    WithStatus(s, t, Ready).(ready := [t] + s.ready)
  }

  /** schedule, the first part: a running thread goes to the end of the ready list with a new
      time slice. */
  function PutBack(s: Sys): Sys
    requires s.running in s.threads
  {
    var th := s.threads[s.running];
    if th.status != Running then s
    else With(s, s.running, th.(ticks := th.priority, status := Ready)).(ready := s.ready + [s.running])
  }

  /** schedule, the second part: idle is woken when nobody else is ready. */
  function WakeIdle(s: Sys): Sys
    requires s.idle in s.threads
  {
    if s.ready == [] then Unblock(s, s.idle) else s
  }

  /** schedule, the rest: the first of the ready list runs. */
  function SwitchTo(s: Sys): Sys
    requires s.ready != [] && s.ready[0] in s.threads
  {
    WithStatus(s, s.ready[0], Running).(ready := s.ready[1..], running := s.ready[0])
  }

  // ------------------------------------------------------------------
  // The invariant of the scheduler
  // ------------------------------------------------------------------

  /** The ready list holds exactly the ready threads, each once. */
  ghost predicate ReadyList(s: Sys) {
    && NoDup(s.ready)
    && (forall t :: t in s.ready <==> t in s.threads && s.threads[t].status == Ready)
  }

  ghost predicate Slices(s: Sys) {
    forall t :: t in s.threads ==> s.threads[t].ticks <= s.threads[t].priority
  }

  /** Nobody runs but the thread that has the processor. */
  ghost predicate OnlyOne(s: Sys) {
    forall t :: t in s.threads && s.threads[t].status == Running ==> t == s.running
  }

  /** The idle thread only ever blocks, so that it can be woken when the ready list is empty. */
  ghost predicate IdleOk(s: Sys) {
    && s.idle in s.threads && s.threads[s.idle].pc == Out
    && s.threads[s.idle].status in {Running, Ready, Blocked}
  }

  /** What schedule may be called in: the current thread may have left the running state. */
  ghost predicate Switchable(s: Sys) {
    s.running in s.threads && ReadyList(s) && Slices(s) && OnlyOne(s) && IdleOk(s)
  }

  /** What holds whenever a thread is running. */
  ghost predicate Scheduled(s: Sys) {
    Switchable(s) && s.threads[s.running].status == Running
  }

  /** The threads the lists speak of exist. */
  ghost predicate Closed(s: Sys) {
    s.running in s.threads && s.idle in s.threads && forall t :: t in s.ready ==> t in s.threads
  }

  /** schedule. */
  ghost function Schedule(s: Sys): Sys
    requires Closed(s)
  {
    var w := WakeIdle(PutBack(s));
    assert w.ready[0] in w.ready && w.ready[0] in w.threads by { WokenClosed(s); }
    SwitchTo(w)
  }

  lemma WokenClosed(s: Sys)
    requires Closed(s)
    ensures var w := WakeIdle(PutBack(s)); Closed(w) && w.ready != [] && w.ready[0] in w.threads
  {
    var w := WakeIdle(PutBack(s));
    assert w.ready[0] in w.ready;
  }

  lemma PutBackOk(s: Sys)
    requires Switchable(s)
    ensures s.threads[s.running].status == Running ==> s.running !in s.ready
    ensures Switchable(PutBack(s)) && PutBack(s).threads[s.running].status != Running
  {
    var s' := PutBack(s);
    if s.threads[s.running].status == Running {
      assert s'.ready[|s.ready|] == s.running;
      forall t ensures t in s'.ready <==> t in s'.threads && s'.threads[t].status == Ready {
        assert t in s'.ready <==> t in s.ready || t == s.running;
      }
    }
  }

  /** When nobody is ready idle is blocked, and waking it is right. */
  lemma WakeIdleOk(s: Sys)
    requires Switchable(s) && s.threads[s.running].status != Running
    ensures s.ready == [] ==> s.threads[s.idle].status == Blocked
    ensures var s' := WakeIdle(s);
      Switchable(s') && s'.threads[s'.running].status != Running && s'.ready != [] && s'.ready[0] in s'.threads
  {
    if s.ready == [] {
      assert s.idle !in s.ready;
      var s' := WakeIdle(s);
      assert s'.ready == [s.idle];
    } else {
      assert s.ready[0] in s.ready;
    }
  }

  lemma ScheduleOk(s: Sys)
    requires Switchable(s)
    ensures Scheduled(Schedule(s))
  {
    PutBackOk(s);
    WakeIdleOk(PutBack(s));
    SwitchToOk(WakeIdle(PutBack(s)));
  }

  lemma SwitchToOk(s: Sys)
    requires Switchable(s) && s.threads[s.running].status != Running && s.ready != []
    ensures s.ready[0] in s.threads && Scheduled(SwitchTo(s))
  {
    var next := s.ready[0];
    assert next in s.ready;
    var s' := SwitchTo(s);
    forall t ensures t in s'.ready <==> t in s'.threads && s'.threads[t].status == Ready {
      assert t in s.ready <==> t == next || t in s'.ready;
      assert next !in s'.ready;
    }
  }

  // ------------------------------------------------------------------
  // The invariant of the locks
  // ------------------------------------------------------------------

  /** Where the thread is in the code of lock l. */
  function At(th: Thread, l: LockId): Pc {
    if InLock(th.pc) && th.pc.l == l then th.pc else Out
  }

  /** The thread is past sema_down of lock l and not yet past the matching sema_up. */
  ghost predicate Owns(th: Thread, l: LockId) {
    At(th, l).SetHolder? || At(th, l).SetOne? || Nest(th, l) > 0
  }

  ghost predicate HasOwner(s: Sys, l: LockId) {
    exists t :: t in s.threads && Owns(s.threads[t], l)
  }

  /** How often the thread has the lock at each place of the code. */
  ghost predicate PlaceOk(th: Thread, l: LockId) {
    match At(th, l)
    case Down(_) => Nest(th, l) == 0
    case SetHolder(_) => Nest(th, l) == 0
    case SetOne(_) => Nest(th, l) == 0
    case Again(_) => Nest(th, l) >= 1
    case Release(_) => Nest(th, l) >= 1
    case Less(_) => Nest(th, l) >= 2
    case ClearHolder(_) => Nest(th, l) == 1
    case ClearCount(_) => Nest(th, l) == 1
    case Up(_) => Nest(th, l) == 1
    case _ => true
  }

  /** What the lock says of its owner: the holder, and a count equal to the owner's nesting depth,
      except between the statements that set or clear them. */
  ghost predicate SaysOwner(k: Lock, t: Tid, th: Thread, l: LockId) {
    var at := At(th, l);
    && k.holder == (if at.SetHolder? || at.ClearCount? || at.Up? then NOBODY else t)
    && k.repeat == (if at.SetHolder? || at.SetOne? || at.Up? then 0 else Nest(th, l))
  }

  /** Mutual exclusion. */
  ghost predicate OneOwner(s: Sys, l: LockId) {
    forall t, u :: t in s.threads && u in s.threads && Owns(s.threads[t], l) && Owns(s.threads[u], l) ==> t == u
  }

  ghost predicate LockOk(s: Sys, l: LockId)
    requires l in s.locks
  {
    var k := s.locks[l];
    && k.value <= 1 && OneOwner(s, l)
    && (k.value == 0 <==> HasOwner(s, l))
    && (forall t :: t in s.threads && Owns(s.threads[t], l) ==> SaysOwner(k, t, s.threads[t], l))
    && (!HasOwner(s, l) ==> k.holder == NOBODY && k.repeat == 0)
    && (forall t :: t in s.threads ==> PlaceOk(s.threads[t], l))
  }

  /** The waiters of a lock are the threads blocked in its sema_down, each once. */
  ghost predicate WaitersOk(s: Sys, l: LockId)
    requires l in s.locks
  {
    && NoDup(s.locks[l].waiters)
    && (forall t :: t in s.locks[l].waiters <==>
          (t in s.threads && At(s.threads[t], l).Down? && s.threads[t].status == Blocked))
    && (forall t :: t in s.threads && At(s.threads[t], l).Down? ==> s.threads[t].status in {Running, Ready, Blocked})
  }

  ghost predicate AboutToLook(s: Sys, l: LockId) {
    exists t :: t in s.threads && At(s.threads[t], l).Down? && s.threads[t].status in {Running, Ready}
  }

  /** No wakeup is lost: while the lock is free and threads wait for it, one that was woken is
      about to look at it. */
  ghost predicate NoLostWakeup(s: Sys, l: LockId)
    requires l in s.locks
  {
    s.locks[l].value == 1 && s.locks[l].waiters != [] ==> AboutToLook(s, l)
  }

  ghost predicate LocksOk(s: Sys) {
    && (forall l {:trigger LockOk(s, l)} {:trigger WaitersOk(s, l)} {:trigger NoLostWakeup(s, l)} ::
          l in s.locks ==> LockOk(s, l) && WaitersOk(s, l) && NoLostWakeup(s, l))
    && (forall t :: t in s.threads && InLock(s.threads[t].pc) ==> s.threads[t].pc.l in s.locks)
  }

  ghost predicate AboutToTake(s: Sys, d: SemaId) {
    exists t :: t in s.threads && s.threads[t].pc == Await(d) && s.threads[t].status in {Running, Ready}
  }

  /** The waiters of a semaphore of its own are the threads blocked in its sema_down, each once; it
      never counts beyond one, and no wakeup is lost. */
  ghost predicate SemaOk(s: Sys, d: SemaId)
    requires d in s.semas
  {
    var m := s.semas[d];
    && m.value <= 1 && NoDup(m.waiters)
    && (forall t :: t in m.waiters <==> t in s.threads && s.threads[t].pc == Await(d) && s.threads[t].status == Blocked)
    && (forall t :: t in s.threads && s.threads[t].pc == Await(d) ==> s.threads[t].status in {Running, Ready, Blocked})
    && (m.value == 1 && m.waiters != [] ==> AboutToTake(s, d))
  }

  ghost predicate SemasOk(s: Sys) {
    && (forall d {:trigger SemaOk(s, d)} :: d in s.semas ==> SemaOk(s, d))
    && (forall t :: t in s.threads && s.threads[t].pc.Await? ==> s.threads[t].pc.d in s.semas)
  }

  ghost predicate Inv(s: Sys) {
    Scheduled(s) && LocksOk(s) && SemasOk(s)
  }

  // ------------------------------------------------------------------
  // Events
  // ------------------------------------------------------------------

  /** What can happen next: the timer interrupt, another interrupt whose handler calls sema_up,
      something the running thread does outside of any lock, its entering lock_acquire, lock_release
      or sema_down, or its next step there. */
  datatype Event =
    | Tick
    | Yield
    | Block(st: Status)
    | Wake(t: Tid)
    | Start(t: Tid, priority: nat)
    | Reap(t: Tid)
    | CallAcquire(l: LockId)
    | CallRelease(l: LockId)
    | CallDown(d: SemaId)
    | Signal(d: SemaId)
    | Advance

  const NO_THREAD: Thread := Thread(Hanging, 0, 0, Out, map[])

  function ThreadOf(s: Sys, t: Tid): Thread {
    if t in s.threads then s.threads[t] else NO_THREAD
  }

  function Cur(s: Sys): Thread {
    ThreadOf(s, s.running)
  }

  /** Interrupts are off only inside sema_down, while a thread is there. The handler of a device
      signals a semaphore that is at zero. */
  ghost predicate Enabled(s: Sys, e: Event) {
    match e
    case Tick => !Cur(s).pc.Down? && !Cur(s).pc.Await?
    case Yield => Cur(s).pc == Out
    case Block(st) => Cur(s).pc == Out && st in {Blocked, Waiting, Hanging} && (s.running == s.idle ==> st == Blocked)
    case Wake(t) => !Cur(s).pc.Down? && !Cur(s).pc.Await? && t in s.threads && s.threads[t].status in {Blocked, Waiting, Hanging}
      && !s.threads[t].pc.Down? && !s.threads[t].pc.Await? && t != s.idle
    case Start(t, _) => Cur(s).pc == Out && t !in s.threads
    case Reap(t) => Cur(s).pc == Out && t in s.threads && t != s.running && t != s.idle
      && s.threads[t].status in {Ready, Hanging} && s.threads[t].pc == Out
      && (forall l :: l in s.locks ==> Nest(s.threads[t], l) == 0)
    case CallAcquire(l) => Cur(s).pc == Out && l in s.locks && s.running != s.idle
    case CallRelease(l) => Cur(s).pc == Out && l in s.locks && Nest(Cur(s), l) >= 1 && s.running != s.idle
    case CallDown(d) => Cur(s).pc == Out && d in s.semas && s.running != s.idle
    case Signal(d) => !Cur(s).pc.Down? && !Cur(s).pc.Await? && d in s.semas && s.semas[d].value == 0
    case Advance => Cur(s).pc != Out
  }

  function SetPc(s: Sys, pc: Pc): Sys
    requires s.running in s.threads
  {
    With(s, s.running, Cur(s).(pc := pc))
  }

  /** The running thread is out of lock l, which it now has n times. */
  function Leave(s: Sys, l: LockId, n: nat): Sys
    requires s.running in s.threads
  {
    With(s, s.running, Cur(s).(pc := Out, nest := Cur(s).nest[l := n]))
  }

  function SetLock(s: Sys, l: LockId, k: Lock): Sys {
    s.(locks := s.locks[l := k])
  }

  // ------------------------------------------------------------------
  // Steps
  // ------------------------------------------------------------------

  /** intr_timer_handler. */
  ghost function TickStep(s: Sys): Sys
    requires Closed(s)
  {
    if Cur(s).ticks == 0 then Schedule(s) else With(s, s.running, Cur(s).(ticks := Cur(s).ticks - 1))
  }

  /** thread_yield. */
  function Yielded(s: Sys): Sys
    requires s.running in s.threads
  {
    WithStatus(s, s.running, Ready).(ready := s.ready + [s.running])
  }

  /** sema_down when the value is zero, up to schedule. */
  function Queued(s: Sys, l: LockId): Sys
    requires s.running in s.threads && l in s.locks
  {
    var k := s.locks[l];
    WithStatus(SetLock(s, l, k.(waiters := k.waiters + [s.running])), s.running, Blocked)
  }

  /** sema_down when the value is not zero. */
  function Taken(s: Sys, l: LockId): Sys
    requires s.running in s.threads && l in s.locks && s.locks[l].value > 0
  {
    SetPc(SetLock(s, l, s.locks[l].(value := s.locks[l].value - 1)), SetHolder(l))
  }

  /** sema_up, the waking of the first waiter. */
  function WakeFirst(s: Sys, l: LockId): Sys
    requires l in s.locks && forall t :: t in s.locks[l].waiters ==> t in s.threads
  {
    var k := s.locks[l];
    if k.waiters == [] then s
    else
      assert k.waiters[0] in k.waiters;
      Unblock(SetLock(s, l, k.(waiters := k.waiters[1..])), k.waiters[0])
  }

  function Raised(s: Sys, l: LockId): Sys
    requires l in s.locks
  {
    SetLock(s, l, s.locks[l].(value := s.locks[l].value + 1))
  }

  function SetSema(s: Sys, d: SemaId, m: Sema): Sys {
    s.(semas := s.semas[d := m])
  }

  /** sema_down of a semaphore of its own at zero, up to schedule. */
  function QueuedAt(s: Sys, d: SemaId): Sys
    requires s.running in s.threads && d in s.semas
  {
    var m := s.semas[d];
    WithStatus(SetSema(s, d, m.(waiters := m.waiters + [s.running])), s.running, Blocked)
  }

  /** sema_down of a semaphore of its own above zero. */
  function TakenAt(s: Sys, d: SemaId): Sys
    requires s.running in s.threads && d in s.semas && s.semas[d].value > 0
  {
    SetPc(SetSema(s, d, s.semas[d].(value := s.semas[d].value - 1)), Out)
  }

  /** sema_up in an interrupt handler: the first waiter is woken and the value goes up. */
  function Signalled(s: Sys, d: SemaId): Sys
    requires d in s.semas && forall t :: t in s.semas[d].waiters ==> t in s.threads
  {
    var m := s.semas[d];
    if m.waiters == [] then SetSema(s, d, m.(value := m.value + 1))
    else
      assert m.waiters[0] in m.waiters;
      Unblock(SetSema(s, d, Sema(m.value + 1, m.waiters[1..])), m.waiters[0])
  }

  ghost function AdvancedAt(s: Sys, d: SemaId): Sys
    requires Closed(s) && d in s.semas
  {
    if s.semas[d].value == 0 then Schedule(QueuedAt(s, d)) else TakenAt(s, d)
  }

  /** One step of the running thread in the code of lock l. */
  ghost function Advanced(s: Sys, l: LockId): Sys
    requires Closed(s) && l in s.locks && (forall t :: t in s.locks[l].waiters ==> t in s.threads)
  {
    var k, th, t := s.locks[l], Cur(s), s.running;
    match th.pc
    case Out => s
    case Acquire(_) => SetPc(s, if k.holder != t then Down(l) else Again(l))
    case Down(_) => if k.value == 0 then Schedule(Queued(s, l)) else Taken(s, l)
    case SetHolder(_) => SetPc(SetLock(s, l, k.(holder := t)), SetOne(l))
    case SetOne(_) => Leave(SetLock(s, l, k.(repeat := 1)), l, 1)
    case Again(_) => Leave(SetLock(s, l, k.(repeat := k.repeat + 1)), l, Nest(th, l) + 1)
    case Release(_) => SetPc(s, if k.repeat > 1 then Less(l) else ClearHolder(l))
    case Less(_) =>
      if k.repeat == 0 || Nest(th, l) == 0 then s
      else Leave(SetLock(s, l, k.(repeat := k.repeat - 1)), l, Nest(th, l) - 1)
    case ClearHolder(_) => SetPc(SetLock(s, l, k.(holder := NOBODY)), ClearCount(l))
    case ClearCount(_) => SetPc(SetLock(s, l, k.(repeat := 0)), Up(l))
    case Up(_) => Leave(Raised(WakeFirst(s, l), l), l, 0)
    case Await(_) => s
  }

  /** Everything the lists, locks and semaphores speak of exists. */
  ghost predicate Settled(s: Sys) {
    && Closed(s)
    && (forall l :: l in s.locks ==> forall t :: t in s.locks[l].waiters ==> t in s.threads)
    && (forall d :: d in s.semas ==> forall t :: t in s.semas[d].waiters ==> t in s.threads)
    && (InLock(Cur(s).pc) ==> Cur(s).pc.l in s.locks)
    && (Cur(s).pc.Await? ==> Cur(s).pc.d in s.semas)
  }

  lemma InvCloses(s: Sys)
    requires Inv(s)
    ensures Settled(s)
  {
    forall l | l in s.locks ensures forall t :: t in s.locks[l].waiters ==> t in s.threads {
      assert WaitersOk(s, l);
    }
    forall d | d in s.semas ensures forall t :: t in s.semas[d].waiters ==> t in s.threads {
      assert SemaOk(s, d);
    }
  }

  ghost function Effect(s: Sys, e: Event): Sys
    requires Settled(s) && Enabled(s, e)
  {
    match e
    case Tick => TickStep(s)
    case Yield => Schedule(Yielded(s))
    case Block(st) => Schedule(WithStatus(s, s.running, st))
    case Wake(t) => Unblock(s, t)
    case Start(t, p) => With(s, t, Thread(Ready, p, p, Out, map[])).(ready := s.ready + [t])
    case Reap(t) => s.(threads := s.threads - {t}, ready := Without(s.ready, t))
    case CallAcquire(l) => SetPc(s, Acquire(l))
    case CallRelease(l) => SetPc(s, Release(l))
    case CallDown(d) => SetPc(s, Await(d))
    case Signal(d) => Signalled(s, d)
    case Advance => if Cur(s).pc.Await? then AdvancedAt(s, Cur(s).pc.d) else Advanced(s, Cur(s).pc.l)
  }

  /** The state after an event. */
  ghost function Step(s: Sys, e: Event): Sys
    requires Inv(s) && Enabled(s, e)
  {
    InvCloses(s);
    Effect(s, e)
  }

  // ------------------------------------------------------------------
  // What a step leaves alone
  // ------------------------------------------------------------------

  /** Every thread is at the same place of lock l as before and has it as often. */
  ghost predicate SamePlaces(s: Sys, s': Sys, l: LockId) {
    forall t :: At(ThreadOf(s', t), l) == At(ThreadOf(s, t), l) && Nest(ThreadOf(s', t), l) == Nest(ThreadOf(s, t), l)
  }

  /** Every thread in sema_down of lock l is blocked if it was, and ready or running if it was. */
  ghost predicate SameWaiting(s: Sys, s': Sys, l: LockId) {
    forall t :: At(ThreadOf(s, t), l).Down? ==> SameClass(ThreadOf(s, t).status, ThreadOf(s', t).status)
  }

  predicate SameClass(a: Status, b: Status) {
    a == b || (a in {Running, Ready} && b in {Running, Ready})
  }

  lemma LockKept(s: Sys, s': Sys, l: LockId)
    requires l in s.locks && l in s'.locks && SamePlaces(s, s', l) && LockOk(s, l)
    requires s'.locks[l] == s.locks[l].(waiters := s'.locks[l].waiters)
    ensures LockOk(s', l)
  {
    OwnersKept(s, s', l);
    forall t | t in s'.threads ensures PlaceOk(s'.threads[t], l) {
      assert ThreadOf(s', t) == s'.threads[t];
      assert At(ThreadOf(s', t), l) == At(ThreadOf(s, t), l);
    }
    forall t | t in s'.threads && Owns(s'.threads[t], l) ensures SaysOwner(s'.locks[l], t, s'.threads[t], l) {
      assert ThreadOf(s', t) == s'.threads[t] && At(ThreadOf(s', t), l) == At(ThreadOf(s, t), l);
    }
  }

  lemma OwnersKept(s: Sys, s': Sys, l: LockId)
    requires SamePlaces(s, s', l)
    ensures HasOwner(s', l) <==> HasOwner(s, l)
    ensures OneOwner(s, l) ==> OneOwner(s', l)
  {
    forall t ensures (t in s'.threads && Owns(s'.threads[t], l)) <==> (t in s.threads && Owns(s.threads[t], l)) {
      assert At(ThreadOf(s', t), l) == At(ThreadOf(s, t), l);
    }
  }

  lemma WaitersKept(s: Sys, s': Sys, l: LockId)
    requires l in s.locks && l in s'.locks && s'.locks[l].waiters == s.locks[l].waiters
    requires SamePlaces(s, s', l) && SameWaiting(s, s', l) && WaitersOk(s, l)
    ensures WaitersOk(s', l) && (AboutToLook(s, l) ==> AboutToLook(s', l))
  {
    forall t ensures (t in s'.threads && At(s'.threads[t], l).Down?) <==> (t in s.threads && At(s.threads[t], l).Down?) {
      assert At(ThreadOf(s', t), l) == At(ThreadOf(s, t), l);
    }
    forall t | t in s.threads && At(s.threads[t], l).Down?
      ensures t in s'.threads && SameClass(s.threads[t].status, s'.threads[t].status)
    {
      assert At(ThreadOf(s', t), l) == At(ThreadOf(s, t), l);
    }
  }

  /** A step that touches neither the locks nor anyone's place in their code, nor who waits. */
  ghost predicate Aside(s: Sys, s': Sys) {
    && s'.locks == s.locks
    && (forall l :: l in s.locks ==> SamePlaces(s, s', l) && SameWaiting(s, s', l))
    && (forall t :: t in s'.threads && InLock(s'.threads[t].pc) ==> s'.threads[t].pc.l in s.locks)
  }

  /** A step that touches neither the semaphores of their own nor who is in their sema_down. */
  ghost predicate Apart(s: Sys, s': Sys) {
    && s'.semas == s.semas
    && forall t :: ThreadOf(s, t).pc.Await? || ThreadOf(s', t).pc.Await? ==>
         ThreadOf(s', t).pc == ThreadOf(s, t).pc && SameClass(ThreadOf(s, t).status, ThreadOf(s', t).status)
  }

  /** The same of one of them. */
  ghost predicate ApartAt(s: Sys, s': Sys, d: SemaId) {
    forall t :: ThreadOf(s, t).pc == Await(d) || ThreadOf(s', t).pc == Await(d) ==>
      ThreadOf(s', t).pc == ThreadOf(s, t).pc && SameClass(ThreadOf(s, t).status, ThreadOf(s', t).status)
  }

  lemma SemaKept(s: Sys, s': Sys, d: SemaId)
    requires d in s.semas && d in s'.semas && s'.semas[d] == s.semas[d] && ApartAt(s, s', d) && SemaOk(s, d)
    ensures SemaOk(s', d)
  {
    forall t ensures (t in s'.threads && s'.threads[t].pc == Await(d)) <==> (t in s.threads && s.threads[t].pc == Await(d)) {
      assert ThreadOf(s', t).pc == Await(d) <==> ThreadOf(s, t).pc == Await(d);
    }
    forall t | t in s.threads && s.threads[t].pc == Await(d)
      ensures t in s'.threads && SameClass(s.threads[t].status, s'.threads[t].status)
    {
      assert ThreadOf(s', t).pc == Await(d);
    }
  }

  lemma ApartOk(s: Sys, s': Sys)
    requires SemasOk(s) && Apart(s, s')
    ensures SemasOk(s')
  {
    hide SemaOk;
    forall d | d in s'.semas ensures SemaOk(s', d) {
      assert ApartAt(s, s', d);
      SemaKept(s, s', d);
    }
    forall t | t in s'.threads && s'.threads[t].pc.Await? ensures s'.threads[t].pc.d in s'.semas {
      assert ThreadOf(s', t).pc == ThreadOf(s, t).pc;
    }
  }

  lemma AsideOk(s: Sys, s': Sys)
    requires LocksOk(s) && Aside(s, s')
    ensures LocksOk(s')
  {
    forall l | l in s'.locks ensures LockOk(s', l) && WaitersOk(s', l) && NoLostWakeup(s', l) {
      LockKept(s, s', l);
      WaitersKept(s, s', l);
    }
  }

  /** Threads changed their status only, and of those in some sema_down none woke or fell asleep. */
  ghost predicate Shuffled(s: Sys, s': Sys) {
    && s'.locks == s.locks && s'.semas == s.semas && s'.threads.Keys == s.threads.Keys && s'.idle == s.idle
    && (forall t :: t in s.threads ==> s'.threads[t].pc == s.threads[t].pc && s'.threads[t].nest == s.threads[t].nest)
    && (forall t :: t in s.threads && s.threads[t].pc != Out ==> SameClass(s.threads[t].status, s'.threads[t].status))
  }

  /** schedule moves threads between running and ready only, apart from waking idle. */
  lemma ScheduleAside(s: Sys)
    requires Switchable(s)
    ensures Closed(s) && Shuffled(s, Schedule(s))
  {
    hide Switchable, Shuffled, WakeIdle, SwitchTo;
    SwitchableCloses(s);
    PutBackOk(s);
    PutBackShuffles(s);
    var b := PutBack(s);
    WakeIdleOk(b);
    WakeShuffles(b);
    SwitchShuffles(WakeIdle(b));
    ShuffledTwice(s, b, WakeIdle(b));
    ShuffledTwice(s, WakeIdle(b), SwitchTo(WakeIdle(b)));
  }

  lemma PutBackShuffles(s: Sys)
    requires s.running in s.threads
    ensures Shuffled(s, PutBack(s))
  {
  }

  lemma WakeShuffles(s: Sys)
    requires Switchable(s)
    ensures Shuffled(s, WakeIdle(s))
  {
  }

  lemma SwitchShuffles(s: Sys)
    requires Switchable(s) && s.ready != []
    ensures s.ready[0] in s.threads && Shuffled(s, SwitchTo(s))
  {
    assert s.ready[0] in s.ready;
  }

  lemma ShuffledTwice(s: Sys, s1: Sys, s2: Sys)
    requires Shuffled(s, s1) && Shuffled(s1, s2)
    ensures Shuffled(s, s2)
  {
  }

  lemma SwitchableCloses(s: Sys)
    requires Switchable(s)
    ensures Closed(s)
  {
  }

  lemma ShuffledOk(s: Sys, s': Sys)
    requires LocksOk(s) && SemasOk(s) && Shuffled(s, s')
    ensures LocksOk(s') && SemasOk(s')
  {
    hide LockOk, WaitersOk, NoLostWakeup, SemaOk;
    forall l | l in s.locks ensures SamePlaces(s, s', l) && SameWaiting(s, s', l) {
      forall t ensures At(ThreadOf(s', t), l) == At(ThreadOf(s, t), l) && Nest(ThreadOf(s', t), l) == Nest(ThreadOf(s, t), l) {
      }
    }
    AsideOk(s, s');
    ApartOk(s, s');
  }

  /** A thread that has no lock and is in no lock's code came or went. */
  lemma SameButOne(s: Sys, s': Sys, t: Tid)
    requires LocksOk(s) && SemasOk(s) && s'.locks == s.locks && s'.semas == s.semas
    requires forall u :: u != t ==> ThreadOf(s', u) == ThreadOf(s, u)
    requires ThreadOf(s, t).pc == Out && ThreadOf(s', t).pc == Out
    requires forall l :: l in s.locks ==> Nest(ThreadOf(s, t), l) == 0 && Nest(ThreadOf(s', t), l) == 0
    ensures LocksOk(s') && SemasOk(s')
  {
    hide LockOk, WaitersOk, NoLostWakeup, SemaOk;
    forall u | u in s'.threads && InLock(s'.threads[u].pc) ensures s'.threads[u].pc.l in s.locks {
      assert u != t ==> ThreadOf(s', u) == ThreadOf(s, u);
    }
    AsideOk(s, s');
    ApartOk(s, s');
  }

  // ------------------------------------------------------------------
  // The events outside of the locks
  // ------------------------------------------------------------------

  lemma TickOk(s: Sys)
    requires Inv(s) && Enabled(s, Tick)
    ensures Inv(Step(s, Tick))
  {
    hide LocksOk, SemasOk, Schedule, Shuffled;
    InvCloses(s);
    if Cur(s).ticks == 0 {
      ScheduleOk(s);
      ScheduleAside(s);
      ShuffledOk(s, Schedule(s));
    } else {
      TickShuffles(s);
      ShuffledOk(s, TickStep(s));
    }
  }

  lemma TickShuffles(s: Sys)
    requires Closed(s) && Cur(s).ticks != 0
    ensures Shuffled(s, TickStep(s))
  {
  }

  lemma YieldOk(s: Sys)
    requires Inv(s) && Enabled(s, Yield)
    ensures s.running !in s.ready && Switchable(Yielded(s)) && Inv(Step(s, Yield))
  {
    hide LocksOk, SemasOk, Schedule, Shuffled, Switchable;
    InvCloses(s);
    YieldSwitches(s);
    var y := Yielded(s);
    ScheduleOk(y);
    ScheduleAside(y);
    assert Shuffled(s, y) by { StatusShuffles(s, Ready, y.ready); }
    ShuffledOk(s, y);
    ShuffledOk(y, Schedule(y));
  }

  lemma YieldSwitches(s: Sys)
    requires Scheduled(s)
    ensures s.running !in s.ready && Switchable(Yielded(s))
  {
    var y := Yielded(s);
    assert s.running !in s.ready;
    assert y.ready[|s.ready|] == s.running;
    forall t ensures t in y.ready <==> t in y.threads && y.threads[t].status == Ready {
      assert t in y.ready <==> t in s.ready || t == s.running;
    }
  }

  /** The running thread, in no sema_down, changes its status. */
  lemma StatusShuffles(s: Sys, st: Status, ready: seq<Tid>)
    requires s.running in s.threads && Cur(s).pc == Out
    ensures Shuffled(s, WithStatus(s, s.running, st).(ready := ready))
  {
  }

  lemma BlockOk(s: Sys, st: Status)
    requires Inv(s) && Enabled(s, Block(st))
    ensures Switchable(WithStatus(s, s.running, st)) && Inv(Step(s, Block(st)))
  {
    hide LocksOk, SemasOk, Schedule, Shuffled;
    InvCloses(s);
    var b := WithStatus(s, s.running, st);
    ScheduleOk(b);
    ScheduleAside(b);
    StatusShuffles(s, st, s.ready);
    ShuffledOk(s, b);
    ShuffledOk(b, Schedule(b));
  }

  lemma WakeOk(s: Sys, t: Tid)
    requires Inv(s) && Enabled(s, Wake(t))
    ensures t !in s.ready && Inv(Step(s, Wake(t)))
  {
    hide LocksOk, SemasOk, ReadyList, Slices, OnlyOne;
    UnblockOk(s, t);
    UnblockAside(s, t);
  }

  /** The thread is at some place of a lock's code outside of sema_down, or nowhere. */
  lemma UnblockAside(s: Sys, t: Tid)
    requires LocksOk(s) && SemasOk(s) && t in s.threads && !s.threads[t].pc.Down? && !s.threads[t].pc.Await?
    ensures var s' := Unblock(s, t); LocksOk(s') && SemasOk(s')
  {
    hide LockOk, WaitersOk, NoLostWakeup, SemaOk;
    AsideOk(s, Unblock(s, t));
    ApartOk(s, Unblock(s, t));
  }

  lemma UnblockOk(s: Sys, t: Tid)
    requires Scheduled(s) && t in s.threads && s.threads[t].status in {Blocked, Waiting, Hanging}
    ensures t !in s.ready && Scheduled(Unblock(s, t))
  {
    var s' := Unblock(s, t);
    assert t !in s.ready;
    forall u ensures u in s'.ready <==> u in s'.threads && s'.threads[u].status == Ready {
      assert u in s'.ready <==> u == t || u in s.ready;
    }
    assert s.running != t;
  }

  lemma StartOk(s: Sys, t: Tid, p: nat)
    requires Inv(s) && Enabled(s, Start(t, p))
    ensures t !in s.ready && Inv(Step(s, Start(t, p)))
  {
    hide LocksOk, SemasOk;
    InvCloses(s);
    var s' := Step(s, Start(t, p));
    StartScheduled(s, t, p);
    SameButOne(s, s', t);
  }

  lemma StartScheduled(s: Sys, t: Tid, p: nat)
    requires Scheduled(s) && t !in s.threads
    ensures t !in s.ready && Scheduled(With(s, t, Thread(Ready, p, p, Out, map[])).(ready := s.ready + [t]))
  {
    var s' := With(s, t, Thread(Ready, p, p, Out, map[])).(ready := s.ready + [t]);
    assert t !in s.ready;
    assert s'.ready[|s.ready|] == t;
    forall u ensures u in s'.ready <==> u in s'.threads && s'.threads[u].status == Ready {
      assert u in s'.ready <==> u == t || u in s.ready;
    }
  }

  lemma ReapOk(s: Sys, t: Tid)
    requires Inv(s) && Enabled(s, Reap(t))
    ensures Inv(Step(s, Reap(t)))
  {
    hide LocksOk, SemasOk;
    var s' := Step(s, Reap(t));
    ReapScheduled(s, t);
    SameButOne(s, s', t);
  }

  lemma ReapScheduled(s: Sys, t: Tid)
    requires Scheduled(s) && t in s.threads && t != s.running && t != s.idle
    ensures Scheduled(s.(threads := s.threads - {t}, ready := Without(s.ready, t)))
  {
    WithoutOk(s.ready, t);
  }
}
