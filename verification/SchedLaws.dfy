/** Who runs next: the effect of each switch, and the order of turns over whole runs (thread.c, timer.c,
    sync.c). Nothing here speaks of how a switch is done. */
module SchedLaws {
  import opened Lists
  import opened SchedSpec
  import opened LockSteps

  // ------------------------------------------------------------------
  // The effect of a switch
  // ------------------------------------------------------------------

  /** The first of q has the processor and the others are ready, in order. The thread that ran before is
      left as given; nobody else has changed. */
  ghost predicate Handed(s: Sys, s': Sys, q: seq<Tid>, left: Thread) {
    && q != [] && s'.running == q[0] && s'.ready == q[1..] && s'.idle == s.idle && s'.threads.Keys == s.threads.Keys
    && forall t :: t in s.threads ==>
         s'.threads[t] ==
           (var th := if t == s.running then left else s.threads[t]; if t == q[0] then th.(status := Running) else th)
  }

  /** Who runs when the running thread cannot: the ready threads, or idle if there is none. */
  function Others(s: Sys): seq<Tid> {
    if s.ready == [] then [s.idle] else s.ready
  }

  /** schedule of a thread that is still running. */
  lemma ScheduleRunning(s: Sys)
    requires Switchable(s) && Cur(s).status == Running
    ensures Closed(s) && Handed(s, Schedule(s), s.ready + [s.running], Cur(s).(status := Ready, ticks := Cur(s).priority))
    ensures Schedule(s).locks == s.locks && Schedule(s).semas == s.semas
  {
    hide Slices, OnlyOne, ReadyList;
    SwitchableCloses(s);
    PutBackOk(s);
    WakeIdleOk(PutBack(s));
  }

  /** schedule of a thread that has left the running state. */
  lemma ScheduleStopped(s: Sys)
    requires Switchable(s) && Cur(s).status != Running
    ensures Closed(s) && Handed(s, Schedule(s), Others(s), Cur(s))
    ensures Schedule(s).locks == s.locks && Schedule(s).semas == s.semas
  {
    hide Slices, OnlyOne, ReadyList;
    SwitchableCloses(s);
    WakeIdleOk(s);
  }

  /** A timer tick. When the slice is used up the thread goes behind all ready ones, with a full slice,
      and the first of them runs; otherwise one tick is gone and that is all. */
  lemma TickLaw(s: Sys)
    requires Inv(s) && Enabled(s, Tick)
    ensures var s' := Step(s, Tick); s'.locks == s.locks && s'.semas == s.semas
    ensures Cur(s).ticks == 0 ==>
      Handed(s, Step(s, Tick), s.ready + [s.running], Cur(s).(status := Ready, ticks := Cur(s).priority))
    ensures Cur(s).ticks > 0 ==>
      var s' := Step(s, Tick);
      s'.running == s.running && s'.ready == s.ready && s'.idle == s.idle
      && s'.threads == s.threads[s.running := Cur(s).(ticks := Cur(s).ticks - 1)]
  {
    hide LocksOk, SemasOk, Schedule, Handed;
    InvCloses(s);
    if Cur(s).ticks == 0 { ScheduleRunning(s); }
  }

  /** thread_yield: as with the tick, but the rest of the slice stays. */
  lemma YieldLaw(s: Sys)
    requires Inv(s) && Enabled(s, Yield)
    ensures var s' := Step(s, Yield);
      Handed(s, s', s.ready + [s.running], Cur(s).(status := Ready)) && s'.locks == s.locks && s'.semas == s.semas
  {
    hide LocksOk, SemasOk, Schedule, Handed;
    InvCloses(s);
    YieldOk(s);
    ScheduleStopped(Yielded(s));
    YieldHands(s, Step(s, Yield));
  }

  lemma YieldHands(s: Sys, s': Sys)
    requires s.running in s.threads && Handed(Yielded(s), s', Others(Yielded(s)), Cur(Yielded(s)))
    ensures Handed(s, s', s.ready + [s.running], Cur(s).(status := Ready))
  {
  }

  /** thread_block: the thread is left in its new state, and the first ready thread runs, or idle. */
  lemma BlockLaw(s: Sys, st: Status)
    requires Inv(s) && Enabled(s, Block(st))
    ensures var s' := Step(s, Block(st));
      Handed(s, s', Others(s), Cur(s).(status := st)) && s'.locks == s.locks && s'.semas == s.semas
  {
    hide LocksOk, SemasOk, Schedule, Handed;
    InvCloses(s);
    BlockOk(s, st);
    ScheduleStopped(WithStatus(s, s.running, st));
    BlockHands(s, st, Step(s, Block(st)));
  }

  lemma BlockHands(s: Sys, st: Status, s': Sys)
    requires s.running in s.threads && Handed(WithStatus(s, s.running, st), s', Others(s), Cur(s).(status := st))
    ensures Handed(s, s', Others(s), Cur(s).(status := st))
  {
  }

  /** Nobody else runs now; thread t is the next in turn. */
  ghost predicate NextInTurn(s: Sys, s': Sys, t: Tid) {
    && t in s.threads && s'.running == s.running && s'.idle == s.idle && s'.ready == [t] + s.ready
    && s'.threads == s.threads[t := s.threads[t].(status := Ready)]
  }

  /** thread_unblock: the thread goes in front of all ready ones. */
  lemma WakeLaw(s: Sys, t: Tid)
    requires Inv(s) && Enabled(s, Wake(t))
    ensures var s' := Step(s, Wake(t)); NextInTurn(s, s', t) && s'.locks == s.locks && s'.semas == s.semas
  {
  }

  /** sema_down of a lock's semaphore: at zero the thread goes behind all waiters and the processor to
      the next; otherwise the value is taken and the thread goes on. */
  lemma DownLaw(s: Sys, l: LockId)
    requires Inv(s) && Cur(s).pc == Down(l)
    ensures l in s.locks
    ensures s.locks[l].value == 0 ==> var s' := Step(s, Advance);
      Handed(s, s', Others(s), Cur(s).(status := Blocked))
      && s'.locks == s.locks[l := s.locks[l].(waiters := s.locks[l].waiters + [s.running])]
    ensures s.locks[l].value > 0 ==> var s' := Step(s, Advance);
      s'.running == s.running && s'.ready == s.ready && s'.locks[l].waiters == s.locks[l].waiters && s'.locks[l].value == 0
  {
    hide LocksOk, SemasOk, Schedule, Handed, Scheduled;
    InvCloses(s);
    InCode(s);
    Here(s, l);
    if s.locks[l].value == 0 {
      DownSwitches(s, l);
      ScheduleStopped(Queued(s, l));
      DownHands(s, l, Step(s, Advance));
    }
  }

  lemma DownSwitches(s: Sys, l: LockId)
    requires Inv(s) && l in s.locks && Cur(s).pc == Down(l)
    ensures Switchable(Queued(s, l)) && s.running in s.threads
  {
    hide LocksOk, SemasOk;
    Here(s, l);
    QueuedSwitchable(s, l);
  }

  lemma DownHands(s: Sys, l: LockId, s': Sys)
    requires s.running in s.threads && l in s.locks && Handed(Queued(s, l), s', Others(s), Cur(s).(status := Blocked))
    ensures Handed(s, s', Others(s), Cur(s).(status := Blocked))
  {
  }

  /** sema_up of a lock's semaphore: who has waited longest is the next in turn. */
  lemma UpLaw(s: Sys, l: LockId)
    requires Inv(s) && Cur(s).pc == Up(l)
    ensures l in s.locks
    ensures var s', ws := Step(s, Advance), s.locks[l].waiters;
      && s'.running == s.running && s'.locks[l].value == 1
      && (ws == [] ==> s'.ready == s.ready && s'.locks[l].waiters == [])
      && (ws != [] ==> s'.ready == [ws[0]] + s.ready && s'.locks[l].waiters == ws[1..])
      && (ws != [] ==> ws[0] in s'.threads && s'.threads[ws[0]].status == Ready)
  {
    hide LocksOk, SemasOk, Scheduled;
    InvCloses(s);
    InCode(s);
    UpOk(s, l);
    AllBlocked(s, l);
    RunningIs(s);
    if s.locks[l].waiters != [] { assert s.locks[l].waiters[0] in s.locks[l].waiters; }
  }

  lemma RunningIs(s: Sys)
    requires Inv(s)
    ensures s.running in s.threads && Cur(s).status == Running
  {
    hide LocksOk, SemasOk;
  }

  /** sema_down of a semaphore of its own. */
  lemma AwaitLaw(s: Sys, d: SemaId)
    requires Inv(s) && Cur(s).pc == Await(d)
    ensures d in s.semas
    ensures s.semas[d].value == 0 ==> var s' := Step(s, Advance);
      Handed(s, s', Others(s), Cur(s).(status := Blocked))
      && s'.semas == s.semas[d := Sema(0, s.semas[d].waiters + [s.running])]
    ensures s.semas[d].value > 0 ==> var s' := Step(s, Advance);
      s'.running == s.running && s'.ready == s.ready && s'.semas == s.semas[d := Sema(0, s.semas[d].waiters)]
  {
    hide LocksOk, SemasOk, Schedule, Handed, Scheduled;
    InvCloses(s);
    AwaitOk(s, d);
    RunningIs(s);
    if s.semas[d].value == 0 {
      ScheduleStopped(QueuedAt(s, d));
      AwaitHands(s, d, Step(s, Advance));
    }
  }

  lemma AwaitHands(s: Sys, d: SemaId, s': Sys)
    requires s.running in s.threads && d in s.semas && Handed(QueuedAt(s, d), s', Others(s), Cur(s).(status := Blocked))
    ensures Handed(s, s', Others(s), Cur(s).(status := Blocked))
  {
  }

  /** sema_up of one in an interrupt handler. */
  lemma SignalLaw(s: Sys, d: SemaId)
    requires Inv(s) && Enabled(s, Signal(d))
    ensures var s', ws := Step(s, Signal(d)), s.semas[d].waiters;
      if ws == [] then s' == s.(semas := s.semas[d := Sema(1, [])])
      else NextInTurn(s, s', ws[0]) && s'.semas == s.semas[d := Sema(1, ws[1..])] && s'.locks == s.locks
  {
    hide LocksOk, SemasOk, Scheduled;
    InvCloses(s);
    if s.semas[d].waiters != [] { assert s.semas[d].waiters[0] in s.semas[d].waiters; }
  }

  /** The running thread, and those that are to run after it. */
  function Line(s: Sys): seq<Tid> {
    [s.running] + s.ready
  }

  /** thread_start: the new thread is the last in line, with a full slice. thread_exit of another thread:
      the turns of the others stay as they are. */
  lemma StartLaw(s: Sys, t: Tid, p: nat)
    requires Inv(s) && Enabled(s, Start(t, p))
    ensures var s' := Step(s, Start(t, p));
      Line(s') == Line(s) + [t] && s'.threads == s.threads[t := Thread(Ready, p, p, Out, map[])]
  {
    assert Line(s) + [t] == [s.running] + (s.ready + [t]);
  }

  lemma ReapLaw(s: Sys, t: Tid)
    requires Inv(s) && Enabled(s, Reap(t))
    ensures var s' := Step(s, Reap(t));
      Line(s') == Without(Line(s), t) && s'.threads == s.threads - {t}
  {
    hide Inv;
    assert Line(s)[0] == s.running && Line(s)[1..] == s.ready;
  }

  // ------------------------------------------------------------------
  // Turns
  // ------------------------------------------------------------------

  /** The line after k turns: each time the first goes to the end. */
  function Turned(q: seq<Tid>, k: nat): seq<Tid> {
    if k == 0 || q == [] then q else var p := Turned(q, k - 1); if p == [] then p else p[1..] + [p[0]]
  }

  lemma {:induction false} TurnedIs(q: seq<Tid>, k: nat)
    requires k <= |q|
    ensures Turned(q, k) == q[k..] + q[..k]
  {
    if k > 0 {
      TurnedIs(q, k - 1);
      var p := q[k - 1..] + q[..k - 1];
      assert p[0] == q[k - 1] && p[1..] == q[k..] + q[..k - 1] && q[..k - 1] + [q[k - 1]] == q[..k];
    }
  }

  /** But for ticks, the run leaves alone who runs and who is ready: nobody is woken, blocked or started,
      and nobody yields. */
  ghost predicate Calm(states: seq<Sys>, events: seq<Event>) {
    Run(states, events) && forall i :: 0 <= i < |events| ==> CalmAt(states, events, i)
  }

  ghost predicate CalmAt(states: seq<Sys>, events: seq<Event>, i: nat)
    requires |states| == |events| + 1 && i < |events|
  {
    events[i] == Tick || Line(states[i + 1]) == Line(states[i])
  }

  /** The ticks among the first n events, and those that found the slice used up. */
  ghost function Ticks(events: seq<Event>, n: nat): nat
    requires n <= |events|
  {
    if n == 0 then 0 else Ticks(events, n - 1) + if events[n - 1] == Tick then 1 else 0
  }

  ghost function Expired(states: seq<Sys>, events: seq<Event>, n: nat): nat
    requires n <= |events| < |states|
  {
    if n == 0 then 0
    else Expired(states, events, n - 1) + if events[n - 1] == Tick && Cur(states[n - 1]).ticks == 0 then 1 else 0
  }

  /** The step at i. */
  lemma StepAt(states: seq<Sys>, events: seq<Event>, i: nat)
    requires Run(states, events) && i < |events|
    ensures Inv(states[i]) && Enabled(states[i], events[i]) && states[i + 1] == Step(states[i], events[i]) && Inv(states[i + 1])
  {
    hide Inv, Step, Enabled;
    RunOk(states, events, i);
    RunOk(states, events, i + 1);
    assert StepsTo(states[i], events[i], states[i + 1]);
  }

  /** Round robin: after k slices have been used up, the line has turned k times. */
  lemma {:induction false} RoundRobin(states: seq<Sys>, events: seq<Event>, n: nat)
    requires Calm(states, events) && n <= |events|
    ensures Line(states[n]) == Turned(Line(states[0]), Expired(states, events, n))
  {
    hide Inv, Step, Enabled, StepsTo, Turned, Line;
    StartTurn(Line(states[0]));
    if n > 0 {
      RoundRobin(states, events, n - 1);
      StepAt(states, events, n - 1);
      assert CalmAt(states, events, n - 1);
      TickLine(states[n - 1]);
      NextTurn(Line(states[0]), Expired(states, events, n - 1));
    }
  }

  lemma StartTurn(q: seq<Tid>)
    ensures Turned(q, 0) == q
  {
  }

  lemma NextTurn(q: seq<Tid>, k: nat)
    ensures Turned(q, k) != [] ==> Turned(q, k + 1) == Turned(q, k)[1..] + [Turned(q, k)[0]]
  {
  }

  lemma TickLine(s: Sys)
    requires Inv(s)
    ensures Line(s) != []
    ensures Enabled(s, Tick) ==> Line(Step(s, Tick)) == if Cur(s).ticks == 0 then Line(s)[1..] + [Line(s)[0]] else Line(s)
  {
    hide Inv, Step, Enabled;
    if Enabled(s, Tick) { TickLaw(s); }
    assert Line(s)[1..] == s.ready;
  }

  /** Nobody starves: the thread at place i of the ready list runs when i + 1 slices have been used
      up. */
  lemma InTurn(states: seq<Sys>, events: seq<Event>, n: nat, i: nat)
    requires Calm(states, events) && n <= |events| && i < |states[0].ready| && Expired(states, events, n) == i + 1
    ensures states[n].running == states[0].ready[i]
  {
    hide Inv, Step, Enabled, StepsTo, Turned;
    RoundRobin(states, events, n);
    var q := Line(states[0]);
    TurnedIs(q, i + 1);
    assert (q[i + 1..] + q[..i + 1])[0] == q[i + 1] == states[0].ready[i];
  }

  /** A slice lasts as many ticks as it has, and one more: until then the thread runs on, and each tick
      takes one of them; the next one is the first to find it used up. */
  lemma {:induction false} SliceLasts(states: seq<Sys>, events: seq<Event>, n: nat)
    requires Calm(states, events) && n <= |events| && Ticks(events, n) <= Cur(states[0]).ticks
    ensures Expired(states, events, n) == 0 && states[n].running == states[0].running && states[n].ready == states[0].ready
    ensures Cur(states[n]).ticks == Cur(states[0]).ticks - Ticks(events, n)
    ensures n < |events| && events[n] == Tick && Ticks(events, n) == Cur(states[0]).ticks ==> Expired(states, events, n + 1) == 1
  {
    hide Inv, Step, Enabled, StepsTo;
    if n > 0 {
      SliceLasts(states, events, n - 1);
      StepAt(states, events, n - 1);
      assert CalmAt(states, events, n - 1);
      if events[n - 1] == Tick {
        TickTakes(states[n - 1]);
      } else {
        SameLine(states[n - 1], states[n]);
        TicksKept(states[n - 1], events[n - 1]);
        CurSlice(states[n - 1], states[n]);
      }
    }
  }

  lemma SameLine(s: Sys, s': Sys)
    requires Line(s') == Line(s)
    ensures s'.running == s.running && s'.ready == s.ready
  {
    assert Line(s)[0] == s.running && Line(s')[0] == s'.running && Line(s)[1..] == s.ready && Line(s')[1..] == s'.ready;
  }

  lemma TickTakes(s: Sys)
    requires Inv(s) && Enabled(s, Tick) && Cur(s).ticks > 0
    ensures var s' := Step(s, Tick); s'.running == s.running && s'.ready == s.ready && Cur(s').ticks == Cur(s).ticks - 1
  {
    hide Inv, Step, Enabled;
    TickLaw(s);
    InvRuns(s);
  }

  lemma InvRuns(s: Sys)
    requires Inv(s)
    ensures s.running in s.threads
  {
  }

  ghost predicate SameSlices(s: Sys, s': Sys) {
    forall t :: t in s.threads && t in s'.threads ==>
      s'.threads[t].ticks == s.threads[t].ticks && s'.threads[t].priority == s.threads[t].priority
  }

  lemma CurSlice(s: Sys, s': Sys)
    requires Inv(s) && Inv(s') && SameSlices(s, s') && s'.running == s.running
    ensures Cur(s').ticks == Cur(s).ticks
  {
    hide LocksOk, SemasOk;
  }

  /** Only the timer takes ticks or gives them. */
  lemma TicksKept(s: Sys, e: Event)
    requires Inv(s) && Enabled(s, e) && e != Tick
    ensures SameSlices(s, Step(s, e))
  {
    hide Inv, Step, Enabled, Schedule;
    match e
    case Yield => YieldLaw(s);
    case Block(st) => BlockLaw(s, st);
    case Advance => AdvanceKeeps(s);
    case _ => OtherKeeps(s, e);
  }

  lemma OtherKeeps(s: Sys, e: Event)
    requires Inv(s) && Enabled(s, e) && !e.Tick? && !e.Yield? && !e.Block? && !e.Advance?
    ensures SameSlices(s, Step(s, e))
  {
    hide LocksOk, SemasOk, Scheduled;
    InvCloses(s);
  }

  lemma AdvanceKeeps(s: Sys)
    requires Inv(s) && Enabled(s, Advance)
    ensures SameSlices(s, Step(s, Advance))
  {
    hide LocksOk, SemasOk, Scheduled, Schedule;
    InvCloses(s);
    if Cur(s).pc.Down? {
      DownLaw(s, Cur(s).pc.l);
    } else if Cur(s).pc.Await? {
      AwaitLaw(s, Cur(s).pc.d);
    }
  }

  // ------------------------------------------------------------------
  // Nesting
  // ------------------------------------------------------------------

  /** A call of lock_acquire that has not come back counts one, one of lock_release minus one. */
  function Pending(th: Thread, l: LockId): int {
    match At(th, l)
    case Out => 0
    case Await(_) => 0
    case Acquire(_) => 1
    case Down(_) => 1
    case SetHolder(_) => 1
    case SetOne(_) => 1
    case Again(_) => 1
    case _ => -1
  }

  /** How often the thread called lock_acquire of l in the first n events, less how often it called
      lock_release. */
  ghost function Calls(states: seq<Sys>, events: seq<Event>, t: Tid, l: LockId, n: nat): int
    requires n <= |events| < |states|
  {
    if n == 0 then 0
    else Calls(states, events, t, l, n - 1) + (if states[n - 1].running != t then 0 else CallCounts(events[n - 1], l))
  }

  function CallCounts(e: Event, l: LockId): int {
    if e == CallAcquire(l) then 1 else if e == CallRelease(l) then -1 else 0
  }

  /** Acquisitions the thread has, with those under way. */
  function Held(s: Sys, t: Tid, l: LockId): int {
    Nest(ThreadOf(s, t), l) + Pending(ThreadOf(s, t), l)
  }

  lemma HeldStep(s: Sys, e: Event, t: Tid, l: LockId)
    requires Inv(s) && Enabled(s, e) && l in s.locks
    ensures Held(Step(s, e), t, l) == Held(s, t, l) + (if s.running != t then 0 else CallCounts(e, l))
  {
    hide Inv, Step, Enabled, Schedule;
    match e
    case Tick => TickLaw(s);
    case Yield => YieldLaw(s);
    case Block(st) => BlockLaw(s, st);
    case Advance => AdvanceHeld(s, t, l);
    case _ => OtherHeld(s, e, t, l);
  }

  lemma OtherHeld(s: Sys, e: Event, t: Tid, l: LockId)
    requires Inv(s) && Enabled(s, e) && l in s.locks && !e.Tick? && !e.Yield? && !e.Block? && !e.Advance?
    ensures Held(Step(s, e), t, l) == Held(s, t, l) + (if s.running != t then 0 else CallCounts(e, l))
  {
    hide LocksOk, SemasOk, Scheduled;
    InvCloses(s);
  }

  lemma AdvanceHeld(s: Sys, t: Tid, l: LockId)
    requires Inv(s) && Enabled(s, Advance) && l in s.locks
    ensures Held(Step(s, Advance), t, l) == Held(s, t, l)
  {
    hide Inv, Step, Schedule, Held;
    match Cur(s).pc
    case Down(m) => DownHeld(s, m, t, l);
    case Await(d) => AwaitHeld(s, d, t, l);
    case Up(m) => UpHeld(s, m, t, l);
    case _ => LocalHeld(s, t, l);
  }

  lemma DownHeld(s: Sys, m: LockId, t: Tid, l: LockId)
    requires Inv(s) && Cur(s).pc == Down(m)
    ensures Held(Step(s, Advance), t, l) == Held(s, t, l)
  {
    hide LocksOk, SemasOk, Scheduled, Schedule;
    InvCloses(s);
    DownLaw(s, m);
  }

  lemma AwaitHeld(s: Sys, d: SemaId, t: Tid, l: LockId)
    requires Inv(s) && Cur(s).pc == Await(d)
    ensures Held(Step(s, Advance), t, l) == Held(s, t, l)
  {
    hide LocksOk, SemasOk, Scheduled, Schedule;
    InvCloses(s);
    AwaitLaw(s, d);
  }

  lemma UpHeld(s: Sys, m: LockId, t: Tid, l: LockId)
    requires Inv(s) && Cur(s).pc == Up(m)
    ensures Held(Step(s, Advance), t, l) == Held(s, t, l)
  {
    hide LocksOk, SemasOk, Scheduled;
    InvCloses(s);
    InCode(s);
    Here(s, m);
  }

  lemma LocalHeld(s: Sys, t: Tid, l: LockId)
    requires Inv(s) && InLock(Cur(s).pc) && !Cur(s).pc.Down? && !Cur(s).pc.Up?
    ensures Held(Step(s, Advance), t, l) == Held(s, t, l)
  {
    hide LocksOk, SemasOk, Scheduled;
    InvCloses(s);
    Here(s, Cur(s).pc.l);
  }

  /** Over every run the acquisitions a thread has are its calls of lock_acquire less those of
      lock_release, but for the call it is in. */
  lemma {:induction false} HeldRun(states: seq<Sys>, events: seq<Event>, t: Tid, l: LockId, n: nat)
    requires Run(states, events) && n <= |events| && l in states[0].locks
    ensures l in states[n].locks && Held(states[n], t, l) == Held(states[0], t, l) + Calls(states, events, t, l, n)
  {
    hide Inv, Step, Enabled, StepsTo, Held;
    if n > 0 {
      HeldRun(states, events, t, l, n - 1);
      StepAt(states, events, n - 1);
      HeldStep(states[n - 1], events[n - 1], t, l);
      LocksStay(states[n - 1], events[n - 1]);
    }
  }

  lemma LocksStay(s: Sys, e: Event)
    requires Inv(s) && Enabled(s, e)
    ensures Step(s, e).locks.Keys == s.locks.Keys
  {
    hide LocksOk, SemasOk, Scheduled, Schedule;
    InvCloses(s);
    match e
    case Tick => TickLaw(s);
    case Yield => YieldLaw(s);
    case Block(st) => BlockLaw(s, st);
    case Advance =>
      if Cur(s).pc.Down? {
        DownLaw(s, Cur(s).pc.l);
      } else if Cur(s).pc.Await? {
        AwaitLocks(s, Cur(s).pc.d);
      }
    case _ =>
  }

  lemma AwaitLocks(s: Sys, d: SemaId)
    requires Inv(s) && Cur(s).pc == Await(d)
    ensures Step(s, Advance).locks == s.locks
  {
    hide LocksOk, SemasOk, Scheduled, Schedule;
    InvCloses(s);
    AwaitOk(s, d);
    if s.semas[d].value == 0 { ScheduleStopped(QueuedAt(s, d)); }
  }

  /** The count in a lock, over every run from thread_init on: it is how often its holder has called
      lock_acquire, less how often it has called lock_release. */
  lemma DepthCounts(states: seq<Sys>, events: seq<Event>, p: nat, locks: set<LockId>, semas: set<SemaId>, t: Tid, l: LockId, n: nat)
    requires Run(states, events) && n <= |events| && states[0] == Boot(p, locks, semas) && l in locks
    requires t in states[n].threads && At(states[n].threads[t], l) == Out && Calls(states, events, t, l, n) > 0
    ensures l in states[n].locks && states[n].locks[l].holder == t && states[n].locks[l].repeat == Calls(states, events, t, l, n)
  {
    hide Inv, Step, Enabled, StepsTo;
    HeldRun(states, events, t, l, n);
    MutualExclusion(states, events, n, l, t, t);
  }
}
