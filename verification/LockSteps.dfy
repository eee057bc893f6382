/** Every step of lock_acquire and lock_release keeps the invariant, in every interleaving. */
module LockSteps {
  import opened Lists
  import opened SchedSpec

  // ------------------------------------------------------------------
  // A step that changes only the running thread and one lock
  // ------------------------------------------------------------------

  /** The running thread becomes th, lock l becomes k. */
  function Local(s: Sys, l: LockId, k: Lock, th: Thread): Sys {
    With(SetLock(s, l, k), s.running, th)
  }

  /** The thread moved only in the code of lock l. */
  ghost predicate MovesIn(th: Thread, th': Thread, l: LockId) {
    && th' == th.(pc := th'.pc, nest := th'.nest)
    && (th.pc == Out || (InLock(th.pc) && th.pc.l == l)) && (th'.pc == Out || (InLock(th'.pc) && th'.pc.l == l))
    && (forall m :: m != l ==> Nest(th', m) == Nest(th, m))
  }

  /** The new owner and the new lock agree. */
  ghost predicate OwnerAgrees(k: Lock, k': Lock, t: Tid, th: Thread, th': Thread, l: LockId) {
    && PlaceOk(th', l) && k'.value <= 1
    && (Owns(th', l) ==> k'.value == 0 && SaysOwner(k', t, th', l) && (Owns(th, l) || k.value == 1))
    && (Owns(th, l) && !Owns(th', l) ==> k'.value == 1 && k'.holder == NOBODY && k'.repeat == 0)
    && (!Owns(th, l) && !Owns(th', l) ==> k' == k)
  }

  lemma LocalLock(s: Sys, l: LockId, k': Lock, th': Thread)
    requires s.running in s.threads && l in s.locks && LockOk(s, l) && MovesIn(Cur(s), th', l)
    requires OwnerAgrees(s.locks[l], k', s.running, Cur(s), th', l)
    ensures LockOk(Local(s, l, k', th'), l)
  {
    var s', t, th := Local(s, l, k', th'), s.running, Cur(s);
    hide PlaceOk, SaysOwner;
    assert forall u :: u in s.threads && u != t ==> s'.threads[u] == s.threads[u];
    if Owns(th, l) || Owns(th', l) {
      assert forall u :: u in s.threads && u != t ==> !Owns(s.threads[u], l) by { NoOther(s, l); }
      assert HasOwner(s', l) <==> Owns(th', l) by {
        if Owns(th', l) { assert t in s'.threads && Owns(s'.threads[t], l); }
      }
    } else {
      assert HasOwner(s', l) <==> HasOwner(s, l) by { SameOwner(s, l, k', th'); }
    }
  }

  /** When the running thread owns the lock, or the lock is free, nobody else owns it. */
  lemma NoOther(s: Sys, l: LockId)
    requires s.running in s.threads && l in s.locks && LockOk(s, l) && (Owns(Cur(s), l) || s.locks[l].value == 1)
    ensures forall u :: u in s.threads && u != s.running ==> !Owns(s.threads[u], l)
  {
  }

  lemma SameOwner(s: Sys, l: LockId, k': Lock, th': Thread)
    requires s.running in s.threads && !Owns(Cur(s), l) && !Owns(th', l)
    ensures HasOwner(Local(s, l, k', th'), l) <==> HasOwner(s, l)
  {
    var s' := Local(s, l, k', th');
    if HasOwner(s, l) {
      var u :| u in s.threads && Owns(s.threads[u], l);
      assert u in s'.threads && Owns(s'.threads[u], l);
    }
    if HasOwner(s', l) {
      var u :| u in s'.threads && Owns(s'.threads[u], l);
      assert u in s.threads && Owns(s.threads[u], l);
    }
  }

  lemma LocalWaiters(s: Sys, l: LockId, k': Lock, th': Thread)
    requires s.running in s.threads && l in s.locks && WaitersOk(s, l) && MovesIn(Cur(s), th', l)
    requires Cur(s).status == Running && k'.waiters == s.locks[l].waiters
    ensures WaitersOk(Local(s, l, k', th'), l)
    ensures At(th', l).Down? ==> AboutToLook(Local(s, l, k', th'), l)
    ensures AboutToLook(s, l) && !At(Cur(s), l).Down? ==> AboutToLook(Local(s, l, k', th'), l)
  {
    var s', t := Local(s, l, k', th'), s.running;
    assert t !in s.locks[l].waiters;
    if At(th', l).Down? {
      assert t in s'.threads && At(s'.threads[t], l).Down? && s'.threads[t].status in {Running, Ready};
    } else if AboutToLook(s, l) && !At(Cur(s), l).Down? {
      var u :| u in s.threads && At(s.threads[u], l).Down? && s.threads[u].status in {Running, Ready};
      assert u in s'.threads && At(s'.threads[u], l).Down? && s'.threads[u].status in {Running, Ready};
    }
  }

  lemma LocalOthers(s: Sys, l: LockId, k': Lock, th': Thread, m: LockId)
    requires LocksOk(s) && s.running in s.threads && MovesIn(Cur(s), th', l) && m in s.locks && m != l
    ensures var s' := Local(s, l, k', th'); LockOk(s', m) && WaitersOk(s', m) && NoLostWakeup(s', m)
  {
    hide LockOk, WaitersOk, AboutToLook;
    var s' := Local(s, l, k', th');
    assert SamePlaces(s, s', m) && SameWaiting(s, s', m);
    LockKept(s, s', m);
    WaitersKept(s, s', m);
  }

  lemma LocalScheduled(s: Sys, l: LockId, k': Lock, th': Thread)
    requires Scheduled(s) && MovesIn(Cur(s), th', l) && s.running != s.idle
    ensures Scheduled(Local(s, l, k', th'))
  {
    var s' := Local(s, l, k', th');
    assert forall t :: t in s.threads ==> s'.threads[t].status == s.threads[t].status;
  }

  /** A local step keeps the invariant, if the lock and its owner agree after it and no wakeup is
      lost. */
  lemma LocalOk(s: Sys, l: LockId, k': Lock, th': Thread)
    requires Inv(s) && l in s.locks && MovesIn(Cur(s), th', l) && s.running != s.idle
    requires OwnerAgrees(s.locks[l], k', s.running, Cur(s), th', l) && k'.waiters == s.locks[l].waiters
    requires k'.value == 1 && k'.waiters != [] ==>
      At(th', l).Down? || (AboutToLook(s, l) && !At(Cur(s), l).Down?)
    ensures Inv(Local(s, l, k', th'))
  {
    hide LockOk, WaitersOk, OwnerAgrees, AboutToLook, Scheduled, SemasOk;
    var s' := Local(s, l, k', th');
    ScheduledCur(s);
    LocalScheduled(s, l, k', th');
    LocalLock(s, l, k', th');
    LocalWaiters(s, l, k', th');
    forall m | m in s'.locks ensures LockOk(s', m) && WaitersOk(s', m) && NoLostWakeup(s', m) {
      if m != l { LocalOthers(s, l, k', th', m); }
    }
    PcsKnown(s, l, k', th');
    LocalApart(s, l, k', th');
  }

  /** The running thread is in no sema_down of a semaphore of its own, before and after. */
  lemma LocalApart(s: Sys, l: LockId, k': Lock, th': Thread)
    requires SemasOk(s) && s.running in s.threads && MovesIn(Cur(s), th', l)
    ensures SemasOk(Local(s, l, k', th'))
  {
    hide SemaOk;
    ApartOk(s, Local(s, l, k', th'));
  }

  lemma ScheduledCur(s: Sys)
    requires Scheduled(s)
    ensures s.running in s.threads && Cur(s).status == Running
  {
  }

  lemma PcsKnown(s: Sys, l: LockId, k': Lock, th': Thread)
    requires LocksOk(s) && s.running in s.threads && l in s.locks && MovesIn(Cur(s), th', l)
    ensures var s' := Local(s, l, k', th'); forall t :: t in s'.threads && InLock(s'.threads[t].pc) ==> s'.threads[t].pc.l in s'.locks
  {
  }

  // ------------------------------------------------------------------
  // The steps
  // ------------------------------------------------------------------

  /** What the invariant says of one lock to the running thread. */
  lemma Here(s: Sys, l: LockId)
    requires Inv(s) && l in s.locks
    ensures s.running in s.threads && PlaceOk(Cur(s), l) && s.locks[l].value <= 1
    ensures Owns(Cur(s), l) ==> SaysOwner(s.locks[l], s.running, Cur(s), l) && s.locks[l].value == 0
    ensures !Owns(Cur(s), l) ==> s.locks[l].holder != s.running
    ensures s.locks[l].value == 1 && s.locks[l].waiters != [] ==> AboutToLook(s, l)
    ensures Cur(s).pc != Out ==> s.running != s.idle
  {
    hide PlaceOk, SaysOwner, WaitersOk, SemasOk;
    assert LockOk(s, l) && NoLostWakeup(s, l);
    var k, t := s.locks[l], s.running;
    if Owns(Cur(s), l) {
      assert HasOwner(s, l);
    } else if HasOwner(s, l) {
      var u :| u in s.threads && Owns(s.threads[u], l);
      OtherHolds(k, u, s.threads[u], l, t);
    }
  }

  lemma OtherHolds(k: Lock, u: Tid, th: Thread, l: LockId, t: Tid)
    requires SaysOwner(k, u, th, l) && u != t
    ensures k.holder != t
  {
  }

  lemma InCode(s: Sys)
    requires Inv(s) && InLock(Cur(s).pc)
    ensures Cur(s).pc.l in s.locks
  {
  }

  /** A step that only moves the running thread in the code of l. */
  lemma PcOnly(s: Sys, l: LockId, pc: Pc)
    requires Inv(s) && l in s.locks && s.running != s.idle
    requires (Cur(s).pc == Out || (InLock(Cur(s).pc) && Cur(s).pc.l == l)) && InLock(pc) && pc.l == l
    requires var th := Cur(s).(pc := pc);
      OwnerAgrees(s.locks[l], s.locks[l], s.running, Cur(s), th, l)
      && !At(Cur(s), l).Down?
    ensures Inv(SetPc(s, pc))
  {
    hide LocksOk, SemasOk, Scheduled, OwnerAgrees, AboutToLook;
    Here(s, l);
    LocalOk(s, l, s.locks[l], Cur(s).(pc := pc));
    assert s.locks[l := s.locks[l]] == s.locks;
  }

  lemma CallAcquireOk(s: Sys, l: LockId)
    requires Inv(s) && Enabled(s, CallAcquire(l))
    ensures Inv(Step(s, CallAcquire(l)))
  {
    hide LocksOk, SemasOk, Scheduled, AboutToLook;
    Here(s, l);
    PcOnly(s, l, Acquire(l));
  }

  lemma CallReleaseOk(s: Sys, l: LockId)
    requires Inv(s) && Enabled(s, CallRelease(l))
    ensures Inv(Step(s, CallRelease(l)))
  {
    hide LocksOk, SemasOk, Scheduled, AboutToLook;
    Here(s, l);
    PcOnly(s, l, Release(l));
  }

  /** lock_acquire, the test of the holder: it finds itself there exactly when it has the lock. */
  lemma AcquireOk(s: Sys, l: LockId)
    requires Inv(s) && Cur(s).pc == Acquire(l)
    ensures l in s.locks && (s.locks[l].holder == s.running <==> Nest(Cur(s), l) > 0)
    ensures Inv(Step(s, Advance))
  {
    hide LocksOk, SemasOk, Scheduled, AboutToLook;
    InCode(s);
    Here(s, l);
    PcOnly(s, l, if s.locks[l].holder != s.running then Down(l) else Again(l));
  }

  /** lock_release, its tests: the caller is the holder and its count is positive. */
  lemma ReleaseOk(s: Sys, l: LockId)
    requires Inv(s) && Cur(s).pc == Release(l)
    ensures l in s.locks && s.locks[l].holder == s.running && s.locks[l].repeat >= 1
    ensures Inv(Step(s, Advance))
  {
    hide LocksOk, SemasOk, Scheduled, AboutToLook;
    InCode(s);
    Here(s, l);
    PcOnly(s, l, if s.locks[l].repeat > 1 then Less(l) else ClearHolder(l));
  }

  /** sema_down, finding the value positive: it becomes zero. */
  lemma TakenOk(s: Sys, l: LockId)
    requires Inv(s) && Cur(s).pc == Down(l) && l in s.locks && s.locks[l].value != 0
    ensures s.locks[l].value == 1 && Inv(Taken(s, l))
  {
    hide LocksOk, SemasOk, Scheduled, AboutToLook;
    Here(s, l);
    assert s.locks[l].value == 1;
    FreeLock(s, l);
    LocalOk(s, l, s.locks[l].(value := 0), Cur(s).(pc := SetHolder(l)));
  }

  lemma FreeLock(s: Sys, l: LockId)
    requires Inv(s) && l in s.locks && s.locks[l].value == 1
    ensures s.locks[l].holder == NOBODY && s.locks[l].repeat == 0
  {
    assert LockOk(s, l);
  }

  /** lock_acquire after sema_down: the holder is set, the count is zero. */
  lemma SetHolderOk(s: Sys, l: LockId)
    requires Inv(s) && Cur(s).pc == SetHolder(l)
    ensures l in s.locks && s.locks[l].repeat == 0 && Inv(Step(s, Advance))
  {
    hide LocksOk, SemasOk, Scheduled, AboutToLook;
    InCode(s);
    Here(s, l);
    LocalOk(s, l, s.locks[l].(holder := s.running), Cur(s).(pc := SetOne(l)));
  }

  lemma SetOneOk(s: Sys, l: LockId)
    requires Inv(s) && Cur(s).pc == SetOne(l)
    ensures l in s.locks && s.locks[l].repeat == 0 && Inv(Step(s, Advance))
  {
    hide LocksOk, SemasOk, Scheduled, AboutToLook;
    InCode(s);
    Here(s, l);
    LocalOk(s, l, s.locks[l].(repeat := 1), Cur(s).(pc := Out, nest := Cur(s).nest[l := 1]));
  }

  lemma AgainOk(s: Sys, l: LockId)
    requires Inv(s) && Cur(s).pc == Again(l)
    ensures Inv(Step(s, Advance))
  {
    hide LocksOk, SemasOk, Scheduled, AboutToLook;
    InCode(s);
    Here(s, l);
    LocalOk(s, l, s.locks[l].(repeat := s.locks[l].repeat + 1), Cur(s).(pc := Out, nest := Cur(s).nest[l := Nest(Cur(s), l) + 1]));
  }

  lemma LessOk(s: Sys, l: LockId)
    requires Inv(s) && Cur(s).pc == Less(l)
    ensures l in s.locks && s.locks[l].repeat >= 2 && Inv(Step(s, Advance))
  {
    hide LocksOk, SemasOk, Scheduled, AboutToLook;
    InCode(s);
    Here(s, l);
    LocalOk(s, l, s.locks[l].(repeat := s.locks[l].repeat - 1), Cur(s).(pc := Out, nest := Cur(s).nest[l := Nest(Cur(s), l) - 1]));
  }

  lemma ClearHolderOk(s: Sys, l: LockId)
    requires Inv(s) && Cur(s).pc == ClearHolder(l)
    ensures l in s.locks && s.locks[l].repeat == 1 && Inv(Step(s, Advance))
  {
    hide LocksOk, SemasOk, Scheduled, AboutToLook;
    InCode(s);
    Here(s, l);
    LocalOk(s, l, s.locks[l].(holder := NOBODY), Cur(s).(pc := ClearCount(l)));
  }

  lemma ClearCountOk(s: Sys, l: LockId)
    requires Inv(s) && Cur(s).pc == ClearCount(l)
    ensures Inv(Step(s, Advance))
  {
    hide LocksOk, SemasOk, Scheduled, AboutToLook;
    InCode(s);
    Here(s, l);
    LocalOk(s, l, s.locks[l].(repeat := 0), Cur(s).(pc := Up(l)));
  }

  // ------------------------------------------------------------------
  // sema_down, waiting
  // ------------------------------------------------------------------

  /** The thread joins the waiters and is blocked: everything but the processor is in order. */
  lemma QueuedLocks(s: Sys, l: LockId)
    requires Inv(s) && l in s.locks && Cur(s).pc == Down(l) && s.locks[l].value == 0
    ensures s.running !in s.locks[l].waiters && LocksOk(Queued(s, l))
  {
    hide LockOk, WaitersOk, NoLostWakeup, SemasOk;
    var q := Queued(s, l);
    NotWaiting(s, l);
    forall m | m in q.locks ensures LockOk(q, m) && WaitersOk(q, m) && NoLostWakeup(q, m) {
      QueuedLock(s, l, m);
    }
  }

  lemma NotWaiting(s: Sys, l: LockId)
    requires s.running in s.threads && Cur(s).status == Running && l in s.locks && WaitersOk(s, l)
    ensures s.running !in s.locks[l].waiters
  {
  }

  lemma QueuedLock(s: Sys, l: LockId, m: LockId)
    requires s.running in s.threads && Cur(s).status == Running && l in s.locks && Cur(s).pc == Down(l) && s.locks[l].value == 0
    requires m in s.locks && LockOk(s, m) && WaitersOk(s, m) && NoLostWakeup(s, m)
    ensures var q := Queued(s, l); LockOk(q, m) && WaitersOk(q, m) && NoLostWakeup(q, m)
  {
    hide LockOk, WaitersOk, AboutToLook;
    var q := Queued(s, l);
    assert SamePlaces(s, q, m);
    LockKept(s, q, m);
    if m == l {
      QueuedWaiters(s, l);
    } else {
      assert SameWaiting(s, q, m);
      WaitersKept(s, q, m);
    }
  }

  lemma QueuedWaiters(s: Sys, l: LockId)
    requires s.running in s.threads && l in s.locks && Cur(s).pc == Down(l) && WaitersOk(s, l) && Cur(s).status == Running
    ensures WaitersOk(Queued(s, l), l)
  {
    var q, t := Queued(s, l), s.running;
    var w, w' := s.locks[l].waiters, q.locks[l].waiters;
    assert w'[|w|] == t;
    forall u ensures u in w' <==> u in w || u == t {
    }
  }

  lemma QueuedOk(s: Sys, l: LockId)
    requires Inv(s) && l in s.locks && Cur(s).pc == Down(l) && s.locks[l].value == 0
    ensures s.running !in s.locks[l].waiters && Closed(Queued(s, l)) && Inv(Schedule(Queued(s, l)))
  {
    hide LocksOk, SemasOk, Schedule, Shuffled;
    var q := Queued(s, l);
    InvCloses(s);
    QueuedLocks(s, l);
    Here(s, l);
    QueuedApart(s, l);
    assert Switchable(q) by { QueuedSwitchable(s, l); }
    ScheduleOk(q);
    ScheduleAside(q);
    ShuffledOk(q, Schedule(q));
  }

  lemma QueuedApart(s: Sys, l: LockId)
    requires SemasOk(s) && s.running in s.threads && l in s.locks && Cur(s).pc == Down(l)
    ensures SemasOk(Queued(s, l))
  {
    hide SemaOk;
    ApartOk(s, Queued(s, l));
  }

  lemma QueuedSwitchable(s: Sys, l: LockId)
    requires Scheduled(s) && l in s.locks && Cur(s).pc == Down(l) && s.running != s.idle
    ensures Switchable(Queued(s, l))
  {
    var q := Queued(s, l);
    assert forall t :: t in s.threads && t != s.running ==> q.threads[t] == s.threads[t];
  }

  // ------------------------------------------------------------------
  // sema_up
  // ------------------------------------------------------------------

  /** The first waiter is woken: it is blocked, is not on the ready list, and leaves the
      waiters. */
  lemma WakeFirstOk(s: Sys, l: LockId)
    requires Inv(s) && l in s.locks && Cur(s).pc == Up(l)
    ensures forall t :: t in s.locks[l].waiters ==> t in s.threads && s.threads[t].status == Blocked && t !in s.ready
    ensures var s' := WakeFirst(s, l);
      Inv(s') && s'.running == s.running && Cur(s') == Cur(s) && s'.idle == s.idle && s'.locks.Keys == s.locks.Keys
      && (s'.locks[l].waiters != [] ==> AboutToLook(s', l))
  {
    hide LocksOk, SemasOk, ReadyList;
    InvCloses(s);
    var k := s.locks[l];
    ScheduledAlone(s, l, k.(waiters := k.waiters[if k.waiters == [] then 0 else 1..]));
    AllBlocked(s, l);
    if k.waiters != [] {
      WokenLocks(s, l);
      WokenApart(s, l);
      var w := k.waiters[0];
      assert w in k.waiters;
      UnblockOk(SetLock(s, l, k.(waiters := k.waiters[1..])), w);
    }
  }

  lemma WokenApart(s: Sys, l: LockId)
    requires Inv(s) && l in s.locks && s.locks[l].waiters != []
    requires forall t :: t in s.locks[l].waiters ==> t in s.threads
    ensures SemasOk(WakeFirst(s, l))
  {
    hide LockOk, NoLostWakeup, SemaOk;
    assert WaitersOk(s, l) && s.locks[l].waiters[0] in s.locks[l].waiters;
    ApartOk(s, WakeFirst(s, l));
  }

  lemma ScheduledAlone(s: Sys, l: LockId, k: Lock)
    requires Scheduled(s)
    ensures Scheduled(SetLock(s, l, k))
  {
  }

  lemma AllBlocked(s: Sys, l: LockId)
    requires Inv(s) && l in s.locks
    ensures forall t :: t in s.locks[l].waiters ==> t in s.threads && s.threads[t].status == Blocked && t !in s.ready
  {
    hide LockOk, NoLostWakeup, SemasOk;
    assert WaitersOk(s, l);
  }

  lemma WokenLocks(s: Sys, l: LockId)
    requires Inv(s) && l in s.locks && Cur(s).pc == Up(l) && s.locks[l].waiters != []
    requires forall t :: t in s.locks[l].waiters ==> t in s.threads
    ensures LocksOk(WakeFirst(s, l)) && AboutToLook(WakeFirst(s, l), l)
    ensures s.locks[l].waiters[0] != s.running && s.threads[s.locks[l].waiters[0]].status == Blocked
  {
    hide LockOk, NoLostWakeup, SemasOk;
    var s', w := WakeFirst(s, l), s.locks[l].waiters[0];
    assert w in s.locks[l].waiters;
    assert WaitersOk(s, l) && At(s.threads[w], l).Down? && s.threads[w].status == Blocked;
    assert w in s'.threads && At(s'.threads[w], l).Down? && s'.threads[w].status in {Running, Ready};
    forall m | m in s'.locks ensures LockOk(s', m) && WaitersOk(s', m) && NoLostWakeup(s', m) {
      WokenLock(s, l, m);
    }
  }

  lemma WokenLock(s: Sys, l: LockId, m: LockId)
    requires l in s.locks && s.locks[l].waiters != [] && (forall t :: t in s.locks[l].waiters ==> t in s.threads)
    requires At(s.threads[s.locks[l].waiters[0]], l).Down? && WaitersOk(s, l)
    requires m in s.locks && LockOk(s, m) && WaitersOk(s, m) && NoLostWakeup(s, m) && AboutToLook(WakeFirst(s, l), l)
    ensures var s' := WakeFirst(s, l); LockOk(s', m) && WaitersOk(s', m) && NoLostWakeup(s', m)
  {
    hide LockOk, WaitersOk, AboutToLook;
    var s' := WakeFirst(s, l);
    assert SamePlaces(s, s', m);
    LockKept(s, s', m);
    if m == l {
      WokenWaiters(s, l);
    } else {
      assert SameWaiting(s, s', m);
      WaitersKept(s, s', m);
    }
  }

  lemma WokenWaiters(s: Sys, l: LockId)
    requires l in s.locks && s.locks[l].waiters != [] && WaitersOk(s, l)
    requires forall t :: t in s.locks[l].waiters ==> t in s.threads
    ensures WaitersOk(WakeFirst(s, l), l)
  {
    var s', ws := WakeFirst(s, l), s.locks[l].waiters;
    var w := ws[0];
    assert w in ws;
    assert w !in ws[1..];
    forall t ensures t in ws <==> t == w || t in ws[1..] {
    }
  }

  lemma UpOk(s: Sys, l: LockId)
    requires Inv(s) && Cur(s).pc == Up(l)
    ensures l in s.locks && s.locks[l].value == 0 && Inv(Step(s, Advance))
  {
    hide LocksOk, SemasOk, Scheduled, AboutToLook;
    InCode(s);
    Here(s, l);
    InvCloses(s);
    WakeFirstOk(s, l);
    var w := WakeFirst(s, l);
    Here(w, l);
    var k := w.locks[l];
    LocalOk(w, l, k.(value := 1), Cur(w).(pc := Out, nest := Cur(w).nest[l := 0]));
  }

  // ------------------------------------------------------------------
  // Semaphores of their own
  // ------------------------------------------------------------------

  /** What the running thread and the locks have to do with a step of sema_down or sema_up of a
      semaphore of its own: nobody moves in a lock's code or waits for one differently. */
  lemma LocksAside(s: Sys, s': Sys)
    requires LocksOk(s) && s'.locks == s.locks
    requires forall t :: At0(ThreadOf(s', t)) == At0(ThreadOf(s, t)) && ThreadOf(s', t).nest == ThreadOf(s, t).nest
    requires forall t :: ThreadOf(s, t).pc.Down? ==> SameClass(ThreadOf(s, t).status, ThreadOf(s', t).status)
    ensures LocksOk(s')
  {
    hide LockOk, WaitersOk, NoLostWakeup;
    forall l | l in s.locks ensures SamePlaces(s, s', l) && SameWaiting(s, s', l) {
      forall t ensures At(ThreadOf(s', t), l) == At(ThreadOf(s, t), l) && Nest(ThreadOf(s', t), l) == Nest(ThreadOf(s, t), l) {
        assert At0(ThreadOf(s', t)) == At0(ThreadOf(s, t));
      }
    }
    forall t | t in s'.threads && InLock(s'.threads[t].pc) ensures s'.threads[t].pc.l in s.locks {
      assert At0(ThreadOf(s', t)) == At0(ThreadOf(s, t));
    }
    AsideOk(s, s');
  }

  /** The place of a thread in the code of any lock. */
  function At0(th: Thread): Pc {
    if InLock(th.pc) then th.pc else Out
  }

  /** Only one semaphore and threads at its sema_down changed. */
  lemma OtherSemas(s: Sys, s': Sys, d: SemaId)
    requires SemasOk(s) && d in s.semas && s'.semas.Keys == s.semas.Keys && SemaOk(s', d)
    requires forall e :: e in s.semas && e != d ==> s'.semas[e] == s.semas[e]
    requires forall t, e :: e != d ==> (ThreadOf(s', t).pc == Await(e) <==> ThreadOf(s, t).pc == Await(e))
    requires forall t :: ThreadOf(s, t).pc.Await? && ThreadOf(s, t).pc.d != d ==> SameClass(ThreadOf(s, t).status, ThreadOf(s', t).status)
    ensures SemasOk(s')
  {
    hide SemaOk;
    forall e | e in s'.semas ensures SemaOk(s', e) {
      if e != d {
        assert ApartAt(s, s', e);
        SemaKept(s, s', e);
      }
    }
    forall t | t in s'.threads && s'.threads[t].pc.Await? ensures s'.threads[t].pc.d in s'.semas {
      assert ThreadOf(s', t).pc == s'.threads[t].pc;
    }
  }

  lemma MovedScheduled(s: Sys, pc: Pc)
    requires Scheduled(s) && s.running != s.idle
    ensures Scheduled(SetPc(s, pc))
  {
    assert forall t :: t in s.threads ==> SetPc(s, pc).threads[t].status == s.threads[t].status;
  }

  lemma CallDownOk(s: Sys, d: SemaId)
    requires Inv(s) && Enabled(s, CallDown(d))
    ensures Inv(Step(s, CallDown(d)))
  {
    hide LocksOk, SemasOk, Scheduled;
    ScheduledCur(s);
    var s' := SetPc(s, Await(d));
    MovedScheduled(s, Await(d));
    LocksAside(s, s');
    CalledDown(s, d);
    OtherSemas(s, s', d);
  }

  lemma CalledDown(s: Sys, d: SemaId)
    requires SemasOk(s) && d in s.semas && s.running in s.threads && Cur(s).pc == Out && Cur(s).status == Running
    ensures SemaOk(SetPc(s, Await(d)), d)
  {
    assert SemaOk(s, d);
    var s' := SetPc(s, Await(d));
    assert s.running in s'.threads && s'.threads[s.running].pc == Await(d);
  }

  /** sema_down of a semaphore of its own: the value is one and becomes zero, or the thread, which is
      not among the waiters, becomes the last of them. */
  lemma AwaitOk(s: Sys, d: SemaId)
    requires Inv(s) && Cur(s).pc == Await(d)
    ensures d in s.semas && s.semas[d].value <= 1 && s.running !in s.semas[d].waiters
    ensures s.semas[d].value == 0 ==> Switchable(QueuedAt(s, d))
    ensures Inv(Step(s, Advance))
  {
    hide LocksOk, Scheduled, SemasOk, Schedule, Shuffled;
    InvCloses(s);
    ScheduledCur(s);
    SemaHere(s, d);
    if s.semas[d].value == 0 {
      var q := QueuedAt(s, d);
      QueuedAtOk(s, d);
      ScheduleOk(q);
      ScheduleAside(q);
      ShuffledOk(q, Schedule(q));
    } else {
      TakenAtOk(s, d);
    }
  }

  lemma SemaHere(s: Sys, d: SemaId)
    requires Inv(s) && d in s.semas
    ensures s.semas[d].value <= 1 && s.running !in s.semas[d].waiters && (Cur(s).pc != Out ==> s.running != s.idle)
    ensures forall t :: t in s.semas[d].waiters ==> t in s.threads && s.threads[t].status == Blocked && t !in s.ready
  {
    hide LocksOk;
    assert SemaOk(s, d);
  }

  lemma QueuedAtOk(s: Sys, d: SemaId)
    requires Inv(s) && Cur(s).pc == Await(d) && d in s.semas && s.semas[d].value == 0
    ensures var q := QueuedAt(s, d); Switchable(q) && LocksOk(q) && SemasOk(q)
  {
    hide LocksOk, SemasOk, Scheduled;
    ScheduledCur(s);
    SemaHere(s, d);
    var q := QueuedAt(s, d);
    LocksAside(s, q);
    QueuedAtHere(s, d);
    OtherSemas(s, q, d);
    QueuedAtSwitchable(s, d);
  }

  lemma QueuedAtHere(s: Sys, d: SemaId)
    requires SemasOk(s) && d in s.semas && s.semas[d].value == 0
    requires s.running in s.threads && Cur(s).pc == Await(d) && Cur(s).status == Running
    ensures SemaOk(QueuedAt(s, d), d)
  {
    assert SemaOk(s, d);
    var q, ws := QueuedAt(s, d), s.semas[d].waiters;
    var ws' := q.semas[d].waiters;
    assert ws'[|ws|] == s.running;
    forall u ensures u in ws' <==> u in ws || u == s.running {
    }
  }

  lemma QueuedAtSwitchable(s: Sys, d: SemaId)
    requires Scheduled(s) && d in s.semas && s.running != s.idle
    ensures Switchable(QueuedAt(s, d))
  {
    var q := QueuedAt(s, d);
    assert forall t :: t in s.threads && t != s.running ==> q.threads[t] == s.threads[t];
  }

  lemma TakenAtOk(s: Sys, d: SemaId)
    requires Inv(s) && Cur(s).pc == Await(d) && d in s.semas && s.semas[d].value != 0
    ensures Inv(TakenAt(s, d))
  {
    hide LocksOk, SemasOk, Scheduled;
    ScheduledCur(s);
    SemaHere(s, d);
    var s' := TakenAt(s, d);
    MovedScheduled(s, Out);
    TakenScheduled(s, s');
    LocksAside(s, s');
    TakenAtHere(s, d);
    OtherSemas(s, s', d);
  }

  lemma TakenScheduled(s: Sys, s': Sys)
    requires s.running in s.threads && Scheduled(SetPc(s, Out)) && s' == SetPc(s, Out).(semas := s'.semas)
    ensures Scheduled(s')
  {
  }

  lemma TakenAtHere(s: Sys, d: SemaId)
    requires SemasOk(s) && d in s.semas && s.semas[d].value == 1
    requires s.running in s.threads && Cur(s).pc == Await(d) && Cur(s).status == Running
    ensures SemaOk(TakenAt(s, d), d)
  {
    assert SemaOk(s, d);
    var s' := TakenAt(s, d);
    assert forall t :: t in s.threads && t != s.running ==> s'.threads[t] == s.threads[t];
  }

  /** sema_up in an interrupt handler: whoever is woken is blocked and on no other list, and the
      value is one, once. */
  lemma SignalOk(s: Sys, d: SemaId)
    requires Inv(s) && Enabled(s, Signal(d))
    ensures forall t :: t in s.semas[d].waiters ==> t in s.threads && s.threads[t].status == Blocked && t !in s.ready
    ensures Inv(Step(s, Signal(d)))
  {
    hide LocksOk, SemasOk, Scheduled, Signalled;
    InvCloses(s);
    SemaHere(s, d);
    SignalledHere(s, d);
    SignalledElsewhere(s, d);
    SignalledScheduled(s, d);
  }

  lemma SignalledElsewhere(s: Sys, d: SemaId)
    requires LocksOk(s) && SemasOk(s) && d in s.semas && forall t :: t in s.semas[d].waiters ==> t in s.threads
    requires s.semas[d].waiters != [] ==> ThreadOf(s, s.semas[d].waiters[0]).pc == Await(d)
    requires SemaOk(Signalled(s, d), d)
    ensures LocksOk(Signalled(s, d)) && SemasOk(Signalled(s, d))
  {
    hide LocksOk, SemasOk, SemaOk;
    LocksAside(s, Signalled(s, d));
    OtherSemas(s, Signalled(s, d), d);
  }

  lemma SignalledScheduled(s: Sys, d: SemaId)
    requires Scheduled(s) && d in s.semas && forall t :: t in s.semas[d].waiters ==> t in s.threads && s.threads[t].status == Blocked
    ensures Scheduled(Signalled(s, d))
  {
    var m := s.semas[d];
    if m.waiters != [] {
      assert m.waiters[0] in m.waiters;
      UnblockOk(SetSema(s, d, Sema(m.value + 1, m.waiters[1..])), m.waiters[0]);
    }
  }

  lemma SignalledHere(s: Sys, d: SemaId)
    requires SemasOk(s) && d in s.semas && s.semas[d].value == 0
    requires forall t :: t in s.semas[d].waiters ==> t in s.threads
    ensures SemaOk(Signalled(s, d), d)
    ensures s.semas[d].waiters != [] ==> s.threads[s.semas[d].waiters[0]].pc == Await(d)
  {
    assert SemaOk(s, d);
    var s', ws := Signalled(s, d), s.semas[d].waiters;
    if ws != [] {
      var w := ws[0];
      assert w in ws;
      assert w !in ws[1..];
      forall t ensures t in ws <==> t == w || t in ws[1..] {
      }
      assert w in s'.threads && s'.threads[w].pc == Await(d) && s'.threads[w].status == Ready;
    }
  }

  // ------------------------------------------------------------------
  // Every step
  // ------------------------------------------------------------------

  lemma DownOk(s: Sys, l: LockId)
    requires Inv(s) && Cur(s).pc == Down(l)
    ensures Inv(Step(s, Advance))
  {
    hide LocksOk, SemasOk, Scheduled, Schedule;
    InCode(s);
    InvCloses(s);
    if s.locks[l].value == 0 {
      QueuedOk(s, l);
    } else {
      TakenOk(s, l);
    }
  }

  lemma CurIn(s: Sys)
    requires Inv(s)
    ensures s.running in s.threads
  {
  }

  lemma AdvanceOk(s: Sys)
    requires Inv(s) && Enabled(s, Advance)
    ensures Inv(Step(s, Advance))
  {
    hide Inv, Step;
    CurIn(s);
    match Cur(s).pc
    case Acquire(l) => AcquireOk(s, l);
    case Down(l) => DownOk(s, l);
    case SetHolder(l) => SetHolderOk(s, l);
    case SetOne(l) => SetOneOk(s, l);
    case Again(l) => AgainOk(s, l);
    case Release(l) => ReleaseOk(s, l);
    case Less(l) => LessOk(s, l);
    case ClearHolder(l) => ClearHolderOk(s, l);
    case ClearCount(l) => ClearCountOk(s, l);
    case Up(l) => UpOk(s, l);
    case Await(d) => AwaitOk(s, d);
  }

  lemma StepOk(s: Sys, e: Event)
    requires Inv(s) && Enabled(s, e)
    ensures Inv(Step(s, e))
  {
    hide Inv, Step, Enabled;
    match e
    case Tick => TickOk(s);
    case Yield => YieldOk(s);
    case Block(st) => BlockOk(s, st);
    case Wake(t) => WakeOk(s, t);
    case Start(t, p) => StartOk(s, t, p);
    case Reap(t) => ReapOk(s, t);
    case CallAcquire(l) => CallAcquireOk(s, l);
    case CallRelease(l) => CallReleaseOk(s, l);
    case CallDown(d) => CallDownOk(s, d);
    case Signal(d) => SignalOk(s, d);
    case Advance => AdvanceOk(s);
  }

  // ------------------------------------------------------------------
  // Every run
  // ------------------------------------------------------------------

  /** The states a run goes through, starting at the first. */
  ghost predicate Run(states: seq<Sys>, events: seq<Event>) {
    && |states| == |events| + 1 && Inv(states[0])
    && forall i :: 0 <= i < |events| ==> StepsTo(states[i], events[i], states[i + 1])
  }

  ghost predicate StepsTo(s: Sys, e: Event, s': Sys) {
    Inv(s) ==> Enabled(s, e) && s' == Step(s, e)
  }

  lemma {:induction false} RunOk(states: seq<Sys>, events: seq<Event>, i: nat)
    requires Run(states, events) && i < |states|
    ensures Inv(states[i])
  {
    hide Inv, Step, Enabled;
    if i > 0 {
      RunOk(states, events, i - 1);
      assert StepsTo(states[i - 1], events[i - 1], states[i]);
      StepOk(states[i - 1], events[i - 1]);
    }
  }

  const MAIN: Tid := 0
  const IDLE: Tid := 1
  const INIT: Tid := 2

  /** The priority process_execute gives. */
  const DEFAULT_PRIO: nat := 31

  /** thread_init: main runs, init and then idle are ready, every lock is free, every other semaphore at
      zero. */
  function Boot(mainPriority: nat, locks: set<LockId>, semas: set<SemaId>): Sys {
    Sys(MAIN, IDLE,
        map[MAIN := Thread(Running, mainPriority, mainPriority, Out, map[]), IDLE := Thread(Ready, 10, 10, Out, map[]),
            INIT := Thread(Ready, DEFAULT_PRIO, DEFAULT_PRIO, Out, map[])],
        [INIT, IDLE],
        map l | l in locks :: Lock(1, [], NOBODY, 0), map d | d in semas :: Sema(0, []))
  }

  lemma BootOk(p: nat, locks: set<LockId>, semas: set<SemaId>)
    ensures Inv(Boot(p, locks, semas))
  {
    var s := Boot(p, locks, semas);
    hide LocksOk, SemasOk;
    assert s.ready[0] == INIT && s.ready[1] == IDLE;
    assert ReadyList(s);
    BootLocks(p, locks, semas);
    BootSemas(p, locks, semas);
  }

  lemma BootLocks(p: nat, locks: set<LockId>, semas: set<SemaId>)
    ensures LocksOk(Boot(p, locks, semas))
  {
    var s := Boot(p, locks, semas);
    forall l | l in s.locks ensures LockOk(s, l) && WaitersOk(s, l) && NoLostWakeup(s, l) {
      assert !HasOwner(s, l);
    }
  }

  lemma BootSemas(p: nat, locks: set<LockId>, semas: set<SemaId>)
    ensures SemasOk(Boot(p, locks, semas))
  {
  }

  /** In every state of every run at most one thread has a lock, and the lock's count is that
      thread's nesting depth while it is in none of the lock's own code. */
  lemma MutualExclusion(states: seq<Sys>, events: seq<Event>, i: nat, l: LockId, t: Tid, u: Tid)
    requires Run(states, events) && i < |states|
    requires var s := states[i]; l in s.locks && t in s.threads && u in s.threads && Nest(s.threads[t], l) > 0
    ensures var s := states[i];
      && (Nest(s.threads[u], l) > 0 ==> t == u)
      && s.locks[l].value == 0
      && (At(s.threads[t], l) == Out ==> s.locks[l].holder == t && s.locks[l].repeat == Nest(s.threads[t], l))
  {
    RunOk(states, events, i);
    var s := states[i];
    hide WaitersOk, NoLostWakeup, PlaceOk, Scheduled, SemasOk;
    assert LockOk(s, l);
    assert HasOwner(s, l);
    assert SaysOwner(s.locks[l], t, s.threads[t], l);
  }

  /** The lists that hold general_tags: the ready list and the waiters of every semaphore. */
  datatype Queue = ReadyQueue | OfLock(l: LockId) | OfSema(d: SemaId)

  ghost function ListOf(s: Sys, q: Queue): seq<Tid> {
    match q
    case ReadyQueue => s.ready
    case OfLock(l) => if l in s.locks then s.locks[l].waiters else []
    case OfSema(d) => if d in s.semas then s.semas[d].waiters else []
  }

  predicate Fits(th: Thread, q: Queue) {
    match q
    case ReadyQueue => th.status == Ready
    case OfLock(l) => th.status == Blocked && th.pc == Down(l)
    case OfSema(d) => th.status == Blocked && th.pc == Await(d)
  }

  lemma Listed(s: Sys, q: Queue, t: Tid)
    requires Inv(s) && t in ListOf(s, q)
    ensures t in s.threads && Fits(s.threads[t], q) && NoDup(ListOf(s, q))
  {
    hide LockOk, NoLostWakeup;
    match q
    case ReadyQueue =>
    case OfLock(l) => assert WaitersOk(s, l);
    case OfSema(d) => assert SemaOk(s, d);
  }

  /** In every state of every run no thread is on two lists, nor twice on one; on the ready list it is
      ready, on any other blocked. */
  lemma OneList(states: seq<Sys>, events: seq<Event>, i: nat, q: Queue, r: Queue, t: Tid)
    requires Run(states, events) && i < |states| && t in ListOf(states[i], q)
    ensures t in states[i].threads && states[i].threads[t].status == (if q == ReadyQueue then Ready else Blocked)
    ensures NoDup(ListOf(states[i], q)) && (t in ListOf(states[i], r) ==> q == r)
  {
    hide Inv, ListOf;
    RunOk(states, events, i);
    Listed(states[i], q, t);
    if t in ListOf(states[i], r) { Listed(states[i], r, t); }
  }
}
