/** fork, exit and wait as the kernel runs them (fork.c, wait_exit.c, thread.c), with the pid bitmap.
    Scheduling is left to the transition system: a method is called when its process runs. */
module Processes {
  import opened Lists
  import opened Bitmaps
  import opened ProcessSpec
  import opened ProcessRuns

  datatype Waited = Child(pid: Pid, status: int) | NoChild | Asleep

  class ProcTable {
    const pidBitmap: Bitmap
    var all: seq<Pid>
    var tasks: map<Pid, Task>

    // The history, kept only to state what happened.
    var births: nat
    var log: seq<Collection>
    ghost var events: seq<Event>

    /** thread_init: pid_pool_init cleared the bitmap; init, main and idle take the first pids. */
    constructor (pidBitmap: Bitmap)
      requires pidBitmap.Valid() && |pidBitmap.View()| >= 3 && FirstTaken(pidBitmap.View(), 0)
      modifies pidBitmap.bits
      ensures Valid() && State() == START && events == [] && this.pidBitmap == pidBitmap
    {
      this.pidBitmap := pidBitmap;
      all, tasks, births, log, events := [], map[], 0, [], [];
      new;
      hide Bitmap.View, FirstTaken, Inv, AllMade, After, START;
      StartTask(INIT);
      StartTask(MAIN);
      StartTask(IDLE);
      StartedAs();
      StartOk();
      NothingYet();
    }

    /** Exactly the first k pids are in use. */
    ghost static predicate FirstTaken(v: seq<bool>, k: nat) {
      forall b :: 0 <= b < |v| ==> (v[b] <==> b < k)
    }

    /** init_thread: a task without a parent takes the least pid not in use, which is pid. */
    method StartTask(ghost pid: Pid)
      requires pidBitmap.Valid() && 1 <= pid <= |pidBitmap.View()| && FirstTaken(pidBitmap.View(), pid - 1)
      modifies this, pidBitmap.bits
      ensures events == old(events)
      ensures pidBitmap.Valid() && |pidBitmap.View()| == old(|pidBitmap.View()|) && FirstTaken(pidBitmap.View(), pid)
      ensures all == old(all) + [pid] && births == old(births) + 1 && log == old(log)
      ensures tasks == old(tasks)[pid := Task(NO_PARENT, Active, false, 0, old(births))]
    {
      hide Bitmap.View, FirstFit, Full;
      LeastClear(pidBitmap.View(), pid - 1);
      var halted, p := AllocatePid();
      all, births := all + [p], births + 1;
      tasks := tasks[p := Task(NO_PARENT, Active, false, 0, births - 1)];
    }

    lemma StartedAs()
      requires pidBitmap.Valid() && |pidBitmap.View()| >= 3 && FirstTaken(pidBitmap.View(), 3)
      requires all == [] + [INIT] + [MAIN] + [IDLE] && births == 3 && log == []
      requires tasks == map[][INIT := Task(NO_PARENT, Active, false, 0, 0)][MAIN := Task(NO_PARENT, Active, false, 0, 1)]
                             [IDLE := Task(NO_PARENT, Active, false, 0, 2)]
      ensures State() == START && PidsMarked()
    {
      hide Bitmap.View;
      assert tasks == START.tasks;
    }

    static lemma LeastClear(v: seq<bool>, k: nat)
      requires k < |v| && FirstTaken(v, k)
      ensures !Full(v) && forall r :: FirstFit(v, 1, r) ==> r == k
    {
      assert !v[k] && FreeRun(v, k, 1);
      assert forall r :: FreeRun(v, r, 1) ==> !v[r];
    }

    ghost function State(): Procs
      reads this
    {
      Procs(all, tasks, births, log)
    }

    /** Pid b + 1 is marked in the bitmap exactly while its task is on the list. */
    ghost predicate PidsMarked()
      requires pidBitmap.Valid()
      reads this, pidBitmap.bits
    {
      && (forall b :: 0 <= b < |pidBitmap.View()| ==> (pidBitmap.View()[b] <==> b + 1 in tasks))
      && (forall p :: p in tasks ==> 1 <= p <= |pidBitmap.View()|)
    }

    /** The tasks are what the system calls made so far have led to. */
    ghost predicate Valid()
      reads this, pidBitmap.bits
    {
      pidBitmap.Valid() && PidsMarked() && Inv(State()) && AllMade(events) && State() == After(events)
    }

    /** allocate_pid: the least pid not in use. */
    method AllocatePid() returns (halted: bool, pid: Pid)
      requires pidBitmap.Valid()
      modifies pidBitmap.bits
      ensures halted <==> Full(old(pidBitmap.View()))
      ensures !halted ==> 1 <= pid <= |old(pidBitmap.View())| && FirstFit(old(pidBitmap.View()), 1, pid - 1)
      ensures !halted ==> pidBitmap.View() == old(pidBitmap.View())[pid - 1 := true]
    {
      hide Bitmap.View;
      var b;
      halted, b := pidBitmap.Scan(1);
      pid := 0;
      if halted { return; }
      pidBitmap.Set(b, true);
      pid := b + 1;
    }

    /** sys_fork, as far as the process table goes. The child's pid is one no task has. */
    method Fork(p: Pid) returns (halted: bool, child: Pid)
      requires Valid() && Running(State(), p)
      modifies this, pidBitmap.bits
      ensures halted <==> Full(old(pidBitmap.View()))
      ensures !halted ==> Valid() && child !in old(tasks) && State() == Forked(old(State()), p, child)
      ensures !halted ==> events == old(events) + [Event.Fork(p, child)]
    {
      hide Inv, Bitmap.View, Full, FirstFit, AllMade, After;
      halted, child := AllocatePid();
      if halted { return; }
      Unmarked(old(pidBitmap.View()), child - 1);
      ForkOk(State(), p, child);
      assert child !in all;
      all := all + [child];
      tasks := tasks[child := Task(p, Active, false, 0, births)];
      births := births + 1;
      events := Made(events, Event.Fork(p, child));
    }

    /** One more system call. */
    static ghost method Made(events: seq<Event>, e: Event) returns (more: seq<Event>)
      requires AllMade(events) && Enabled(After(events), e)
      ensures more == events + [e] && AllMade(more) && After(more) == Step(After(events), e)
    {
      hide Enabled, Step;
      more := events + [e];
      AfterOne(events, e);
    }

    lemma Unmarked(v: seq<bool>, b: int)
      requires FirstFit(v, 1, b)
      ensures 0 <= b < |v| && !v[b]
    {
      assert FreeRun(v, b, 1);
    }

    /** sys_exit up to the adoption: init_adopt_a_child over the whole list. */
    method ExitBegins(p: Pid, status: int)
      requires Valid() && Running(State(), p) && tasks[p].parent != NO_PARENT
      modifies this`tasks, this`events
      ensures Valid() && State() == Adopted(old(State()), p, status) && events == old(events) + [Exit(p, status)]
      ensures tasks[p].exiting && tasks[p].exitStatus == status
    {
      hide Inv, Bitmap.View, OnList, AllMade, After;
      AdoptOk(State(), p, status);
      HandOver(p, status);
      events := Made(events, Exit(p, status));
    }

    /** The status is stored and the children change their parent. */
    method HandOver(p: Pid, status: int)
      requires Inv(State()) && p in tasks
      modifies this`tasks
      ensures State() == Adopted(old(State()), p, status)
    {
      hide Inv, OnList;
      ghost var s := State();
      Listed(s);
      tasks := tasks[p := tasks[p].(exitStatus := status)];
      InitAdopts(p);
      tasks := tasks[p := tasks[p].(exiting := true)];
      assert tasks == Adopted(s, p, status).tasks;
    }

    /** list_traversal with init_adopt_a_child. */
    method InitAdopts(p: Pid)
      requires OnList(Procs(all, tasks, births, log))
      modifies this`tasks
      ensures tasks.Keys == old(tasks).Keys && forall q :: q in tasks ==> tasks[q] == AdoptedFrom(old(tasks)[q], p)
    {
      ghost var before := tasks;
      var i := 0;
      while i < |all|
        invariant i <= |all| && tasks.Keys == before.Keys
        invariant forall k :: 0 <= k < i ==> tasks[all[k]] == AdoptedFrom(before[all[k]], p)
        invariant forall k :: i <= k < |all| ==> tasks[all[k]] == before[all[k]]
      {
        assert all[i] in all;
        if tasks[all[i]].parent == p {
          tasks := tasks[all[i] := tasks[all[i]].(parent := INIT)];
        }
        i := i + 1;
      }
      forall q | q in tasks ensures tasks[q] == AdoptedFrom(before[q], p) {
        assert q in all;
      }
    }

    lemma Listed(s: Procs)
      requires Inv(s)
      ensures OnList(s) && forall k :: 0 <= k < |s.all| ==> s.all[k] in s.tasks
      ensures forall j, k :: 0 <= j < k < |s.all| ==> s.all[j] != s.all[k]
    {
    }

    /** pid2thread: the place of the task with this pid, or the length of the list. */
    method Pid2Thread(pid: int) returns (k: nat)
      ensures k <= |all| && (k < |all| ==> all[k] == pid)
      ensures k == |all| ==> forall j :: 0 <= j < |all| ==> all[j] != pid
    {
      k := 0;
      while k < |all|
        invariant k <= |all| && forall j :: 0 <= j < k ==> all[j] != pid
      {
        if all[k] == pid { return; }
        k := k + 1;
      }
    }

    /** sys_exit from the look at the parent on. The parent is found: pid2thread never answers
        NULL there. */
    method ExitEnds(p: Pid)
      requires Valid() && p in tasks && tasks[p].exiting && tasks[p].status == Active
      modifies this`tasks, this`events
      ensures old(tasks[p].parent) >= 0 && old(tasks[p].parent) in old(tasks)
      ensures Valid() && State() == Hung(old(State()), p) && events == old(events) + [Event.Hang(p)]
    {
      hide Inv, Bitmap.View, AllMade, After;
      ghost var s := State();
      ParentFound(s, p);
      HangOk(s, p);
      var k := Pid2Thread(tasks[p].parent);
      assert k < |all|;
      var parent := all[k];
      if tasks[parent].status == Waiting {
        tasks := tasks[parent := tasks[parent].(status := Active)];
      }
      tasks := tasks[p := tasks[p].(status := Hanging)];
      events := Made(events, Event.Hang(p));
    }

    /** list_traversal with find_hanging_child. */
    method FindHangingChild(p: Pid) returns (k: nat)
      requires forall j :: 0 <= j < |all| ==> all[j] in tasks
      ensures k <= |all| && (k < |all| ==> HangingChild(State(), p, all[k]))
      ensures forall j :: 0 <= j < k ==> !HangingChild(State(), p, all[j])
    {
      k := 0;
      while k < |all|
        invariant k <= |all| && forall j :: 0 <= j < k ==> !HangingChild(State(), p, all[j])
      {
        if tasks[all[k]].parent == p && tasks[all[k]].status == Hanging { return; }
        k := k + 1;
      }
    }

    /** list_traversal with find_child. */
    method FindChild(p: Pid) returns (k: nat)
      requires forall j :: 0 <= j < |all| ==> all[j] in tasks
      ensures k <= |all| && (k < |all| ==> tasks[all[k]].parent == p)
      ensures forall j :: 0 <= j < k ==> tasks[all[j]].parent != p
    {
      k := 0;
      while k < |all|
        invariant k <= |all| && forall j :: 0 <= j < k ==> tasks[all[j]].parent != p
      {
        if tasks[all[k]].parent == p { return; }
        k := k + 1;
      }
    }

    /** thread_exit of a hanging child: it leaves the list, and its pid is given back. */
    method ThreadExit(p: Pid, child: Pid)
      requires Valid() && Running(State(), p) && HangingChild(State(), p, child)
      modifies this, pidBitmap.bits
      ensures Valid() && State() == Collected(old(State()), p, child) && events == old(events) + [Collect(p, child)]
    {
      hide Inv, Bitmap.View, AllMade, After;
      CollectOk(State(), p, child);
      log := log + [Collection(tasks[child].born, child, tasks[child].exitStatus, tasks[p].born)];
      all := Without(all, child);
      tasks := tasks - {child};
      pidBitmap.Set(child - 1, false);
      events := Made(events, Collect(p, child));
    }

    /** One turn of the loop of sys_wait: the eldest hanging child is collected and its pid given back,
        and the status is the one its exit was given; a process without children gets -1; otherwise the
        process goes to sleep. */
    method Wait(p: Pid) returns (r: Waited)
      requires Valid() && Running(State(), p)
      modifies this, pidBitmap.bits
      ensures Valid()
      ensures r.Child? ==> HangingChild(old(State()), p, r.pid) && r.status == old(tasks)[r.pid].exitStatus
      ensures r.Child? ==> State() == Collected(old(State()), p, r.pid) && events == old(events) + [Collect(p, r.pid)]
      ensures r.Child? ==> var b := old(tasks)[r.pid].born; var given := RecordOf(old(events)).given;
        b in given && r.status == given[b]
      ensures r.Child? ==> forall c :: HangingChild(old(State()), p, c) ==> old(tasks)[r.pid].born <= old(tasks)[c].born
      ensures r == NoChild ==> State() == old(State()) && events == old(events) && forall c :: c in tasks ==> tasks[c].parent != p
      ensures r == Asleep ==> State() == Blocked(old(State()), p) && events == old(events) + [Event.Wait(p)]
      ensures r == Asleep ==> forall c :: !HangingChild(old(State()), p, c)
      ensures r == Asleep ==> exists c :: c in old(tasks) && old(tasks)[c].parent == p
    {
      hide Inv, Bitmap.View, AllMade, After, RecordOf, InOrder;
      ghost var s := State();
      Listed(s);
      var k := FindHangingChild(p);
      if k < |all| {
        var child := all[k];
        GivenAtExit(events, p, child);
        Eldest(events, p, k);
        r := Child(child, tasks[child].exitStatus);
        ThreadExit(p, child);
        return;
      }
      NoneHangs(s, p);
      k := FindChild(p);
      if k == |all| {
        return NoChild;
      }
      BlockOk(s, p);
      assert all[k] in old(tasks);
      tasks := tasks[p := tasks[p].(status := Waiting)];
      events := Made(events, Event.Wait(p));
      r := Asleep;
    }

    lemma GivenAtExit(events: seq<Event>, p: Pid, c: Pid)
      requires AllMade(events) && HangingChild(After(events), p, c) && Inv(After(events))
      ensures var t, given := After(events).tasks[c], RecordOf(events).given; t.born in given && t.exitStatus == given[t.born]
    {
      hide OnList, NoDup, LogOk, NoneMissed, Births, RecordOf, AllMade, After;
      RunRecorded(events);
      assert StateOk(After(events), c) && TaskIs(After(events), RecordOf(events), c);
    }

    /** The list is in the order of creation. */
    lemma Eldest(events: seq<Event>, p: Pid, k: nat)
      requires AllMade(events) && k < |After(events).all| && HangingChild(After(events), p, After(events).all[k])
      requires OnList(After(events)) && forall j :: 0 <= j < k ==> !HangingChild(After(events), p, After(events).all[j])
      ensures var s := After(events); forall c :: HangingChild(s, p, c) ==> s.tasks[s.all[k]].born <= s.tasks[c].born
    {
      hide AllMade, After, NoDup;
      var s := After(events);
      RunInOrder(events);
      forall c | HangingChild(s, p, c) ensures s.tasks[s.all[k]].born <= s.tasks[c].born {
        assert c in s.all;
        var j :| 0 <= j < |s.all| && s.all[j] == c;
        assert s.all[k] in s.all;
      }
    }

    lemma NoneHangs(s: Procs, p: Pid)
      requires OnList(s) && forall j :: 0 <= j < |s.all| ==> !HangingChild(s, p, s.all[j])
      ensures forall c :: !HangingChild(s, p, c)
    {
      forall c ensures !HangingChild(s, p, c) {
        if c in s.tasks { assert c in s.all; }
      }
    }
  }
}
