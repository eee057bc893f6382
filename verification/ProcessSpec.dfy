/** Fork, exit and wait as a transition system (fork.c, wait_exit.c). A system call runs with
    interrupts off, but sys_exit can be suspended between handing over its children and hanging
    itself up, while it releases its resources. */
module ProcessSpec {
  import opened Lists

  type Pid = nat

  const NO_PARENT: int := -1
  const INIT: Pid := 1
  const MAIN: Pid := 2
  const IDLE: Pid := 3

  datatype Status = Active | Waiting | Hanging

  /** The fields of task_struct that matter here. exiting: the children have been handed over.
      born numbers the processes in the order of their creation; a pid can be used again, a born
      cannot. */
  datatype Task = Task(parent: int, status: Status, exiting: bool, exitStatus: int, born: nat)

  /** What a wait returned: whose status, and who collected it. */
  datatype Collection = Collection(born: nat, pid: Pid, status: int, collector: nat)

  /** thread_all_list, the tasks on it, and the history. */
  datatype Procs = Procs(all: seq<Pid>, tasks: map<Pid, Task>, births: nat, log: seq<Collection>)

  // ------------------------------------------------------------------
  // The invariant
  // ------------------------------------------------------------------

  ghost predicate OnList(s: Procs) {
    NoDup(s.all) && forall p :: p in s.all <==> p in s.tasks
  }

  /** A parent is on the list and has not handed over its children. */
  ghost predicate ParentOk(s: Procs, p: Pid)
    requires p in s.tasks
  {
    var q := s.tasks[p].parent;
    q == NO_PARENT || (q >= 0 && q in s.tasks && !s.tasks[q].exiting && s.tasks[q].born < s.tasks[p].born)
  }

  /** Only a process past its adoption step hangs. */
  ghost predicate StateOk(s: Procs, p: Pid)
    requires p in s.tasks
  {
    var t := s.tasks[p];
    (t.status == Hanging ==> t.exiting) && (t.exiting ==> t.parent != NO_PARENT && t.status != Waiting) && t.born < s.births
  }

  ghost predicate Births(s: Procs) {
    forall p, q :: p in s.tasks && q in s.tasks && s.tasks[p].born == s.tasks[q].born ==> p == q
  }

  /** A waiting process other than init has no hanging child. */
  ghost predicate NoneMissed(s: Procs) {
    forall p, c :: Missed(s, p, c) ==> p == INIT
  }

  /** The process waits while the child hangs. */
  ghost predicate Missed(s: Procs, p: Pid, c: Pid) {
    p in s.tasks && s.tasks[p].status == Waiting && HangingChild(s, p, c)
  }

  ghost predicate HangingChild(s: Procs, p: Pid, c: Pid) {
    c in s.tasks && s.tasks[c].parent == p && s.tasks[c].status == Hanging
  }

  /** Each process was collected at most once, and then it is gone. */
  ghost predicate LogOk(s: Procs) {
    && (forall i, j :: 0 <= i < j < |s.log| ==> s.log[i].born != s.log[j].born)
    && (forall i, p :: 0 <= i < |s.log| && p in s.tasks ==> s.log[i].born != s.tasks[p].born)
    && (forall i :: 0 <= i < |s.log| ==> s.log[i].born < s.births)
  }

  ghost predicate InitOk(s: Procs) {
    INIT in s.tasks && s.tasks[INIT].parent == NO_PARENT && s.tasks[INIT].born == 0
  }

  ghost predicate TasksOk(s: Procs) {
    forall p :: p in s.tasks ==> ParentOk(s, p) && StateOk(s, p)
  }

  ghost predicate Inv(s: Procs) {
    OnList(s) && InitOk(s) && Births(s) && NoneMissed(s) && LogOk(s) && TasksOk(s)
  }

  // ------------------------------------------------------------------
  // Steps
  // ------------------------------------------------------------------

  /** The process runs user code and may make a system call. */
  predicate Running(s: Procs, p: Pid) {
    p in s.tasks && s.tasks[p].status == Active && !s.tasks[p].exiting
  }

  /** sys_fork: the child is listed with its parent's pid. */
  function Forked(s: Procs, p: Pid, child: Pid): Procs {
    s.(all := s.all + [child], tasks := s.tasks[child := Task(p, Active, false, 0, s.births)], births := s.births + 1)
  }

  /** A task after the pass of init_adopt_a_child for p. */
  function AdoptedFrom(t: Task, p: Pid): Task {
    if t.parent == p then t.(parent := INIT) else t
  }

  /** sys_exit up to the adoption: the status is set and the children go to init. */
  function Adopted(s: Procs, p: Pid, status: int): Procs
    requires p in s.tasks
  {
    s.(tasks := map q | q in s.tasks ::
         if q == p then AdoptedFrom(s.tasks[q], p).(exiting := true, exitStatus := status) else AdoptedFrom(s.tasks[q], p))
  }

  /** sys_exit from the look at the parent: it is woken if it waits, and the process hangs. */
  function Hung(s: Procs, p: Pid): Procs
    requires p in s.tasks && s.tasks[p].parent >= 0 && s.tasks[p].parent in s.tasks
  {
    var q: Pid := s.tasks[p].parent;
    var woken := if s.tasks[q].status == Waiting then s.tasks[q := s.tasks[q].(status := Active)] else s.tasks;
    s.(tasks := woken[p := woken[p].(status := Hanging)])
  }

  /** sys_wait finding the hanging child c: its status is collected and it is gone. */
  function Collected(s: Procs, p: Pid, c: Pid): Procs
    requires p in s.tasks && c in s.tasks
  {
    Procs(Without(s.all, c), s.tasks - {c}, s.births,
          s.log + [Collection(s.tasks[c].born, c, s.tasks[c].exitStatus, s.tasks[p].born)])
  }

  /** sys_wait finding only children that live. */
  function Blocked(s: Procs, p: Pid): Procs
    requires p in s.tasks
  {
    s.(tasks := s.tasks[p := s.tasks[p].(status := Waiting)])
  }

  // ------------------------------------------------------------------
  // Every step keeps the invariant
  // ------------------------------------------------------------------

  lemma ForkOk(s: Procs, p: Pid, child: Pid)
    requires Inv(s) && Running(s, p) && child !in s.tasks
    ensures child !in s.all && Inv(Forked(s, p, child))
  {
    ForkList(s, p, child);
    hide OnList, NoDup, LogOk, Births, NoneMissed, TasksOk;
    ForkTasks(s, p, child);
    ForkHistory(s, p, child);
    ForkMissed(s, p, child);
  }

  lemma ForkList(s: Procs, p: Pid, child: Pid)
    requires OnList(s) && child !in s.tasks
    ensures child !in s.all && OnList(Forked(s, p, child))
  {
    var s' := Forked(s, p, child);
    assert forall q :: q in s'.all <==> q in s.all || q == child;
  }

  lemma ForkTasks(s: Procs, p: Pid, child: Pid)
    requires TasksOk(s) && Running(s, p) && child !in s.tasks
    ensures TasksOk(Forked(s, p, child))
  {
    var s' := Forked(s, p, child);
    forall q | q in s'.tasks ensures ParentOk(s', q) && StateOk(s', q) {
      assert q != child ==> ParentOk(s, q) && StateOk(s, q);
      assert StateOk(s, p);
    }
  }

  lemma ForkHistory(s: Procs, p: Pid, child: Pid)
    requires TasksOk(s) && Births(s) && LogOk(s) && child !in s.tasks
    ensures Births(Forked(s, p, child)) && LogOk(Forked(s, p, child))
  {
    assert forall q :: q in s.tasks ==> StateOk(s, q);
  }

  lemma ForkMissed(s: Procs, p: Pid, child: Pid)
    requires TasksOk(s) && NoneMissed(s) && child !in s.tasks
    ensures NoneMissed(Forked(s, p, child))
  {
    var s' := Forked(s, p, child);
    forall q, c | Missed(s', q, c) ensures q == INIT {
      assert c != child && q != child;
      assert Missed(s, q, c);
    }
  }

  lemma AdoptOk(s: Procs, p: Pid, status: int)
    requires Inv(s) && Running(s, p) && s.tasks[p].parent != NO_PARENT
    ensures p != INIT && Inv(Adopted(s, p, status))
    ensures forall c :: c in s.tasks ==> Adopted(s, p, status).tasks[c].parent != p
  {
    hide OnList, NoDup, LogOk, Births, NoneMissed, TasksOk;
    AdoptTasks(s, p, status);
    AdoptHistory(s, p, status);
    AdoptMissed(s, p, status);
    AdoptList(s, p, status);
  }

  lemma AdoptList(s: Procs, p: Pid, status: int)
    requires OnList(s) && p in s.tasks
    ensures OnList(Adopted(s, p, status))
  {
  }

  lemma AdoptTasks(s: Procs, p: Pid, status: int)
    requires TasksOk(s) && InitOk(s) && Births(s) && Running(s, p) && s.tasks[p].parent != NO_PARENT
    ensures p != INIT && TasksOk(Adopted(s, p, status))
    ensures forall c :: c in s.tasks ==> Adopted(s, p, status).tasks[c].parent != p
  {
    var s' := Adopted(s, p, status);
    assert ParentOk(s, p);
    forall q | q in s'.tasks ensures ParentOk(s', q) && StateOk(s', q) {
      assert ParentOk(s, q) && StateOk(s, q);
      assert ParentOk(s, INIT) && StateOk(s, INIT);
    }
  }

  lemma AdoptHistory(s: Procs, p: Pid, status: int)
    requires Births(s) && LogOk(s) && InitOk(s) && p in s.tasks && p != INIT
    ensures var s' := Adopted(s, p, status); Births(s') && LogOk(s') && InitOk(s')
  {
    var s' := Adopted(s, p, status);
    assert forall q :: q in s.tasks ==> s'.tasks[q].born == s.tasks[q].born;
  }

  /** Handing over children gives init hanging children, and nobody else. */
  lemma AdoptMissed(s: Procs, p: Pid, status: int)
    requires NoneMissed(s) && p in s.tasks
    ensures NoneMissed(Adopted(s, p, status))
  {
    var s' := Adopted(s, p, status);
    forall q, c | Missed(s', q, c) ensures q == INIT {
      if q != INIT { assert Missed(s, q, c); }
    }
  }

  /** The parent that sys_exit looks for is always found. */
  lemma ParentFound(s: Procs, p: Pid)
    requires Inv(s) && p in s.tasks && s.tasks[p].exiting
    ensures s.tasks[p].parent >= 0 && s.tasks[p].parent in s.tasks && s.tasks[p].parent in s.all && s.tasks[p].parent != p
  {
    hide NoDup, LogOk, Births, NoneMissed;
    assert ParentOk(s, p) && StateOk(s, p);
  }

  lemma HangOk(s: Procs, p: Pid)
    requires Inv(s) && p in s.tasks && s.tasks[p].exiting && s.tasks[p].status == Active
    ensures s.tasks[p].parent >= 0 && s.tasks[p].parent in s.tasks && Inv(Hung(s, p))
  {
    hide OnList, NoDup, LogOk, Births, NoneMissed, TasksOk;
    ParentFound(s, p);
    SameButStatus(s, Hung(s, p));
    HangTasks(s, p);
    HangMissed(s, p);
  }

  /** A step that changes only statuses leaves the list and the history as they were. */
  lemma SameButStatus(s: Procs, s': Procs)
    requires OnList(s) && Births(s) && LogOk(s) && InitOk(s) && s'.all == s.all && s'.tasks.Keys == s.tasks.Keys
    requires s'.births == s.births && s'.log == s.log
    requires forall q :: q in s.tasks ==> s'.tasks[q] == s.tasks[q].(status := s'.tasks[q].status)
    ensures OnList(s') && Births(s') && LogOk(s') && InitOk(s')
  {
    assert forall q :: q in s.tasks ==> s'.tasks[q].born == s.tasks[q].born;
  }

  lemma HangTasks(s: Procs, p: Pid)
    requires TasksOk(s) && p in s.tasks && s.tasks[p].exiting && s.tasks[p].parent >= 0 && s.tasks[p].parent in s.tasks
    ensures TasksOk(Hung(s, p))
  {
    var s' := Hung(s, p);
    forall q | q in s'.tasks ensures ParentOk(s', q) && StateOk(s', q) {
      assert ParentOk(s, q) && StateOk(s, q);
    }
  }

  lemma HangMissed(s: Procs, p: Pid)
    requires NoneMissed(s) && p in s.tasks && s.tasks[p].parent >= 0 && s.tasks[p].parent in s.tasks && s.tasks[p].parent != p
    ensures NoneMissed(Hung(s, p))
  {
    var s' := Hung(s, p);
    forall q, c | Missed(s', q, c) ensures q == INIT {
      assert c != p;
      assert Missed(s, q, c);
    }
  }

  lemma CollectOk(s: Procs, p: Pid, c: Pid)
    requires Inv(s) && p in s.tasks && HangingChild(s, p, c)
    ensures c != INIT && c != p && Inv(Collected(s, p, c))
  {
    hide OnList, NoDup, LogOk, Births, NoneMissed, TasksOk;
    CollectTasks(s, p, c);
    CollectHistory(s, p, c);
    CollectMissed(s, p, c);
    CollectList(s, p, c);
  }

  lemma CollectList(s: Procs, p: Pid, c: Pid)
    requires OnList(s) && p in s.tasks && c in s.tasks
    ensures OnList(Collected(s, p, c))
  {
    WithoutOk(s.all, c);
  }

  lemma CollectTasks(s: Procs, p: Pid, c: Pid)
    requires TasksOk(s) && InitOk(s) && p in s.tasks && HangingChild(s, p, c)
    ensures c != INIT && c != p && TasksOk(Collected(s, p, c)) && InitOk(Collected(s, p, c))
  {
    var s' := Collected(s, p, c);
    assert ParentOk(s, c) && StateOk(s, c);
    forall q | q in s'.tasks ensures ParentOk(s', q) && StateOk(s', q) {
      assert ParentOk(s, q) && StateOk(s, q);
    }
  }

  lemma CollectHistory(s: Procs, p: Pid, c: Pid)
    requires Births(s) && LogOk(s) && TasksOk(s) && p in s.tasks && c in s.tasks
    ensures Births(Collected(s, p, c)) && LogOk(Collected(s, p, c))
  {
    var s' := Collected(s, p, c);
    assert StateOk(s, c);
    assert forall i :: 0 <= i < |s'.log| ==> s'.log[i].born == if i < |s.log| then s.log[i].born else s.tasks[c].born;
  }

  lemma CollectMissed(s: Procs, p: Pid, c: Pid)
    requires NoneMissed(s) && p in s.tasks && c in s.tasks
    ensures NoneMissed(Collected(s, p, c))
  {
    var s' := Collected(s, p, c);
    forall q, d | Missed(s', q, d) ensures q == INIT {
      assert Missed(s, q, d);
    }
  }

  lemma BlockOk(s: Procs, p: Pid)
    requires Inv(s) && Running(s, p) && forall c :: !HangingChild(s, p, c)
    ensures Inv(Blocked(s, p))
  {
    hide OnList, NoDup, LogOk, Births, NoneMissed, TasksOk;
    SameButStatus(s, Blocked(s, p));
    BlockTasks(s, p);
    BlockMissed(s, p);
  }

  lemma BlockTasks(s: Procs, p: Pid)
    requires TasksOk(s) && Running(s, p)
    ensures TasksOk(Blocked(s, p))
  {
    var s' := Blocked(s, p);
    forall q | q in s'.tasks ensures ParentOk(s', q) && StateOk(s', q) {
      assert ParentOk(s, q) && StateOk(s, q);
    }
  }

  lemma BlockMissed(s: Procs, p: Pid)
    requires NoneMissed(s) && p in s.tasks && forall c :: !HangingChild(s, p, c)
    ensures NoneMissed(Blocked(s, p))
  {
    var s' := Blocked(s, p);
    forall q, c | Missed(s', q, c) ensures q == INIT {
      assert HangingChild(s, q, c) && q != p;
      assert Missed(s, q, c);
    }
  }

  // ------------------------------------------------------------------
  // Every run
  // ------------------------------------------------------------------

  datatype Event = Fork(p: Pid, child: Pid) | Exit(p: Pid, status: int) | Hang(p: Pid) | Collect(p: Pid, c: Pid) | Wait(p: Pid)

  ghost predicate Enabled(s: Procs, e: Event) {
    match e
    case Fork(p, child) => Running(s, p) && child !in s.tasks
    case Exit(p, _) => Running(s, p) && s.tasks[p].parent != NO_PARENT
    case Hang(p) => p in s.tasks && s.tasks[p].exiting && s.tasks[p].status == Active
    case Collect(p, c) => Running(s, p) && HangingChild(s, p, c)
    case Wait(p) => Running(s, p) && forall c :: !HangingChild(s, p, c)
  }

  ghost function Step(s: Procs, e: Event): Procs {
    if !Enabled(s, e) then s
    else
      match e
      case Fork(p, child) => Forked(s, p, child)
      case Exit(p, st) => Adopted(s, p, st)
      case Hang(p) =>
        if s.tasks[p].parent >= 0 && s.tasks[p].parent in s.tasks then Hung(s, p) else s
      case Collect(p, c) => Collected(s, p, c)
      case Wait(p) => Blocked(s, p)
  }

  ghost function Run(s: Procs, events: seq<Event>): Procs
    decreases |events|
  {
    if events == [] then s else Run(Step(s, events[0]), events[1..])
  }

  lemma StepOk(s: Procs, e: Event)
    requires Inv(s)
    ensures Inv(Step(s, e))
  {
    hide Inv, Forked, Adopted, Hung, Collected, Blocked;
    if Enabled(s, e) {
      match e
      case Fork(p, child) => ForkOk(s, p, child);
      case Exit(p, st) => AdoptOk(s, p, st);
      case Hang(p) => HangOk(s, p);
      case Collect(p, c) => CollectOk(s, p, c);
      case Wait(p) => BlockOk(s, p);
    }
  }

  /** The invariant holds throughout every run. */
  lemma {:induction false} RunOk(s: Procs, events: seq<Event>)
    requires Inv(s)
    ensures Inv(Run(s, events))
    decreases |events|
  {
    hide Inv, Step;
    if events != [] {
      StepOk(s, events[0]);
      RunOk(Step(s, events[0]), events[1..]);
    }
  }

  /** After thread_init: init, main and idle, none of which has a parent. */
  const START: Procs := Procs([INIT, MAIN, IDLE],
    map[INIT := Task(NO_PARENT, Active, false, 0, 0), MAIN := Task(NO_PARENT, Active, false, 0, 1),
        IDLE := Task(NO_PARENT, Active, false, 0, 2)], 3, [])

  lemma StartOk()
    ensures Inv(START)
  {
    assert START.all[0] == INIT && START.all[1] == MAIN && START.all[2] == IDLE;
  }

  // ------------------------------------------------------------------
  // When a child is missed
  // ------------------------------------------------------------------

  /** No waiting process, init included, has a hanging child. */
  ghost predicate NobodyMisses(s: Procs) {
    forall p, c :: !Missed(s, p, c)
  }

  ghost predicate HasHangingChild(s: Procs, p: Pid) {
    exists c :: HangingChild(s, p, c)
  }

  /** What makes init miss a child: while it waits, a process exits that has a hanging child. It can
      be seen before sys_exit. */
  ghost predicate ExitOverHanging(s: Procs, e: Event) {
    e.Exit? && Enabled(s, e) && INIT in s.tasks && s.tasks[INIT].status == Waiting && HasHangingChild(s, e.p)
  }

  /** While nobody misses a child, a step makes somebody miss one if and only if init waits and a
      process with a hanging child exits; then it is init that misses that child. */
  lemma MissExactly(s: Procs, e: Event)
    requires Inv(s) && NobodyMisses(s)
    ensures NobodyMisses(Step(s, e)) <==> !ExitOverHanging(s, e)
    ensures ExitOverHanging(s, e) ==> forall c :: HangingChild(s, e.p, c) ==> Missed(Step(s, e), INIT, c)
  {
    hide OnList, NoDup, LogOk, Births, TasksOk, NoneMissed;
    if Enabled(s, e) {
      match e
      case Fork(p, child) => ForkMisses(s, p, child);
      case Exit(p, st) => ExitMisses(s, p, st);
      case Hang(p) => HangMisses(s, p);
      case Collect(p, c) => CollectMisses(s, p, c);
      case Wait(p) => WaitMisses(s, p);
    }
  }

  lemma ForkMisses(s: Procs, p: Pid, child: Pid)
    requires NobodyMisses(s) && TasksOk(s) && child !in s.tasks
    ensures NobodyMisses(Forked(s, p, child))
  {
    forall q, c ensures !Missed(Forked(s, p, child), q, c) {
      assert !Missed(s, q, c);
    }
  }

  lemma ExitMisses(s: Procs, p: Pid, st: int)
    requires NobodyMisses(s) && TasksOk(s) && InitOk(s) && Running(s, p)
    ensures NobodyMisses(Adopted(s, p, st)) <==> !(s.tasks[INIT].status == Waiting && HasHangingChild(s, p))
    ensures s.tasks[INIT].status == Waiting ==> forall c :: HangingChild(s, p, c) ==> Missed(Adopted(s, p, st), INIT, c)
  {
    var s' := Adopted(s, p, st);
    if s.tasks[INIT].status == Waiting {
      forall c | HangingChild(s, p, c) ensures Missed(s', INIT, c) {
        assert s'.tasks[c].parent == INIT;
      }
    }
    forall q, c | Missed(s', q, c) ensures q == INIT && s.tasks[INIT].status == Waiting && HangingChild(s, p, c) {
      assert !Missed(s, q, c);
    }
  }

  lemma HangMisses(s: Procs, p: Pid)
    requires Inv(s) && NobodyMisses(s) && p in s.tasks && s.tasks[p].exiting
    ensures s.tasks[p].parent >= 0 && s.tasks[p].parent in s.tasks && NobodyMisses(Hung(s, p))
  {
    hide OnList, NoDup, LogOk, Births, TasksOk;
    ParentFound(s, p);
    forall q, c ensures !Missed(Hung(s, p), q, c) {
      assert !Missed(s, q, c);
    }
  }

  lemma CollectMisses(s: Procs, p: Pid, c: Pid)
    requires NobodyMisses(s) && p in s.tasks && c in s.tasks
    ensures NobodyMisses(Collected(s, p, c))
  {
    forall q, d ensures !Missed(Collected(s, p, c), q, d) {
      assert !Missed(s, q, d);
    }
  }

  lemma WaitMisses(s: Procs, p: Pid)
    requires NobodyMisses(s) && p in s.tasks && forall c :: !HangingChild(s, p, c)
    ensures NobodyMisses(Blocked(s, p))
  {
    forall q, c ensures !Missed(Blocked(s, p), q, c) {
      assert !Missed(s, q, c);
      assert HangingChild(Blocked(s, p), q, c) ==> HangingChild(s, q, c);
    }
  }

  /** Over every run from thread_init on nobody ever misses a child if no process with a hanging
      child exits while init waits. */
  lemma {:induction false} NobodyEverMisses(s: Procs, events: seq<Event>)
    requires Inv(s) && NobodyMisses(s)
    requires forall i :: 0 <= i < |events| ==> !ExitOverHanging(Run(s, events[..i]), events[i])
    ensures NobodyMisses(Run(s, events))
    decreases |events|
  {
    hide Inv, NobodyMisses, ExitOverHanging, Step;
    if events != [] {
      assert events[..0] == [];
      MissExactly(s, events[0]);
      StepOk(s, events[0]);
      forall i | 0 <= i < |events[1..]| ensures !ExitOverHanging(Run(Step(s, events[0]), events[1..][..i]), events[1..][i]) {
        assert events[..i + 1][1..] == events[1..][..i];
      }
      NobodyEverMisses(Step(s, events[0]), events[1..]);
    }
  }

  /** Following parents never comes back: along a chain of parents the births go down. */
  lemma {:induction false} NoCycle(s: Procs, chain: seq<Pid>)
    requires Inv(s) && |chain| >= 2 && forall i :: 0 <= i < |chain| ==> chain[i] in s.tasks
    requires forall i :: 0 <= i < |chain| - 1 ==> s.tasks[chain[i]].parent == chain[i + 1]
    ensures s.tasks[chain[|chain| - 1]].born < s.tasks[chain[0]].born && chain[0] != chain[|chain| - 1]
    decreases |chain|
  {
    hide OnList, NoDup, LogOk, Births, NoneMissed;
    assert ParentOk(s, chain[0]);
    assert s.tasks[chain[0]].parent == chain[1];
    if |chain| > 2 {
      NoCycle(s, chain[1..]);
    }
  }

  /** A chain of three processes below init, the last of which has exited. */
  const CHAIN: Procs := Procs([INIT, MAIN, IDLE, 4, 5, 6],
    START.tasks[4 := Task(1, Active, false, 0, 3)][5 := Task(4, Active, false, 0, 4)][6 := Task(5, Hanging, true, 0, 5)], 6, [])

  lemma ChainReached()
    ensures Run(START, [Fork(1, 4), Fork(4, 5), Fork(5, 6), Exit(6, 0), Hang(6)]) == CHAIN
  {
    var events := [Fork(1, 4), Fork(4, 5), Fork(5, 6), Exit(6, 0), Hang(6)];
    var s1 := Step(START, events[0]);
    var s2 := Step(s1, events[1]);
    var s3 := Step(s2, events[2]);
    var s4 := Step(s3, events[3]);
    RunStep(START, events);
    RunStep(s1, events[1..]);
    RunStep(s2, events[2..]);
    RunStep(s3, events[3..]);
    RunStep(s4, events[4..]);
    assert s3.all == [1, 2, 3, 4, 5, 6];
    assert Step(s4, events[4]).tasks == CHAIN.tasks;
  }

  lemma {:induction false} RunOn(s: Procs, a: seq<Event>, b: seq<Event>)
    ensures Run(s, a + b) == Run(Run(s, a), b)
    decreases |a|
  {
    hide Step;
    if a == [] {
      assert a + b == b;
    } else {
      assert (a + b)[1..] == a[1..] + b;
      RunOn(Step(s, a[0]), a[1..], b);
    }
  }

  lemma ChainMisses()
    ensures Missed(Run(CHAIN, [Wait(1), Exit(5, 0), Hang(5)]), INIT, 6)
  {
    var events := [Wait(1), Exit(5, 0), Hang(5)];
    var s1 := Step(CHAIN, events[0]);
    var s2 := Step(s1, events[1]);
    RunStep(CHAIN, events);
    RunStep(s1, events[1..]);
    RunStep(s2, events[2..]);
    assert s1.tasks[1].status == Waiting && s2.tasks[6].parent == 1;
  }

  /** init can miss a child: a process it adopts may hang already, and init is not woken for it. */
  lemma InitCanMiss()
    ensures exists events, c :: Missed(Run(START, events), INIT, c)
  {
    hide Run, Missed;
    var a, b := [Fork(1, 4), Fork(4, 5), Fork(5, 6), Exit(6, 0), Hang(6)], [Wait(1), Exit(5, 0), Hang(5)];
    ChainReached();
    ChainMisses();
    RunOn(START, a, b);
    assert Missed(Run(START, a + b), INIT, 6);
  }

  lemma RunStep(s: Procs, events: seq<Event>)
    requires events != []
    ensures Run(s, events) == Run(Step(s, events[0]), events[1..])
    ensures |events| == 1 ==> Run(s, events) == Step(s, events[0])
  {
  }
}
