/** Runs of fork, exit and wait from thread_init on, against a record that is kept of the system calls
    alone: who was forked by whom, what each exit was given, who waits, and what was collected. */
module ProcessRuns {
  import opened Lists
  import opened ProcessSpec

  // ------------------------------------------------------------------
  // The record
  // ------------------------------------------------------------------

  /** Processes are told apart by the order of their creation, as pids are used again. names: who has
      which pid. forker: who forked whom. given: what exit was called with. hung: who is through with
      exit. waiting: who went to sleep in wait, and no child of his has hung since. collected: what the
      calls of wait should have returned. */
  datatype Record = Record(names: map<Pid, nat>, births: nat, forker: map<nat, nat>, given: map<nat, int>, hung: set<nat>,
                           waiting: set<nat>, collected: seq<Collection>)

  const BLANK: Record := Record(map[INIT := 0, MAIN := 1, IDLE := 2], 3, map[], map[], {}, {}, [])

  /** Who looks after process b: the one that forked it, or init once that one has called exit. */
  function Guardian(l: Record, b: nat): nat {
    if b in l.forker && l.forker[b] !in l.given then l.forker[b] else 0
  }

  function Noted(l: Record, e: Event): Record {
    match e
    case Fork(p, child) =>
      if p !in l.names then l
      else l.(names := l.names[child := l.births], births := l.births + 1, forker := l.forker[l.births := l.names[p]])
    case Exit(p, st) => if p !in l.names then l else l.(given := l.given[l.names[p] := st])
    case Hang(p) =>
      if p !in l.names then l
      else l.(hung := l.hung + {l.names[p]}, waiting := l.waiting - {Guardian(l, l.names[p])})
    case Collect(p, c) =>
      if p !in l.names || c !in l.names || l.names[c] !in l.given then l
      else l.(names := l.names - {c},
              collected := l.collected + [Collection(l.names[c], c, l.given[l.names[c]], l.names[p])])
    case Wait(p) => if p !in l.names then l else l.(waiting := l.waiting + {l.names[p]})
  }

  function RecordOf(events: seq<Event>): Record {
    if events == [] then BLANK else Noted(RecordOf(events[..|events| - 1]), events[|events| - 1])
  }

  lemma NothingYet()
    ensures After([]) == START && AllMade([])
  {
  }

  /** The state after a run from thread_init on. */
  ghost function After(events: seq<Event>): Procs {
    Run(START, events)
  }

  /** Every system call of the run is made by a process that can make it. */
  ghost predicate AllMade(events: seq<Event>) {
    forall i :: 0 <= i < |events| ==> MadeAt(events, i)
  }

  ghost predicate MadeAt(events: seq<Event>, i: nat)
    requires i < |events|
  {
    Enabled(After(events[..i]), events[i])
  }

  // ------------------------------------------------------------------
  // The process table is what the record says
  // ------------------------------------------------------------------

  /** What the record says of one process. */
  ghost predicate TaskIs(s: Procs, l: Record, p: Pid)
    requires p in s.tasks
  {
    var t, b := s.tasks[p], s.tasks[p].born;
    && (t.exiting <==> b in l.given) && (t.exiting ==> t.exitStatus == l.given[b])
    && (t.status == Hanging <==> b in l.hung) && (t.status == Waiting <==> b in l.waiting)
    && (t.parent == NO_PARENT <==> b !in l.forker)
    && (b in l.forker ==> t.parent >= 0 && t.parent in s.tasks && s.tasks[t.parent].born == Guardian(l, b))
  }

  ghost predicate Old(l: Record) {
    && (forall b :: b in l.forker ==> b < l.births && l.forker[b] < l.births) && (forall b :: b in l.given ==> b < l.births)
    && (forall b :: b in l.hung ==> b < l.births) && (forall b :: b in l.waiting ==> b < l.births)
  }

  ghost predicate Recorded(s: Procs, l: Record) {
    && s.births == l.births && s.log == l.collected && l.names.Keys == s.tasks.Keys && Old(l)
    && (forall p :: p in s.tasks ==> l.names[p] == s.tasks[p].born)
    && (forall p :: p in s.tasks ==> TaskIs(s, l, p))
  }

  lemma StartRecorded()
    ensures Recorded(START, BLANK)
  {
  }

  lemma ForkRecorded(s: Procs, l: Record, p: Pid, child: Pid)
    requires Inv(s) && Recorded(s, l) && Enabled(s, Fork(p, child))
    ensures Recorded(Forked(s, p, child), Noted(l, Fork(p, child)))
  {
    hide OnList, NoDup, LogOk, NoneMissed, Births, TaskIs;
    var s', l' := Forked(s, p, child), Noted(l, Fork(p, child));
    assert StateOk(s, p) && TaskIs(s, l, p);
    forall q | q in s'.tasks ensures TaskIs(s', l', q) {
      if q != child { assert StateOk(s, q); }
      ForkTask(s, l, p, child, q);
    }
  }

  lemma ForkTask(s: Procs, l: Record, p: Pid, child: Pid, q: Pid)
    requires Running(s, p) && child !in s.tasks && TaskIs(s, l, p) && Old(l) && s.births == l.births
    requires p in l.names && l.names[p] == s.tasks[p].born
    requires q == child || (q in s.tasks && TaskIs(s, l, q) && s.tasks[q].born < s.births)
    ensures TaskIs(Forked(s, p, child), Noted(l, Fork(p, child)), q)
  {
  }

  lemma ExitRecorded(s: Procs, l: Record, p: Pid, st: int)
    requires Inv(s) && Recorded(s, l) && Enabled(s, Exit(p, st))
    ensures Recorded(Adopted(s, p, st), Noted(l, Exit(p, st)))
  {
    hide OnList, NoDup, LogOk, NoneMissed, TaskIs, TasksOk, Births;
    var s', l' := Adopted(s, p, st), Noted(l, Exit(p, st));
    BornOld(s, p);
    forall q | q in s'.tasks ensures TaskIs(s', l', q) {
      assert TaskIs(s, l, q) && TaskIs(s, l, p);
      ExitTask(s, l, p, st, q);
    }
  }

  lemma BornOld(s: Procs, p: Pid)
    requires TasksOk(s) && p in s.tasks
    ensures s.tasks[p].born < s.births
  {
    assert StateOk(s, p);
  }

  lemma ExitTask(s: Procs, l: Record, p: Pid, st: int, q: Pid)
    requires Births(s) && InitOk(s) && Running(s, p) && s.tasks[p].parent != NO_PARENT && q in s.tasks
    requires TaskIs(s, l, p) && TaskIs(s, l, q) && p in l.names && l.names[p] == s.tasks[p].born
    ensures TaskIs(Adopted(s, p, st), Noted(l, Exit(p, st)), q)
  {
    assert q != p ==> s.tasks[q].born != s.tasks[p].born;
    assert s.tasks[p].born != 0;
  }

  lemma HangRecorded(s: Procs, l: Record, p: Pid)
    requires Inv(s) && Recorded(s, l) && Enabled(s, Hang(p))
    ensures s.tasks[p].parent >= 0 && s.tasks[p].parent in s.tasks
    ensures Recorded(Hung(s, p), Noted(l, Hang(p)))
  {
    hide OnList, NoDup, LogOk, NoneMissed, TaskIs, TasksOk, Births;
    ParentFound(s, p);
    BornOld(s, p);
    var s', l' := Hung(s, p), Noted(l, Hang(p));
    forall q | q in s'.tasks ensures TaskIs(s', l', q) {
      assert TaskIs(s, l, q) && TaskIs(s, l, p);
      HangTask(s, l, p, q);
    }
  }

  lemma HangTask(s: Procs, l: Record, p: Pid, q: Pid)
    requires Births(s) && p in s.tasks && s.tasks[p].exiting && s.tasks[p].status == Active && q in s.tasks
    requires s.tasks[p].parent >= 0 && s.tasks[p].parent in s.tasks && s.tasks[p].parent != p
    requires TaskIs(s, l, p) && TaskIs(s, l, q) && p in l.names && l.names[p] == s.tasks[p].born
    ensures TaskIs(Hung(s, p), Noted(l, Hang(p)), q)
  {
    assert q != p ==> s.tasks[q].born != s.tasks[p].born;
    assert q != s.tasks[p].parent ==> s.tasks[q].born != s.tasks[s.tasks[p].parent].born;
  }

  lemma CollectRecorded(s: Procs, l: Record, p: Pid, c: Pid)
    requires Inv(s) && Recorded(s, l) && Enabled(s, Collect(p, c))
    ensures Recorded(Collected(s, p, c), Noted(l, Collect(p, c)))
  {
    hide OnList, NoDup, LogOk, NoneMissed, Births;
    var s', l' := Collected(s, p, c), Noted(l, Collect(p, c));
    assert TaskIs(s, l, c) && StateOk(s, c);
    forall q | q in s'.tasks ensures TaskIs(s', l', q) {
      assert TaskIs(s, l, q) && ParentOk(s, q);
      assert Guardian(l', s.tasks[q].born) == Guardian(l, s.tasks[q].born);
    }
  }

  lemma WaitRecorded(s: Procs, l: Record, p: Pid)
    requires Inv(s) && Recorded(s, l) && Enabled(s, Wait(p))
    ensures Recorded(Blocked(s, p), Noted(l, Wait(p)))
  {
    hide OnList, NoDup, LogOk, NoneMissed, TaskIs, TasksOk, Births;
    BornOld(s, p);
    var s', l' := Blocked(s, p), Noted(l, Wait(p));
    forall q | q in s'.tasks ensures TaskIs(s', l', q) {
      assert TaskIs(s, l, q);
      WaitTask(s, l, p, q);
    }
  }

  lemma WaitTask(s: Procs, l: Record, p: Pid, q: Pid)
    requires Births(s) && Running(s, p) && q in s.tasks && TaskIs(s, l, q) && p in l.names && l.names[p] == s.tasks[p].born
    ensures TaskIs(Blocked(s, p), Noted(l, Wait(p)), q)
  {
    assert q != p ==> s.tasks[q].born != s.tasks[p].born;
  }

  lemma StepRecorded(s: Procs, l: Record, e: Event)
    requires Inv(s) && Recorded(s, l) && Enabled(s, e)
    ensures Recorded(Step(s, e), Noted(l, e))
  {
    hide Inv, Recorded, Noted, Forked, Adopted, Hung, Collected, Blocked;
    match e
    case Fork(p, child) => ForkRecorded(s, l, p, child);
    case Exit(p, st) => ExitRecorded(s, l, p, st);
    case Hang(p) => HangRecorded(s, l, p);
    case Collect(p, c) => CollectRecorded(s, l, p, c);
    case Wait(p) => WaitRecorded(s, l, p);
  }

  lemma AfterOne(events: seq<Event>, e: Event)
    ensures After(events + [e]) == Step(After(events), e)
    ensures RecordOf(events + [e]) == Noted(RecordOf(events), e)
    ensures AllMade(events) && Enabled(After(events), e) ==> AllMade(events + [e])
    ensures AllMade(events + [e]) ==> AllMade(events) && Enabled(After(events), e)
  {
    hide Step, Enabled, Noted;
    var more := events + [e];
    assert more[..|events|] == events;
    RunOn(START, events, [e]);
    RunStep(After(events), [e]);
    if AllMade(events) && Enabled(After(events), e) {
      forall i | 0 <= i < |more| ensures MadeAt(more, i) {
        if i < |events| {
          assert MadeAt(events, i) && more[..i] == events[..i];
        }
      }
    }
    if AllMade(more) {
      forall i | 0 <= i < |events| ensures MadeAt(events, i) {
        assert MadeAt(more, i) && more[..i] == events[..i];
      }
      assert MadeAt(more, |events|);
    }
  }

  /** Over every run from thread_init on the process table is what the system calls made so far say:
      who there is, whose child, with which exit status, who waits and hangs; and the log of what wait
      returned holds the statuses that the exits were given. */
  lemma {:induction false} RunRecorded(events: seq<Event>)
    requires AllMade(events)
    ensures Inv(After(events)) && Recorded(After(events), RecordOf(events))
    decreases |events|
  {
    hide Inv, Recorded, Step, Enabled, Noted, AllMade;
    if events == [] {
      StartOk();
      StartRecorded();
    } else {
      var before, e := events[..|events| - 1], events[|events| - 1];
      assert events == before + [e];
      AfterOne(before, e);
      RunRecorded(before);
      StepOk(After(before), e);
      StepRecorded(After(before), RecordOf(before), e);
    }
  }

  // ------------------------------------------------------------------
  // One exit for each status
  // ------------------------------------------------------------------

  /** The call at i is the exit of process b. */
  predicate ExitOf(events: seq<Event>, i: nat, b: nat)
    requires i < |events|
  {
    var l := RecordOf(events[..i]);
    events[i].Exit? && events[i].p in l.names && l.names[events[i].p] == b
  }

  /** No process calls exit twice. */
  lemma {:induction false} ExitsOnce(events: seq<Event>, i: nat, j: nat, b: nat)
    requires AllMade(events) && i < j < |events| && ExitOf(events, i, b)
    ensures !ExitOf(events, j, b)
  {
    hide Inv, Noted, RecordOf;
    GivenFrom(events, i, j, b);
    Prefix(events, j);
    RunRecorded(events[..j]);
    assert MadeAt(events, j);
    NotYet(After(events[..j]), RecordOf(events[..j]), events[j]);
  }

  lemma Prefix(events: seq<Event>, j: nat)
    requires AllMade(events) && j <= |events|
    ensures AllMade(events[..j])
  {
    hide Enabled, After;
    forall i | 0 <= i < j ensures MadeAt(events[..j], i) {
      assert MadeAt(events, i) && events[..j][..i] == events[..i];
    }
  }

  /** Who can call exit has not. */
  lemma NotYet(s: Procs, l: Record, e: Event)
    requires Recorded(s, l) && Enabled(s, e)
    ensures e.Exit? ==> e.p in l.names && l.names[e.p] !in l.given
  {
    if e.Exit? { assert TaskIs(s, l, e.p); }
  }

  /** What the exit at i was given stays on the record. */
  lemma {:induction false} GivenFrom(events: seq<Event>, i: nat, j: nat, b: nat)
    requires AllMade(events) && i < j <= |events| && ExitOf(events, i, b)
    ensures b in RecordOf(events[..j]).given && RecordOf(events[..j]).given[b] == events[i].status
    decreases j
  {
    hide Inv, Enabled, After, Recorded;
    var before := events[..j - 1];
    assert events[..j] == before + [events[j - 1]];
    assert events[..j][..j - 1] == before;
    if i < j - 1 {
      GivenFrom(events, i, j - 1, b);
      Prefix(events, j - 1);
      RunRecorded(before);
      assert MadeAt(events, j - 1);
      NotYet(After(before), RecordOf(before), events[j - 1]);
    }
  }

  /** What is on the record was given to an exit. */
  lemma {:induction false} GivenByExit(events: seq<Event>, b: nat) returns (i: nat)
    requires b in RecordOf(events).given
    ensures i < |events| && ExitOf(events, i, b) && RecordOf(events).given[b] == events[i].status
    decreases |events|
  {
    var n := |events| - 1;
    var before := events[..n];
    if events[n].Exit? && events[n].p in RecordOf(before).names && RecordOf(before).names[events[n].p] == b {
      i := n;
    } else {
      i := GivenByExit(before, b);
      assert before[..i] == events[..i];
    }
  }

  /** The status that wait returned for a process is the one its exit was given: over every run each
      entry of the log belongs to exactly one call of exit, made by that process. */
  lemma StatusGiven(events: seq<Event>, k: nat) returns (i: nat)
    requires AllMade(events) && k < |After(events).log|
    ensures i < |events| && ExitOf(events, i, After(events).log[k].born)
    ensures After(events).log[k].status == events[i].status
    ensures forall j :: 0 <= j < |events| && j != i ==> !ExitOf(events, j, After(events).log[k].born)
  {
    hide Inv, AllMade, ExitOf;
    var b := After(events).log[k].born;
    RunRecorded(events);
    CollectedGiven(events, k);
    i := GivenByExit(events, b);
    forall j | 0 <= j < |events| && j != i ensures !ExitOf(events, j, b) {
      if ExitOf(events, j, b) {
        if i < j { ExitsOnce(events, i, j, b); } else { ExitsOnce(events, j, i, b); }
      }
    }
  }

  /** An entry is made with the status on record, which stays. */
  lemma {:induction false} CollectedGiven(events: seq<Event>, k: nat)
    requires AllMade(events) && k < |RecordOf(events).collected|
    ensures var x := RecordOf(events).collected[k];
      x.born in RecordOf(events).given && x.status == RecordOf(events).given[x.born]
    decreases |events|
  {
    hide Inv, Enabled, After, Recorded;
    var before, e := events[..|events| - 1], events[|events| - 1];
    assert events == before + [e];
    AfterOne(before, e);
    if k < |RecordOf(before).collected| {
      CollectedGiven(before, k);
    }
    RunRecorded(before);
    NotYet(After(before), RecordOf(before), e);
  }

  /** Between exit and wait nothing changes the status of a process: a step leaves it as it is, or
      takes the process away. */
  lemma StatusStays(s: Procs, e: Event, p: Pid)
    requires Inv(s) && p in s.tasks && s.tasks[p].exiting && p in Step(s, e).tasks
    ensures Step(s, e).tasks[p].exiting && Step(s, e).tasks[p].exitStatus == s.tasks[p].exitStatus
    ensures Step(s, e).tasks[p].born == s.tasks[p].born
  {
    hide Inv;
  }

  // ------------------------------------------------------------------
  // The order of the list
  // ------------------------------------------------------------------

  /** thread_all_list is in the order of creation. */
  ghost predicate InOrder(s: Procs) {
    forall i, j :: 0 <= i < j < |s.all| && s.all[i] in s.tasks && s.all[j] in s.tasks ==>
      s.tasks[s.all[i]].born < s.tasks[s.all[j]].born
  }

  lemma ForkInOrder(s: Procs, p: Pid, child: Pid)
    requires TasksOk(s) && OnList(s) && InOrder(s) && child !in s.tasks
    ensures InOrder(Forked(s, p, child))
  {
    var s' := Forked(s, p, child);
    forall i | 0 <= i < |s.all| ensures s.all[i] in s.tasks && s.tasks[s.all[i]].born < s.births {
      assert s.all[i] in s.all;
      assert StateOk(s, s.all[i]);
    }
  }

  lemma CollectInOrder(s: Procs, p: Pid, c: Pid)
    requires OnList(s) && InOrder(s) && p in s.tasks && c in s.tasks
    ensures InOrder(Collected(s, p, c))
  {
    hide OnList, NoDup;
    var k := PlaceOf(s, c);
    assert Collected(s, p, c).all == s.all[..k] + s.all[k + 1..];
  }

  lemma PlaceOf(s: Procs, c: Pid) returns (k: nat)
    requires OnList(s) && c in s.tasks
    ensures k < |s.all| && s.all[k] == c && Without(s.all, c) == s.all[..k] + s.all[k + 1..]
  {
    assert c in s.all;
    k :| 0 <= k < |s.all| && s.all[k] == c;
    Lists.WithoutAt(s.all, k);
  }

  lemma SameInOrder(s: Procs, s': Procs)
    requires InOrder(s) && s'.all == s.all && s'.tasks.Keys == s.tasks.Keys
    requires forall q :: q in s.tasks ==> s'.tasks[q].born == s.tasks[q].born
    ensures InOrder(s')
  {
  }

  lemma StepInOrder(s: Procs, e: Event)
    requires Inv(s) && InOrder(s)
    ensures InOrder(Step(s, e))
  {
    hide NoDup, LogOk, NoneMissed, Births, InOrder, TasksOk, OnList;
    if Enabled(s, e) {
      match e
      case Fork(p, child) => ForkInOrder(s, p, child);
      case Collect(p, c) => CollectInOrder(s, p, c);
      case _ => SameInOrder(s, Step(s, e));
    }
  }

  /** Over every run the list is in the order of creation, so that the first hanging child that wait
      comes to is the eldest. */
  lemma {:induction false} RunInOrder(events: seq<Event>)
    requires AllMade(events)
    ensures InOrder(After(events))
    decreases |events|
  {
    hide Inv, Step, Enabled, AllMade, InOrder;
    if events == [] {
      StartInOrder();
    } else {
      var before, e := events[..|events| - 1], events[|events| - 1];
      assert events == before + [e];
      AfterOne(before, e);
      RunInOrder(before);
      RunRecorded(before);
      StepInOrder(After(before), e);
    }
  }

  lemma StartInOrder()
    ensures InOrder(START)
  {
  }
}
