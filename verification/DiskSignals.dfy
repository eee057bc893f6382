/** The handshake between the threads that use an ide channel and its interrupt handler (ide.c): a
    command raises expecting_intr, the handler turns it into one up of disk_done, and sema_down takes
    that. The disk may interrupt at any moment, or more often than it was asked to. */
module DiskSignals {

  type Tid = nat

  const NOBODY: int := -1

  /** Outside: without the channel lock. Holding: with it, no command under way. Sent: the command is
      out, the thread will test disk_done. Asleep: blocked in sema_down. */
  datatype Place = Outside | Holding | Sent | Asleep

  /** sent, taken and interrupts only count what has happened. */
  datatype Channel = Channel(
    places: map<Tid, Place>, holder: int, expecting: bool, value: nat, waiters: seq<Tid>,
    sent: nat, taken: nat, interrupts: nat)

  datatype Event = Lock(t: Tid) | CmdOut(t: Tid) | Test(t: Tid) | Unlock(t: Tid) | Interrupt

  predicate Enabled(c: Channel, e: Event) {
    match e
    case Lock(t) => t in c.places && c.places[t] == Outside && c.holder == NOBODY
    case CmdOut(t) => t in c.places && c.places[t] == Holding
    case Test(t) => t in c.places && c.places[t] == Sent
    case Unlock(t) => t in c.places && c.places[t] == Holding
    case Interrupt => true
  }

  function Move(c: Channel, t: Tid, p: Place): Channel {
    c.(places := c.places[t := p])
  }

  /** sema_up on disk_done. */
  function Up(c: Channel): Channel {
    if c.waiters == [] then c.(value := c.value + 1)
    else Move(c, c.waiters[0], Sent).(waiters := c.waiters[1..], value := c.value + 1)
  }

  /** One turn of the loop of sema_down on disk_done. */
  function DownOnce(c: Channel, t: Tid): Channel {
    if c.value == 0 then Move(c, t, Asleep).(waiters := c.waiters + [t])
    else Move(c, t, Holding).(value := c.value - 1, taken := c.taken + 1)
  }

  function Step(c: Channel, e: Event): Channel
    requires Enabled(c, e)
  {
    match e
    case Lock(t) => Move(c, t, Holding).(holder := t)
    case CmdOut(t) => Move(c, t, Sent).(expecting := true, sent := c.sent + 1)
    case Test(t) => DownOnce(c, t)
    case Unlock(t) => Move(c, t, Outside).(holder := NOBODY)
    case Interrupt =>
      var c' := c.(interrupts := c.interrupts + 1);
      if c.expecting then Up(c'.(expecting := false)) else c'
  }

  /** The step would fail an ASSERT of sema_up, sema_down or thread_unblock. */
  ghost predicate Halts(c: Channel, e: Event)
    requires Enabled(c, e)
  {
    match e
    case Test(t) => if c.value == 0 then t in c.waiters else Step(c, e).value != 0
    case Interrupt =>
      && c.expecting
      && (c.value != 0 || (c.waiters != [] && !(c.waiters[0] in c.places && c.places[c.waiters[0]] == Asleep)))
    case _ => false
  }

  ghost predicate AwaitsDisk(c: Channel) {
    c.holder >= 0 && c.holder in c.places && c.places[c.holder] in {Sent, Asleep}
  }

  function Tokens(c: Channel): nat {
    (if c.expecting then 1 else 0) + c.value
  }

  /** Only the holder of the lock is inside. There is exactly one token, expecting_intr or a unit of
      disk_done, while a command is under way and none otherwise; a sleeper's token is the flag, so
      the next interrupt wakes it. */
  ghost predicate Inv(c: Channel) {
    && (forall t :: t in c.places ==> (c.places[t] != Outside <==> t == c.holder))
    && (c.holder != NOBODY ==> c.holder >= 0 && c.holder in c.places)
    && Tokens(c) == (if AwaitsDisk(c) then 1 else 0)
    && (AwaitsDisk(c) && c.places[c.holder] == Asleep ==> c.waiters == [c.holder] && c.expecting)
    && (!(AwaitsDisk(c) && c.places[c.holder] == Asleep) ==> c.waiters == [])
    && c.sent == c.taken + Tokens(c) && c.taken + c.value <= c.interrupts
  }

  /** ide_init leaves the flag down and disk_done at 0. */
  function Start(threads: set<Tid>): Channel {
    Channel(map t | t in threads :: Outside, NOBODY, false, 0, [], 0, 0, 0)
  }

  ghost predicate Possible(c: Channel, es: seq<Event>)
    decreases |es|
  {
    es == [] || (Enabled(c, es[0]) && Possible(Step(c, es[0]), es[1..]))
  }

  function Run(c: Channel, es: seq<Event>): Channel
    requires Possible(c, es)
    decreases |es|
  {
    if es == [] then c else Run(Step(c, es[0]), es[1..])
  }

  /** No step of a thread and no interrupt, wanted or not, fires an ASSERT. */
  lemma StepOk(c: Channel, e: Event)
    requires Inv(c) && Enabled(c, e)
    ensures !Halts(c, e) && Inv(Step(c, e))
  {
    match e
    case Interrupt =>
      if c.expecting && c.waiters != [] {
        assert c.waiters[1..] == [];
      }
    case _ =>
  }

  lemma {:induction false} RunOk(c: Channel, es: seq<Event>)
    requires Inv(c) && Possible(c, es)
    ensures Inv(Run(c, es))
    decreases |es|
  {
    if es != [] {
      StepOk(c, es[0]);
      RunOk(Step(c, es[0]), es[1..]);
    }
  }

  /** Over every run, each command sent was answered by one up and that up taken, except the one under
      way; and no up came without an interrupt. */
  lemma OneTokenPerCommand(threads: set<Tid>, es: seq<Event>)
    requires Possible(Start(threads), es)
    ensures var c := Run(Start(threads), es);
      c.sent == c.taken + (if AwaitsDisk(c) then 1 else 0) && c.taken <= c.interrupts
  {
    RunOk(Start(threads), es);
  }

  /** A thread does not pass sema_down before the disk has interrupted, whatever came before its
      command: no unit of disk_done is left over from an earlier one. */
  lemma {:induction false} WaitsForInterrupt(c: Channel, t: Tid, es: seq<Event>)
    requires Inv(c) && t in c.places && c.places[t] in {Sent, Asleep} && c.value == 0
    requires Possible(c, es) && Interrupt !in es
    ensures var c' := Run(c, es); t in c'.places && c'.places[t] in {Sent, Asleep} && c'.value == 0
    decreases |es|
  {
    if es != [] {
      StepOk(c, es[0]);
      assert es[0] != Interrupt && Interrupt !in es[1..];
      WaitsForInterrupt(Step(c, es[0]), t, es[1..]);
    }
  }

  lemma FreshCommandWaits(c: Channel, t: Tid, es: seq<Event>)
    requires Inv(c) && Enabled(c, CmdOut(t)) && Possible(Step(c, CmdOut(t)), es) && Interrupt !in es
    ensures Run(Step(c, CmdOut(t)), es).places.Keys >= {t}
    ensures Run(Step(c, CmdOut(t)), es).places[t] in {Sent, Asleep}
  {
    StepOk(c, CmdOut(t));
    WaitsForInterrupt(Step(c, CmdOut(t)), t, es);
  }

  /** And one interrupt is enough: after it the thread is awake and its next test passes, whoever else
      ran in between. */
  lemma {:induction false} OneInterruptIsEnough(c: Channel, t: Tid, es: seq<Event>)
    requires Inv(c) && t in c.places && c.places[t] == Sent && c.value == 1
    requires Possible(c, es) && Test(t) !in es
    ensures Enabled(Run(c, es), Test(t)) && Step(Run(c, es), Test(t)).places[t] == Holding
    decreases |es|
  {
    if es != [] {
      StepOk(c, es[0]);
      assert es[0] != Test(t) && Test(t) !in es[1..];
      OneInterruptIsEnough(Step(c, es[0]), t, es[1..]);
    }
  }

  lemma InterruptWakes(c: Channel, t: Tid, es: seq<Event>)
    requires Inv(c) && t in c.places && c.places[t] in {Sent, Asleep}
    requires Possible(Step(c, Interrupt), es) && Test(t) !in es
    ensures var c' := Run(Step(c, Interrupt), es);
      Enabled(c', Test(t)) && Step(c', Test(t)).places[t] == Holding
  {
    StepOk(c, Interrupt);
    OneInterruptIsEnough(Step(c, Interrupt), t, es);
  }
}
