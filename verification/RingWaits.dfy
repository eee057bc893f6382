/** Threads that wait at a ring for bytes or for room (ioqueue.c:33-94): a thread sleeps inside ioq_wait
    holding the lock of the ring, and is woken by the next byte put or taken. Interrupts stay off in
    ioq_getchar and ioq_putchar, so threads change only where one waits for the lock or sleeps. */
module RingWaits {
  import opened Sectors
  import opened Rings

  type Tid = nat

  const ROOM: nat := BUFSIZE - 1

  /** What a thread is in the loop for. */
  datatype Role = Getting | Putting(b: Byte)

  /** Calling: not in the loop. Locking: in lock_acquire, the lock being taken. Asleep: blocked in
      ioq_wait. Woken: unblocked, about to release the lock and look again. */
  datatype Place = Calling | Locking(r: Role) | Asleep(r: Role) | Woken(r: Role)

  datatype World = World(places: map<Tid, Place>, queue: seq<Byte>, consumer: int, producer: int, holder: int)

  /** PutByte and TakeByte stand for callers that make sure not to wait: the keyboard handler, which
      drops a byte when the ring is full, and readers of a pipe, which ask for its length first. */
  datatype Event = PutByte(b: Byte) | TakeByte | Call(t: Tid, r: Role) | Acquire(t: Tid) | Resume(t: Tid)

  predicate Enabled(w: World, e: Event) {
    match e
    case PutByte(_) => |w.queue| < ROOM
    case TakeByte => w.queue != []
    case Call(t, _) => t in w.places && w.places[t] == Calling
    case Acquire(t) => t in w.places && w.places[t].Locking? && w.holder == NOBODY
    case Resume(t) => t in w.places && w.places[t].Woken?
  }

  function Move(w: World, t: Tid, p: Place): World {
    w.(places := w.places[t := p])
  }

  function RoleOf(w: World, t: Tid): Role {
    if t in w.places && w.places[t] != Calling then w.places[t].r else Getting
  }

  /** The end of ioq_putchar: the byte is in, and a waiting consumer is woken. */
  function Put(w: World, b: Byte): World {
    var w' := w.(queue := w.queue + [b]);
    if w.consumer < 0 then w' else Move(w', w.consumer, Woken(RoleOf(w, w.consumer))).(consumer := NOBODY)
  }

  /** The end of ioq_getchar: the oldest byte is out, and a waiting producer is woken. */
  function Take(w: World): World
    requires w.queue != []
  {
    var w' := w.(queue := w.queue[1..]);
    if w.producer < 0 then w' else Move(w', w.producer, Woken(RoleOf(w, w.producer))).(producer := NOBODY)
  }

  /** ioq_wait, the lock just taken. */
  function Sleep(w: World, t: Tid, r: Role): World {
    var w' := Move(w, t, Asleep(r)).(holder := t);
    if r.Getting? then w'.(consumer := t) else w'.(producer := t)
  }

  /** ioq_empty for a consumer, ioq_full for a producer. */
  predicate MustWait(w: World, r: Role) {
    if r.Getting? then w.queue == [] else |w.queue| >= ROOM
  }

  /** The loop of ioq_getchar or ioq_putchar from its test on. */
  function Look(w: World, t: Tid, r: Role): World {
    if !MustWait(w, r) then
      (match r
       case Getting => Take(Move(w, t, Calling))
       case Putting(b) => Put(Move(w, t, Calling), b))
    else if w.holder == NOBODY then Sleep(w, t, r)
    else Move(w, t, Locking(r))
  }

  function Step(w: World, e: Event): World
    requires Enabled(w, e)
  {
    match e
    case PutByte(b) => Put(w, b)
    case TakeByte => Take(w)
    case Call(t, r) => Look(w, t, r)
    case Acquire(t) => Sleep(w, t, w.places[t].r)
    case Resume(t) => Look(w.(holder := NOBODY), t, w.places[t].r)
  }

  /** The slot that a role waits in. */
  function SlotOf(w: World, r: Role): int {
    if r.Getting? then w.consumer else w.producer
  }

  /** A slot names nobody, or a thread that is blocked. */
  predicate MayWake(w: World, slot: int) {
    slot < 0 || (slot in w.places && w.places[slot].Asleep?)
  }

  /** The step would fail the ASSERT of ioq_wait that its slot is free, the one of thread_unblock that
      the thread woken is blocked, or the one of lock_release that the thread holds the lock. */
  ghost predicate Halts(w: World, e: Event)
    requires Enabled(w, e)
  {
    match e
    case PutByte(_) => !MayWake(w, w.consumer)
    case TakeByte => !MayWake(w, w.producer)
    case Call(t, r) => LookHalts(w, t, r)
    case Acquire(t) => SlotOf(w, w.places[t].r) != NOBODY
    case Resume(t) => w.holder != t || LookHalts(w.(holder := NOBODY), t, w.places[t].r)
  }

  ghost predicate LookHalts(w: World, t: Tid, r: Role) {
    if MustWait(w, r) then w.holder == NOBODY && SlotOf(w, r) != NOBODY
    else !MayWake(w, if r.Getting? then w.producer else w.consumer)
  }

  /** The thread that holds the lock sleeps or was just woken, no other thread does, and the slot of
      its role names it exactly while it sleeps. */
  ghost predicate Inv(w: World) {
    && |w.queue| <= ROOM
    && (forall t :: t in w.places ==> (w.places[t].Asleep? || w.places[t].Woken? <==> t == w.holder))
    && (w.holder != NOBODY ==> w.holder >= 0 && w.holder in w.places)
    && w.consumer == (if Sleeps(w) && w.places[w.holder].r.Getting? then w.holder else NOBODY)
    && w.producer == (if Sleeps(w) && w.places[w.holder].r.Putting? then w.holder else NOBODY)
  }

  predicate Sleeps(w: World) {
    w.holder >= 0 && w.holder in w.places && w.places[w.holder].Asleep?
  }

  function Start(threads: set<Tid>): World {
    World(map t | t in threads :: Calling, [], NOBODY, NOBODY, NOBODY)
  }

  ghost predicate Possible(w: World, es: seq<Event>)
    decreases |es|
  {
    es == [] || (Enabled(w, es[0]) && Possible(Step(w, es[0]), es[1..]))
  }

  function Run(w: World, es: seq<Event>): World
    requires Possible(w, es)
    decreases |es|
  {
    if es == [] then w else Run(Step(w, es[0]), es[1..])
  }

  /** A consumer sleeps although there is a byte to take, or a producer although there is room. */
  predicate SleepsWrongly(w: World) {
    (w.consumer != NOBODY && w.queue != []) || (w.producer != NOBODY && |w.queue| < ROOM)
  }

  /** The thread gets the lock and need not wait any more. */
  predicate Late(w: World, e: Event) {
    e.Acquire? && Enabled(w, e) && !MustWait(w, w.places[e.t].r)
  }

  /** However many consumers and producers there are, and in any order of their steps, no ASSERT
      fires. A thread comes to sleep wrongly exactly when it gets the lock late: it had to wait, had
      to wait for the lock as well, and did not look again. */
  lemma StepOk(w: World, e: Event)
    requires Inv(w) && Enabled(w, e)
    ensures !Halts(w, e) && Inv(Step(w, e)) && Step(w, e).places.Keys == w.places.Keys
    ensures !SleepsWrongly(w) ==> (SleepsWrongly(Step(w, e)) <==> Late(w, e))
  {
    match e
    case PutByte(b) => PutOk(w, b);
    case TakeByte => TakeOk(w);
    case Call(t, r) => LookOk(w, t, r);
    case Acquire(t) => SleepOk(w, t, w.places[t].r);
    case Resume(t) => ResumeOk(w, t);
  }

  lemma PutOk(w: World, b: Byte)
    requires Inv(w) && |w.queue| < ROOM
    ensures MayWake(w, w.consumer) && Inv(Put(w, b)) && Put(w, b).places.Keys == w.places.Keys
    ensures !SleepsWrongly(w) ==> !SleepsWrongly(Put(w, b))
  {
    assert w.consumer >= 0 ==> w.consumer == w.holder;
  }

  lemma TakeOk(w: World)
    requires Inv(w) && w.queue != []
    ensures MayWake(w, w.producer) && Inv(Take(w)) && Take(w).places.Keys == w.places.Keys
    ensures !SleepsWrongly(w) ==> !SleepsWrongly(Take(w))
  {
    assert w.producer >= 0 ==> w.producer == w.holder;
  }

  lemma SleepOk(w: World, t: Tid, r: Role)
    requires Inv(w) && t in w.places && w.holder == NOBODY
    ensures SlotOf(w, r) == NOBODY && Inv(Sleep(w, t, r)) && Sleep(w, t, r).places.Keys == w.places.Keys
    ensures SleepsWrongly(Sleep(w, t, r)) <==> !MustWait(w, r)
  {
  }

  lemma LookOk(w: World, t: Tid, r: Role)
    requires Inv(w) && t in w.places && t != w.holder
    ensures !LookHalts(w, t, r) && Inv(Look(w, t, r)) && Look(w, t, r).places.Keys == w.places.Keys
    ensures !SleepsWrongly(w) ==> !SleepsWrongly(Look(w, t, r))
  {
    if !MustWait(w, r) {
      var w' := Move(w, t, Calling);
      assert Inv(w') && SleepsWrongly(w') == SleepsWrongly(w);
      match r
      case Getting => TakeOk(w');
      case Putting(b) => PutOk(w', b);
    } else if w.holder == NOBODY {
      SleepOk(w, t, r);
    }
  }

  lemma ResumeOk(w: World, t: Tid)
    requires Inv(w) && Enabled(w, Resume(t))
    ensures !Halts(w, Resume(t)) && Inv(Step(w, Resume(t))) && Step(w, Resume(t)).places.Keys == w.places.Keys
    ensures !SleepsWrongly(Step(w, Resume(t)))
  {
    var r := w.places[t].r;
    var free := w.(holder := NOBODY);
    var w' := Move(free, t, Calling);
    assert Inv(w') && !SleepsWrongly(w');
    LookOk(w', t, r);
    assert Look(free, t, r) == Look(w', t, r);
  }

  lemma {:induction false} RunInv(w: World, es: seq<Event>)
    requires Inv(w) && Possible(w, es)
    ensures Inv(Run(w, es)) && Run(w, es).places.Keys == w.places.Keys
    decreases |es|
  {
    if es != [] {
      StepOk(w, es[0]);
      RunInv(Step(w, es[0]), es[1..]);
    }
  }

  /** When at most one thread ever waits at the ring, as a consumer or as a producer, it never sleeps
      wrongly, over every run. */
  lemma {:induction false} OneWaiter(t: Tid, w: World, es: seq<Event>)
    requires Inv(w) && w.places.Keys == {t} && !w.places[t].Locking? && !SleepsWrongly(w) && Possible(w, es)
    ensures !SleepsWrongly(Run(w, es))
    decreases |es|
  {
    hide Inv, Step;
    if es != [] {
      StepOk(w, es[0]);
      NeverLocking(t, w, es[0]);
      OneWaiter(t, Step(w, es[0]), es[1..]);
    }
  }

  /** A thread alone always finds the lock free. */
  lemma NeverLocking(t: Tid, w: World, e: Event)
    requires Inv(w) && w.places.Keys == {t} && !w.places[t].Locking? && Enabled(w, e)
    ensures !e.Acquire? && t in Step(w, e).places && !Step(w, e).places[t].Locking?
  {
    assert e.Call? || e.Acquire? || e.Resume? ==> e.t in w.places.Keys;
  }

  lemma OneWaiterFromStart(t: Tid, es: seq<Event>)
    requires Possible(Start({t}), es)
    ensures !SleepsWrongly(Run(Start({t}), es))
  {
    OneWaiter(t, Start({t}), es);
  }

  // ------------------------------------------------------------------
  // Two threads that wait
  // ------------------------------------------------------------------

  lemma {:induction false} RunOn(w: World, a: seq<Event>, b: seq<Event>)
    requires Possible(w, a) && Possible(Run(w, a), b)
    ensures Possible(w, a + b) && Run(w, a + b) == Run(Run(w, a), b)
    decreases |a|
  {
    if a == [] {
      assert a + b == b;
    } else {
      assert (a + b)[1..] == a[1..] + b;
      RunOn(Step(w, a[0]), a[1..], b);
    }
  }

  lemma OneStep(w: World, e: Event)
    requires Enabled(w, e)
    ensures Possible(w, [e]) && Run(w, [e]) == Step(w, e)
  {
    assert [e][1..] == [] && Possible(Step(w, e), []);
  }

  /** The run goes on by one step. */
  lemma OneMore(w: World, es: seq<Event>, e: Event)
    requires Possible(w, es) && Enabled(Run(w, es), e)
    ensures Possible(w, es + [e]) && Run(w, es + [e]) == Step(Run(w, es), e)
  {
    OneStep(Run(w, es), e);
    RunOn(w, es, [e]);
  }

  /** With two consumers one can sleep beside a byte: it waited for the lock while the other slept, and
      the second byte came when nobody was in the waiter slot. */
  lemma TwoConsumers(a: Byte, b: Byte)
    ensures var es := [Call(0, Getting), Call(1, Getting), PutByte(a), Resume(0), PutByte(b), Acquire(1)];
      Possible(Start({0, 1}), es) && SleepsWrongly(Run(Start({0, 1}), es))
  {
    hide Run, Possible;
    var w, es := Start({0, 1}), [Call(0, Getting)];
    OneStep(w, Call(0, Getting));
    OneMore(w, es, Call(1, Getting));
    es := es + [Call(1, Getting)];
    OneMore(w, es, PutByte(a));
    es := es + [PutByte(a)];
    OneMore(w, es, Resume(0));
    es := es + [Resume(0)];
    OneMore(w, es, PutByte(b));
    es := es + [PutByte(b)];
    OneMore(w, es, Acquire(1));
    assert es + [Acquire(1)] == [Call(0, Getting), Call(1, Getting), PutByte(a), Resume(0), PutByte(b), Acquire(1)];
  }

  function Zeros(n: nat): (z: seq<Byte>)
    ensures |z| == n
  {
    seq(n, _ => 0)
  }

  /** n bytes put while no consumer waits. */
  lemma {:induction false} Fill(w: World, n: nat)
    requires w.consumer == NOBODY && |w.queue| + n <= ROOM
    ensures var es := seq(n, _ => PutByte(0)); Possible(w, es) && Run(w, es) == w.(queue := w.queue + Zeros(n))
    decreases n
  {
    var es: seq<Event> := seq(n, _ => PutByte(0));
    if n == 0 {
      assert es == [] && w.queue + Zeros(0) == w.queue;
    } else {
      Fill(Step(w, es[0]), n - 1);
      assert es[1..] == seq(n - 1, _ => PutByte(0));
      assert w.queue + [0] + Zeros(n - 1) == w.queue + Zeros(n);
    }
  }

  /** n bytes taken while no producer waits. */
  lemma {:induction false} Drain(w: World, n: nat)
    requires w.producer == NOBODY && n <= |w.queue|
    ensures var es := seq(n, _ => TakeByte); Possible(w, es) && Run(w, es) == w.(queue := w.queue[n..])
    decreases n
  {
    var es: seq<Event> := seq(n, _ => TakeByte);
    if n == 0 {
      assert es == [] && w.queue[0..] == w.queue;
    } else {
      Drain(Step(w, es[0]), n - 1);
      assert es[1..] == seq(n - 1, _ => TakeByte);
      assert w.queue[1..][n - 1..] == w.queue[n..];
    }
  }

  /** No thread that waits at the ring can take a step. */
  ghost predicate Stuck(w: World) {
    forall t :: t in w.places ==> !Enabled(w, Acquire(t)) && !Enabled(w, Resume(t)) && w.places[t] != Calling
  }

  const PRODUCING: Event := Call(1, Putting(0))

  /** The producer sleeps beside a full ring; the consumer does something else, or waits for the
      lock. */
  function Full(other: Place): World {
    World(map[0 := other, 1 := Asleep(Putting(0))], Zeros(ROOM), NOBODY, 1, 1)
  }

  /** The ring is filled to the brim, and the producer has one byte more. */
  lemma FillUp(w: World, k: nat, other: Place) returns (es: seq<Event>)
    requires k <= ROOM && w == World(map[0 := other, 1 := Calling], Zeros(k), NOBODY, NOBODY, NOBODY)
    ensures Possible(w, es) && Run(w, es) == Full(other)
  {
    hide Run, Possible;
    Fill(w, ROOM - k);
    es := seq(ROOM - k, _ => PutByte(0));
    assert Zeros(k) + Zeros(ROOM - k) == Zeros(ROOM);
    OneMore(w, es, PRODUCING);
    es := es + [PRODUCING];
  }

  /** The ring is emptied, which wakes the producer; before it runs the consumer finds the ring empty
      and the lock taken. */
  lemma EmptyAgain() returns (es: seq<Event>)
    ensures Possible(Full(Calling), es)
    ensures Run(Full(Calling), es) == World(map[0 := Locking(Getting), 1 := Calling], Zeros(1), NOBODY, NOBODY, NOBODY)
  {
    hide Run, Possible;
    var w := Full(Calling);
    OneStep(w, TakeByte);
    es := [TakeByte];
    Drain(Run(w, es), ROOM - 1);
    RunOn(w, es, seq(ROOM - 1, _ => TakeByte));
    es := es + seq(ROOM - 1, _ => TakeByte);
    OneMore(w, es, Call(0, Getting));
    es := es + [Call(0, Getting)];
    OneMore(w, es, Resume(1));
    es := es + [Resume(1)];
    assert Run(w, es).queue == Zeros(1);
  }

  /** A consumer and a producer can wait for each other: the consumer, having found the ring empty, for
      the lock, which the producer holds asleep beside the ring it has filled. */
  lemma BothWait() returns (es: seq<Event>)
    ensures Possible(Start({0, 1}), es) && Run(Start({0, 1}), es) == Full(Locking(Getting))
    ensures Stuck(Full(Locking(Getting))) && |Full(Locking(Getting)).queue| == ROOM
  {
    hide Run, Possible;
    var w := Start({0, 1});
    assert w.places == map[0 := Calling, 1 := Calling] && w.queue == Zeros(0);
    es := FillUp(w, 0, Calling);
    var more := EmptyAgain();
    RunOn(w, es, more);
    es := es + more;
    more := FillUp(Run(w, es), 1, Locking(Getting));
    RunOn(w, es, more);
    es := es + more;
  }
}
