/** The ring buffer under pipes and the keyboard (ioqueue.c), and the bounded transfers over it
    (pipe.c). */
module Rings {
  import opened Sectors

  const BUFSIZE: nat := 4096
  const NOBODY: int := -1

  // ------------------------------------------------------------------
  // The ring as a value
  // ------------------------------------------------------------------

  datatype Ring = Ring(buf: seq<Byte>, head: nat, tail: nat)

  ghost predicate RingOk(r: Ring) {
    |r.buf| == BUFSIZE && r.head < BUFSIZE && r.tail < BUFSIZE
  }

  function NextPos(pos: nat): nat {
    (pos + 1) % BUFSIZE
  }

  /** How many bytes lie between tail and head, going round. */
  function Used(r: Ring): (n: nat)
    requires RingOk(r)
    ensures n < BUFSIZE
  {
    (r.head + BUFSIZE - r.tail) % BUFSIZE
  }

  /** The bytes waiting in the ring, oldest first. */
  function Contents(r: Ring): (c: seq<Byte>)
    requires RingOk(r)
    ensures |c| == Used(r)
  {
    seq(Used(r), i requires 0 <= i < Used(r) => r.buf[(r.tail + i) % BUFSIZE])
  }

  function Put(r: Ring, b: Byte): (r': Ring)
    requires RingOk(r)
    ensures RingOk(r')
  {
    Ring(r.buf[r.head := b], NextPos(r.head), r.tail)
  }

  function Take(r: Ring): (r': Ring)
    requires RingOk(r)
    ensures RingOk(r')
  {
    r.(tail := NextPos(r.tail))
  }

  /** ioq_full and ioq_empty compare positions; they ask whether 4095 bytes, or none, are waiting. */
  lemma FullMeans(r: Ring)
    requires RingOk(r)
    ensures NextPos(r.head) == r.tail <==> |Contents(r)| == BUFSIZE - 1
    ensures r.head == r.tail <==> Contents(r) == []
  {
  }

  /** A byte put in a ring that is not full goes behind the bytes waiting, across the wrap-around. */
  lemma PutAppends(r: Ring, b: Byte)
    requires RingOk(r) && |Contents(r)| < BUFSIZE - 1
    ensures Contents(Put(r, b)) == Contents(r) + [b]
  {
    var r', n := Put(r, b), Used(r);
    assert Used(r') == n + 1;
    forall i | 0 <= i < n ensures Contents(r')[i] == Contents(r)[i] {
      assert (r.tail + i) % BUFSIZE != r.head;
    }
  }

  /** The byte at the tail is the oldest one; taking it leaves the others in order. */
  lemma TakeRemoves(r: Ring)
    requires RingOk(r) && Contents(r) != []
    ensures r.buf[r.tail] == Contents(r)[0] && Contents(Take(r)) == Contents(r)[1..]
  {
    var r', n := Take(r), Used(r);
    assert Used(r') == n - 1;
    forall i | 0 <= i < n - 1 ensures Contents(r')[i] == Contents(r)[i + 1] {
      assert (NextPos(r.tail) + i) % BUFSIZE == (r.tail + i + 1) % BUFSIZE;
    }
  }

  // ------------------------------------------------------------------
  // Runs of puts and takes
  // ------------------------------------------------------------------

  datatype Op = PutOp(b: Byte) | TakeOp

  /** The bytes put by a run, and how many it takes. */
  function Puts(ops: seq<Op>): seq<Byte> {
    if ops == [] then [] else Puts(ops[..|ops| - 1]) + (if ops[|ops| - 1].PutOp? then [ops[|ops| - 1].b] else [])
  }

  function Takes(ops: seq<Op>): nat {
    if ops == [] then 0 else Takes(ops[..|ops| - 1]) + (if ops[|ops| - 1].TakeOp? then 1 else 0)
  }

  function Initial(buf: seq<Byte>): Ring {
    Ring(buf, 0, 0)
  }

  /** The ring after a run, from an empty ring over any memory, and the bytes delivered on the way. */
  function After(buf: seq<Byte>, ops: seq<Op>): (r: Ring)
    requires |buf| == BUFSIZE
    ensures RingOk(r)
  {
    if ops == [] then Initial(buf) else
    var r, op := After(buf, ops[..|ops| - 1]), ops[|ops| - 1];
    if op.PutOp? then Put(r, op.b) else Take(r)
  }

  function Delivered(buf: seq<Byte>, ops: seq<Op>): seq<Byte>
    requires |buf| == BUFSIZE
  {
    if ops == [] then [] else
    var r, op := After(buf, ops[..|ops| - 1]), ops[|ops| - 1];
    Delivered(buf, ops[..|ops| - 1]) + (if op.TakeOp? then [r.buf[r.tail]] else [])
  }

  /** Every put finds the ring not full and every take finds it not empty, as ioq_putchar and
      ioq_getchar see to. */
  ghost predicate Sound(buf: seq<Byte>, ops: seq<Op>)
    requires |buf| == BUFSIZE
  {
    ops != [] ==>
      && Sound(buf, ops[..|ops| - 1])
      && var r := After(buf, ops[..|ops| - 1]);
         if ops[|ops| - 1].PutOp? then NextPos(r.head) != r.tail else r.head != r.tail
  }

  /** Over every run the bytes delivered, followed by those waiting, are the bytes put: nothing is
      lost, repeated or reordered, and the length is puts minus takes. */
  lemma {:induction false} RunDelivers(buf: seq<Byte>, ops: seq<Op>)
    requires |buf| == BUFSIZE && Sound(buf, ops)
    ensures Delivered(buf, ops) + Contents(After(buf, ops)) == Puts(ops)
    ensures Delivered(buf, ops) <= Puts(ops)
    ensures |Contents(After(buf, ops))| == |Puts(ops)| - Takes(ops) <= BUFSIZE - 1
  {
    hide Contents, Used, NextPos, Put, Take;
    if ops == [] {
      FullMeans(Initial(buf));
    } else {
      var before, op := ops[..|ops| - 1], ops[|ops| - 1];
      var r := After(buf, before);
      RunDelivers(buf, before);
      FullMeans(r);
      if op.PutOp? {
        PutAppends(r, op.b);
      } else {
        TakeRemoves(r);
        assert Contents(r) == [Contents(r)[0]] + Contents(r)[1..];
      }
    }
  }

  // ------------------------------------------------------------------
  // The ring in place
  // ------------------------------------------------------------------

  datatype Read = Byte(b: Sectors.Byte) | MustWait

  class IoQueue {
    const buf: array<Byte>
    var head: nat
    var tail: nat
    var producer: int
    var consumer: int

    // The threads passed to thread_unblock so far, in order.
    var unblocked: seq<int>

    constructor ()
      ensures Valid() && fresh(buf) && Contents(View()) == [] && producer == consumer == NOBODY && unblocked == []
    {
      buf := new Byte[BUFSIZE];
      head, tail, producer, consumer, unblocked := 0, 0, NOBODY, NOBODY, [];
    }

    ghost predicate Valid()
      reads this
    {
      buf.Length == BUFSIZE && head < BUFSIZE && tail < BUFSIZE
    }

    ghost function View(): (r: Ring)
      requires Valid()
      reads this, buf
      ensures RingOk(r)
    {
      Ring(buf[..], head, tail)
    }

    /** ioq_length. */
    method Length() returns (len: nat)
      requires Valid()
      ensures len == |Contents(View())| <= BUFSIZE - 1
    {
      if head >= tail { len := head - tail; } else { len := BUFSIZE - (tail - head); }
    }

    /** ioq_putchar on its way past the waiting loop: false, and nothing changed, when the ring is
        full and the caller must wait; otherwise the byte is put and a waiting consumer woken. */
    method PutChar(b: Byte) returns (ok: bool)
      requires Valid()
      modifies buf, this`head, this`consumer, this`unblocked
      ensures Valid() && (ok <==> |old(Contents(View()))| < BUFSIZE - 1)
      ensures Contents(View()) == old(Contents(View())) + (if ok then [b] else [])
      ensures ok ==> View() == Put(old(View()), b)
      ensures consumer == if ok then NOBODY else old(consumer)
      ensures unblocked == old(unblocked) + (if ok && old(consumer) != NOBODY then [old(consumer)] else [])
    {
      ghost var r := View();
      FullMeans(r);
      if NextPos(head) == tail { return false; }
      PutAppends(r, b);
      buf[head] := b;
      head := NextPos(head);
      assert View() == Put(r, b);
      if consumer != NOBODY {
        unblocked := unblocked + [consumer];
        consumer := NOBODY;
      }
      return true;
    }

    /** ioq_getchar on its way past the waiting loop. */
    method GetChar() returns (res: Read)
      requires Valid()
      modifies this`tail, this`producer, this`unblocked
      ensures Valid() && (res == MustWait <==> old(Contents(View())) == [])
      ensures res == MustWait ==> View() == old(View()) && producer == old(producer) && unblocked == old(unblocked)
      ensures res != MustWait ==> View() == Take(old(View()))
      ensures res != MustWait ==> [res.b] + Contents(View()) == old(Contents(View())) && producer == NOBODY
      ensures res != MustWait ==>
        unblocked == old(unblocked) + (if old(producer) != NOBODY then [old(producer)] else [])
    {
      ghost var r := View();
      FullMeans(r);
      if head == tail { return MustWait; }
      TakeRemoves(r);
      res := Read.Byte(buf[tail]);
      tail := NextPos(tail);
      assert View() == Take(r);
      if producer != NOBODY {
        unblocked := unblocked + [producer];
        producer := NOBODY;
      }
    }

    /** pipe_read: never waits, and returns the oldest bytes, as many as asked for and there are. The
        first of them wakes a waiting producer. */
    method PipeRead(count: nat) returns (bytes: seq<Byte>)
      requires Valid()
      modifies this`tail, this`producer, this`unblocked
      ensures Valid() && |bytes| == Min(count, |old(Contents(View()))|)
      ensures bytes + Contents(View()) == old(Contents(View()))
      ensures producer == if bytes != [] then NOBODY else old(producer)
      ensures unblocked == old(unblocked) + (if bytes != [] && old(producer) != NOBODY then [old(producer)] else [])
    {
      hide Contents;
      ghost var all := Contents(View());
      var len := Length();
      var size := if len > count then count else len;
      bytes := [];
      while |bytes| < size
        invariant Valid() && |bytes| <= size && bytes + Contents(View()) == all
        invariant producer == if bytes != [] then NOBODY else old(producer)
        invariant unblocked == old(unblocked) + (if bytes != [] && old(producer) != NOBODY then [old(producer)] else [])
      {
        var r := GetChar();
        assert r != MustWait;
        bytes := bytes + [r.b];
      }
    }

    /** pipe_write: the bytes go in, in order, until the ring holds 4095. It gets stuck on a full ring
        exactly when asked to write more than there is room for. */
    method PipeWrite(bytes: seq<Byte>) returns (stuck: bool, written: nat)
      requires Valid()
      modifies buf, this`head, this`consumer, this`unblocked
      ensures Valid() && written == Min(|bytes|, Room(old(View())))
      ensures stuck <==> |bytes| > Room(old(View()))
      ensures Contents(View()) == old(Contents(View())) + bytes[..written]
      ensures consumer == if written > 0 then NOBODY else old(consumer)
      ensures unblocked == old(unblocked) + (if written > 0 && old(consumer) != NOBODY then [old(consumer)] else [])
    {
      hide Contents, Put;
      ghost var all := Contents(View());
      var len := Length();
      var left := BUFSIZE - len;
      var size := if left > |bytes| then |bytes| else left;
      stuck, written := false, 0;
      while written < size
        invariant Valid() && written <= size && len + written <= BUFSIZE - 1
        invariant Contents(View()) == all + bytes[..written]
        invariant consumer == if written > 0 then NOBODY else old(consumer)
        invariant unblocked == old(unblocked) + (if written > 0 && old(consumer) != NOBODY then [old(consumer)] else [])
      {
        var ok := PutChar(bytes[written]);
        if !ok { return true, written; }
        assert bytes[..written] + [bytes[written]] == bytes[..written + 1];
        written := written + 1;
      }
    }
  }

  function Min(a: int, b: int): int {
    if a < b then a else b
  }

  /** The bytes the ring can still take. The source computes one more, 4096 - length. */
  function Room(r: Ring): (n: nat)
    requires RingOk(r)
    ensures n + |Contents(r)| == BUFSIZE - 1
  {
    BUFSIZE - 1 - |Contents(r)|
  }

  /** Asked for the 4096 bytes it computes as the room of an empty pipe, pipe_write gets stuck with
      one byte to go. */
  method FillsAndSticks(q: IoQueue, bytes: seq<Byte>) returns (stuck: bool, written: nat)
    requires q.Valid() && Contents(q.View()) == [] && |bytes| == BUFSIZE
    modifies q.buf, q`head, q`consumer, q`unblocked
    ensures stuck && written == BUFSIZE - 1
  {
    stuck, written := q.PipeWrite(bytes);
  }
}
