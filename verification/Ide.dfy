/** Reading and writing runs of sectors through an ide channel (ide.c:88-236): the task-file registers,
    the 256-sector chunks, and the interrupt handshake as one thread under the channel lock sees it. */
module Ide {
  import opened Sectors

  const MAX_LBA: nat := 163839
  const CHUNK: nat := 256

  type Disk = seq<Sector>

  // ------------------------------------------------------------------
  // Sectors and bytes
  // ------------------------------------------------------------------

  /** The n sectors from lba on, as bytes. */
  function ReadBytes(d: Disk, lba: nat, n: nat): (b: Bytes)
    requires lba + n <= |d|
    ensures |b| == 512 * n
  {
    seq(512 * n, i requires 0 <= i < 512 * n => d[lba + i / 512][i % 512])
  }

  function SectorIn(b: Bytes, j: nat): Sector
    requires 512 * (j + 1) <= |b|
  {
    b[512 * j..512 * j + 512]
  }

  function SectorAfter(d: Disk, lba: nat, b: Bytes, n: nat, k: nat): Sector
    requires lba + n <= |d| && 512 * n <= |b| && k < |d|
  {
    if lba <= k < lba + n then SectorIn(b, k - lba) else d[k]
  }

  /** The disk with n sectors from lba on taken from the buffer, and no others changed. */
  function WriteSectors(d: Disk, lba: nat, b: Bytes, n: nat): (d': Disk)
    requires lba + n <= |d| && 512 * n <= |b|
    ensures |d'| == |d|
  {
    seq(|d|, k requires 0 <= k < |d| => SectorAfter(d, lba, b, n, k))
  }

  /** Reading a range just written gives back the bytes. */
  lemma RoundTrip(d: Disk, lba: nat, b: Bytes, n: nat)
    requires lba + n <= |d| && 512 * n <= |b|
    ensures ReadBytes(WriteSectors(d, lba, b, n), lba, n) == b[..512 * n]
  {
    var d' := WriteSectors(d, lba, b, n);
    forall i | 0 <= i < 512 * n ensures ReadBytes(d', lba, n)[i] == b[i] {
      var j := i / 512;
      assert d'[lba + j] == SectorIn(b, j);
    }
  }

  /** Reading a range that a write did not touch gives what it held before. */
  lemma WriteElsewhere(d: Disk, lba: nat, b: Bytes, n: nat, at: nat, m: nat)
    requires lba + n <= |d| && 512 * n <= |b| && at + m <= |d| && (at + m <= lba || lba + n <= at)
    ensures ReadBytes(WriteSectors(d, lba, b, n), at, m) == ReadBytes(d, at, m)
  {
    var d' := WriteSectors(d, lba, b, n);
    assert forall i :: 0 <= i < 512 * m ==> d'[at + i / 512] == d[at + i / 512];
  }

  /** Two adjoining writes from one buffer are one longer write. */
  lemma WritesJoin(d: Disk, lba: nat, b: Bytes, n: nat, m: nat)
    requires lba + n + m <= |d| && 512 * (n + m) <= |b|
    ensures WriteSectors(WriteSectors(d, lba, b, n), lba + n, b[512 * n..], m) == WriteSectors(d, lba, b, n + m)
  {
    var d' := WriteSectors(WriteSectors(d, lba, b, n), lba + n, b[512 * n..], m);
    forall k | 0 <= k < |d| ensures d'[k] == WriteSectors(d, lba, b, n + m)[k] {
      if lba + n <= k < lba + n + m {
        assert SectorIn(b[512 * n..], k - lba - n) == SectorIn(b, k - lba);
      }
    }
  }

  lemma ReadsJoin(d: Disk, lba: nat, n: nat, m: nat)
    requires lba + n + m <= |d|
    ensures ReadBytes(d, lba, n) + ReadBytes(d, lba + n, m) == ReadBytes(d, lba, n + m)
  {
    var r := ReadBytes(d, lba, n) + ReadBytes(d, lba + n, m);
    forall i | 512 * n <= i < 512 * (n + m) ensures r[i] == ReadBytes(d, lba, n + m)[i] {
      assert (i - 512 * n) / 512 == i / 512 - n && (i - 512 * n) % 512 == i % 512;
    }
  }

  // ------------------------------------------------------------------
  // The registers
  // ------------------------------------------------------------------

  datatype Regs = Regs(count: Byte, low: Byte, mid: Byte, high: Byte, dev: Byte)

  /** A sector number squeezed into the 8 bits of a parameter of type uint8_t. */
  function AsByte(n: nat): Byte {
    n % 0x100
  }

  /** What select_sector puts in the registers; 0xe0 is BIT_DEV_MBS and BIT_DEV_LBA. */
  function Selected(dev: nat, lba: nat, secCnt: Byte): Regs
    requires dev < 2 && lba <= MAX_LBA
  {
    Regs(secCnt, AsByte(lba), AsByte(lba / 0x100), AsByte(lba / 0x1_0000),
         0xe0 + 0x10 * dev + lba / 0x100_0000)
  }

  /** What the drive reads in them: 28 bits of address, the drive, and 0 standing for 256. */
  function Address(r: Regs): nat {
    var low: int, mid: int, high: int, dev: int := r.low, r.mid, r.high, r.dev;
    low + 0x100 * mid + 0x1_0000 * high + 0x100_0000 * (dev % 0x10)
  }

  function Drive(r: Regs): nat {
    var dev: int := r.dev;
    dev / 0x10 % 2
  }

  function Count(secCnt: Byte): (n: nat)
    ensures 1 <= n <= CHUNK
  {
    if secCnt == 0 then 256 else secCnt as int
  }

  /** The drive understands the address, the drive number and the count that were meant, though 256
      sectors are passed as the byte 0. */
  lemma SelectedRead(dev: nat, lba: nat, secs: nat)
    requires dev < 2 && lba <= MAX_LBA && 1 <= secs <= CHUNK
    ensures var r := Selected(dev, lba, AsByte(secs));
      Address(r) == lba && Drive(r) == dev && Count(r.count) == secs && Count(AsByte(secs)) == secs
  {
    var l := lba;
    assert l % 0x100 + 0x100 * (l / 0x100 % 0x100) + 0x1_0000 * (l / 0x1_0000 % 0x100) == l;
  }

  // ------------------------------------------------------------------
  // The channel
  // ------------------------------------------------------------------

  class Channel {
    // The two drives, the registers, and the transfer the drive is in the middle of.
    var disks: seq<Disk>
    var regs: Regs
    var drive: nat
    var next: nat
    var left: nat

    // The driver's side.
    var expecting: bool
    var done: nat

    /** No command under way: no token, and the drive has nothing more to transfer. */
    ghost predicate Quiet()
      reads this
    {
      |disks| == 2 && !expecting && done == 0 && left == 0
    }

    /** A command is under way: there is one token, the flag or a unit of disk_done. */
    ghost predicate Busy()
      reads this
    {
      |disks| == 2 && drive < 2 && next + left <= |disks[drive]| && (if expecting then done == 0 else done == 1)
    }

    /** intr_hd_handler. */
    method IntrHandler()
      requires Quiet() || Busy()
      modifies this`expecting, this`done
      ensures old(Quiet()) ==> Quiet()
      ensures old(Busy()) ==> Busy() && !expecting && done == 1
    {
      if expecting {
        expecting := false;
        assert done == 0;
        done := done + 1;
        assert done == 1;
      }
    }

    /** Any number of interrupts, at a point where the thread can be interrupted. */
    method Interrupts()
      requires Quiet() || Busy()
      modifies this`expecting, this`done
      ensures old(Quiet()) ==> Quiet()
      ensures old(Busy()) ==> Busy()
    {
      var n: nat := *;
      while n > 0
        invariant Quiet() || Busy()
        invariant old(Quiet()) ==> Quiet()
        invariant old(Busy()) ==> Busy()
      {
        IntrHandler();
        n := n - 1;
      }
    }

    /** sema_down on disk_done: with no unit there, the thread sleeps until the disk interrupts. */
    method AwaitDone()
      requires Busy()
      modifies this`expecting, this`done
      ensures !expecting && done == 0
    {
      if done == 0 {
        IntrHandler();
      }
      done := done - 1;
      assert done == 0;
    }

    /** select_sector: halts beyond the 80 MB it supports. */
    method SelectSector(dev: nat, lba: nat, secCnt: Byte) returns (halted: bool)
      requires dev < 2
      modifies this`regs
      ensures halted <==> lba > MAX_LBA
      ensures !halted ==> regs == Selected(dev, lba, secCnt)
    {
      if lba > MAX_LBA { return true; }
      var low, mid, high := AsByte(lba), AsByte(lba / 0x100), AsByte(lba / 0x1_0000);
      regs := Regs(secCnt, low, mid, high, 0xe0 + 0x10 * dev + lba / 0x100_0000);
      return false;
    }

    /** cmd_out; the drive starts on the range its registers name. */
    method CmdOut()
      requires Quiet() && Drive(regs) < 2 && Address(regs) + Count(regs.count) <= |disks[Drive(regs)]|
      modifies this`expecting, this`drive, this`next, this`left
      ensures Busy() && drive == Drive(regs) && next == Address(regs) && left == Count(regs.count)
    {
      expecting := true;
      drive, next, left := Drive(regs), Address(regs), Count(regs.count);
    }

    /** read_from_sector: the data port gives the sectors of the transfer in order. */
    method ReadFromSector(buf: array<Byte>, at: nat, secCnt: Byte)
      requires |disks| == 2 && drive < 2 && Count(secCnt) <= left && next + left <= |disks[drive]|
      requires at + 512 * Count(secCnt) <= buf.Length
      modifies buf, this`next, this`left
      ensures next == old(next) + Count(secCnt) && left == old(left) - Count(secCnt)
      ensures buf[..] == old(buf[..at] + ReadBytes(disks[drive], next, Count(secCnt)) + buf[at + 512 * Count(secCnt)..])
    {
      var bytes := if secCnt == 0 then 256 * 512 else secCnt as int * 512;
      ghost var was, data := buf[..], ReadBytes(disks[drive], next, Count(secCnt));
      var i := 0;
      while i < bytes / 2
        modifies buf
        invariant i <= bytes / 2
        invariant forall k :: 0 <= k < 2 * i ==> buf[at + k] == data[k]
        invariant forall k :: 0 <= k < buf.Length && !(at <= k < at + 2 * i) ==> buf[k] == was[k]
      {
        var s := disks[drive][next + i / 256];
        buf[at + 2 * i], buf[at + 2 * i + 1] := s[2 * (i % 256)], s[2 * (i % 256) + 1];
        assert 2 * i / 512 == i / 256 && 2 * i % 512 == 2 * (i % 256) && (2 * i + 1) / 512 == i / 256;
        i := i + 1;
      }
      next, left := next + Count(secCnt), left - Count(secCnt);
      assert forall k :: at <= k < at + bytes ==> buf[k] == data[k - at];
    }

    /** write2sector. */
    method WriteToSector(b: Bytes, secCnt: Byte)
      requires |disks| == 2 && drive < 2 && Count(secCnt) <= left && next + left <= |disks[drive]|
      requires 512 * Count(secCnt) <= |b|
      modifies this`disks, this`next, this`left
      ensures next == old(next) + Count(secCnt) && left == old(left) - Count(secCnt)
      ensures disks == old(disks)[drive := WriteSectors(old(disks[drive]), old(next), b, Count(secCnt))]
    {
      var bytes := if secCnt == 0 then 256 * 512 else secCnt as int * 512;
      ghost var d := disks[drive];
      var i := 0;
      while i < bytes / 2
        modifies this`disks
        invariant i <= bytes / 2 && |disks| == 2 && disks == old(disks)[drive := disks[drive]] && |disks[drive]| == |d|
        invariant Streamed(d, next, b, 2 * i, disks[drive])
      {
        PutWord(i, b[2 * i], b[2 * i + 1], d, b);
        i := i + 1;
      }
      StreamedAll(d, next, b, Count(secCnt), disks[drive]);
      next, left := next + Count(secCnt), left - Count(secCnt);
    }

    /** A word through the data port: it goes to its place in the sectors of the transfer. */
    method PutWord(i: nat, x: Byte, y: Byte, ghost d: Disk, ghost b: Bytes)
      requires |disks| == 2 && drive < 2 && next + left <= |disks[drive]| == |d| && i < 256 * left
      requires 2 * i + 2 <= |b| && b[2 * i] == x && b[2 * i + 1] == y && Streamed(d, next, b, 2 * i, disks[drive])
      modifies this`disks
      ensures |disks| == 2 && disks == old(disks)[drive := disks[drive]] && |disks[drive]| == |d|
      ensures Streamed(d, next, b, 2 * i + 2, disks[drive])
    {
      var a, j := next + i / 256, 2 * (i % 256);
      ghost var before := disks[drive];
      disks := disks[drive := disks[drive][a := disks[drive][a][j := x][j + 1 := y]]];
      assert 512 * (a - next) + j == 2 * i;
      forall c, k | 0 <= c < |d| && 0 <= k < 512 ensures disks[drive][c][k] == StreamByte(d, next, b, 2 * i + 2, c, k) {
        assert before[c][k] == StreamByte(d, next, b, 2 * i, c, k);
      }
    }

    /** The byte at place k of sector a once n bytes of b have gone to the sectors from lba on. */
    ghost static function StreamByte(d: Disk, lba: nat, b: Bytes, n: nat, a: nat, k: nat): int
      requires a < |d| && k < 512 && n <= |b|
    {
      if lba <= a && 512 * (a - lba) + k < n then b[512 * (a - lba) + k] else d[a][k]
    }

    ghost static predicate Streamed(d: Disk, lba: nat, b: Bytes, n: nat, d': Disk) {
      |d'| == |d| && n <= |b| && forall a, k :: 0 <= a < |d| && 0 <= k < 512 ==> d'[a][k] == StreamByte(d, lba, b, n, a, k)
    }

    static lemma StreamedAll(d: Disk, lba: nat, b: Bytes, n: nat, d': Disk)
      requires lba + n <= |d| && Streamed(d, lba, b, 512 * n, d')
      ensures d' == WriteSectors(d, lba, b, n)
    {
      forall a | 0 <= a < |d| ensures d'[a] == WriteSectors(d, lba, b, n)[a] {
        forall k | 0 <= k < 512 ensures d'[a][k] == WriteSectors(d, lba, b, n)[a][k] {
          assert d'[a][k] == StreamByte(d, lba, b, 512 * n, a, k);
        }
      }
    }

    /** The start of the last chunk of a transfer. */
    static function LastStart(lba: nat, secCnt: nat): nat
      requires secCnt > 0
    {
      lba + (secCnt - 1) / CHUNK * CHUNK
    }

    /** The body of the loop of ide_read, with done sectors already in front of the buffer. */
    method ReadChunk(dev: nat, lba: nat, buf: array<Byte>, done: nat, secsOp: nat, ghost rest: Bytes) returns (halted: bool)
      requires Quiet() && dev < 2 && 1 <= secsOp <= CHUNK && lba + done + secsOp <= |disks[dev]|
      requires |rest| == buf.Length - 512 * done >= 512 * secsOp && buf[..] == ReadBytes(disks[dev], lba, done) + rest
      modifies buf, this`regs, this`drive, this`next, this`left, this`expecting, this`done
      ensures Quiet() && (halted <==> lba + done > MAX_LBA)
      ensures !halted ==> buf[..] == ReadBytes(disks[dev], lba, done + secsOp) + rest[512 * secsOp..]
    {
      hide Selected, Address, Drive, Count, AsByte, ReadBytes;
      ghost var d := disks[dev];
      halted := SelectSector(dev, lba + done, AsByte(secsOp));
      if halted { return; }
      SelectedRead(dev, lba + done, secsOp);
      CmdOut();
      Interrupts();
      AwaitDone();
      ReadFromSector(buf, done * 512, AsByte(secsOp));
      ChunkLands(ReadBytes(d, lba, done), rest, ReadBytes(d, lba + done, secsOp), 512 * done, 512 * secsOp);
      ReadsJoin(d, lba, done, secsOp);
    }

    static lemma ChunkLands(front: Bytes, rest: Bytes, data: Bytes, at: nat, n: nat)
      requires |front| == at && |data| == n <= |rest|
      ensures var b := front + rest; b[..at] + data + b[at + n..] == (front + data) + rest[n..]
    {
    }

    /** ide_read: fills the buffer with exactly the sectors asked for, unless an ASSERT stops it. */
    method Read(dev: nat, lba: nat, buf: array<Byte>, secCnt: nat) returns (halted: bool)
      requires Quiet() && dev < 2 && lba + secCnt <= |disks[dev]| && 512 * secCnt <= buf.Length
      modifies buf, this`regs, this`drive, this`next, this`left, this`expecting, this`done
      ensures Quiet() && (halted <==> secCnt == 0 || LastStart(lba, secCnt) > MAX_LBA)
      ensures !halted ==> buf[..] == ReadBytes(disks[dev], lba, secCnt) + old(buf[..])[512 * secCnt..]
    {
      hide LastStart;
      if secCnt == 0 { return true; }
      if lba > MAX_LBA {
        StartsRise(lba, 0, secCnt);
        return true;
      }
      ghost var was := buf[..];
      var secsDone := 0;
      while secsDone < secCnt
        invariant Quiet() && secsDone <= secCnt && (secsDone < secCnt ==> secsDone % CHUNK == 0)
        invariant secsDone == secCnt ==> LastStart(lba, secCnt) <= MAX_LBA
        invariant buf[..] == ReadBytes(disks[dev], lba, secsDone) + was[512 * secsDone..]
      {
        var secsOp := if secsDone + 256 <= secCnt then 256 else secCnt - secsDone;
        StartsRise(lba, secsDone, secCnt);
        var stop := ReadChunk(dev, lba, buf, secsDone, secsOp, was[512 * secsDone..]);
        if stop { return true; }
        assert was[512 * secsDone..][512 * secsOp..] == was[512 * (secsDone + secsOp)..];
        secsDone := secsDone + secsOp;
      }
      return false;
    }

    /** The body of the loop of ide_write, with done sectors already on the disk. */
    method WriteChunk(dev: nat, lba: nat, b: Bytes, done: nat, secsOp: nat, ghost d: Disk) returns (halted: bool)
      requires Quiet() && dev < 2 && 1 <= secsOp <= CHUNK && lba + done + secsOp <= |d|
      requires 512 * (done + secsOp) <= |b| && disks[dev] == WriteSectors(d, lba, b, done)
      modifies this`disks, this`regs, this`drive, this`next, this`left, this`expecting, this`done
      ensures Quiet() && (halted <==> lba + done > MAX_LBA)
      ensures disks == old(disks)[dev := WriteSectors(d, lba, b, if halted then done else done + secsOp)]
    {
      hide Selected, Address, Drive, Count, AsByte, WriteSectors;
      ghost var before := disks;
      halted := SelectSector(dev, lba + done, AsByte(secsOp));
      if halted { return; }
      SelectedRead(dev, lba + done, secsOp);
      CmdOut();
      Interrupts();
      WriteToSector(b[512 * done..], AsByte(secsOp));
      WritesJoin(d, lba, b, done, secsOp);
      Interrupts();
      AwaitDone();
    }

    /** ide_write: puts the buffer in exactly the sectors asked for and leaves the others, and the other
        drive, alone. When an ASSERT stops it, whole chunks have been written, up to the first sector
        beyond the 80 MB at which a chunk would start. */
    method Write(dev: nat, lba: nat, b: Bytes, secCnt: nat) returns (halted: bool, done: nat)
      requires Quiet() && dev < 2 && lba + secCnt <= |disks[dev]| && 512 * secCnt <= |b|
      modifies this`disks, this`regs, this`drive, this`next, this`left, this`expecting, this`done
      ensures Quiet() && (halted <==> secCnt == 0 || LastStart(lba, secCnt) > MAX_LBA)
      ensures done <= secCnt && disks == old(disks)[dev := WriteSectors(old(disks[dev]), lba, b, done)]
      ensures !halted ==> done == secCnt
      ensures halted && secCnt > 0 ==> done < secCnt && done % CHUNK == 0 && lba + done > MAX_LBA
      ensures halted && done > 0 ==> lba + done - CHUNK <= MAX_LBA
    {
      hide LastStart;
      ghost var d := disks[dev];
      WriteNothing(d, lba, b);
      done := 0;
      if secCnt == 0 { return true, 0; }
      if lba > MAX_LBA {
        StartsRise(lba, 0, secCnt);
        return true, 0;
      }
      while done < secCnt
        invariant Quiet() && done <= secCnt && (done < secCnt ==> done % CHUNK == 0)
        invariant done == secCnt ==> LastStart(lba, secCnt) <= MAX_LBA
        invariant 0 < done < secCnt ==> lba + done - CHUNK <= MAX_LBA
        invariant disks == old(disks)[dev := WriteSectors(d, lba, b, done)]
      {
        var secsOp := if done + 256 <= secCnt then 256 else secCnt - done;
        StartsRise(lba, done, secCnt);
        var stop := WriteChunk(dev, lba, b, done, secsOp, d);
        if stop { return true, done; }
        done := done + secsOp;
      }
      return false, done;
    }

    static lemma WriteNothing(d: Disk, lba: nat, b: Bytes)
      requires lba <= |d|
      ensures WriteSectors(d, lba, b, 0) == d
    {
    }

    /** The chunks start at multiples of 256, and the last of them is the greatest start. */
    static lemma StartsRise(lba: nat, done: nat, secCnt: nat)
      requires done < secCnt && done % CHUNK == 0
      ensures lba + done <= LastStart(lba, secCnt)
      ensures secCnt <= done + CHUNK ==> lba + done == LastStart(lba, secCnt)
    {
    }

    /** What was written is read back, whatever the chunks and however the disk interrupts. */
    method WriteThenRead(dev: nat, lba: nat, b: Bytes, secCnt: nat, buf: array<Byte>) returns (halted: bool)
      requires Quiet() && dev < 2 && lba + secCnt <= |disks[dev]| && 512 * secCnt <= |b| && buf.Length == 512 * secCnt
      modifies buf, this
      ensures Quiet() && (halted <==> secCnt == 0 || LastStart(lba, secCnt) > MAX_LBA)
      ensures !halted ==> buf[..] == b[..512 * secCnt]
    {
      ghost var d := disks[dev];
      var n;
      halted, n := Write(dev, lba, b, secCnt);
      if halted { return; }
      RoundTrip(d, lba, b, secCnt);
      halted := Read(dev, lba, buf, secCnt);
    }
  }
}
