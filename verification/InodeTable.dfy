/** The table of inodes on disk (inode.c): 4096 slots of 76 bytes laid end to end, so that a slot
    may straddle two sectors. */
module InodeTable {
  import opened Sectors

  const INODE_SIZE: nat := 76
  const INODES: nat := 4096
  const TABLE_SECTORS: nat := 608

  /** struct inode as it lies in memory, in 19 words. write_deny is an int (global.h:121). */
  datatype InodeRec = InodeRec(iNo: nat, iSize: nat, openCnts: nat, writeDeny: nat, sectors: seq<nat>,
                               prev: nat, next: nat)

  ghost predicate Storable(r: InodeRec) {
    && r.iNo < U32 && r.iSize < U32 && |r.sectors| == 13
    && (forall k :: 0 <= k < 13 ==> r.sectors[k] < U32)
  }

  /** The words of the copy that is stored: the three members that only live in memory are
      cleared. */
  function PureWords(r: InodeRec): (w: seq<nat>)
    requires |r.sectors| == 13
    ensures |w| == 19
  {
    [r.iNo, r.iSize, 0, 0] + r.sectors + [0, 0]
  }

  /** The 76 bytes of the stored copy. */
  function PureBytes(r: InodeRec): (b: Bytes)
    requires Storable(r)
    ensures |b| == INODE_SIZE
  {
    var w := PureWords(r);
    seq(INODE_SIZE, i requires 0 <= i < INODE_SIZE =>
      assert w[i / 4] < U32 by { WordsStorable(r, i / 4); }
      ByteOf(w[i / 4], i % 4))
  }

  lemma WordsStorable(r: InodeRec, k: nat)
    requires Storable(r) && k < 19
    ensures PureWords(r)[k] < U32
  {
  }

  /** What inode_open makes of 76 bytes of the table. */
  function Parse(b: Bytes): (r: InodeRec)
    requires |b| == INODE_SIZE
  {
    InodeRec(Word(b, 0), Word(b, 1), Word(b, 2), Word(b, 3),
             seq(13, k requires 0 <= k < 13 => Word(b, 4 + k)), Word(b, 17), Word(b, 18))
  }

  function Word(b: Bytes, k: nat): nat
    requires |b| == INODE_SIZE && k < 19
  {
    var b0: int, b1: int, b2: int, b3: int := b[4 * k], b[4 * k + 1], b[4 * k + 2], b[4 * k + 3];
    b0 + 0x100 * b1 + 0x1_0000 * b2 + 0x100_0000 * b3
  }

  lemma WordOfPure(r: InodeRec, k: nat)
    requires Storable(r) && k < 19
    ensures Word(PureBytes(r), k) == PureWords(r)[k]
  {
    var w := PureWords(r);
    WordsStorable(r, k);
    assert (4 * k + 1) / 4 == k && (4 * k + 2) / 4 == k && (4 * k + 3) / 4 == k;
    WordBytes(w[k]);
  }

  /** struct inode byte by byte (inode.h:8-18): number and size in the first eight bytes, the addresses of
      the 13 blocks from byte 16 on, and nothing of what only lives in memory. */
  lemma StoredBytes(r: InodeRec, i: nat)
    requires Storable(r) && i < INODE_SIZE
    ensures var b := PureBytes(r)[i];
      if i < 4 then b == ByteOf(r.iNo, i)
      else if i < 8 then b == ByteOf(r.iSize, i - 4)
      else if 16 <= i < 68 then b == ByteOf(r.sectors[(i - 16) / 4], (i - 16) % 4)
      else b == 0
  {
    assert i / 4 == 0 || i / 4 == 1 || 2 <= i / 4 < 4 || 4 <= i / 4 < 17 || 17 <= i / 4 < 19;
    assert 16 <= i ==> (i - 16) / 4 == i / 4 - 4 && (i - 16) % 4 == i % 4;
  }

  /** Storing an inode and parsing it back returns number, size and block addresses, and clears
      the members that only live in memory. */
  lemma StoredFields(r: InodeRec)
    requires Storable(r)
    ensures Parse(PureBytes(r)) == InodeRec(r.iNo, r.iSize, 0, 0, r.sectors, 0, 0)
  {
    var p := Parse(PureBytes(r));
    forall k | 0 <= k < 13 ensures p.sectors[k] == r.sectors[k] {
      WordOfPure(r, 4 + k);
      assert PureWords(r)[4 + k] == r.sectors[k];
    }
    WordOfPure(r, 0);
    WordOfPure(r, 1);
    WordOfPure(r, 2);
    WordOfPure(r, 3);
    WordOfPure(r, 17);
    WordOfPure(r, 18);
  }

  // ------------------------------------------------------------------
  // The table as a string of bytes
  // ------------------------------------------------------------------

  /** Byte x of the table. */
  function TableByte(d: seq<Sector>, base: nat, x: nat): Byte
    requires base + TABLE_SECTORS <= |d| && x < TABLE_SECTORS * SECTOR_SIZE
  {
    d[base + x / SECTOR_SIZE][x % SECTOR_SIZE]
  }

  /** The bytes of slot no. */
  function Slice(d: seq<Sector>, base: nat, no: nat): (b: Bytes)
    requires base + TABLE_SECTORS <= |d| && no < INODES
    ensures |b| == INODE_SIZE
  {
    seq<Byte>(INODE_SIZE, i requires 0 <= i < INODE_SIZE => TableByte(d, base, no * INODE_SIZE + i))
  }

  /** Byte x of the table after slot no was set to b. */
  function ByteAfter(d: seq<Sector>, base: nat, no: nat, b: Bytes, x: nat): Byte
    requires base + TABLE_SECTORS <= |d| && x < TABLE_SECTORS * SECTOR_SIZE && |b| == INODE_SIZE
  {
    if no * INODE_SIZE <= x < no * INODE_SIZE + INODE_SIZE then b[x - no * INODE_SIZE] else TableByte(d, base, x)
  }

  /** Slot no of the table now holds b; every other byte of the table and every sector outside it
      is as before. */
  ghost predicate SlotSet(d: seq<Sector>, base: nat, no: nat, b: Bytes, d': seq<Sector>)
    requires base + TABLE_SECTORS <= |d| && no < INODES && |b| == INODE_SIZE
  {
    && |d'| == |d|
    && (forall a :: 0 <= a < |d| && !(base <= a < base + TABLE_SECTORS) ==> d'[a] == d[a])
    && (forall a, j :: base <= a < base + TABLE_SECTORS && 0 <= j < SECTOR_SIZE ==>
          d'[a][j] == ByteAfter(d, base, no, b, (a - base) * SECTOR_SIZE + j))
  }

  /** Slots of different numbers do not overlap: setting one leaves the others alone. */
  lemma SlotsDisjoint(d: seq<Sector>, base: nat, no: nat, b: Bytes, d': seq<Sector>, other: nat)
    requires base + TABLE_SECTORS <= |d| && no < INODES && other < INODES && |b| == INODE_SIZE
    requires SlotSet(d, base, no, b, d')
    ensures |d'| == |d| && Slice(d', base, other) == if other == no then b else Slice(d, base, other)
  {
    assert |d'| == |d|;
    var before, after := Slice(d, base, other), Slice(d', base, other);
    hide SlotSet, Slice;
    forall i | 0 <= i < INODE_SIZE ensures after[i] == if other == no then b[i] else before[i] {
      SlotsDisjointAt(d, base, no, b, d', other, i);
    }
  }

  lemma SlotsDisjointAt(d: seq<Sector>, base: nat, no: nat, b: Bytes, d': seq<Sector>, other: nat, i: nat)
    requires base + TABLE_SECTORS <= |d| && no < INODES && other < INODES && |b| == INODE_SIZE && i < INODE_SIZE
    requires SlotSet(d, base, no, b, d')
    ensures |d'| == |d|
    ensures Slice(d', base, other)[i] == if other == no then b[i] else Slice(d, base, other)[i]
  {
    var x := other * INODE_SIZE + i;
    var a, j := base + x / SECTOR_SIZE, x % SECTOR_SIZE;
    assert x == (a - base) * SECTOR_SIZE + j;
    assert d'[a][j] == ByteAfter(d, base, no, b, x);
    assert Slice(d', base, other)[i] == TableByte(d', base, x) == d'[a][j];
    assert Slice(d, base, other)[i] == TableByte(d, base, x);
    assert no * INODE_SIZE <= x < no * INODE_SIZE + INODE_SIZE <==> other == no;
  }

  // ------------------------------------------------------------------
  // inode.c
  // ------------------------------------------------------------------

  /** inode_locate: the sector of a slot, its offset there, and whether it runs into the next. */
  method InodeLocate(base: nat, no: nat) returns (twoSec: bool, lba: nat, off: nat)
    requires no < INODES
    ensures (lba - base) * SECTOR_SIZE + off == no * INODE_SIZE && base <= lba && off < SECTOR_SIZE
    ensures twoSec <==> off + INODE_SIZE > SECTOR_SIZE
    ensures lba + (if twoSec then 1 else 0) < base + TABLE_SECTORS
  {
    var offSize := no * INODE_SIZE;
    var offSec := offSize / 512;
    off := offSize % 512;
    var left := 512 - off;
    twoSec := left < INODE_SIZE;
    lba := base + offSec;
  }

  /** The read-splice-write of inode_sync and inode_delete, over one sector or two. */
  method StoreSlot(d: seq<Sector>, base: nat, no: nat, b: Bytes) returns (d': seq<Sector>)
    requires base + TABLE_SECTORS <= |d| && no < INODES && |b| == INODE_SIZE
    ensures SlotSet(d, base, no, b, d')
  {
    var twoSec, lba, off := InodeLocate(base, no);
    if twoSec {
      var buf := Joined(d[lba], d[lba + 1]);
      buf := buf[..off] + b + buf[off + INODE_SIZE..];
      d' := d[lba := buf[..512]][lba + 1 := buf[512..]];
    } else {
      var buf: Bytes := d[lba];
      buf := buf[..off] + b + buf[off + INODE_SIZE..];
      d' := d[lba := buf];
    }
    forall a, j | base <= a < base + TABLE_SECTORS && 0 <= j < SECTOR_SIZE
      ensures d'[a][j] == ByteAfter(d, base, no, b, (a - base) * SECTOR_SIZE + j)
    {
      TableByteAt(d, base, a, j);
    }
  }

  lemma TableByteAt(d: seq<Sector>, base: nat, a: nat, j: nat)
    requires base + TABLE_SECTORS <= |d| && base <= a < base + TABLE_SECTORS && j < SECTOR_SIZE
    ensures TableByte(d, base, (a - base) * SECTOR_SIZE + j) == d[a][j]
  {
    var x := (a - base) * SECTOR_SIZE + j;
    assert x / SECTOR_SIZE == a - base && x % SECTOR_SIZE == j;
  }

  /** inode_sync. The inode number is kept in a uint8_t (inode.c:48). */
  method InodeSync(d: seq<Sector>, base: nat, r: InodeRec) returns (d': seq<Sector>)
    requires base + TABLE_SECTORS <= |d| && Storable(r) && r.iNo < INODES
    ensures SlotSet(d, base, r.iNo % 256, PureBytes(r), d')
  {
    var no := r.iNo % 256;
    d' := StoreSlot(d, base, no, PureBytes(r));
  }

  /** inode_delete */
  method InodeDelete(d: seq<Sector>, base: nat, no: nat) returns (d': seq<Sector>)
    requires base + TABLE_SECTORS <= |d| && no < INODES
    ensures SlotSet(d, base, no, seq(INODE_SIZE, _ => 0), d')
  {
    d' := StoreSlot(d, base, no, seq(INODE_SIZE, _ => 0));
  }

  /** The part of inode_open that loads an inode from disk. */
  method InodeLoad(d: seq<Sector>, base: nat, no: nat) returns (r: InodeRec)
    requires base + TABLE_SECTORS <= |d| && no < INODES
    ensures r == Parse(Slice(d, base, no))
  {
    var twoSec, lba, off := InodeLocate(base, no);
    var buf: Bytes := if twoSec then Joined(d[lba], d[lba + 1]) else d[lba];
    var b := buf[off..off + INODE_SIZE];
    forall i | 0 <= i < INODE_SIZE ensures b[i] == TableByte(d, base, no * INODE_SIZE + i) {
      if off + i < SECTOR_SIZE {
        TableByteAt(d, base, lba, off + i);
      } else {
        TableByteAt(d, base, lba + 1, off + i - SECTOR_SIZE);
      }
    }
    assert b == Slice(d, base, no);
    r := Parse(b);
  }

  /** An inode stored by inode_sync loads back with its number, size and blocks exactly when its number
      is below 256, unless its slot held those fields already: from 256 on inode_sync writes the slot
      of another inode. */
  lemma SyncThenLoad(d: seq<Sector>, base: nat, r: InodeRec, d': seq<Sector>)
    requires base + TABLE_SECTORS <= |d| && Storable(r) && r.iNo < INODES
    requires SlotSet(d, base, r.iNo % 256, PureBytes(r), d')
    ensures |d'| == |d|
    ensures LoadsAs(d', base, r.iNo, r) <==> (r.iNo < 256 || LoadsAs(d, base, r.iNo, r))
    ensures LoadsAs(d', base, r.iNo % 256, r)
  {
    hide SlotSet, Parse, PureBytes, Slice, Storable;
    StoredFields(r);
    SlotsDisjoint(d, base, r.iNo % 256, PureBytes(r), d', r.iNo % 256);
    SlotsDisjoint(d, base, r.iNo % 256, PureBytes(r), d', r.iNo);
  }

  // ------------------------------------------------------------------
  // The table as a list of records
  // ------------------------------------------------------------------

  /** What loading each slot gives. */
  function TableOf(d: seq<Sector>, base: nat): (tb: seq<InodeRec>)
    ensures |tb| == if base + TABLE_SECTORS <= |d| then INODES else 0
  {
    if base + TABLE_SECTORS <= |d| then seq(INODES, no requires 0 <= no < INODES => Parse(Slice(d, base, no)))
    else []
  }

  lemma TableAt(d: seq<Sector>, base: nat, no: nat)
    requires base + TABLE_SECTORS <= |d| && no < INODES
    ensures TableOf(d, base)[no] == Parse(Slice(d, base, no))
  {
    hide Slice, Parse;
  }

  /** Setting the bytes of a slot sets its record and no other. */
  lemma SlotRecord(d: seq<Sector>, base: nat, no: nat, b: Bytes, d': seq<Sector>)
    requires base + TABLE_SECTORS <= |d| && no < INODES && |b| == INODE_SIZE && SlotSet(d, base, no, b, d')
    ensures |TableOf(d, base)| == INODES && TableOf(d', base) == TableOf(d, base)[no := Parse(b)]
  {
    hide SlotSet, Slice, Parse, TableOf;
    SetLength(d, base, no, b, d');
    var tb, tb' := TableOf(d, base), TableOf(d', base);
    forall other | 0 <= other < INODES ensures tb'[other] == if other == no then Parse(b) else tb[other] {
      SlotRecordAt(d, base, no, b, d', other);
    }
    assert tb' == tb[no := Parse(b)];
  }

  lemma SetLength(d: seq<Sector>, base: nat, no: nat, b: Bytes, d': seq<Sector>)
    requires base + TABLE_SECTORS <= |d| && no < INODES && |b| == INODE_SIZE && SlotSet(d, base, no, b, d')
    ensures |d'| == |d|
  {
  }

  lemma SlotRecordAt(d: seq<Sector>, base: nat, no: nat, b: Bytes, d': seq<Sector>, other: nat)
    requires base + TABLE_SECTORS <= |d| && no < INODES && |b| == INODE_SIZE && SlotSet(d, base, no, b, d') && other < INODES
    ensures |d'| == |d| && TableOf(d', base)[other] == if other == no then Parse(b) else TableOf(d, base)[other]
  {
    hide SlotSet, Slice, Parse, TableOf;
    SetLength(d, base, no, b, d');
    TableAt(d, base, other);
    TableAt(d', base, other);
    SlotsDisjoint(d, base, no, b, d', other);
  }

  /** Writing elsewhere leaves the table alone. */
  lemma TableUntouched(d: seq<Sector>, base: nat, d': seq<Sector>)
    requires |d'| == |d|
    requires forall a :: base <= a < base + TABLE_SECTORS && a < |d| ==> d'[a] == d[a]
    ensures TableOf(d', base) == TableOf(d, base)
  {
    hide Parse, Slice, TableOf;
    if base + TABLE_SECTORS <= |d| {
      forall no | 0 <= no < INODES ensures TableOf(d', base)[no] == TableOf(d, base)[no] {
        TableAt(d, base, no);
        TableAt(d', base, no);
        SlotUntouched(d, base, d', no);
      }
    }
  }

  lemma SlotUntouched(d: seq<Sector>, base: nat, d': seq<Sector>, no: nat)
    requires |d'| == |d| && base + TABLE_SECTORS <= |d| && no < INODES
    requires forall a :: base <= a < base + TABLE_SECTORS && a < |d| ==> d'[a] == d[a]
    ensures Slice(d', base, no) == Slice(d, base, no)
  {
    forall i | 0 <= i < INODE_SIZE ensures Slice(d', base, no)[i] == Slice(d, base, no)[i] {
      var x := no * INODE_SIZE + i;
      assert Slice(d, base, no)[i] == TableByte(d, base, x) && Slice(d', base, no)[i] == TableByte(d', base, x);
      assert d'[base + x / SECTOR_SIZE] == d[base + x / SECTOR_SIZE];
    }
  }

  /** The record of a slot of zeros, which is what an unused slot holds. */
  const NO_REC: InodeRec := InodeRec(0, 0, 0, 0, Zeros(13), 0, 0)

  lemma ZerosParse()
    ensures Parse(seq(INODE_SIZE, _ => 0)) == NO_REC
  {
    var z: Bytes := seq(INODE_SIZE, _ => 0);
    assert Parse(z).sectors == Zeros(13);
  }

  /** Loading slot no gives the persistent fields of r. */
  ghost predicate LoadsAs(d: seq<Sector>, base: nat, no: nat, r: InodeRec)
    requires base + TABLE_SECTORS <= |d| && no < INODES
  {
    Parse(Slice(d, base, no)) == InodeRec(r.iNo, r.iSize, 0, 0, r.sectors, 0, 0)
  }
}
