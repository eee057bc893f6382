/** A freshly formatted and mounted partition (fs.c:22-177): the state from which every run of the
    file system starts. */
module Formats {
  import opened Sectors
  import opened BlockMap
  import opened Bitmaps
  import opened DirEntries
  import opened DirSpec
  import opened FileSystem
  import opened InodeStore
  import opened TreeSpec
  import opened Namespace
  import opened NameOps
  import opened Reload
  import Ide
  import InodeTable

  const BITS_PER_SECTOR: nat := 4096
  const MAX_SECTORS: nat := 163840

  // ------------------------------------------------------------------
  // The layout
  // ------------------------------------------------------------------

  function DivRoundUp(n: nat, k: nat): nat
    requires k > 0
  {
    (n + k - 1) / k
  }

  /** The number of data blocks that partition_format means to have, the sectors of their bitmap, and
      the first sector of the data area. 611 sectors go to the boot sector, the super block, the inode
      bitmap and the inode table. */
  function BitLen(secCnt: nat): nat
    requires secCnt >= 612
  {
    var free := secCnt - 611;
    free - DivRoundUp(free, BITS_PER_SECTOR)
  }

  function BitmapSectors(secCnt: nat): nat
    requires secCnt >= 612
  {
    DivRoundUp(BitLen(secCnt), BITS_PER_SECTOR)
  }

  function DataStart(start: nat, secCnt: nat): nat
    requires secCnt >= 612
  {
    start + 611 + BitmapSectors(secCnt)
  }

  /** How many blocks the bitmap offers: one more than meant, if it has padding. */
  function Offered(secCnt: nat): nat
    requires secCnt >= 612
  {
    if BitLen(secCnt) % BITS_PER_SECTOR != 0 then BitLen(secCnt) + 1 else BitLen(secCnt)
  }

  lemma LayoutFits(start: nat, secCnt: nat)
    requires 640 <= secCnt <= MAX_SECTORS
    ensures 8 <= BitLen(secCnt) <= MAX_SECTORS && DataStart(start, secCnt) == start + 611 + BitmapSectors(secCnt)
    ensures BitmapSectors(secCnt) == DivRoundUp(BitLen(secCnt), BITS_PER_SECTOR) > 0
    ensures BitLen(secCnt) <= Offered(secCnt) <= BITS_PER_SECTOR * BitmapSectors(secCnt)
    ensures Offered(secCnt) == BitLen(secCnt) ==> Offered(secCnt) == BITS_PER_SECTOR * BitmapSectors(secCnt)
  {
  }

  // ------------------------------------------------------------------
  // Bitmaps on the disk
  // ------------------------------------------------------------------

  function ToBytes(data: seq<bv8>): (b: Bytes)
    ensures |b| == |data|
  {
    seq(|data|, i requires 0 <= i < |data| => data[i] as int)
  }

  function FromBytes(b: Bytes): (data: seq<bv8>)
    ensures |data| == |b|
  {
    seq(|b|, i requires 0 <= i < |b| => b[i] as bv8)
  }

  lemma SameBytes(data: seq<bv8>)
    ensures FromBytes(ToBytes(data)) == data
  {
    forall i | 0 <= i < |data| ensures FromBytes(ToBytes(data))[i] == data[i] {
    }
  }

  /** A bitmap written to the disk. */
  function WithBitmap(d: Disk, lba: nat, data: seq<bv8>, n: nat): (d': Disk)
    requires lba + n <= |d| && |data| == 512 * n
    ensures |d'| == |d|
  {
    Ide.WriteSectors(d, lba, ToBytes(data), n)
  }

  /** The bytes of a bitmap read from the disk. */
  function BitmapAt(d: Disk, lba: nat, n: nat): (data: seq<bv8>)
    requires lba + n <= |d|
    ensures |data| == 512 * n
  {
    FromBytes(Ide.ReadBytes(d, lba, n))
  }

  lemma BitmapRead(d: Disk, lba: nat, data: seq<bv8>, n: nat)
    requires lba + n <= |d| && |data| == 512 * n
    ensures BitmapAt(WithBitmap(d, lba, data, n), lba, n) == data
  {
    hide Ide.WriteSectors, Ide.ReadBytes, ToBytes, FromBytes;
    Ide.RoundTrip(d, lba, ToBytes(data), n);
    assert ToBytes(data)[..512 * n] == ToBytes(data);
    SameBytes(data);
  }

  lemma BitmapSame(d: Disk, d': Disk, lba: nat, n: nat)
    requires lba + n <= |d| == |d'| && forall a :: lba <= a < lba + n ==> d'[a] == d[a]
    ensures BitmapAt(d', lba, n) == BitmapAt(d, lba, n)
  {
    assert Ide.ReadBytes(d', lba, n) == Ide.ReadBytes(d, lba, n) by {
      forall i | 0 <= i < 512 * n ensures Ide.ReadBytes(d', lba, n)[i] == Ide.ReadBytes(d, lba, n)[i] {
        assert d'[lba + i / 512] == d[lba + i / 512];
      }
    }
  }

  // ------------------------------------------------------------------
  // The block bitmap
  // ------------------------------------------------------------------

  /** The bits of a new block bitmap: the root's block is taken, the padding is set, and everything in
      between is free. */
  ghost predicate NewBits(v: seq<bool>, bitLen: nat) {
    forall b :: 0 <= b < |v| ==> (v[b] <==> b == 0 || b > bitLen)
  }

  /** The block bitmap as partition_format lays it out: the first byte, the tail filled with ones from
      the last byte on, and the low bits of that byte cleared again, one more than needed. */
  method BlockBitmap(bitLen: nat) returns (buf: array<bv8>)
    requires 8 <= bitLen <= MAX_SECTORS
    ensures fresh(buf) && 512 * DivRoundUp(bitLen, BITS_PER_SECTOR) <= buf.Length
    ensures NewBits(BitsOf(buf[..512 * DivRoundUp(bitLen, BITS_PER_SECTOR)]), bitLen)
  {
    var lastByte, lastBit := bitLen / 8, bitLen % 8;
    var lastSize := 512 - lastByte % 512;
    buf := new bv8[608 * 512](_ => 0);
    buf[0] := buf[0] | 1;
    var i := 0;
    while i < lastSize
      invariant i <= lastSize
      invariant forall k :: 0 <= k < buf.Length && !(lastByte <= k < lastByte + i) ==> buf[k] == if k == 0 then 1 else 0
      invariant forall k :: lastByte <= k < lastByte + i ==> buf[k] == 0xff
    {
      buf[lastByte + i] := 0xff;
      i := i + 1;
    }
    FullByte(buf[lastByte]);
    var bitIdx := 0;
    while bitIdx <= lastBit
      invariant bitIdx <= lastBit + 1
      invariant forall k :: 0 <= k < lastByte ==> buf[k] == if k == 0 then 1 else 0
      invariant forall k :: lastByte < k < lastByte + lastSize ==> buf[k] == 0xff
      invariant forall j :: 0 <= j < 8 ==> (TestBit(buf[lastByte], j) <==> j >= bitIdx)
    {
      buf[lastByte] := WithBit(buf[lastByte], bitIdx, false);
      bitIdx := bitIdx + 1;
    }
    LaidOut(buf[..512 * DivRoundUp(bitLen, BITS_PER_SECTOR)], bitLen);
  }

  lemma LaidOut(bytes: seq<bv8>, bitLen: nat)
    requires bitLen >= 8 && |bytes| == 512 * DivRoundUp(bitLen, BITS_PER_SECTOR)
    requires forall k :: 0 <= k < |bytes| && k < bitLen / 8 ==> bytes[k] == if k == 0 then 1 else 0
    requires forall k :: bitLen / 8 < k < |bytes| ==> bytes[k] == 0xff
    requires bitLen / 8 < |bytes| ==> forall j :: 0 <= j < 8 ==> (TestBit(bytes[bitLen / 8], j) <==> j > bitLen % 8)
    ensures NewBits(BitsOf(bytes), bitLen)
  {
    forall b | 0 <= b < 8 * |bytes| ensures BitAt(bytes, b) <==> b == 0 || b > bitLen {
      var k := b / 8;
      if k < bitLen / 8 {
        assert bytes[k] == if k == 0 then 1 else 0;
      } else if k > bitLen / 8 {
        FullByte(bytes[k]);
      }
    }
  }

  /** The bit cleared too many is the bit of a block that the bitmap offers although it lies behind
      the partition, unless the two counts of bitmap sectors differ or the bitmap has no padding. */
  lemma OutsideBlock(start: nat, secCnt: nat, v: seq<bool>)
    requires 640 <= secCnt <= MAX_SECTORS && |v| == BITS_PER_SECTOR * BitmapSectors(secCnt) && NewBits(v, BitLen(secCnt))
    ensures (exists b :: 0 <= b < |v| && !v[b] && DataStart(start, secCnt) + b >= start + secCnt)
      <==> (BitLen(secCnt) % BITS_PER_SECTOR != 0
            && BitmapSectors(secCnt) == DivRoundUp(secCnt - 611, BITS_PER_SECTOR))
    ensures forall b :: 0 <= b < |v| && !v[b] ==> DataStart(start, secCnt) + b <= start + secCnt
  {
    var n, sects, first := BitLen(secCnt), BitmapSectors(secCnt), DivRoundUp(secCnt - 611, BITS_PER_SECTOR);
    assert n + first == secCnt - 611 && first - 1 <= sects <= first;
    assert DataStart(start, secCnt) + n == start + secCnt + sects - first;
    if n % BITS_PER_SECTOR != 0 && sects == first {
      assert n < |v| && !v[n];
    }
  }

  /** A partition of 640 sectors, the smallest considered here, offers a block behind its end. */
  lemma OutsideWitness(v: seq<bool>)
    requires |v| == BITS_PER_SECTOR && NewBits(v, BitLen(640))
    ensures !v[28] && DataStart(0, 640) + 28 == 640 && Offered(640) == 29
  {
    assert BitLen(640) == 28;
  }

  // ------------------------------------------------------------------
  // The partition
  // ------------------------------------------------------------------

  function RootNode(lo: nat): Node {
    Node(2 * ENTRY_SIZE, Zeros(13)[0 := lo])
  }

  const ROOT_TREE: Tree := Tree({0}, map[], map[0 := 0])

  lemma RootSlots(d: Disk, lo: nat, s: nat)
    requires 0 < lo && 0 < |d| && s < SLOTS
    ensures NodeOk(d, RootNode(lo)) && Slot(d, RootNode(lo), s) == if s == 0 then lo else 0
  {
  }

  /** The root directory owns the first data block and nothing is leaked. */
  lemma RootOwned(g: Area, d: Disk, bits: seq<bool>)
    requires AreaFits(g, d, bits) && 0 < g.usable
    requires bits[0] && forall b :: 0 < b < g.usable ==> !bits[b]
    ensures Owned(g, d, bits, map[0 := RootNode(g.lo)])
  {
    var m := map[0 := RootNode(g.lo)];
    forall i, s, a | Holds(d, m, i, s, a) ensures i == 0 && a == if s == 0 then g.lo else 0 {
      RootSlots(d, g.lo, s);
    }
    RootSlots(d, g.lo, 0);
    assert Holds(d, m, 0, 0, g.lo);
    RootSlots(d, g.lo, 1);
  }

  /** The root directory alone is a tree. */
  lemma RootTree(g: Area, d: Disk)
    requires 1 <= g.lo < |d| && d[g.lo] == DotsSector(0, 0)
    ensures TreeOk(g, d, map[0 := RootNode(g.lo)], {}, ROOT_TREE)
    ensures ViewOf(d, map[0 := RootNode(g.lo)], ROOT_TREE) == map[0 := Dots(0, 0)]
  {
    hide DirShape, Listing, SectorsOk, DotsSector;
    DotsShape(d, RootNode(g.lo), 0, 0);
    var v := ViewOf(d, map[0 := RootNode(g.lo)], ROOT_TREE);
    assert v == map[0 := Dots(0, 0)];
    DotsAgree();
  }

  lemma DotsAgree()
    ensures Agrees(map[0 := Dots(0, 0)], ROOT_TREE)
  {
    var l := Dots(0, 0);
    assert Lookup(l, DOT) == Something(l[0]);
    assert l[1..][0] == l[1] && Lookup(l[1..], DOTDOT) == Something(l[1]);
    assert DirAgrees(map[0 := l], ROOT_TREE, 0);
  }

  /** The inode table of a new partition: only the root. */
  function RootTable(lo: nat): (tb: seq<InodeTable.InodeRec>)
    ensures |tb| == InodeTable.INODES
  {
    seq(InodeTable.INODES, no requires 0 <= no < InodeTable.INODES => SlotRec(map[0 := RootNode(lo)], no))
  }

  lemma BlankSlot(d: Disk, base: nat, no: nat)
    requires base + InodeTable.TABLE_SECTORS <= |d| && no < InodeTable.INODES
    requires forall a, j :: base <= a < base + InodeTable.TABLE_SECTORS && 0 <= j < 512 ==> d[a][j] == 0
    ensures InodeTable.TableOf(d, base)[no] == InodeTable.NO_REC
  {
    hide InodeTable.Parse;
    InodeTable.ZerosParse();
    InodeTable.TableAt(d, base, no);
    var z: Bytes := seq(InodeTable.INODE_SIZE, _ => 0);
    forall i | 0 <= i < InodeTable.INODE_SIZE ensures InodeTable.Slice(d, base, no)[i] == z[i] {
      var x := no * InodeTable.INODE_SIZE + i;
      assert InodeTable.Slice(d, base, no)[i] == InodeTable.TableByte(d, base, x);
    }
    assert InodeTable.Slice(d, base, no) == z;
  }

  /** The inode table and the root directory that partition_format writes. */
  method WriteRoot(disk: Disk, tableLba: nat, lo: nat) returns (d: Disk)
    requires lo == tableLba + InodeTable.TABLE_SECTORS && lo < |disk| <= U32
    ensures |d| == |disk| && d[lo] == DotsSector(0, 0) && forall a :: 0 <= a < tableLba ==> d[a] == disk[a]
    ensures InodeTable.TableOf(d, tableLba) == RootTable(lo)
  {
    hide InodeTable.SlotSet, InodeTable.Parse, InodeTable.PureBytes, InodeTable.Slice, InodeTable.TableOf, DotsSector;
    var zeros: Sector := seq(512, _ => 0);
    d := disk[..tableLba] + seq(InodeTable.TABLE_SECTORS, _ => zeros) + disk[lo..];
    d := d[lo := DotsSector(0, 0)];
    ghost var d1 := d;
    forall no | 0 <= no < InodeTable.INODES ensures InodeTable.TableOf(d1, tableLba)[no] == InodeTable.NO_REC {
      BlankSlot(d1, tableLba, no);
    }
    var rec := RecordOf(0, RootNode(lo));
    d := InodeTable.StoreSlot(d, tableLba, 0, InodeTable.PureBytes(rec));
    InodeTable.StoredFields(rec);
    InodeTable.SlotRecord(d1, tableLba, 0, InodeTable.PureBytes(rec), d);
    SlotOnly(d1, tableLba, InodeTable.PureBytes(rec), d);
    assert InodeTable.TableOf(d, tableLba) == RootTable(lo);
  }

  lemma SlotOnly(d: Disk, base: nat, b: Bytes, d': Disk)
    requires base + InodeTable.TABLE_SECTORS <= |d| && |b| == InodeTable.INODE_SIZE && InodeTable.SlotSet(d, base, 0, b, d')
    ensures |d'| == |d| && forall a :: 0 <= a < |d| && !(base <= a < base + InodeTable.TABLE_SECTORS) ==> d'[a] == d[a]
  {
  }

  /** The bits read from the two bitmaps of the partition, and its area, suit one with only the
      root. */
  ghost predicate OnlyRoot(g: Area, d: Disk, v: seq<bool>, w: seq<bool>) {
    && AreaFits(g, d, v) && 0 < g.usable && v[0] && (forall b :: 0 < b < g.usable ==> !v[b])
    && |w| == InodeTable.INODES && forall b :: 0 <= b < |w| ==> (w[b] <==> b == 0)
  }

  /** mount_partition, and every inode in use opened: the two bitmaps and the inodes are read from the
      disk. */
  method Mount(g: Area, start: nat, sects: nat, past: bv8, past2: bv8, d: Disk) returns (fs: FileSystem)
    requires sects > 0 && g.lo == start + 611 + sects < |d|
    requires OnlyRoot(g, d, BitsOf(BitmapAt(d, start + 2, sects)), BitsOf(BitmapAt(d, start + 2 + sects, 1)))
    requires InodeTable.TableOf(d, start + 3 + sects) == RootTable(g.lo)
    ensures fresh(fs) && fs.Valid() && fs.Stored() && fs.files == {} && fs.disk == d && fs.g == g
    ensures fs.blockBitmap.View() == BitsOf(BitmapAt(d, start + 2, sects)) && fs.Nodes() == map[0 := RootNode(g.lo)]
  {
    hide OnlyRoot, Consistent, BitsOf, BitmapAt, InodeTable.TableOf, RootTable, Zeros, Bitmap.View;
    var data, data2 := BitmapAt(d, start + 2, sects), BitmapAt(d, start + 2 + sects, 1);
    var blockBitmap := new Bitmap.Loaded(data, past);
    var inodeBitmap := new Bitmap.Loaded(data2, past2);
    RootOnDisk(g.lo);
    RootMarked(g, d, blockBitmap.View(), inodeBitmap.View());
    var inodes := LoadInodes(d, start + 3 + sects, inodeBitmap, map[0 := RootNode(g.lo)]);
    fs := new FileSystem(g, start + 3 + sects, blockBitmap, inodeBitmap, d, inodes, {});
    RootMounted(fs);
  }

  lemma RootMarked(g: Area, d: Disk, v: seq<bool>, w: seq<bool>)
    requires OnlyRoot(g, d, v, w)
    ensures |w| == InodeTable.INODES && forall b :: 0 <= b < |w| ==> (w[b] <==> b == 0)
  {
  }

  lemma RootMounted(fs: FileSystem)
    requires fs.blockBitmap.Valid() && fs.inodeBitmap.Valid() && fs.inodeBitmap.bits != fs.blockBitmap.bits
    requires OnlyRoot(fs.g, fs.disk, fs.blockBitmap.View(), fs.inodeBitmap.View()) && fs.files == {}
    requires 1 <= fs.tableLba && fs.tableLba + InodeTable.TABLE_SECTORS == fs.g.lo
    requires fs.inodes.Keys == {0} && fs.inodes[0].iNo == 0 && fs.inodes[0].Snapshot() == RootNode(fs.g.lo)
    requires OnDisk(fs.Table(), map[0 := RootNode(fs.g.lo)])
    ensures fs.Valid() && fs.Stored() && fs.Nodes() == map[0 := RootNode(fs.g.lo)]
  {
    hide Consistent, InodeTable.TableOf, OnDisk, Bitmap.View, AreaFits;
    fs.NodesAre(map[0 := RootNode(fs.g.lo)]);
    RootConsistent(fs.g, fs.disk, fs.blockBitmap.View());
  }

  lemma RootConsistent(g: Area, d: Disk, bits: seq<bool>)
    requires AreaFits(g, d, bits) && 0 < g.usable
    requires bits[0] && forall b :: 0 < b < g.usable ==> !bits[b]
    ensures Consistent(g, d, bits, map[0 := RootNode(g.lo)], {})
  {
    hide Owned;
    RootOwned(g, d, bits);
  }

  lemma RootOnDisk(lo: nat)
    ensures OnDisk(RootTable(lo), map[0 := RootNode(lo)])
  {
  }

  /** The name space over a partition that has only the root. */
  method Root(fs: FileSystem) returns (ns: Namespace)
    requires fs.Valid() && fs.Stored() && fs.files == {} && fs.Nodes() == map[0 := RootNode(fs.g.lo)]
    requires 1 <= fs.g.lo < |fs.disk| && fs.disk[fs.g.lo] == DotsSector(0, 0)
    ensures fresh(ns) && ns.fs == fs && ns.Valid() && ns.tree == ROOT_TREE
    ensures ns.View() == map[0 := Dots(0, 0)] && fs.Contents() == map[]
  {
    hide DotsSector, Dots, FileSystem.Valid, FileSystem.Stored, TreeOk;
    RootTree(fs.g, fs.disk);
    NoFiles(fs);
    ns := new Namespace(fs, ROOT_TREE);
  }

  lemma NoFiles(fs: FileSystem)
    requires fs.Valid() && fs.files == {}
    ensures fs.Contents() == map[]
  {
    hide Consistent;
  }

  /** What partition_format leaves on the disk. */
  ghost predicate Formatted(d: Disk, start: nat, secCnt: nat)
    requires 640 <= secCnt <= MAX_SECTORS && DataStart(start, secCnt) < |d|
  {
    var sects, lo := BitmapSectors(secCnt), DataStart(start, secCnt);
    && NewBits(BitsOf(BitmapAt(d, start + 2, sects)), BitLen(secCnt))
    && (var v := BitsOf(BitmapAt(d, start + 2 + sects, 1)); forall b :: 0 <= b < |v| ==> (v[b] <==> b == 0))
    && InodeTable.TableOf(d, start + 3 + sects) == RootTable(lo) && d[lo] == DotsSector(0, 0)
  }

  /** partition_format. */
  method PartitionFormat(disk: Disk, start: nat, secCnt: nat) returns (d: Disk)
    requires 640 <= secCnt <= MAX_SECTORS && DataStart(start, secCnt) < |disk| <= U32
    ensures |d| == |disk| && Formatted(d, start, secCnt)
  {
    hide NewBits, DotsSector, BitsOf, BitmapAt, WithBitmap, InodeTable.TableOf, RootTable, DataStart, BitmapSectors, BitLen,
      DivRoundUp;
    LayoutFits(start, secCnt);
    var lo, sects := DataStart(start, secCnt), BitmapSectors(secCnt);
    var buf := BlockBitmap(BitLen(secCnt));
    var map1: seq<bv8> := [1] + seq(511, _ => 0);
    var d1 := WithBitmap(disk, start + 2, buf[..512 * sects], sects);
    var d2 := WithBitmap(d1, start + 2 + sects, map1, 1);
    d := WriteRoot(d2, start + 3 + sects, lo);
    FirstInode();
    BitmapRead(disk, start + 2, buf[..512 * sects], sects);
    BitmapRead(d1, start + 2 + sects, map1, 1);
    BitmapKept(d1, start + 2 + sects, map1, 1);
    BitmapSame(d1, d, start + 2, sects);
    BitmapSame(d2, d, start + 2 + sects, 1);
  }

  lemma BitmapKept(d: Disk, lba: nat, data: seq<bv8>, n: nat)
    requires lba + n <= |d| && |data| == 512 * n
    ensures forall a :: 0 <= a < |d| && !(lba <= a < lba + n) ==> WithBitmap(d, lba, data, n)[a] == d[a]
  {
  }

  /** partition_format and mount_partition: the partition is sound, holds no file, and its only
      directory is the root with "." and "..". The disk must reach the last block that the bitmap
      offers, which OutsideBlock says is at most one sector behind the partition. */
  method Format(disk: Disk, start: nat, secCnt: nat, past: bv8, past2: bv8) returns (ns: Namespace)
    requires 640 <= secCnt <= MAX_SECTORS
    requires DataStart(start, secCnt) + Offered(secCnt) <= |disk| <= U32
    ensures fresh(ns) && fresh(ns.fs) && ns.Valid() && ns.tree == ROOT_TREE
    ensures ns.View() == map[0 := Dots(0, 0)] && ns.fs.Contents() == map[]
    ensures NewBits(ns.fs.blockBitmap.View(), BitLen(secCnt)) && ns.fs.g.lo == DataStart(start, secCnt)
    ensures |ns.fs.blockBitmap.View()| == BITS_PER_SECTOR * BitmapSectors(secCnt)
  {
    hide NewBits, DotsSector, BitsOf, Dots, FileSystem.Valid, FileSystem.Stored, Namespace.Mounted, TreeOk, Bitmap.View, RecordOf,
      BitLen, DivRoundUp, BitmapAt, InodeTable.TableOf, RootTable, OnlyRoot;
    LayoutFits(start, secCnt);
    var sects := BitmapSectors(secCnt);
    var d := PartitionFormat(disk, start, secCnt);
    var g := Area(DataStart(start, secCnt), Offered(secCnt));
    FreshBits(g, d, BitsOf(BitmapAt(d, start + 2, sects)), BitsOf(BitmapAt(d, start + 2 + sects, 1)), secCnt);
    var fs := Mount(g, start, sects, past, past2, d);
    ns := Root(fs);
  }

  lemma FreshBits(g: Area, d: Disk, v: seq<bool>, w: seq<bool>, secCnt: nat)
    requires 640 <= secCnt <= MAX_SECTORS && |v| == BITS_PER_SECTOR * BitmapSectors(secCnt) && NewBits(v, BitLen(secCnt))
    requires 1 <= g.lo && g.lo + g.usable <= |d| <= U32 && g.usable == Offered(secCnt)
    requires |w| == InodeTable.INODES && forall b :: 0 <= b < |w| ==> (w[b] <==> b == 0)
    ensures OnlyRoot(g, d, v, w)
  {
    LayoutFits(g.lo, secCnt);
  }

  lemma FirstInode()
    ensures var v := BitsOf([1] + seq(511, _ => 0)); |v| == 4096 && forall i :: 0 <= i < 4096 ==> (v[i] <==> i == 0)
  {
    var bytes: seq<bv8> := [1] + seq(511, _ => 0);
    forall i | 0 <= i < 4096 ensures BitAt(bytes, i) <==> i == 0 {
      assert bytes[i / 8] == if i / 8 == 0 then 1 else 0;
    }
  }
}
