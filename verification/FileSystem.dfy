/** Regular files (file.c): appending, reading, and the allocation of their blocks. */
module FileSystem {
  import opened Sectors
  import opened BlockMap
  import opened Bitmaps
  import InodeTable
  import opened InodeStore

  /** What a call into the kernel comes to: a return value, or a failed ASSERT, which stops the
      machine. */
  datatype Outcome = Returned(value: int) | Halted

  /** struct inode in memory. */
  class Inode {
    const iNo: nat
    var iSize: nat
    var iSectors: seq<nat>

    /** inode_init */
    constructor (no: nat)
      ensures iNo == no && iSize == 0 && iSectors == Zeros(13)
    {
      iNo := no;
      iSize := 0;
      iSectors := Zeros(13);
    }

    function Snapshot(): Node
      reads this
    {
      Node(iSize, iSectors)
    }
  }

  /** struct file: an open file's position and its inode. The position is a uint32_t. */
  class File {
    var fdPos: nat
    const fdInode: Inode

    constructor (inode: Inode)
      ensures fdPos == 0 && fdInode == inode
    {
      fdPos := 0;
      fdInode := inode;
    }
  }

  /** The number of blocks file_write allocates: a first block for a file never written, the data
      blocks that the new size reaches, and the indirect table when it becomes needed. */
  function BlocksNeeded(n: Node, count: nat): nat
    requires |n.sectors| == 13
  {
    var has := n.size / 512 + 1;
    var will := (n.size + count) / 512 + 1;
    (if n.sectors[0] == 0 then 1 else 0) + (will - has) + (if has <= 12 < will then 1 else 0)
  }

  /** Block ownership, and every regular file in the shape it has between operations. */
  ghost predicate Consistent(g: Area, d: Disk, bits: seq<bool>, m: map<nat, Node>, files: set<nat>) {
    Owned(g, d, bits, m) && forall i :: i in files ==> i in m && AtRest(d, m[i])
  }

  ghost function FilesOf(d: Disk, m: map<nat, Node>, files: set<nat>): map<nat, seq<Byte>>
    requires forall i :: i in files ==> i in m && NodeOk(d, m[i])
  {
    map i | i in files :: Content(d, m[i])
  }

  /** A mounted partition: its disk, its block bitmap and its inodes, as a task finds them that opens
      each of them once. That opening them again finds the same is Stored. */
  class FileSystem {
    const g: Area
    const tableLba: nat
    const blockBitmap: Bitmap
    const inodeBitmap: Bitmap
    var disk: Disk
    var inodes: map<nat, Inode>
    ghost var files: set<nat>

    /** mount_partition, given what was read from the disk. */
    constructor (g: Area, tableLba: nat, blockBitmap: Bitmap, inodeBitmap: Bitmap, disk: Disk, inodes: map<nat, Inode>,
                 ghost files: set<nat>)
      ensures this.g == g && this.tableLba == tableLba
      ensures this.blockBitmap == blockBitmap && this.inodeBitmap == inodeBitmap
      ensures this.disk == disk && this.inodes == inodes && this.files == files
    {
      this.g, this.tableLba, this.blockBitmap, this.inodeBitmap := g, tableLba, blockBitmap, inodeBitmap;
      this.disk, this.inodes, this.files := disk, inodes, files;
    }

    ghost function Nodes(): map<nat, Node>
      reads this, inodes.Values
    {
      map i | i in inodes :: inodes[i].Snapshot()
    }

    ghost predicate Valid()
      reads this, inodes.Values, blockBitmap.bits, inodeBitmap.bits
    {
      && blockBitmap.Valid() && inodeBitmap.Valid() && inodeBitmap.bits != blockBitmap.bits
      && (forall i :: 0 <= i < |inodeBitmap.View()| ==> (inodeBitmap.View()[i] <==> i in inodes))
      && |inodeBitmap.View()| == InodeTable.INODES
      && 1 <= tableLba && tableLba + InodeTable.TABLE_SECTORS <= g.lo
      && (forall i :: i in inodes ==> inodes[i].iNo == i < InodeTable.INODES)
      && RootFirst() && 0 !in files
      && Consistent(g, disk, blockBitmap.View(), Nodes(), files)
    }

    /** The root directory holds the first block of the data area. */
    ghost predicate RootFirst()
      reads this, inodes.Values
    {
      0 in inodes && |inodes[0].iSectors| == 13 && inodes[0].iSectors[0] == g.lo
    }

    /** The inode table on the disk. */
    ghost function Table(): (tb: seq<InodeTable.InodeRec>)
      reads this
    {
      InodeTable.TableOf(disk, tableLba)
    }

    /** Loading an inode that is not open finds it as it is, and unused slots are blank. */
    ghost predicate Stored()
      reads this, inodes.Values
    {
      OnDisk(Table(), Nodes())
    }

    /** What the regular files hold. */
    ghost function Contents(): map<nat, seq<Byte>>
      requires Valid()
      reads this, inodes.Values, blockBitmap.bits, inodeBitmap.bits
    {
      FilesOf(disk, Nodes(), files)
    }

    /** block_bitmap_alloc and bitmap_sync of the bit. */
    method AllocBlock() returns (halted: bool, lba: nat)
      requires blockBitmap.Valid()
      modifies blockBitmap.bits
      ensures halted <==> FreeCount(old(blockBitmap.View())) == 0
      ensures !halted ==> Took(g, old(blockBitmap.View()), blockBitmap.View(), lba)
      ensures !halted ==> FirstFit(old(blockBitmap.View()), 1, lba - g.lo)
    {
      ghost var bits := blockBitmap.View();
      NoneFree(bits);
      var b;
      halted, b := blockBitmap.Scan(1);
      lba := 0;
      if !halted {
        assert !bits[b];
        blockBitmap.Set(b, true);
        lba := g.lo + b;
      }
    }

    /** One turn of the allocation loops: a block is taken and appended to the new ones. */
    method AllocNext(ghost bits: seq<bool>, ghost news: seq<nat>) returns (halted: bool, lba: nat)
      requires blockBitmap.Valid() && NewBlocks(g, bits, blockBitmap.View(), news)
      modifies blockBitmap.bits
      ensures halted <==> FreeCount(bits) == |news|
      ensures !halted ==> g.lo <= lba < g.lo + |bits| && !bits[lba - g.lo] && NewBlocks(g, bits, blockBitmap.View(), news + [lba])
    {
      hide NewBlocks, FreeCount, Bitmap.View;
      ghost var before := blockBitmap.View();
      NewBlocksCount(g, bits, before, news);
      halted, lba := AllocBlock();
      if !halted {
        OneMoreBlock(g, bits, before, news, lba - g.lo);
        assert news + [g.lo + (lba - g.lo)] == news + [lba];
      }
    }

    /** file_write, the new size still in the direct blocks (file.c:334-361). */
    method CollectDirect(inode: Inode, has: nat, will: nat) returns (halted: bool, all: seq<nat>, ghost news: seq<nat>)
      requires blockBitmap.Valid()
      requires 1 <= has <= will <= 12 && Filled(disk, inode.Snapshot(), has)
      modifies blockBitmap.bits, inode
      ensures inode.iSize == old(inode.iSize)
      ensures halted ==> FreeCount(old(blockBitmap.View())) < will - has
      ensures !halted ==> |news| == will - has && NewBlocks(g, old(blockBitmap.View()), blockBitmap.View(), news)
      ensures !halted ==> HungOn(disk, old(inode.Snapshot()), has, news, [], disk, inode.Snapshot())
      ensures !halted ==> Collected(disk, inode.Snapshot(), all, has - 1, will)
    {
      hide NewBlocks, Filled, Hung, Block, Bitmap.View;
      ghost var bits, n := blockBitmap.View(), inode.Snapshot();
      FilledShape(disk, n, has);
      var idx := has - 1;
      all := Zeros(140)[idx := inode.iSectors[idx]];
      ghost var all0 := all;
      idx := has;
      news, halted := [], false;
      NoNewBlocks(g, bits);
      while idx < will
        invariant has <= idx <= will && |news| == idx - has && !halted
        invariant NewBlocks(g, bits, blockBitmap.View(), news)
        invariant inode.iSize == n.size && |inode.iSectors| == 13 && |all| == 140
        invariant inode.iSectors == WithNews(n.sectors, has, news) && all == WithNews(all0, has, news)
      {
        var lba;
        halted, lba := AllocNext(bits, news);
        if halted { return; }
        DirectUnused(disk, n, has, idx);
        assert inode.iSectors[idx] == 0;
        WithNewsStep(n.sectors, has, news, lba);
        WithNewsStep(all0, has, news, lba);
        inode.iSectors := inode.iSectors[idx := lba];
        all := all[idx := lba];
        news := news + [lba];
        idx := idx + 1;
      }
      DirectCollected(disk, n, has, news, all0);
    }

    /** file_write, the new size reaching the indirect table for the first time (file.c:362-413). */
    method CollectCrossing(inode: Inode, has: nat, will: nat)
        returns (halted: bool, all: seq<nat>, ghost news: seq<nat>, t: nat)
      requires blockBitmap.Valid() && AreaFits(g, disk, blockBitmap.View())
      requires 1 <= has <= 12 < will <= 140 && Filled(disk, inode.Snapshot(), has)
      modifies this`disk, blockBitmap.bits, inode
      ensures inode.iSize == old(inode.iSize)
      ensures halted ==> FreeCount(old(blockBitmap.View())) < will - has + 1
      ensures !halted ==> |news| == will - has && NewBlocks(g, old(blockBitmap.View()), blockBitmap.View(), [t] + news)
      ensures !halted ==> HungOn(old(disk), old(inode.Snapshot()), has, news, [t], disk, inode.Snapshot())
      ensures !halted ==> Collected(disk, inode.Snapshot(), all, has - 1, will)
      ensures !halted ==> WroteTable(old(disk), disk, t)
    {
      hide NewBlocks, Filled, Hung, Block, FromWords, Bitmap.View;
      ghost var bits, n := blockBitmap.View(), inode.Snapshot();
      CrossingUnused(disk, n, has);
      var idx := has - 1;
      all := Zeros(140)[idx := inode.iSectors[idx]];
      ghost var all0 := all;
      news := [];
      NoNewBlocks(g, bits);
      halted, t := AllocNext(bits, []);
      if halted { return; }
      assert inode.iSectors[12] == 0;
      inode.iSectors := inode.iSectors[12 := t];
      idx := has;
      assert [] + [t] == [t] + news;
      while idx < will
        invariant has <= idx <= will && |news| == idx - has && !halted
        invariant disk == old(disk) && NewBlocks(g, bits, blockBitmap.View(), [t] + news)
        invariant inode.iSize == n.size && |inode.iSectors| == 13 && |all| == 140
        invariant inode.iSectors == DirectNews(n.sectors, has, news, t) && all == WithNews(all0, has, news)
        invariant forall k :: 0 <= k < |news| ==> news[k] < U32
      {
        var lba;
        halted, lba := AllocNext(bits, [t] + news);
        if halted { return; }
        WithNewsStep(all0, has, news, lba);
        if idx < 12 {
          assert inode.iSectors[idx] == 0;
          inode.iSectors := inode.iSectors[idx := lba];
        }
        all := all[idx := lba];
        assert [t] + news + [lba] == [t] + (news + [lba]);
        news := news + [lba];
        idx := idx + 1;
      }
      CrossingCollected(disk, n, has, news, t, all0);
      disk := disk[t := FromWords(all[12..])];
    }

    /** file_write, the old size already in the indirect table (file.c:414-441). */
    method CollectIndirect(inode: Inode, has: nat, will: nat)
        returns (halted: bool, all: seq<nat>, ghost news: seq<nat>)
      requires blockBitmap.Valid() && AreaFits(g, disk, blockBitmap.View())
      requires 12 < has < will <= 140 && Filled(disk, inode.Snapshot(), has)
      modifies this`disk, blockBitmap.bits
      ensures halted ==> FreeCount(old(blockBitmap.View())) < will - has
      ensures !halted ==> |news| == will - has && NewBlocks(g, old(blockBitmap.View()), blockBitmap.View(), news)
      ensures !halted ==> HungOn(old(disk), inode.Snapshot(), has, news, [], disk, inode.Snapshot())
      ensures !halted ==> Collected(disk, inode.Snapshot(), all, has - 1, will)
      ensures !halted ==> WroteTable(old(disk), disk, inode.iSectors[TABLE])
    {
      hide NewBlocks, Filled, Hung, Block, FromWords, Bitmap.View;
      ghost var bits, n := blockBitmap.View(), inode.Snapshot();
      FilledShape(disk, n, has);
      assert inode.iSectors[12] != 0;
      var t := inode.iSectors[12];
      all := Zeros(12) + Words(disk[t]);
      ghost var all0 := all;
      news, halted := [], false;
      NoNewBlocks(g, bits);
      var idx := has;
      while idx < will
        invariant has <= idx <= will && |news| == idx - has && !halted
        invariant disk == old(disk) && NewBlocks(g, bits, blockBitmap.View(), news)
        invariant |all| == 140 && all == WithNews(all0, has, news)
        invariant forall k :: 0 <= k < |news| ==> news[k] < U32
      {
        var lba;
        halted, lba := AllocNext(bits, news);
        if halted { return; }
        WithNewsStep(all0, has, news, lba);
        all := all[idx := lba];
        news := news + [lba];
        idx := idx + 1;
      }
      IndirectCollected(disk, n, has, news);
      disk := disk[t := FromWords(all[12..])];
    }

    /** file_write, all new data in the block the file ends in (file.c:314-330). */
    method CollectSame(inode: Inode, has: nat) returns (all: seq<nat>)
      requires 1 <= has <= 140 && Filled(disk, inode.Snapshot(), has)
      ensures Collected(disk, inode.Snapshot(), all, has - 1, has)
    {
      ghost var n := inode.Snapshot();
      if has <= 12 {
        var idx := has - 1;
        all := Zeros(140)[idx := inode.iSectors[idx]];
        assert Block(disk, n, idx) == n.sectors[idx];
      } else {
        assert inode.iSectors[12] != 0;
        all := Zeros(12) + Words(disk[inode.iSectors[12]]);
        assert Block(disk, n, has - 1) == WordAt(disk[n.sectors[12]], has - 13);
      }
    }

    /** file_write, the first block of a file never written (file.c:287-301). */
    method FirstBlock(inode: Inode) returns (halted: bool, ghost news: seq<nat>)
      requires blockBitmap.Valid() && 1 <= g.lo && AtRest(disk, inode.Snapshot())
      requires |blockBitmap.View()| > 0 && blockBitmap.View()[0]
      modifies blockBitmap.bits, inode
      ensures inode.iSize == old(inode.iSize)
      ensures halted <==> old(inode.iSectors[0]) == 0 && FreeCount(old(blockBitmap.View())) == 0
      ensures !halted ==> NewBlocks(g, old(blockBitmap.View()), blockBitmap.View(), news)
      ensures !halted ==> |news| == if old(inode.iSectors[0]) == 0 then 1 else 0
      ensures !halted ==> HungOn(disk, old(inode.Snapshot()), RestCap(old(inode.Snapshot())), news, [], disk, inode.Snapshot())
    {
      ghost var bits, n := blockBitmap.View(), inode.Snapshot();
      NoNewBlocks(g, bits);
      news, halted := [], false;
      if inode.iSectors[0] == 0 {
        var lba;
        halted, lba := AllocNext(bits, []);
        if halted { return; }
        NotFirst(g, bits, blockBitmap.View(), lba);
        assert lba - g.lo != 0;
        inode.iSectors := inode.iSectors[0 := lba];
        news := [] + [lba];
        FirstHung(disk, n, lba);
      } else {
        NothingHung(disk, n, RestCap(n));
      }
    }

    lemma NotFirst(g: Area, bits: seq<bool>, bits': seq<bool>, lba: nat)
      requires NewBlocks(g, bits, bits', [] + [lba]) && |bits| > 0 && bits[0]
      ensures lba != g.lo
    {
      assert ([] + [lba])[0] == lba;
    }

    /** file_write, the collection of block addresses, by case. */
    method Collect(inode: Inode, has: nat, will: nat)
        returns (halted: bool, all: seq<nat>, ghost news: seq<nat>, ghost tbl: seq<nat>)
      requires blockBitmap.Valid() && AreaFits(g, disk, blockBitmap.View())
      requires 1 <= has <= will <= 140 && Filled(disk, inode.Snapshot(), has)
      modifies this`disk, blockBitmap.bits, inode
      ensures inode.iSize == old(inode.iSize)
      ensures halted ==> FreeCount(old(blockBitmap.View())) < will - has + (if has <= 12 < will then 1 else 0)
      ensures !halted ==> NewBlocks(g, old(blockBitmap.View()), blockBitmap.View(), tbl + news)
      ensures !halted ==> |news| == will - has && |tbl| == (if has <= 12 < will then 1 else 0)
      ensures !halted ==> HungOn(old(disk), old(inode.Snapshot()), has, news, tbl, disk, inode.Snapshot())
      ensures !halted ==> Collected(disk, inode.Snapshot(), all, has - 1, will)
      ensures !halted ==> TableStep(g, old(disk), old(blockBitmap.View()), old(inode.Snapshot()), disk, inode.Snapshot())
    {
      hide NewBlocks, Filled, Hung, Block, Collected, FreeCount, Bitmap.View;
      ghost var d, bits, n := disk, blockBitmap.View(), inode.Snapshot();
      FilledShape(disk, n, has);
      halted, news, tbl, all := false, [], [], [];
      if will - has == 0 {
        NoNewBlocks(g, bits);
        NothingHung(disk, n, has);
        all := CollectSame(inode, has);
      } else if will <= 12 {
        halted, all, news := CollectDirect(inode, has, will);
      } else if has <= 12 {
        var t;
        halted, all, news, t := CollectCrossing(inode, has, will);
        tbl := [t];
        if !halted { NewTable(g, bits, blockBitmap.View(), t, news, d, n, has, disk, inode.Snapshot()); }
      } else {
        halted, all, news := CollectIndirect(inode, has, will);
      }
      assert [] + news == news;
    }

    /** file_write up to the data: the blocks the new size needs are allocated and their addresses
        collected (file.c:286-442). */
    method PrepareBlocks(inode: Inode, count: nat, ghost m: map<nat, Node>, ghost i: nat)
        returns (halted: bool, all: seq<nat>)
      requires blockBitmap.Valid() && Owned(g, disk, blockBitmap.View(), m)
      requires i in m && m[i] == inode.Snapshot() && AtRest(disk, m[i]) && m[i].size + count <= MAX_SIZE
      requires 0 in m && |m[0].sectors| == 13 && m[0].sectors[0] == g.lo && tableLba + InodeTable.TABLE_SECTORS <= g.lo
      modifies this`disk, blockBitmap.bits, inode
      ensures inode.iSize == old(inode.iSize)
      ensures halted <==> m[i].size + count == MAX_SIZE || FreeCount(old(blockBitmap.View())) < BlocksNeeded(m[i], count)
      ensures !halted ==> Owned(g, disk, blockBitmap.View(), m[i := inode.Snapshot()])
      ensures !halted ==> Filled(disk, inode.Snapshot(), (m[i].size + count) / 512 + 1)
      ensures !halted ==> Collected(disk, inode.Snapshot(), all, m[i].size / 512, (m[i].size + count) / 512 + 1)
      ensures !halted ==> Content(disk, inode.Snapshot()) == Content(old(disk), m[i])
      ensures !halted ==> OthersSame(old(disk), disk, m, i) && Table() == old(Table())
    {
      hide Below, InodeTable.TableOf, NewBlocks, Filled, Hung, HungOn, Block, Owned, Collected, FreeCount, Bitmap.View, AtRest, Content, TableStep,
        OthersSame, BlocksNeeded;
      ghost var d, bits, n := disk, blockBitmap.View(), inode.Snapshot();
      OwnedBasics(g, d, bits, m);
      FirstBitSet(g, d, bits, m);
      AtRestShape(d, n);
      ghost var first, news, tbl;
      all := [];
      halted, first := FirstBlock(inode);
      if halted {
        NeedsFirst(n, count);
        return;
      }
      ghost var bits1, n1 := blockBitmap.View(), inode.Snapshot();
      NewBlocksCount(g, bits, bits1, first);
      assert [] + first == first;
      SameTable(g, d, bits, n, RestCap(n), first, n1);
      GrowFile(g, d, bits, m, i, RestCap(n), first, [], d, bits1, n1);
      OwnedBasics(g, d, bits1, m[i := n1]);
      var has := inode.iSize / 512 + 1;
      var will := (inode.iSize + count) / 512 + 1;
      if !(will <= 140) {
        halted := true;
        return;
      }
      halted, all, news, tbl := Collect(inode, has, will);
      NeedsMore(n, count);
      if halted { return; }
      NewBlocksCount(g, bits1, blockBitmap.View(), tbl + news);
      GrowFile(g, d, bits1, m[i := n1], i, has, news, tbl, disk, blockBitmap.View(), inode.Snapshot());
      assert m[i := n1][i := inode.Snapshot()] == m[i := inode.Snapshot()];
      SameOthers(d, disk, m[i := n1], m, i);
      StepAbove(g, d, bits1, n1, disk, blockBitmap.View(), m[i := inode.Snapshot()], i);
      TableBelow(g.lo, d, disk, tableLba);
    }

    /** One turn of the data loop of file_write (file.c:449-469): src goes to the end of the file,
        within the block the file ends in. Only the first turn reads the sector back. */
    method WriteChunk(file: File, all: seq<nat>, src: seq<Byte>, first: bool,
                      ghost m: map<nat, Node>, ghost i: nat, ghost cap: nat, ghost lo: nat)
      requires blockBitmap.Valid() && i in m && m[i] == file.fdInode.Snapshot()
      requires WriteState(g, disk, blockBitmap.View(), m, i, cap, all, lo)
      requires lo <= m[i].size / 512 < cap && m[i].size + |src| <= MAX_SIZE
      requires |src| > 0 && m[i].size % 512 + |src| <= 512 && (first || m[i].size % 512 == 0)
      requires file.fdPos == PosAtEnd(m[i].size)
      modifies this`disk, file, file.fdInode
      ensures file.fdInode.iSectors == m[i].sectors && file.fdInode.iSize == m[i].size + |src|
      ensures file.fdPos == PosAtEnd(m[i].size + |src|)
      ensures WriteState(g, disk, blockBitmap.View(), m[i := file.fdInode.Snapshot()], i, cap, all, lo)
      ensures NodeOk(disk, file.fdInode.Snapshot()) && NodeOk(old(disk), m[i])
      ensures Content(disk, file.fdInode.Snapshot()) == Content(old(disk), m[i]) + src
      ensures OthersSame(old(disk), disk, m, i) && Below(g.lo, old(disk), disk)
    {
      hide WriteState, Bitmap.View, Content, OthersSame, Splice, Below;
      var inode := file.fdInode;
      WriteStateBasics(g, disk, blockBitmap.View(), m, i, cap, all, lo);
      var ioBuf: Sector := seq(512, _ => 0);
      var secIdx := inode.iSize / 512;
      var secLba := all[secIdx];
      var secOff := inode.iSize % 512;
      if first {
        ioBuf := disk[secLba];
      }
      WriteStep(g, disk, blockBitmap.View(), m, i, cap, all, lo, ioBuf, src);
      WriteAbove(g, disk, blockBitmap.View(), m, i, cap, all, lo, secIdx);
      PosAdvances(inode.iSize, |src|);
      ioBuf := Splice(ioBuf, secOff, src);
      BelowWrite(g.lo, disk, secLba, ioBuf);
      disk := disk[secLba := ioBuf];
      inode.iSize := inode.iSize + |src|;
      file.fdPos := (file.fdPos + |src|) % U32;
    }

    /** The data loop of file_write (file.c:444-470). */
    method WriteData(file: File, all: seq<nat>, buf: seq<Byte>, ghost m: map<nat, Node>, ghost i: nat, ghost cap: nat)
      requires blockBitmap.Valid() && i in m && m[i] == file.fdInode.Snapshot()
      requires m[i].size + |buf| < MAX_SIZE && (m[i].size + |buf|) / 512 + 1 == cap
      requires WriteState(g, disk, blockBitmap.View(), m, i, cap, all, m[i].size / 512)
      requires tableLba + InodeTable.TABLE_SECTORS <= g.lo
      modifies this`disk, file, file.fdInode
      ensures file.fdInode.iSectors == m[i].sectors && file.fdInode.iSize == m[i].size + |buf|
      ensures file.fdPos == PosAtEnd(m[i].size + |buf|)
      ensures WriteState(g, disk, blockBitmap.View(), m[i := file.fdInode.Snapshot()], i, cap, all, m[i].size / 512)
      ensures NodeOk(disk, file.fdInode.Snapshot()) && NodeOk(old(disk), m[i])
      ensures Content(disk, file.fdInode.Snapshot()) == Content(old(disk), m[i]) + buf
      ensures OthersSame(old(disk), disk, m, i) && Table() == old(Table())
    {
      hide WriteState, Bitmap.View, Content, OthersSame, Below, InodeTable.TableOf;
      ghost var d0 := disk;
      var inode := file.fdInode;
      var written, left, first := 0, |buf|, true;
      WriteStateBasics(g, disk, blockBitmap.View(), m, i, cap, all, m[i].size / 512);
      file.fdPos := (inode.iSize + (U32 - 1)) % U32;
      assert m[i := inode.Snapshot()] == m;
      NoneChanged(disk, m, i);
      while written < |buf|
        invariant written <= |buf| && left == |buf| - written
        invariant inode == file.fdInode && inode.iSize == m[i].size + written && inode.iSectors == m[i].sectors
        invariant first || inode.iSize % 512 == 0 || written == |buf|
        invariant file.fdPos == PosAtEnd(inode.iSize)
        invariant WriteState(g, disk, blockBitmap.View(), m[i := inode.Snapshot()], i, cap, all, m[i].size / 512)
        invariant NodeOk(disk, inode.Snapshot())
        invariant Content(disk, inode.Snapshot()) == Content(d0, m[i]) + buf[..written]
        invariant OthersSame(d0, disk, m, i) && Table() == old(Table())
      {
        ghost var d, n, c := disk, inode.Snapshot(), Content(disk, inode.Snapshot());
        var secLeft := 512 - inode.iSize % 512;
        var chunk := if left < secLeft then left else secLeft;
        WriteChunk(file, all, buf[written..written + chunk], first, m[i := n], i, cap, m[i].size / 512);
        first := false;
        AppendSlices(Content(d0, m[i]), buf, written, chunk);
        written := written + chunk;
        left := left - chunk;
        assert m[i := n][i := inode.Snapshot()] == m[i := inode.Snapshot()];
        SameOthers(d, disk, m[i := n], m, i);
        OthersSameTransitive(d0, d, disk, m, i);
        TableBelow(g.lo, d, disk, tableLba);
      }
    }

    /** inode_sync of an inode in memory. */
    method SyncInode(inode: Inode, ghost m: map<nat, Node>, ghost i: nat)
      requires blockBitmap.Valid() && Owned(g, disk, blockBitmap.View(), m) && i in m && m[i] == inode.Snapshot()
      requires 1 <= tableLba && tableLba + InodeTable.TABLE_SECTORS <= g.lo && inode.iNo < InodeTable.INODES
      modifies this`disk
      ensures Owned(g, disk, blockBitmap.View(), m)
      ensures forall j :: j in m ==> SameOnBoth(old(disk), disk, m[j])
      ensures tableLba + InodeTable.TABLE_SECTORS <= |disk|
      ensures InodeTable.LoadsAs(disk, tableLba, inode.iNo % 256, RecordOf(inode.iNo, m[i]))
      ensures Table() == TableSynced(old(Table()), inode.iNo, m[i])
    {
      hide Owned, SameOnBoth, Bitmap.View, InodeTable.PureBytes, InodeTable.LoadsAs, InodeTable.TableOf, InodeTable.Parse;
      ghost var d, bits := disk, blockBitmap.View();
      OwnedBasics(g, d, bits, m);
      OwnedStorable(g, d, bits, m, i);
      var rec := RecordOf(inode.iNo, inode.Snapshot());
      var d' := InodeTable.InodeSync(disk, tableLba, rec);
      InodeTable.SyncThenLoad(disk, tableLba, rec, d');
      InodeTable.StoredFields(rec);
      InodeTable.SlotRecord(disk, tableLba, inode.iNo % 256, InodeTable.PureBytes(rec), d');
      TableWriteKeeps(g, d, bits, m, tableLba, d');
      disk := d';
    }

    /** file_write past the size check: blocks, data, inode. */
    method Append(file: File, buf: seq<Byte>) returns (halted: bool)
      requires Valid() && file.fdInode.iNo in files && inodes[file.fdInode.iNo] == file.fdInode
      requires file.fdInode.iSize + |buf| <= MAX_SIZE
      modifies this`disk, blockBitmap.bits, file, file.fdInode
      ensures halted <==> (old(file.fdInode.iSize) + |buf| == MAX_SIZE
        || FreeCount(old(blockBitmap.View())) < BlocksNeeded(old(file.fdInode.Snapshot()), |buf|))
      ensures !halted ==> Valid() && file.fdPos == PosAtEnd(old(file.fdInode.iSize) + |buf|)
      ensures !halted ==>
        Contents() == old(Contents())[file.fdInode.iNo := old(Contents())[file.fdInode.iNo] + buf]
      ensures !halted ==> OthersSame(old(disk), disk, old(Nodes()), file.fdInode.iNo)
      ensures !halted ==> (tableLba + InodeTable.TABLE_SECTORS <= |disk|
        && InodeTable.LoadsAs(disk, tableLba, file.fdInode.iNo % 256,
                              RecordOf(file.fdInode.iNo, file.fdInode.Snapshot())))
      ensures !halted ==> Nodes() == old(Nodes())[file.fdInode.iNo := file.fdInode.Snapshot()]
      ensures !halted ==> Table() == TableSynced(old(Table()), file.fdInode.iNo, file.fdInode.Snapshot())
    {
      hide Consistent, Below, InodeTable.TableOf, TableSynced, Owned, AtRest, Filled, Content, Collected, OthersSame, SameOnBoth, FreeCount, BlocksNeeded, Bitmap.View,
        InodeTable.LoadsAs, FilesOf, WriteState;
      ghost var d0, m0, bits0 := disk, Nodes(), blockBitmap.View();
      var inode := file.fdInode;
      ghost var i := inode.iNo;
      OwnedPart(g, d0, bits0, m0, files);
      AtRestShape(disk, m0[i]);
      var all;
      halted, all := PrepareBlocks(inode, |buf|, m0, i);
      if halted { return; }
      ghost var d1, m1, cap := disk, m0[i := inode.Snapshot()], (inode.iSize + |buf|) / 512 + 1;
      StartWriting(g, d1, blockBitmap.View(), m1, i, cap, all, inode.iSize / 512);
      WriteData(file, all, buf, m1, i, cap);
      ghost var d2, m2 := disk, m1[i := inode.Snapshot()];
      assert m2 == m0[i := inode.Snapshot()];
      WriteStateParts(g, d2, blockBitmap.View(), m2, i, cap, all, m1[i].size / 512);
      SameOthers(d1, d2, m1, m0, i);
      SyncInode(inode, m2, i);
      FinishWrite(g, blockBitmap.View(), m0, m2, files, i, cap, buf, d0, d1, d2, disk);
      NodesAre(m2);
    }

    lemma NodesAre(m: map<nat, Node>)
      requires m.Keys == inodes.Keys && forall j :: j in inodes ==> m[j] == inodes[j].Snapshot()
      ensures Nodes() == m
    {
    }

    /** file_write. It refuses a size above 71680 bytes, and stops the machine when the size would
        reach exactly 71680 or when the blocks it needs are not free; otherwise the file grows by
        exactly buf, no other file changes, and the inode is stored. */
    method FileWrite(file: File, buf: seq<Byte>) returns (r: Outcome)
      requires Valid() && file.fdInode.iNo in files && inodes[file.fdInode.iNo] == file.fdInode
      requires |buf| < 0xC000_0000
      modifies this`disk, blockBitmap.bits, file, file.fdInode
      ensures old(file.fdInode.iSize) + |buf| > MAX_SIZE ==>
        (r == Returned(-1) && Valid() && Contents() == old(Contents()) && file.fdPos == old(file.fdPos))
      ensures old(file.fdInode.iSize) + |buf| <= MAX_SIZE ==>
        (r == Halted <==> (old(file.fdInode.iSize) + |buf| == MAX_SIZE
          || FreeCount(old(blockBitmap.View())) < BlocksNeeded(old(file.fdInode.Snapshot()), |buf|)))
      ensures old(file.fdInode.iSize) + |buf| <= MAX_SIZE && r != Halted ==>
        (r == Returned(|buf|) && Valid() && file.fdPos == PosAtEnd(old(file.fdInode.iSize) + |buf|)
          && Contents() == old(Contents())[file.fdInode.iNo := old(Contents())[file.fdInode.iNo] + buf]
          && OthersSame(old(disk), disk, old(Nodes()), file.fdInode.iNo)
          && tableLba + InodeTable.TABLE_SECTORS <= |disk|
          && InodeTable.LoadsAs(disk, tableLba, file.fdInode.iNo % 256,
                                RecordOf(file.fdInode.iNo, file.fdInode.Snapshot())))
      ensures old(file.fdInode.iSize) + |buf| > MAX_SIZE ==> disk == old(disk) && Nodes() == old(Nodes())
      ensures old(file.fdInode.iSize) + |buf| <= MAX_SIZE && r != Halted && old(Stored()) ==>
        (Stored() <==> file.fdInode.iNo < 256)
    {
      hide InodeTable.TableOf, TableSynced, OnDisk, Owned, Filled, Content, FreeCount, BlocksNeeded, Bitmap.View, InodeTable.LoadsAs, FilesOf, OthersSame;
      AtRestShape(disk, Nodes()[file.fdInode.iNo]);
      if (file.fdInode.iSize + |buf|) % U32 > 512 * 140 {
        return Returned(-1);
      }
      ghost var tb, m := Table(), Nodes();
      var halted := Append(file, buf);
      r := if halted then Halted else Returned(|buf|);
      if OnDisk(tb, m) {
        SyncKeeps(tb, m, file.fdInode.iNo, file.fdInode.Snapshot());
      }
    }

    /** file_read, the addresses of blocks first..last (file.c:505-568). */
    method ReadBlocks(inode: Inode, first: nat, last: nat) returns (all: seq<nat>)
      requires AtRest(disk, inode.Snapshot()) && first <= last < 139 && last * 512 <= inode.iSize
      ensures Collected(disk, inode.Snapshot(), all, first, last + 1)
    {
      ghost var n := inode.Snapshot();
      AtRestTable(disk, n, last);
      hide AtRest, Filled, Block;
      all := Zeros(140);
      if first == last {
        if last < 12 {
          all := all[last := inode.iSectors[last]];
        } else {
          all := Zeros(12) + Words(disk[inode.iSectors[12]]);
        }
      } else if last < 12 {
        all := ReadDirect(inode, all, first, last + 1);
      } else if first < 12 {
        all := ReadDirect(inode, all, first, 12);
        assert inode.iSectors[12] != 0;
        all := all[..12] + Words(disk[inode.iSectors[12]]);
      } else {
        assert inode.iSectors[12] != 0;
        all := Zeros(12) + Words(disk[inode.iSectors[12]]);
      }
      BlocksRead(disk, n, all, first, last + 1);
    }

    method ReadDirect(inode: Inode, all: seq<nat>, lo: nat, hi: nat) returns (r: seq<nat>)
      requires |inode.iSectors| == 13 && |all| == 140 && lo <= hi <= 12
      ensures |r| == 140 && forall k :: lo <= k < hi ==> r[k] == inode.iSectors[k]
    {
      r := all;
      var k := lo;
      while k < hi
        invariant lo <= k <= hi && |r| == 140
        invariant forall j :: lo <= j < k ==> r[j] == inode.iSectors[j]
      {
        r := r[k := inode.iSectors[k]];
        k := k + 1;
      }
    }

    /** The data loop of file_read (file.c:571-589). */
    method ReadData(file: File, all: seq<nat>, size: nat) returns (out: seq<Byte>)
      requires var n := file.fdInode.Snapshot();
        NodeOk(disk, n) && file.fdPos + size <= n.size < MAX_SIZE
        && Collected(disk, n, all, file.fdPos / 512, (file.fdPos + size) / 512 + 1)
        && (forall k :: 0 <= k < BLOCKS ==> Block(disk, n, k) < |disk|)
      modifies file
      ensures file.fdPos == old(file.fdPos) + size
      ensures out == Content(disk, file.fdInode.Snapshot())[old(file.fdPos)..old(file.fdPos) + size]
    {
      hide Block, Content;
      ghost var n, p0 := file.fdInode.Snapshot(), file.fdPos;
      ghost var c := Content(disk, n);
      var done, left := 0, size;
      out := [];
      while done < size
        invariant done <= size && left == size - done && file.fdPos == p0 + done
        invariant out == c[p0..p0 + done]
      {
        var secIdx := file.fdPos / 512;
        var secLba := all[secIdx];
        var secOff := file.fdPos % 512;
        var secLeft := 512 - secOff;
        var chunk := if left < secLeft then left else secLeft;
        var ioBuf: Bytes := disk[secLba];
        ReadChunk(disk, n, file.fdPos, chunk);
        out := out + ioBuf[secOff..secOff + chunk];
        assert c[p0..p0 + done] + c[p0 + done..p0 + done + chunk] == c[p0..p0 + done + chunk];
        file.fdPos := file.fdPos + chunk;
        done := done + chunk;
        left := left - chunk;
      }
    }

    /** file_read, how much to read and from which blocks (file.c:482-508), in uint32_t arithmetic. */
    method ReadRange(pos: nat, count: nat, iSize: nat) returns (atEnd: bool, size: nat, first: nat, last: nat)
      requires iSize < MAX_SIZE && count < 0xC000_0000 && (pos <= iSize || pos == U32 - 1)
      ensures pos == U32 - 1 ==> !atEnd && first >= 139
      ensures pos <= iSize ==> (atEnd <==> pos == iSize && count > 0)
      ensures pos <= iSize && !atEnd ==> size == if pos + count > iSize then iSize - pos else count
      ensures pos <= iSize && !atEnd ==> first == pos / 512 && last == (pos + size) / 512
    {
      atEnd, size, first, last := false, count, 0, 0;
      if (pos + count) % U32 > iSize {
        size := (iSize - pos) % U32;
        if size == 0 {
          atEnd := true;
          return;
        }
      }
      first := pos / 512;
      last := (pos + size) % U32 / 512;
    }

    /** file_read, for an inode at rest. */
    method ReadAt(file: File, count: nat) returns (r: Outcome, out: seq<Byte>)
      requires var n := file.fdInode.Snapshot();
        AtRest(disk, n) && forall k :: 0 <= k < BLOCKS ==> Block(disk, n, k) < |disk|
      requires count < 0xC000_0000
      requires file.fdPos <= file.fdInode.iSize || file.fdPos == U32 - 1
      modifies file
      ensures ReadResult(Content(disk, file.fdInode.Snapshot()), old(file.fdPos), count, r, out, file.fdPos)
    {
      hide Filled, Block, Content, Collected;
      AtRestShape(disk, file.fdInode.Snapshot());
      out := [];
      var atEnd, size, first, last := ReadRange(file.fdPos, count, file.fdInode.iSize);
      if atEnd {
        return Returned(-1), [];
      }
      if !(first < 139 && last < 139) {
        return Halted, [];
      }
      var all := ReadBlocks(file.fdInode, first, last);
      out := ReadData(file, all, size);
      r := Returned(size);
    }

    /** file_read. It changes nothing but the position. */
    method FileRead(file: File, count: nat) returns (r: Outcome, out: seq<Byte>)
      requires Valid() && file.fdInode.iNo in files && inodes[file.fdInode.iNo] == file.fdInode
      requires count < 0xC000_0000
      requires file.fdPos <= file.fdInode.iSize || file.fdPos == U32 - 1
      modifies file
      ensures Valid() && Contents() == old(Contents())
      ensures ReadResult(Contents()[file.fdInode.iNo], old(file.fdPos), count, r, out, file.fdPos)
    {
      hide Owned, AtRest, Content, Bitmap.View, ReadResult;
      BlocksOnDisk(g, disk, blockBitmap.View(), Nodes(), file.fdInode.iNo);
      r, out := ReadAt(file, count);
    }

    /** inode_bitmap_alloc: the least number not in use. */
    method TakeNumber() returns (halted: bool, no: nat)
      requires inodeBitmap.Valid() && |inodeBitmap.View()| == InodeTable.INODES
      requires forall i :: 0 <= i < |inodeBitmap.View()| ==> (inodeBitmap.View()[i] <==> i in inodes)
      modifies inodeBitmap.bits
      ensures halted <==> forall i :: 0 <= i < InodeTable.INODES ==> i in inodes
      ensures !halted ==> no < InodeTable.INODES && no !in inodes && forall j :: 0 <= j < no ==> j in inodes
      ensures !halted ==> inodeBitmap.View() == old(inodeBitmap.View())[no := true]
    {
      hide Bitmap.View, Full, FirstFit, FreeRun;
      var b;
      halted, b := inodeBitmap.Scan(1);
      no := 0;
      FullView(inodeBitmap.View(), inodes);
      if halted { return; }
      LeastFree(inodeBitmap.View(), b);
      no := b;
      inodeBitmap.Set(no, true);
    }

    /** inode_bitmap_alloc and inode_init, as file_create and sys_mkdir use them: a new inode with
        an unused number, holding nothing. It counts as a regular file when the caller says so. */
    method InodeCreate(ghost regular: bool) returns (halted: bool, inode: Inode?)
      requires Valid()
      modifies this`inodes, this`files, inodeBitmap.bits
      ensures halted <==> forall i :: 0 <= i < InodeTable.INODES ==> i in old(inodes)
      ensures !halted ==> inode != null && fresh(inode)
      ensures !halted ==> inode.iNo !in old(inodes) && inodes == old(inodes)[inode.iNo := inode]
      ensures !halted ==> forall j :: 0 <= j < inode.iNo ==> j in old(inodes)
      ensures !halted ==> inode.Snapshot() == Node(0, Zeros(13))
      ensures !halted ==> files == old(files) + if regular then {inode.iNo} else {}
      ensures !halted ==> Valid()
      ensures !halted ==> Contents() == if regular then old(Contents())[inode.iNo := []] else old(Contents())
    {
      hide Consistent, Content, Bitmap.View, FilesOf, Zeros, InodeTable.TableOf, OnDisk;
      ghost var m0 := Nodes();
      var no;
      halted, no := TakeNumber();
      inode := null;
      if halted { return; }
      inode := new Inode(no);
      FileAdded(g, disk, blockBitmap.View(), m0, files, no, regular);
      inodes := inodes[no := inode];
      files := files + if regular then {no} else {};
      NodesAre(m0[no := Node(0, Zeros(13))]);
    }

    /** The freeing loop of inode_release: the bits of the blocks named in all are cleared. */
    method FreeBlocks(all: seq<nat>)
      requires blockBitmap.Valid() && 1 <= g.lo
      requires forall k :: 0 <= k < |all| && all[k] != 0 ==> g.lo < all[k] < g.lo + |blockBitmap.View()|
      modifies blockBitmap.bits
      ensures Freed(g, old(blockBitmap.View()), all, blockBitmap.View())
    {
      hide Bitmap.View;
      ghost var bits := blockBitmap.View();
      assert all[..0] == [];
      var k := 0;
      while k < |all|
        invariant k <= |all| && Freed(g, bits, all[..k], blockBitmap.View())
      {
        ghost var before := blockBitmap.View();
        if all[k] != 0 {
          var b := all[k] - g.lo;
          assert b > 0;
          blockBitmap.Set(b, false);
        }
        FreedStep(g, bits, all, k, before, blockBitmap.View());
        k := k + 1;
      }
      assert all[..|all|] == all;
    }

    /** inode_release, the blocks: first the indirect table, then what the slots name. */
    method ReleaseBlocks(inode: Inode, ghost m: map<nat, Node>, ghost i: nat)
      requires blockBitmap.Valid() && Owned(g, disk, blockBitmap.View(), m) && i in m && m[i] == inode.Snapshot()
      requires forall s :: 0 <= s < SLOTS && NodeOk(disk, m[i]) ==> Slot(disk, m[i], s) != g.lo
      modifies blockBitmap.bits
      ensures NodeOk(disk, m[i])
      ensures Released(g, disk, m[i], old(blockBitmap.View()), blockBitmap.View())
    {
      hide Owned, Bitmap.View, Slot, Released, Freed, Lists;
      ghost var d, bits := disk, blockBitmap.View();
      OwnedBasics(g, d, bits, m);
      assert NodeOk(d, m[i]);
      var all := inode.iSectors[..12];
      var tbl := [];
      if inode.iSectors[12] != 0 {
        all := all + Words(disk[inode.iSectors[12]]);
        tbl := [inode.iSectors[12]];
      }
      ListsSlots(g, d, bits, m, i, tbl, all);
      FreeBlocks(tbl);
      ghost var bits1 := blockBitmap.View();
      FreedLength(g, bits, tbl, bits1);
      FreeBlocks(all);
      BothFreed(g, d, bits, m, i, tbl, all, bits1, blockBitmap.View());
    }

    /** inode_delete of a slot. */
    method ClearSlot(no: nat, ghost bits: seq<bool>, ghost m: map<nat, Node>)
      requires Owned(g, disk, bits, m) && 1 <= tableLba && tableLba + InodeTable.TABLE_SECTORS <= g.lo && no < InodeTable.INODES
      modifies this`disk
      ensures Owned(g, disk, bits, m) && |disk| == |old(disk)|
      ensures forall j :: j in m ==> SameOnBoth(old(disk), disk, m[j])
      ensures Table() == TableCleared(old(Table()), no)
    {
      hide Owned, SameOnBoth, InodeTable.TableOf, InodeTable.Parse;
      ghost var d := disk;
      OwnedBasics(g, d, bits, m);
      disk := InodeTable.InodeDelete(disk, tableLba, no);
      InodeTable.ZerosParse();
      InodeTable.SlotRecord(d, tableLba, no, seq(InodeTable.INODE_SIZE, _ => 0), disk);
      TableWriteKeeps(g, d, bits, m, tableLba, disk);
    }

    /** inode_release on the disk: the blocks, the number and the slot. */
    method GiveBack(no: nat)
      requires Valid() && no in inodes && no != 0
      modifies this`disk, blockBitmap.bits, inodeBitmap.bits
      ensures var m := old(Nodes());
        && Consistent(g, disk, blockBitmap.View(), m - {no}, files - {no})
        && (forall j :: j in files ==> j in m && NodeOk(old(disk), m[j]) && (j != no ==> NodeOk(disk, m[j])))
        && FilesOf(disk, m - {no}, files - {no}) == FilesOf(old(disk), m, files) - {no}
      ensures inodeBitmap.View() == old(inodeBitmap.View())[no := false]
      ensures NodeOk(old(disk), old(Nodes()[no]))
      ensures Released(g, old(disk), old(Nodes()[no]), old(blockBitmap.View()), blockBitmap.View())
      ensures forall j :: j in old(Nodes()) ==> SameOnBoth(old(disk), disk, old(Nodes())[j])
      ensures Table() == TableCleared(old(Table()), no)
    {
      hide Consistent, Owned, SameOnBoth, Bitmap.View, Slot, Released, FilesOf, InodeTable.TableOf, OnDisk, TableCleared;
      ghost var d, bits, m := disk, blockBitmap.View(), Nodes();
      OwnedPart(g, d, bits, m, files);
      OwnedBasics(g, d, bits, m);
      OtherPlaces(g, d, bits, m, no);
      ReleaseBlocks(inodes[no], m, no);
      inodeBitmap.Set(no, false);
      ClearSlot(no, bits, m);
      ReleaseOwned(g, d, bits, m, no, disk, blockBitmap.View());
      StillConsistent(g, d, bits, disk, blockBitmap.View(), m, files, no);
      OwnedPart(g, disk, blockBitmap.View(), m - {no}, files - {no});
    }

    /** inode_release of an inode other than the root: exactly the blocks it owned, and its number,
        become free, and its slot is cleared. */
    method InodeRelease(no: nat)
      requires Valid() && no in inodes && no != 0
      modifies this`disk, this`inodes, this`files, blockBitmap.bits, inodeBitmap.bits
      ensures Valid() && inodes == old(inodes) - {no} && files == old(files) - {no}
      ensures Contents() == old(Contents()) - {no}
      ensures NodeOk(old(disk), old(Nodes()[no]))
      ensures Released(g, old(disk), old(Nodes()[no]), old(blockBitmap.View()), blockBitmap.View())
      ensures forall j :: j in old(Nodes()) ==> SameOnBoth(old(disk), disk, old(Nodes())[j])
      ensures Nodes() == old(Nodes()) - {no} && Table() == TableCleared(old(Table()), no)
      ensures old(Stored()) ==> Stored()
    {
      hide Consistent, SameOnBoth, Bitmap.View, Released, FilesOf, InodeTable.TableOf, OnDisk, TableCleared;
      ghost var m, tb := Nodes(), Table();
      GiveBack(no);
      inodes := inodes - {no};
      files := files - {no};
      NodesAre(m - {no});
      if OnDisk(tb, m) {
        DeleteKeeps(tb, m, no);
      }
    }
  }

  lemma OwnedPart(g: Area, d: Disk, bits: seq<bool>, m: map<nat, Node>, files: set<nat>)
    requires Consistent(g, d, bits, m, files)
    ensures Owned(g, d, bits, m) && forall j :: j in files ==> j in m && NodeOk(d, m[j]) && AtRest(d, m[j])
  {
    hide Owned, Filled;
  }

  /** The first block of the data area is taken, by the root directory and nobody else. */
  lemma FirstBitSet(g: Area, d: Disk, bits: seq<bool>, m: map<nat, Node>)
    requires Owned(g, d, bits, m) && 0 in m && |m[0].sectors| == 13 && m[0].sectors[0] == g.lo
    ensures |bits| > 0 && bits[0]
  {
    assert Holds(d, m, 0, 0, g.lo);
  }

  lemma OtherPlaces(g: Area, d: Disk, bits: seq<bool>, m: map<nat, Node>, no: nat)
    requires Owned(g, d, bits, m) && 0 in m && |m[0].sectors| == 13 && m[0].sectors[0] == g.lo && no in m && no != 0
    ensures NodeOk(d, m[no]) && forall s :: 0 <= s < SLOTS ==> Slot(d, m[no], s) != g.lo
  {
    assert Holds(d, m, 0, 0, g.lo);
    forall s | 0 <= s < SLOTS ensures Slot(d, m[no], s) != g.lo {
      assert Holds(d, m, no, s, Slot(d, m[no], s));
    }
  }

  /** Growing a file writes nothing below the data area. */
  lemma StepAbove(g: Area, d: Disk, bits: seq<bool>, n: Node, d': Disk, bits': seq<bool>, m': map<nat, Node>, i: nat)
    requires i in m' && Owned(g, d', bits', m') && TableStep(g, d, bits, n, d', m'[i])
    ensures Below(g.lo, d, d')
  {
    assert NodeOk(d', m'[i]);
    if d' != d {
      assert Holds(d', m', i, TABLE, m'[i].sectors[TABLE]);
    }
  }

  lemma WriteAbove(g: Area, d: Disk, bits: seq<bool>, m: map<nat, Node>, i: nat, cap: nat, all: seq<nat>, lo: nat, k: nat)
    requires WriteState(g, d, bits, m, i, cap, all, lo) && lo <= k < cap
    ensures |all| == BLOCKS && cap <= BLOCKS && g.lo <= all[k]
  {
    assert Holds(d, m, i, SlotOfBlock(k), all[k]);
  }

  lemma FileAdded(g: Area, d: Disk, bits: seq<bool>, m: map<nat, Node>, files: set<nat>, no: nat, regular: bool)
    requires Consistent(g, d, bits, m, files) && no !in m
    ensures var m', files' := m[no := Node(0, Zeros(13))], files + if regular then {no} else {};
      Consistent(g, d, bits, m', files')
      && FilesOf(d, m', files') == if regular then FilesOf(d, m, files)[no := []] else FilesOf(d, m, files)
  {
    hide Owned, Filled, Content;
    EmptyNodeAdded(g, d, bits, m, no);
  }

  lemma LeastFree(v: seq<bool>, no: int)
    requires FirstFit(v, 1, no)
    ensures 0 <= no < |v| && !v[no] && forall j :: 0 <= j < no ==> v[j]
  {
    forall j | 0 <= j < no ensures v[j] {
      assert !FreeRun(v, j, 1);
    }
  }

  lemma FullView(v: seq<bool>, inodes: map<nat, Inode>)
    requires forall i :: 0 <= i < |v| ==> (v[i] <==> i in inodes)
    ensures Full(v) <==> forall i :: 0 <= i < |v| ==> i in inodes
  {
  }

  /** An inode that holds nothing owns nothing. */
  lemma EmptyNodeAdded(g: Area, d: Disk, bits: seq<bool>, m: map<nat, Node>, no: nat)
    requires Owned(g, d, bits, m) && no !in m
    ensures Owned(g, d, bits, m[no := Node(0, Zeros(13))])
    ensures AtRest(d, Node(0, Zeros(13))) && Content(d, Node(0, Zeros(13))) == []
  {
    var e := Node(0, Zeros(13));
    var m' := m[no := e];
    assert forall s :: 0 <= s < SLOTS ==> Slot(d, e, s) == 0;
    assert forall j, s, a :: a != 0 ==> (Holds(d, m', j, s, a) <==> Holds(d, m, j, s, a));
    forall b | 0 <= b < g.usable && bits[b] ensures Accounted(d, m', g.lo + b) {
      assert Accounted(d, m, g.lo + b);
      var j, s :| Holds(d, m, j, s, g.lo + b);
      assert Holds(d, m', j, s, g.lo + b);
    }
  }

  ghost predicate Freed(g: Area, bits: seq<bool>, all: seq<nat>, bits': seq<bool>) {
    && |bits'| == |bits|
    && (forall b :: 0 <= b < |bits| ==> (bits'[b] <==> bits[b] && g.lo + b !in all))
  }

  lemma FreedLength(g: Area, bits: seq<bool>, all: seq<nat>, bits': seq<bool>)
    requires Freed(g, bits, all, bits')
    ensures |bits'| == |bits|
  {
  }

  lemma FreedStep(g: Area, bits: seq<bool>, all: seq<nat>, k: nat, before: seq<bool>, after: seq<bool>)
    requires k < |all| && 1 <= g.lo && Freed(g, bits, all[..k], before)
    requires if all[k] == 0 then after == before
             else g.lo <= all[k] < g.lo + |before| && after == before[all[k] - g.lo := false]
    ensures Freed(g, bits, all[..k + 1], after)
  {
    assert all[..k + 1] == all[..k] + [all[k]];
  }

  /** A block stays allocated exactly when the released inode did not have it in a slot. */
  ghost predicate Released(g: Area, d: Disk, n: Node, bits: seq<bool>, bits': seq<bool>)
    requires NodeOk(d, n)
  {
    && |bits'| == |bits|
    && (forall b :: 0 <= b < |bits| ==> (bits'[b] <==> bits[b] && !InSlot(d, n, g.lo + b)))
  }

  ghost predicate InSlot(d: Disk, n: Node, a: nat)
    requires NodeOk(d, n)
  {
    exists s :: 0 <= s < SLOTS && Slot(d, n, s) == a
  }

  /** The two lists of addresses hold exactly the slots. */
  ghost predicate Lists(d: Disk, n: Node, tbl: seq<nat>, all: seq<nat>)
    requires NodeOk(d, n)
  {
    forall a :: a != 0 ==> (a in tbl || a in all <==> InSlot(d, n, a))
  }

  lemma ListsSlots(g: Area, d: Disk, bits: seq<bool>, m: map<nat, Node>, i: nat, tbl: seq<nat>, all: seq<nat>)
    requires Owned(g, d, bits, m) && i in m
    requires forall s :: 0 <= s < SLOTS ==> Slot(d, m[i], s) != g.lo
    requires var t := m[i].sectors[12];
             if t == 0 then tbl == [] && all == m[i].sectors[..12]
             else tbl == [t] && all == m[i].sectors[..12] + Words(d[t])
    ensures Lists(d, m[i], tbl, all)
    ensures forall k :: 0 <= k < |tbl| ==> g.lo < tbl[k] < g.lo + |bits|
    ensures forall k :: 0 <= k < |all| && all[k] != 0 ==> g.lo < all[k] < g.lo + |bits|
  {
    var n := m[i];
    forall s | 0 <= s < SLOTS && Slot(d, n, s) != 0 ensures g.lo < Slot(d, n, s) < g.lo + |bits| {
      assert Holds(d, m, i, s, Slot(d, n, s));
    }
    if tbl != [] { assert Slot(d, n, TABLE) == tbl[0]; }
    forall k | 0 <= k < |all| ensures all[k] == Slot(d, n, SlotOfBlock(k)) {
    }
    forall a | a != 0 ensures a in tbl || a in all <==> InSlot(d, n, a) {
      if InSlot(d, n, a) {
        var s :| 0 <= s < SLOTS && Slot(d, n, s) == a;
        SlotListed(d, n, tbl, all, s);
      }
    }
  }

  lemma SlotListed(d: Disk, n: Node, tbl: seq<nat>, all: seq<nat>, s: nat)
    requires NodeOk(d, n) && s < SLOTS && Slot(d, n, s) != 0
    requires var t := n.sectors[12];
             if t == 0 then tbl == [] && all == n.sectors[..12]
             else tbl == [t] && all == n.sectors[..12] + Words(d[t])
    ensures Slot(d, n, s) in tbl || Slot(d, n, s) in all
  {
    if s < TABLE {
      assert all[s] == Slot(d, n, s);
    } else if s == TABLE {
      assert tbl[0] == Slot(d, n, s);
    } else {
      assert all[s - 1] == Slot(d, n, s);
    }
  }

  lemma BothFreed(g: Area, d: Disk, bits: seq<bool>, m: map<nat, Node>, i: nat, tbl: seq<nat>, all: seq<nat>,
                  bits1: seq<bool>, bits2: seq<bool>)
    requires Owned(g, d, bits, m) && i in m && Lists(d, m[i], tbl, all)
    requires Freed(g, bits, tbl, bits1) && Freed(g, bits1, all, bits2)
    ensures Released(g, d, m[i], bits, bits2)
  {
  }

  lemma ReleaseOwned(g: Area, d: Disk, bits: seq<bool>, m: map<nat, Node>, i: nat, d': Disk, bits': seq<bool>)
    requires Owned(g, d, bits, m) && Owned(g, d', bits, m) && i in m && |d'| == |d|
    requires Released(g, d, m[i], bits, bits') && forall j :: j in m ==> SameOnBoth(d, d', m[j])
    ensures Owned(g, d', bits', m - {i})
  {
    var m' := m - {i};
    forall j, s, a | a != 0 ensures Holds(d', m', j, s, a) <==> Holds(d', m, j, s, a) && InArea(g, bits', a) {
      ReleaseHolds(g, d, bits, m, i, d', bits', j, s, a);
    }
    ReleasePadded(g, d, bits, m, i, bits');
    ShrinkOwned(g, d', bits, m, d', bits', m');
  }

  lemma ReleasePadded(g: Area, d: Disk, bits: seq<bool>, m: map<nat, Node>, i: nat, bits': seq<bool>)
    requires Owned(g, d, bits, m) && i in m && Released(g, d, m[i], bits, bits')
    ensures AreaFits(g, d, bits')
  {
    forall b | g.usable <= b < |bits| ensures bits'[b] {
      if InSlot(d, m[i], g.lo + b) {
        var s :| 0 <= s < SLOTS && Slot(d, m[i], s) == g.lo + b;
        assert Holds(d, m, i, s, g.lo + b);
      }
    }
  }

  lemma ReleaseHolds(g: Area, d: Disk, bits: seq<bool>, m: map<nat, Node>, i: nat, d': Disk, bits': seq<bool>,
                     j: nat, s: nat, a: nat)
    requires Owned(g, d, bits, m) && Owned(g, d', bits, m) && i in m && |d'| == |d| && a != 0
    requires Released(g, d, m[i], bits, bits') && forall j :: j in m ==> SameOnBoth(d, d', m[j])
    ensures Holds(d', m - {i}, j, s, a) <==> Holds(d', m, j, s, a) && InArea(g, bits', a)
  {
    if Holds(d', m, j, s, a) {
      assert Holds(d, m, j, s, a) && InArea(g, bits, a);
      assert g.lo + (a - g.lo) == a;
      if j == i {
        assert InSlot(d, m[i], a);
      } else if InSlot(d, m[i], a) {
        var t :| 0 <= t < SLOTS && Slot(d, m[i], t) == a;
        assert Holds(d, m, i, t, a);
        assert false;
      }
    }
  }

  lemma StillConsistent(g: Area, d: Disk, bits: seq<bool>, d': Disk, bits': seq<bool>, m: map<nat, Node>, files: set<nat>,
                        no: nat)
    requires Consistent(g, d, bits, m, files) && Owned(g, d', bits', m - {no})
    requires forall j :: j in m ==> SameOnBoth(d, d', m[j])
    ensures Consistent(g, d', bits', m - {no}, files - {no})
    ensures FilesOf(d', m - {no}, files - {no}) == FilesOf(d, m, files) - {no}
  {
    hide Owned, Content, SameOnBoth, Filled;
    forall j | j in files ensures AtRest(d', m[j]) && Content(d', m[j]) == Content(d, m[j]) {
      AtRestKept(d, d', m[j]);
    }
  }

  /** What file_read comes to at position p of a file holding c. Within the file it returns the
      bytes there, at most count of them, and advances; at the end it returns -1. It stops the
      machine when the bytes asked for reach byte 71168, where block 139 begins, and at the
      position an empty write to an empty file leaves. */
  ghost predicate ReadResult(c: seq<Byte>, p: nat, count: nat, r: Outcome, out: seq<Byte>, p': nat) {
    var n := if p + count > |c| then |c| - p else count;
    if p > |c| then r == Halted
    else if p == |c| && count > 0 then r == Returned(-1) && p' == p
    else if p + n >= 139 * 512 then r == Halted
    else r == Returned(n) && out == c[p..p + n] && p' == p + n
  }

  lemma AtRestTable(d: Disk, n: Node, last: nat)
    requires AtRest(d, n) && last * 512 <= n.size && last < BLOCKS
    ensures |n.sectors| == 13 && n.sectors[TABLE] < |d| && NodeOk(d, n)
    ensures last >= 12 ==> n.sectors[TABLE] != 0
  {
  }

  /** Addresses taken from the direct blocks and the indirect table are those of the blocks. */
  lemma BlocksRead(d: Disk, n: Node, all: seq<nat>, lo: nat, hi: nat)
    requires NodeOk(d, n) && |all| == 140 && hi <= 140
    requires forall k :: lo <= k < hi && k < 12 ==> all[k] == n.sectors[k]
    requires hi > 12 ==> n.sectors[TABLE] != 0 && all[12..] == Words(d[n.sectors[TABLE]])
    ensures Collected(d, n, all, lo, hi)
  {
    forall k | lo <= k < hi ensures all[k] == Block(d, n, k) {
      if k >= 12 {
        assert all[k] == all[12..][k - 12];
      }
    }
  }

  lemma BlocksOnDisk(g: Area, d: Disk, bits: seq<bool>, m: map<nat, Node>, i: nat)
    requires Owned(g, d, bits, m) && i in m
    ensures NodeOk(d, m[i]) && forall k :: 0 <= k < BLOCKS ==> Block(d, m[i], k) < |d|
  {
    forall k | 0 <= k < BLOCKS ensures Block(d, m[i], k) < |d| {
      assert Holds(d, m, i, SlotOfBlock(k), Block(d, m[i], k));
    }
  }

  lemma StartWriting(g: Area, d: Disk, bits: seq<bool>, m: map<nat, Node>, i: nat, cap: nat, all: seq<nat>, lo: nat)
    requires i in m && Owned(g, d, bits, m) && Filled(d, m[i], cap) && Collected(d, m[i], all, lo, cap)
    ensures WriteState(g, d, bits, m, i, cap, all, lo)
  {
  }

  lemma WriteStateParts(g: Area, d: Disk, bits: seq<bool>, m: map<nat, Node>, i: nat, cap: nat, all: seq<nat>, lo: nat)
    requires WriteState(g, d, bits, m, i, cap, all, lo)
    ensures Owned(g, d, bits, m) && Filled(d, m[i], cap)
  {
  }

  lemma OwnedStorable(g: Area, d: Disk, bits: seq<bool>, m: map<nat, Node>, i: nat)
    requires Owned(g, d, bits, m) && i in m
    ensures |m[i].sectors| == 13 && m[i].size < U32
    ensures forall k :: 0 <= k < 13 ==> m[i].sectors[k] < U32
  {
    forall k | 0 <= k < 13 ensures m[i].sectors[k] < U32 {
      assert Holds(d, m, i, k, m[i].sectors[k]);
    }
  }

  /** Writing the inode table touches no block of any file. */
  lemma TableWriteKeeps(g: Area, d: Disk, bits: seq<bool>, m: map<nat, Node>, base: nat, d': Disk)
    requires Owned(g, d, bits, m) && 1 <= base && base + InodeTable.TABLE_SECTORS <= g.lo && |d'| == |d|
    requires forall a :: 0 <= a < |d| && !(base <= a < base + InodeTable.TABLE_SECTORS) ==> d'[a] == d[a]
    ensures Owned(g, d', bits, m)
    ensures forall j :: j in m ==> SameOnBoth(d, d', m[j])
  {
    forall j | j in m ensures SameOnBoth(d, d', m[j]) {
      TableWriteKeepsOne(g, d, bits, m, base, d', j);
    }
    assert SlotsKept(d, d', m, m) by {
      forall j, t | j in m && 0 <= t < SLOTS ensures Slot(d', m[j], t) == Slot(d, m[j], t) {
        assert SameOnBoth(d, d', m[j]);
      }
    }
    SameSlotsOwned(g, d, bits, m, d', m);
  }

  lemma TableWriteKeepsOne(g: Area, d: Disk, bits: seq<bool>, m: map<nat, Node>, base: nat, d': Disk, j: nat)
    requires Owned(g, d, bits, m) && 1 <= base && base + InodeTable.TABLE_SECTORS <= g.lo && |d'| == |d| && j in m
    requires forall a :: 0 <= a < |d| && !(base <= a < base + InodeTable.TABLE_SECTORS) ==> d'[a] == d[a]
    ensures SameOnBoth(d, d', m[j])
  {
    var n := m[j];
    assert Holds(d, m, j, TABLE, n.sectors[TABLE]);
    assert d'[n.sectors[TABLE]] == d[n.sectors[TABLE]];
    forall s | 0 <= s < SLOTS
      ensures Slot(d', n, s) == Slot(d, n, s) < |d| && d'[Slot(d, n, s)] == d[Slot(d, n, s)]
    {
      assert Holds(d, m, j, s, Slot(d, n, s));
    }
    assert forall k :: 0 <= k < BLOCKS ==> Block(d', n, k) == Block(d, n, k);
    SameContent(d, n, d', n);
  }

  /** From the pieces of file_write to its effect on the whole partition. */
  lemma FinishWrite(g: Area, bits: seq<bool>, m0: map<nat, Node>, m2: map<nat, Node>, files: set<nat>, i: nat, cap: nat,
                    buf: seq<Byte>, d0: Disk, d1: Disk, d2: Disk, d3: Disk)
    requires i in files && (forall j :: j in files ==> j in m0 && AtRest(d0, m0[j]))
    requires i in m2 && m2 == m0[i := m2[i]] && Owned(g, d3, bits, m2) && Filled(d2, m2[i], cap)
    requires m2[i].size < MAX_SIZE && m2[i].size / 512 + 1 == cap
    requires NodeOk(d2, m2[i]) && NodeOk(d0, m0[i]) && Content(d2, m2[i]) == Content(d0, m0[i]) + buf
    requires OthersSame(d0, d1, m0, i) && OthersSame(d1, d2, m0, i)
    requires forall j :: j in m2 ==> SameOnBoth(d2, d3, m2[j])
    ensures Consistent(g, d3, bits, m2, files) && OthersSame(d0, d3, m0, i)
    ensures (forall j :: j in files ==> NodeOk(d0, m0[j]) && NodeOk(d3, m2[j]))
    ensures FilesOf(d3, m2, files) == FilesOf(d0, m0, files)[i := FilesOf(d0, m0, files)[i] + buf]
  {
    hide Content, Slot, SameOnBoth, Filled;
    OthersSameTransitive(d0, d1, d2, m0, i);
    forall j | j in m0 && j != i ensures SameOnBoth(d2, d3, m0[j]) {
      assert m2[j] == m0[j];
    }
    OthersSameTransitive(d0, d2, d3, m0, i);
    forall j | j in files
      ensures AtRest(d3, m2[j]) && Content(d3, m2[j]) == if j == i then Content(d0, m0[i]) + buf else Content(d0, m0[j])
    {
      if j == i {
        NowAtRest(d2, m2[i], cap);
        AtRestKept(d2, d3, m2[i]);
      } else {
        AtRestKept(d0, d2, m0[j]);
        AtRestKept(d2, d3, m0[j]);
      }
    }
  }

  lemma NowAtRest(d: Disk, n: Node, cap: nat)
    requires Filled(d, n, cap) && n.size < MAX_SIZE && n.size / 512 + 1 == cap
    ensures AtRest(d, n)
  {
    assert Block(d, n, 0) == n.sectors[0];
  }

  lemma AppendSlices(c: seq<Byte>, buf: seq<Byte>, k: nat, len: nat)
    requires k + len <= |buf|
    ensures c + buf[..k] + buf[k..k + len] == c + buf[..k + len]
  {
  }

  /** The position file_write leaves: one before the end, which for an empty file wraps around. */
  function PosAtEnd(size: nat): nat {
    if size == 0 then U32 - 1 else size - 1
  }

  lemma PosAdvances(size: nat, chunk: nat)
    requires chunk > 0 && size + chunk <= MAX_SIZE
    ensures (PosAtEnd(size) + chunk) % U32 == PosAtEnd(size + chunk)
  {
  }

  /** What the data loop keeps: ownership, the shape of the file and the collected addresses. */
  ghost predicate WriteState(g: Area, d: Disk, bits: seq<bool>, m: map<nat, Node>, i: nat, cap: nat, all: seq<nat>, lo: nat) {
    i in m && Owned(g, d, bits, m) && Filled(d, m[i], cap) && Collected(d, m[i], all, lo, cap)
  }

  lemma WriteStateBasics(g: Area, d: Disk, bits: seq<bool>, m: map<nat, Node>, i: nat, cap: nat, all: seq<nat>, lo: nat)
    requires WriteState(g, d, bits, m, i, cap, all, lo)
    ensures |all| == BLOCKS && cap <= BLOCKS && (forall j :: j in m ==> NodeOk(d, m[j]))
    ensures forall k :: lo <= k < cap ==> all[k] < |d|
  {
    forall k | lo <= k < cap ensures all[k] < |d| {
      assert Holds(d, m, i, SlotOfBlock(k), all[k]);
    }
  }

  lemma NoneChanged(d: Disk, m: map<nat, Node>, i: nat)
    requires forall j :: j in m ==> NodeOk(d, m[j])
    ensures OthersSame(d, d, m, i)
  {
  }

  /** One turn of the data loop. */
  lemma WriteStep(g: Area, d: Disk, bits: seq<bool>, m: map<nat, Node>, i: nat, cap: nat, all: seq<nat>, lo: nat,
                  base: Sector, chunk: seq<Byte>)
    requires WriteState(g, d, bits, m, i, cap, all, lo)
    requires var n := m[i]; var k := n.size / 512;
             lo <= k < cap && n.size + |chunk| <= MAX_SIZE && n.size % 512 + |chunk| <= 512 && |chunk| > 0
             && (n.size % 512 == 0 || (all[k] < |d| && base == d[all[k]]))
    ensures var n := m[i]; var a := all[n.size / 512];
            a < |d| &&
            var d', n' := d[a := Splice(base, n.size % 512, chunk)], n.(size := n.size + |chunk|);
            WriteState(g, d', bits, m[i := n'], i, cap, all, lo) && NodeOk(d', n') && Content(d', n') == Content(d, n) + chunk
            && OthersSame(d, d', m, i)
  {
    var n := m[i];
    var k := n.size / 512;
    var a := all[k];
    assert a == Block(d, n, k) != 0;
    var s := SlotOfBlock(k);
    var x := Splice(base, n.size % 512, chunk);
    hide Block, Slot, Filled, Collected, Owned;
    AppendChunk(g, d, bits, m, i, base, chunk);
    var d', n' := d[a := x], n.(size := n.size + |chunk|);
    assert a == Slot(d, m[i], s) by { SlotIsBlock(d, n, k); }
    DataWriteKeepsSlots(g, d, bits, m, i, s, x);
    DataWriteOwned(g, d, bits, m, i, s, x);
    ResizeOwned(g, d', bits, m, i, n');
    FilledKept(d, d', n, n', cap, all, lo);
    forall j | j in m && j != i ensures SameOnBoth(d, d', m[j]) {
      OthersKept(g, d, bits, m, i, s, x, j);
    }
  }

  lemma SlotIsBlock(d: Disk, n: Node, k: nat)
    requires NodeOk(d, n) && k < BLOCKS
    ensures Slot(d, n, SlotOfBlock(k)) == Block(d, n, k)
  {
  }

  lemma ResizeOwned(g: Area, d: Disk, bits: seq<bool>, m: map<nat, Node>, i: nat, n': Node)
    requires Owned(g, d, bits, m) && i in m && n'.sectors == m[i].sectors && n'.size <= MAX_SIZE
    ensures Owned(g, d, bits, m[i := n'])
  {
    SameSlotsOwned(g, d, bits, m, d, m[i := n']);
  }

  lemma FilledKept(d: Disk, d': Disk, n: Node, n': Node, cap: nat, all: seq<nat>, lo: nat)
    requires NodeOk(d, n) && NodeOk(d', n) && NodeOk(d', n') && n'.sectors == n.sectors
    requires forall s :: 0 <= s < SLOTS ==> Slot(d', n, s) == Slot(d, n, s)
    requires Filled(d, n, cap) && Collected(d, n, all, lo, cap)
    ensures Filled(d', n', cap) && Collected(d', n', all, lo, cap)
  {
    forall k | 0 <= k < BLOCKS ensures Block(d', n', k) == Block(d, n, k) {
      assert Slot(d', n', SlotOfBlock(k)) == Slot(d', n, SlotOfBlock(k));
    }
  }

  lemma SameOthers(d: Disk, d': Disk, m: map<nat, Node>, m': map<nat, Node>, i: nat)
    requires OthersSame(d, d', m, i) && i in m && m.Keys == m'.Keys
    requires forall j :: j in m && j != i ==> m'[j] == m[j]
    ensures OthersSame(d, d', m', i)
  {
  }

  lemma OwnedBasics(g: Area, d: Disk, bits: seq<bool>, m: map<nat, Node>)
    requires Owned(g, d, bits, m)
    ensures AreaFits(g, d, bits)
    ensures forall i :: i in m ==> NodeOk(d, m[i])
  {
  }

  lemma AtRestShape(d: Disk, n: Node)
    requires AtRest(d, n)
    ensures |n.sectors| == 13 && n.size < MAX_SIZE && Filled(d, n, RestCap(n)) && n.size <= RestCap(n) * SECTOR_SIZE
    ensures RestCap(n) + (if n.sectors[0] == 0 then 1 else 0) == n.size / 512 + 1
  {
  }

  lemma SameTable(g: Area, d: Disk, bits: seq<bool>, n: Node, cap: nat, news: seq<nat>, n': Node)
    requires HungOn(d, n, cap, news, [], d, n')
    ensures TableStep(g, d, bits, n, d, n')
  {
  }

  lemma NeedsFirst(n: Node, count: nat)
    requires |n.sectors| == 13 && n.sectors[0] == 0
    ensures BlocksNeeded(n, count) >= 1
  {
  }

  lemma NeedsMore(n: Node, count: nat)
    requires |n.sectors| == 13
    ensures var has, will := n.size / 512 + 1, (n.size + count) / 512 + 1;
            BlocksNeeded(n, count) ==
              (if n.sectors[0] == 0 then 1 else 0) + (will - has) + (if has <= 12 < will then 1 else 0)
  {
  }

  lemma NewTable(g: Area, bits: seq<bool>, bits': seq<bool>, t: nat, news: seq<nat>,
                 d: Disk, n: Node, has: nat, d': Disk, n': Node)
    requires NewBlocks(g, bits, bits', [t] + news) && HungOn(d, n, has, news, [t], d', n')
    ensures !InArea(g, bits, t) && t >= g.lo && n'.sectors[TABLE] == t
  {
    assert ([t] + news)[0] == t;
  }

  lemma NothingHung(d: Disk, n: Node, has: nat)
    requires Filled(d, n, has)
    ensures HungOn(d, n, has, [], [], d, n)
  {
  }

  lemma FirstHung(d: Disk, n: Node, lba: nat)
    requires AtRest(d, n) && n.sectors[0] == 0
    ensures HungOn(d, n, 0, [lba], [], d, Node(n.size, n.sectors[0 := lba]))
  {
    var n' := Node(n.size, n.sectors[0 := lba]);
    assert n'.sectors[TABLE] == n.sectors[TABLE];
    forall k | 0 <= k < BLOCKS ensures Block(d, n', k) == if k == 0 then lba else Block(d, n, k) {
    }
  }

  /** i_sectors after the new blocks below index 12 were entered, with table t. */
  ghost function DirectNews(sectors: seq<nat>, has: nat, news: seq<nat>, t: nat): (r: seq<nat>)
    requires |sectors| == 13 && has <= 12
    ensures |r| == 13
  {
    seq(13, k requires 0 <= k < 13 =>
      if k == 12 then t else if has <= k < has + |news| then news[k - has] else sectors[k])
  }

  lemma FilledShape(d: Disk, n: Node, cap: nat)
    requires Filled(d, n, cap)
    ensures |n.sectors| == 13 && n.sectors[TABLE] < |d|
    ensures n.sectors[TABLE] != 0 <==> cap > DIRECT
  {
  }

  lemma CrossingUnused(d: Disk, n: Node, has: nat)
    requires Filled(d, n, has) && has <= 12
    ensures |n.sectors| == 13 && n.sectors[12] == 0 && forall k :: has <= k < 12 ==> n.sectors[k] == 0
  {
    forall k | has <= k < 12 ensures n.sectors[k] == 0 {
      DirectUnused(d, n, has, k);
    }
  }

  lemma CrossingCollected(d: Disk, n: Node, has: nat, news: seq<nat>, t: nat, all0: seq<nat>)
    requires Filled(d, n, has) && 1 <= has <= 12 < has + |news| <= 140 && 0 < t < |d|
    requires all0 == Zeros(140)[has - 1 := n.sectors[has - 1]]
    requires forall k :: 0 <= k < |news| ==> news[k] < U32
    ensures var all := WithNews(all0, has, news);
            (forall k :: 12 <= k < 140 ==> all[k] < U32) &&
            var d', n' := d[t := FromWords(all[12..])], Node(n.size, DirectNews(n.sectors, has, news, t));
            HungOn(d, n, has, news, [t], d', n') && Collected(d', n', all, has - 1, has + |news|)
  {
    var all := WithNews(all0, has, news);
    assert forall k :: 12 <= k < 140 ==> all[k] < U32;
    assert forall k :: 0 <= k < 128 ==> all[12..][k] == all[k + 12];
    var d', n' := d[t := FromWords(all[12..])], Node(n.size, DirectNews(n.sectors, has, news, t));
    WordsRoundTrip(all[12..]);
    assert n.sectors[TABLE] == 0;
    forall k | 0 <= k < BLOCKS
      ensures Block(d', n', k) == if has <= k < has + |news| then news[k - has] else Block(d, n, k)
      ensures k >= 12 ==> Block(d', n', k) == all[k]
    {
      CrossingBlock(d, n, has, news, t, d', all, k);
    }
  }

  lemma CrossingBlock(d: Disk, n: Node, has: nat, news: seq<nat>, t: nat, d': Disk, all: seq<nat>, k: nat)
    requires Filled(d, n, has) && 1 <= has <= 12 < has + |news| <= 140 && 0 < t < |d| && |d'| == |d| && k < 140
    requires |all| == 140 && Words(d'[t]) == all[12..]
    requires all == WithNews(Zeros(140)[has - 1 := n.sectors[has - 1]], has, news)
    ensures var n' := Node(n.size, DirectNews(n.sectors, has, news, t));
            Block(d', n', k) == (if has <= k < has + |news| then news[k - has] else Block(d, n, k))
            && (k >= 12 ==> Block(d', n', k) == all[k])
  {
    var n' := Node(n.size, DirectNews(n.sectors, has, news, t));
    if k >= 12 {
      assert Block(d', n', k) == Words(d'[t])[k - 12] == all[12..][k - 12];
    }
  }

  lemma IndirectCollected(d: Disk, n: Node, has: nat, news: seq<nat>)
    requires Filled(d, n, has) && 12 < has && has + |news| <= 140
    requires forall k :: 0 <= k < |news| ==> news[k] < U32
    ensures var t := n.sectors[TABLE];
            var all := WithNews(Zeros(12) + Words(d[t]), has, news);
            (forall k :: 12 <= k < 140 ==> all[k] < U32) &&
            var d' := d[t := FromWords(all[12..])];
            HungOn(d, n, has, news, [], d', n) && Collected(d', n, all, has - 1, has + |news|)
  {
    var t := n.sectors[TABLE];
    var all := WithNews(Zeros(12) + Words(d[t]), has, news);
    forall k | 12 <= k < 140 ensures all[k] < U32 {
      WordsInRange(d[t], k - 12);
    }
    assert forall k :: 0 <= k < 128 ==> all[12..][k] == all[k + 12];
    var d' := d[t := FromWords(all[12..])];
    WordsRoundTrip(all[12..]);
    forall k | 0 <= k < BLOCKS
      ensures Block(d', n, k) == if has <= k < has + |news| then news[k - has] else Block(d, n, k)
      ensures k >= 12 ==> Block(d', n, k) == all[k]
    {
      IndirectBlock(d, n, has, news, d', all, k);
    }
  }

  lemma IndirectBlock(d: Disk, n: Node, has: nat, news: seq<nat>, d': Disk, all: seq<nat>, k: nat)
    requires Filled(d, n, has) && 12 < has && has + |news| <= 140 && |d'| == |d| && k < 140
    requires |all| == 140 && Words(d'[n.sectors[TABLE]]) == all[12..]
    requires all == WithNews(Zeros(12) + Words(d[n.sectors[TABLE]]), has, news)
    ensures Block(d', n, k) == if has <= k < has + |news| then news[k - has] else Block(d, n, k)
    ensures k >= 12 ==> Block(d', n, k) == all[k]
  {
    if k >= 12 {
      assert Block(d', n, k) == Words(d'[n.sectors[TABLE]])[k - 12] == all[12..][k - 12];
      assert Block(d, n, k) == Words(d[n.sectors[TABLE]])[k - 12];
    }
  }

  /** Block lba became allocated and nothing else changed. */
  ghost predicate Took(g: Area, bits: seq<bool>, bits': seq<bool>, lba: nat) {
    g.lo <= lba < g.lo + |bits| && !bits[lba - g.lo] && bits' == bits[lba - g.lo := true]
  }

  lemma NoNewBlocks(g: Area, bits: seq<bool>)
    ensures NewBlocks(g, bits, bits, [])
  {
  }

  /** The addresses with those from index has on replaced by the new ones. */
  ghost function WithNews(a: seq<nat>, has: nat, news: seq<nat>): (r: seq<nat>)
    requires has + |news| <= |a|
    ensures |r| == |a|
    ensures forall k :: 0 <= k < |a| ==> r[k] == if has <= k < has + |news| then news[k - has] else a[k]
  {
    a[..has] + news + a[has + |news|..]
  }

  lemma WithNewsStep(a: seq<nat>, has: nat, news: seq<nat>, lba: nat)
    requires has + |news| < |a|
    ensures WithNews(a, has, news)[has + |news| := lba] == WithNews(a, has, news + [lba])
  {
  }

  /** all_blocks names the blocks lo, ..., hi - 1 of the file. */
  ghost predicate Collected(d: Disk, n: Node, all: seq<nat>, lo: nat, hi: nat) {
    && NodeOk(d, n) && |all| == BLOCKS && hi <= BLOCKS
    && (forall k :: lo <= k < hi ==> all[k] == Block(d, n, k))
  }

  lemma DirectUnused(d: Disk, n: Node, has: nat, idx: nat)
    requires Filled(d, n, has) && has <= idx < 12
    ensures n.sectors[idx] == 0
  {
    assert Block(d, n, idx) == n.sectors[idx];
  }

  lemma DirectCollected(d: Disk, n: Node, has: nat, news: seq<nat>, all0: seq<nat>)
    requires Filled(d, n, has) && 1 <= has && has + |news| <= 12
    requires |all0| == 140 && all0[has - 1] == n.sectors[has - 1]
    ensures var n' := Node(n.size, WithNews(n.sectors, has, news));
            HungOn(d, n, has, news, [], d, n') && Collected(d, n', WithNews(all0, has, news), has - 1, has + |news|)
  {
    var n' := Node(n.size, WithNews(n.sectors, has, news));
    assert n'.sectors[TABLE] == n.sectors[TABLE];
    forall k | 0 <= k < BLOCKS
      ensures Block(d, n', k) == if has <= k < has + |news| then news[k - has] else Block(d, n, k)
    {
    }
  }
}
