/** Reading a directory entry by entry (dir.c), and removing an empty one. */
module DirReading {
  import opened Sectors
  import opened BlockMap
  import opened Bitmaps
  import opened DirEntries
  import opened DirSpec
  import opened FileSystem
  import opened Directory

  /** struct dir: an open directory and the position in it. */
  class Dir {
    var dirPos: nat
    const inode: Inode

    constructor (inode: Inode)
      ensures dirPos == 0 && this.inode == inode
    {
      this.inode := inode;
      dirPos := 0;
    }
  }

  /** dir_read, the pass over one sector: entries in use are skipped until the position is
      reached. cur is 24 for each entry in use seen so far. */
  method ReadInSector(es: seq<DirEntry>, pos: nat, cur: nat) returns (cur': nat, k: nat)
    requires |es| == PER_SECTOR && cur <= pos && pos % ENTRY_SIZE == 0 && cur % ENTRY_SIZE == 0
    ensures k <= PER_SECTOR && cur' == cur + ENTRY_SIZE * |Live(es[..k])| <= pos
    ensures k < PER_SECTOR ==> cur' == pos && es[k].ftype != FT_UNKNOWN
  {
    hide Live;
    k, cur' := 0, cur;
    LiveSoFar(es, 0);
    while k < PER_SECTOR
      invariant k <= PER_SECTOR && cur' == cur + ENTRY_SIZE * |Live(es[..k])| <= pos
    {
      LiveSoFar(es, k);
      if es[k].ftype != FT_UNKNOWN {
        if cur' < pos {
          cur' := cur' + ENTRY_SIZE;
        } else {
          assert cur' == pos;
          return;
        }
      }
      k := k + 1;
    }
  }

  lemma LiveSoFar(es: seq<DirEntry>, k: nat)
    requires k < |es|
    ensures Live(es[..0]) == []
    ensures |Live(es[..k + 1])| == |Live(es[..k])| + if es[k].ftype != FT_UNKNOWN then 1 else 0
  {
    LiveAt(es[..k + 1], k);
    assert es[..k + 1][..k] == es[..k] && es[..k + 1][k + 1..] == [];
  }

  /** dir_read. At the position of entry p it returns that entry and moves on; past the last it
      returns nothing. Its ASSERT never fails. */
  method DirRead(fs: FileSystem, dir: Dir, ghost p: nat, ghost parent: nat) returns (r: Found)
    requires Opened(fs, dir.inode, parent) && SectorsOk(fs.disk, dir.inode.Snapshot())
    requires p <= |Listing(fs.disk, dir.inode.Snapshot())| && dir.dirPos == ENTRY_SIZE * p
    modifies dir
    ensures Opened(fs, dir.inode, parent)
    ensures var l := Listing(fs.disk, dir.inode.Snapshot());
      if p < |l| then r == Something(l[p]) && dir.dirPos == ENTRY_SIZE * (p + 1)
      else r == Nothing && dir.dirPos == ENTRY_SIZE * p
  {
    hide Live, Entries, Listing, Raw, DirShape, FileSystem.Valid, BlockEntries;
    var inode := dir.inode;
    ghost var d, n, l := fs.disk, inode.Snapshot(), Listing(fs.disk, inode.Snapshot());
    ShapeSectors(d, n, inode.iNo, parent);
    var blockIdx, cur := 0, 0;
    ReadStart(d, n);
    while blockIdx < 12
      invariant blockIdx <= 12 && inode.Snapshot() == n && dir.dirPos == ENTRY_SIZE * p
      invariant cur == ENTRY_SIZE * |Entries(d, n, 0, blockIdx)| <= dir.dirPos
    {
      if dir.dirPos >= inode.iSize {
        return Nothing;
      }
      if inode.iSectors[blockIdx] != 0 {
        var es := Raw(fs.disk[inode.iSectors[blockIdx]]);
        var cur', k := ReadInSector(es, dir.dirPos, cur);
        if k < PER_SECTOR {
          EntryPlace(d, n, blockIdx, k);
          dir.dirPos := dir.dirPos + ENTRY_SIZE;
          return Something(es[k]);
        }
        cur := cur';
        assert es[..PER_SECTOR] == es;
      }
      ReadOn(d, n, blockIdx);
      blockIdx := blockIdx + 1;
    }
    r := Nothing;
    ReadEnd(d, n);
  }

  lemma ReadStart(d: Disk, n: Node)
    requires SectorsOk(d, n)
    ensures Entries(d, n, 0, 0) == []
  {
  }

  lemma ReadOn(d: Disk, n: Node, b: nat)
    requires SectorsOk(d, n) && b < 12
    ensures |Entries(d, n, 0, b + 1)| == |Entries(d, n, 0, b)| + |BlockEntries(d, n, b)|
    ensures BlockEntries(d, n, b) == if n.sectors[b] == 0 then [] else Live(Raw(d[n.sectors[b]]))
  {
    hide Entries, Live;
    EntriesTo(d, n, b);
  }

  lemma ReadEnd(d: Disk, n: Node)
    requires SectorsOk(d, n)
    ensures Entries(d, n, 0, 12) == Listing(d, n)
  {
  }

  /** The loop a lister runs over sys_readdir after rewinding (buildin_cmd.c): every entry is
      delivered once, in storage order, before the end is reported. */
  method ReadAll(fs: FileSystem, dir: Dir, ghost parent: nat) returns (es: seq<DirEntry>)
    requires Opened(fs, dir.inode, parent)
    modifies dir
    ensures SectorsOk(fs.disk, dir.inode.Snapshot()) && es == Listing(fs.disk, dir.inode.Snapshot())
  {
    hide Listing, DirShape, FileSystem.Valid;
    ghost var l, p := [], 0;
    ShapeSectors(fs.disk, dir.inode.Snapshot(), dir.inode.iNo, parent);
    l := Listing(fs.disk, dir.inode.Snapshot());
    dir.dirPos := 0;
    es := [];
    var r := DirRead(fs, dir, 0, parent);
    while r.Something?
      invariant Opened(fs, dir.inode, parent) && SectorsOk(fs.disk, dir.inode.Snapshot())
      invariant l == Listing(fs.disk, dir.inode.Snapshot()) && p <= |l| && es == l[..p]
      invariant r.Something? ==> p < |l| && r.entry == l[p] && dir.dirPos == ENTRY_SIZE * (p + 1)
      invariant r == Nothing ==> p == |l|
      decreases |l| - p
    {
      es := es + [r.entry];
      p := p + 1;
      r := DirRead(fs, dir, p, parent);
    }
  }

  /** dir_is_empty. It looks at the size alone, and is right: the directory is empty exactly when
      "." and ".." are its only entries, and then it has no block after the first. */
  method DirIsEmpty(fs: FileSystem, dir: Inode, ghost parent: nat) returns (r: bool)
    requires Opened(fs, dir, parent)
    ensures SectorsOk(fs.disk, dir.Snapshot())
    ensures r <==> forall i :: 0 <= i < |Listing(fs.disk, dir.Snapshot())| ==>
      IsDot(Listing(fs.disk, dir.Snapshot())[i].name)
    ensures r ==> Listing(fs.disk, dir.Snapshot()) == Dots(dir.iNo, parent)
    ensures r ==> forall k :: 1 <= k < 13 ==> dir.iSectors[k] == 0
  {
    hide Listing, Distinguished;
    r := dir.iSize == ENTRY_SIZE * 2;
    OnlyDots(fs.disk, dir.Snapshot(), dir.iNo, parent);
  }

  lemma OnlyDots(d: Disk, n: Node, self: nat, parent: nat)
    requires DirShape(d, n, self, parent)
    ensures |Listing(d, n)| >= 2 && Listing(d, n)[0] == DirEntry(DOT, self, FT_DIRECTORY)
    ensures Listing(d, n)[1] == DirEntry(DOTDOT, parent, FT_DIRECTORY)
    ensures |Listing(d, n)| == 2 <==> forall i :: 0 <= i < |Listing(d, n)| ==> IsDot(Listing(d, n)[i].name)
    ensures |Listing(d, n)| == 2 ==> forall k :: 1 <= k < 12 ==> n.sectors[k] == 0
  {
    hide Live, Entries, Listing, Raw, HolesBlank, Distinguished;
    DotsFirst(d, n, self, parent);
    ThirdIsNoDot(Listing(d, n));
    forall k | 1 <= k < 12 && n.sectors[k] != 0 ensures |Listing(d, n)| > 2 {
      assert BlockEntries(d, n, k) != [];
      LaterBlock(d, n, self, parent, k);
    }
  }

  lemma ThirdIsNoDot(l: seq<DirEntry>)
    requires Distinguished(l) && |l| >= 2 && l[0].name == DOT && l[1].name == DOTDOT
    ensures |l| > 2 ==> !IsDot(l[2].name)
  {
    if |l| > 2 {
      assert l[2].name != l[0].name && l[2].name != l[1].name;
    }
  }

  lemma DotsFirst(d: Disk, n: Node, self: nat, parent: nat)
    requires DirShape(d, n, self, parent)
    ensures |Listing(d, n)| >= 2 && Listing(d, n)[0] == DirEntry(DOT, self, FT_DIRECTORY)
    ensures Listing(d, n)[1] == DirEntry(DOTDOT, parent, FT_DIRECTORY)
    ensures |Entries(d, n, 0, 1)| >= 2
  {
    hide Entries, Listing, Raw, HolesBlank, NoEmptyBlock, Live;
    var es := Raw(d[n.sectors[0]]);
    EntryPlace(d, n, 0, 0);
    EntryPlace(d, n, 0, 1);
    ReadStart(d, n);
    LiveSoFar(es, 0);
    LiveSoFar(es, 1);
    EntriesTo(d, n, 0);
    PlacesDiffer(es, 1, PER_SECTOR);
    assert es[..PER_SECTOR] == es;
  }

  lemma LaterBlock(d: Disk, n: Node, self: nat, parent: nat, b: nat)
    requires DirShape(d, n, self, parent) && 1 <= b < 12 && BlockEntries(d, n, b) != []
    ensures |Listing(d, n)| > 2
  {
    hide Live, Entries, Listing, Raw, HolesBlank, NoEmptyBlock, BlockEntries;
    DotsFirst(d, n, self, parent);
    ListingAround(d, n, b);
    EntriesSplit(d, n, 0, 1, b);
  }
}
