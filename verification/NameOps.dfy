/** Entries of the tree coming and going: what an insertion or a deletion in a directory on the disk is
    in the tree, and the parts of sys_mkdir. */
module NameOps {
  import opened Sectors
  import opened BlockMap
  import opened Bitmaps
  import opened DirEntries
  import opened DirSpec
  import opened FileSystem
  import opened InodeStore
  import opened Directory
  import opened DirReading
  import opened Paths
  import opened TreeSpec
  import opened Namespace
  import InodeTable

  // ------------------------------------------------------------------
  // What each step leaves of the other inodes
  // ------------------------------------------------------------------

  /** Every inode of m but i is there as before, with the same slots, sectors and content. */
  ghost predicate Quiet(d: Disk, m: map<nat, Node>, d': Disk, m': map<nat, Node>, i: nat) {
    forall j :: j in m && j != i ==> j in m' && m'[j] == m[j] && SameOnBoth(d, d', m[j])
  }

  lemma QuietShape(d: Disk, m: map<nat, Node>, d': Disk, m': map<nat, Node>, i: nat, j: nat, parent: nat)
    requires Quiet(d, m, d', m', i) && j in m && j != i && DirShape(d, m[j], j, parent)
    ensures j in m' && m'[j] == m[j] && DirShape(d', m[j], j, parent) && SectorsOk(d, m[j]) && Listing(d', m[j]) == Listing(d, m[j])
  {
    hide DirShape, Listing;
    ShapeSectors(d, m[j], j, parent);
    DirKept(d, d', m[j], j, parent);
  }

  // ------------------------------------------------------------------
  // The tree after an entry was added or removed
  // ------------------------------------------------------------------

  /** Directory h of the tree got entry e at place p, naming a new inode. */
  ghost predicate Grown1(d: Disk, m: map<nat, Node>, t: Tree, d': Disk, m': map<nat, Node>, h: nat, e: DirEntry, p: nat) {
    && h in t.dirs && h in m && h in m' && Quiet(d, m, d', m', h) && e.ino !in m && m'.Keys == m.Keys + {e.ino}
    && DirShape(d', m'[h], h, ParentOf(t, h)) && SectorsOk(d, m[h]) && SectorsOk(d', m'[h])
    && PutIn(Listing(d, m[h]), Listing(d', m'[h]), p, e)
    && KeptFirst(m[h].sectors, m'[h].sectors)
    && (e.ftype == FT_DIRECTORY ==>
          DirShape(d', m'[e.ino], e.ino, h) && SectorsOk(d', m'[e.ino]) && Listing(d', m'[e.ino]) == Dots(e.ino, h))
  }

  lemma TreeAdd(g: Area, d: Disk, m: map<nat, Node>, files: set<nat>, t: Tree, d': Disk, m': map<nat, Node>, files': set<nat>,
                h: nat, e: DirEntry, p: nat)
    requires TreeOk(g, d, m, files, t) && Grown1(d, m, t, d', m', h, e, p)
    requires files' == if e.ftype == FT_DIRECTORY then files else files + {e.ino}
    requires !IsDot(e.name) && Component(e.name) && NewTo(ViewOf(d, m, t)[h], e)
    ensures var t' := Added(t, h, e.ino, e.ftype == FT_DIRECTORY);
      TreeOk(g, d', m', files', t') && AddStep(ViewOf(d, m, t), t, h, e, p, ViewOf(d', m', t'))
  {
    hide Agrees, Listing, DirShape, NewTo, SameOnBoth, PutIn, SectorsOk, IsDot, Component;
    var t' := Added(t, h, e.ino, e.ftype == FT_DIRECTORY);
    RootKnown(ViewOf(d, m, t), t);
    forall i | i in t'.dirs ensures i in m' && DirShape(d', m'[i], i, ParentOf(t', i)) {
      AddedShape(g, d, m, files, t, d', m', h, e, p, i);
    }
    AddedView(g, d, m, files, t, d', m', h, e, p);
    AddAgrees(ViewOf(d, m, t), t, h, e, p, ViewOf(d', m', t'));
    assert m'[0].sectors[0] == g.lo;
  }

  lemma RootKnown(v: Dirs, t: Tree)
    requires Agrees(v, t)
    ensures 0 in t.dirs && 0 !in t.home && v.Keys == t.dirs
  {
  }

  lemma AddedShape(g: Area, d: Disk, m: map<nat, Node>, files: set<nat>, t: Tree, d': Disk, m': map<nat, Node>,
                   h: nat, e: DirEntry, p: nat, i: nat)
    requires TreeOk(g, d, m, files, t) && Grown1(d, m, t, d', m', h, e, p)
    requires i in Added(t, h, e.ino, e.ftype == FT_DIRECTORY).dirs
    ensures i in m' && DirShape(d', m'[i], i, ParentOf(Added(t, h, e.ino, e.ftype == FT_DIRECTORY), i))
    ensures i in t.dirs && i != h ==> SectorsOk(d, m[i]) && Listing(d', m'[i]) == Listing(d, m[i])
    ensures SectorsOk(d', m'[i])
  {
    hide Agrees, Listing, DirShape, SameOnBoth, PutIn;
    if i in t.dirs && i != h {
      QuietShape(d, m, d', m', h, i, ParentOf(t, i));
    }
    ShapeSectors(d', m'[i], i, ParentOf(Added(t, h, e.ino, e.ftype == FT_DIRECTORY), i));
  }

  lemma AddedView(g: Area, d: Disk, m: map<nat, Node>, files: set<nat>, t: Tree, d': Disk, m': map<nat, Node>,
                  h: nat, e: DirEntry, p: nat)
    requires TreeOk(g, d, m, files, t) && Grown1(d, m, t, d', m', h, e, p)
    requires !IsDot(e.name) && Component(e.name) && NewTo(ViewOf(d, m, t)[h], e)
    requires Shapes(d', m', Added(t, h, e.ino, e.ftype == FT_DIRECTORY))
    ensures AddStep(ViewOf(d, m, t), t, h, e, p, ViewOf(d', m', Added(t, h, e.ino, e.ftype == FT_DIRECTORY)))
  {
    hide Agrees, Listing, DirShape, SameOnBoth, PutIn, NewTo, SectorsOk, IsDot, Component;
    var t' := Added(t, h, e.ino, e.ftype == FT_DIRECTORY);
    var v, v' := ViewOf(d, m, t), ViewOf(d', m', t');
    RootKnown(v, t);
    forall i | i in t.dirs && i != h ensures SectorsOk(d, m[i]) && SectorsOk(d', m'[i]) && v'[i] == v[i] {
      AddedShape(g, d, m, files, t, d', m', h, e, p, i);
    }
    if e.ftype == FT_DIRECTORY {
      AddedShape(g, d, m, files, t, d', m', h, e, p, e.ino);
    }
    assert 0 in m;
  }

  /** A name that a search did not find, for an inode number not in use. */
  lemma NewEntry(g: Area, d: Disk, m: map<nat, Node>, files: set<nat>, t: Tree, h: nat, e: DirEntry)
    requires TreeOk(g, d, m, files, t) && h in t.dirs && DirSpec.Storable(e) && e.ino !in m
    requires Lookup(ViewOf(d, m, t)[h], e.name) == Nothing
    ensures NewTo(ViewOf(d, m, t)[h], e)
  {
    hide AllListed, Listing, DirShape, Lookup, Distinguished, DotsBound;
    var v := ViewOf(d, m, t);
    assert DirAgrees(v, t, h);
    forall i | 0 <= i < |v[h]| && !IsDot(v[h][i].name) ensures v[h][i].ino != e.ino {
      assert Placed(t, h, v[h][i]);
    }
  }

  /** Directory h of the tree lost entry e from place p, and the inode it named is gone. */
  ghost predicate Shrunk1(d: Disk, m: map<nat, Node>, t: Tree, d': Disk, m': map<nat, Node>, h: nat, e: DirEntry, p: nat) {
    && h in t.dirs && h in m && h in m' && h != e.ino && e.ino in m && m'.Keys == m.Keys - {e.ino}
    && (forall j :: j in m' && j != h ==> m'[j] == m[j] && SameOnBoth(d, d', m[j]))
    && DirShape(d', m'[h], h, ParentOf(t, h)) && SectorsOk(d, m[h]) && SectorsOk(d', m'[h])
    && PutIn(Listing(d', m'[h]), Listing(d, m[h]), p, e)
    && KeptFirst(m[h].sectors, m'[h].sectors)
  }

  lemma TreeRemove(g: Area, d: Disk, m: map<nat, Node>, files: set<nat>, t: Tree, d': Disk, m': map<nat, Node>,
                   h: nat, e: DirEntry, p: nat)
    requires TreeOk(g, d, m, files, t) && Shrunk1(d, m, t, d', m', h, e, p) && !IsDot(e.name)
    requires e.ino in t.dirs ==> ViewOf(d, m, t)[e.ino] == Dots(e.ino, h)
    ensures var t' := Removed(t, e.ino);
      TreeOk(g, d', m', files - {e.ino}, t') && RemoveStep(ViewOf(d, m, t), t, h, e, p, ViewOf(d', m', t'))
  {
    hide Agrees, Listing, DirShape, SameOnBoth, PutIn, SectorsOk, IsDot;
    var t' := Removed(t, e.ino);
    var v := ViewOf(d, m, t);
    RootKnown(v, t);
    InListing(v, t, h, e, p);
    forall i | i in t'.dirs ensures i in m' && DirShape(d', m'[i], i, ParentOf(t', i)) {
      RemovedShape(g, d, m, files, t, d', m', h, e, p, i);
    }
    RemovedView(g, d, m, files, t, d', m', h, e, p);
    RemoveAgrees(v, t, h, e, p, ViewOf(d', m', t'));
  }

  /** An entry taken out was one that names an inode of the tree. */
  lemma InListing(v: Dirs, t: Tree, h: nat, e: DirEntry, p: nat)
    requires Agrees(v, t) && h in v && !IsDot(e.name) && exists l :: PutIn(l, v[h], p, e)
    ensures e.ino in t.home && e.ino != 0
  {
    hide AllListed, Lookup, Distinguished;
    assert DirAgrees(v, t, h);
    var l :| PutIn(l, v[h], p, e);
    assert v[h][p] == e;
    assert Placed(t, h, v[h][p]);
  }

  lemma RemovedShape(g: Area, d: Disk, m: map<nat, Node>, files: set<nat>, t: Tree, d': Disk, m': map<nat, Node>,
                     h: nat, e: DirEntry, p: nat, i: nat)
    requires TreeOk(g, d, m, files, t) && Shrunk1(d, m, t, d', m', h, e, p) && i in t.dirs && i != e.ino
    ensures i in m' && DirShape(d', m'[i], i, ParentOf(Removed(t, e.ino), i))
    ensures i != h ==> SectorsOk(d, m[i]) && Listing(d', m'[i]) == Listing(d, m[i])
    ensures SectorsOk(d', m'[i])
  {
    hide Agrees, Listing, DirShape, SameOnBoth, PutIn;
    if i != h {
      ShapeSectors(d, m[i], i, ParentOf(t, i));
      DirKept(d, d', m[i], i, ParentOf(t, i));
    }
    ShapeSectors(d', m'[i], i, ParentOf(t, i));
  }

  lemma RemovedView(g: Area, d: Disk, m: map<nat, Node>, files: set<nat>, t: Tree, d': Disk, m': map<nat, Node>,
                    h: nat, e: DirEntry, p: nat)
    requires TreeOk(g, d, m, files, t) && Shrunk1(d, m, t, d', m', h, e, p) && !IsDot(e.name) && e.ino in t.home
    requires e.ino in t.dirs ==> ViewOf(d, m, t)[e.ino] == Dots(e.ino, h)
    requires Shapes(d', m', Removed(t, e.ino))
    ensures RemoveStep(ViewOf(d, m, t), t, h, e, p, ViewOf(d', m', Removed(t, e.ino)))
  {
    hide Agrees, Listing, DirShape, SameOnBoth, PutIn, SectorsOk, IsDot;
    var t' := Removed(t, e.ino);
    var v, v' := ViewOf(d, m, t), ViewOf(d', m', t');
    RootKnown(v, t);
    forall i | i in t'.dirs && i != h ensures SectorsOk(d, m[i]) && SectorsOk(d', m'[i]) && v'[i] == v[i] {
      RemovedShape(g, d, m, files, t, d', m', h, e, p, i);
    }
  }

  // ------------------------------------------------------------------
  // A new directory
  // ------------------------------------------------------------------

  /** The first sector of a new directory: "." and "..". */
  function DotsSector(self: nat, parent: nat): Sector
    requires self < U32 && parent < U32
  {
    PutBytes(PutBytes(ZeroBytes(SECTOR_SIZE), 0, Encode(Dots(self, parent)[0])), 1, Encode(Dots(self, parent)[1]))
  }

  lemma DotsSectorLive(self: nat, parent: nat)
    requires self < U32 && parent < U32
    ensures Live(Raw(DotsSector(self, parent))) == Dots(self, parent) && BlankHoles(DotsSector(self, parent))
    ensures Raw(DotsSector(self, parent))[0] == Dots(self, parent)[0]
    ensures Raw(DotsSector(self, parent))[1] == Dots(self, parent)[1]
  {
    hide Live, Decode;
    var z: Sector := ZeroBytes(SECTOR_SIZE);
    var e, f := Dots(self, parent)[0], Dots(self, parent)[1];
    BlankSector(z);
    NoneLive(Raw(z));
    EntryPut(z, 0, e);
    var y := PutBytes(z, 0, Encode(e));
    PutRaw(z, 0, Encode(e));
    StoredName(e);
    assert Raw(z)[..0] == [];
    NoneLive(Raw(z)[..0]);
    EntryPut(y, 1, f);
    PutRaw(y, 1, Encode(f));
    StoredName(f);
    LiveAt(Raw(y)[..1], 0);
    assert Raw(y)[..1][..0] == [] && Raw(y)[..1][1..] == [];
  }

  /** An inode whose only block is a sector of dots is an empty directory. */
  lemma DotsShape(d: Disk, n: Node, self: nat, parent: nat)
    requires self < U32 && parent < U32 && n.size == 2 * ENTRY_SIZE
    requires |n.sectors| == 13 && 0 < n.sectors[0] < |d| && forall k :: 1 <= k < 13 ==> n.sectors[k] == 0
    requires d[n.sectors[0]] == DotsSector(self, parent)
    ensures DirShape(d, n, self, parent) && SectorsOk(d, n) && Listing(d, n) == Dots(self, parent)
  {
    hide Live, Raw, Distinguished, DotsSector, BlankHoles, Listing, Entries;
    DotsSectorLive(self, parent);
    DotsDistinguished(self, parent);
    DotsListing(d, n, self, parent);
    assert Dotted(d, n, self, parent) && HolesBlank(d, n) && NoEmptyBlock(d, n);
  }

  lemma DotsListing(d: Disk, n: Node, self: nat, parent: nat)
    requires self < U32 && parent < U32 && SectorsOk(d, n) && n.sectors[0] != 0
    requires forall k :: 1 <= k < 13 ==> n.sectors[k] == 0
    requires d[n.sectors[0]] == DotsSector(self, parent)
    ensures Listing(d, n) == Dots(self, parent)
  {
    hide Live, Raw, DotsSector, Entries, Dots;
    DotsSectorLive(self, parent);
    OtherBlocksEmpty(d, n, 1);
    EntriesTo(d, n, 0);
    EntriesSplit(d, n, 0, 1, 12);
    ReadStart(d, n);
  }

  lemma {:induction false} OtherBlocksEmpty(d: Disk, n: Node, lo: nat)
    requires SectorsOk(d, n) && 1 <= lo <= 12 && forall k :: 1 <= k < 13 ==> n.sectors[k] == 0
    ensures Entries(d, n, lo, 12) == []
    decreases 12 - lo
  {
    if lo < 12 {
      OtherBlocksEmpty(d, n, lo + 1);
    }
  }

  /** The block of a new directory, taken and written. */
  lemma NewDirStep(g: Area, d: Disk, bits: seq<bool>, bits': seq<bool>, m: map<nat, Node>, files: set<nat>, no: nat,
                   parent: nat, lba: nat)
    requires Consistent(g, d, bits, m, files) && no in m && no !in files && m[no] == Node(0, Zeros(13))
    requires Took(g, bits, bits', lba) && no < U32 && parent < U32
    ensures lba < |d| && var d', n' := d[lba := DotsSector(no, parent)], Node(2 * ENTRY_SIZE, Zeros(13)[0 := lba]);
      DirStep(g, d, m, files, no, d', bits', n', parent) && SectorsOk(d', n') && Listing(d', n') == Dots(no, parent)
  {
    hide Owned, Listing, Distinguished, AtRest, OthersSame, Took, DotsSector, DirShape;
    var n := m[no];
    OwnedBasics(g, d, bits, m);
    TookBlock(g, bits, bits', lba);
    var n1 := n.(sectors := n.sectors[0 := lba]);
    DirGrow(g, d, bits, bits', m, no, 0, lba);
    DirWrite(g, d, bits', m[no := n1], no, 0, DotsSector(no, parent), 2 * ENTRY_SIZE);
    var d', n' := d[lba := DotsSector(no, parent)], n1.(size := 2 * ENTRY_SIZE);
    assert m[no := n1][no := n'] == m[no := n'];
    SameOthers(d, d', m[no := n1], m, no);
    FilesKept(g, d, bits, m, files, no, d', bits', n');
    DotsShape(d', n', no, parent);
  }

  /** sys_mkdir, the block of the new directory. The root directory holds the first block of the
      data area, so the ASSERT on the block number never fails. */
  method FillDirectory(fs: FileSystem, inode: Inode, parent: nat) returns (halted: bool)
    requires fs.Valid() && parent < U32 && inode.iNo != 0
    requires inode.iNo in fs.inodes && fs.inodes[inode.iNo] == inode && inode.iNo !in fs.files && inode.Snapshot() == Node(0, Zeros(13))
    modifies fs`disk, fs.blockBitmap.bits, inode
    ensures halted <==> FreeCount(old(fs.blockBitmap.View())) == 0
    ensures !halted ==> Opened(fs, inode, parent) && fs.Contents() == old(fs.Contents())
    ensures !halted ==> SectorsOk(fs.disk, inode.Snapshot()) && Listing(fs.disk, inode.Snapshot()) == Dots(inode.iNo, parent)
    ensures !halted ==> OthersSame(old(fs.disk), fs.disk, old(fs.Nodes()), inode.iNo)
    ensures !halted ==> FreeCount(old(fs.blockBitmap.View())) == FreeCount(fs.blockBitmap.View()) + 1
    ensures !halted ==> fs.Table() == old(fs.Table())
  {
    hide Consistent, Listing, FilesOf, DirShape, OthersSame, Bitmap.View, Took, FreeCount, DotsSector, InodeTable.TableOf;
    ghost var d, bits, m := fs.disk, fs.blockBitmap.View(), fs.Nodes();
    ConsistentOwned(fs.g, d, bits, m, fs.files);
    var lba;
    halted, lba := fs.AllocBlock();
    if halted { return; }
    FirstTaken(fs.g, d, bits, fs.blockBitmap.View(), m, lba);
    assert lba - fs.g.lo != 0;
    NewDirStep(fs.g, d, bits, fs.blockBitmap.View(), m, fs.files, inode.iNo, parent, lba);
    TookCount(fs.g, bits, fs.blockBitmap.View(), lba);
    TookAbove(fs.g, bits, fs.blockBitmap.View(), lba);
    SectorWrite(fs.g.lo, fs.disk, lba, DotsSector(inode.iNo, parent), fs.tableLba);
    inode.iSectors := inode.iSectors[0 := lba];
    fs.disk := fs.disk[lba := DotsSector(inode.iNo, parent)];
    inode.iSize := 2 * ENTRY_SIZE;
    StepTaken(fs, m, d, fs.blockBitmap.View(), inode, parent);
  }

  lemma FirstTaken(g: Area, d: Disk, bits: seq<bool>, bits': seq<bool>, m: map<nat, Node>, lba: nat)
    requires Owned(g, d, bits, m) && Took(g, bits, bits', lba)
    requires 0 in m && |m[0].sectors| == 13 && m[0].sectors[0] == g.lo
    ensures lba != g.lo
  {
    assert Holds(d, m, 0, 0, g.lo);
  }

  /** sys_mkdir, the new directory itself: an inode, a block, "." and "..". */
  method NewDirectory(fs: FileSystem, parent: nat) returns (halted: bool, inode: Inode?)
    requires fs.Valid() && parent < U32
    modifies fs`disk, fs`inodes, fs`files, fs.blockBitmap.bits, fs.inodeBitmap.bits
    ensures halted <==> NoInode(old(fs.inodes)) || FreeCount(old(fs.blockBitmap.View())) == 0
    ensures !halted ==> inode != null && fresh(inode) && inode.iNo !in old(fs.inodes) && inode.iNo < InodeTable.INODES
    ensures !halted ==> fs.inodes == old(fs.inodes)[inode.iNo := inode] && fs.files == old(fs.files)
    ensures !halted ==> Opened(fs, inode, parent) && fs.Contents() == old(fs.Contents())
    ensures !halted ==> SectorsOk(fs.disk, inode.Snapshot()) && Listing(fs.disk, inode.Snapshot()) == Dots(inode.iNo, parent)
    ensures !halted ==> Quiet(old(fs.disk), old(fs.Nodes()), fs.disk, fs.Nodes(), inode.iNo)
    ensures !halted ==> FreeCount(old(fs.blockBitmap.View())) == FreeCount(fs.blockBitmap.View()) + 1
    ensures !halted ==> fs.Table() == old(fs.Table()) && forall j :: 0 <= j < inode.iNo ==> j in old(fs.inodes)
    ensures !halted ==> fs.Nodes() == old(fs.Nodes())[inode.iNo := inode.Snapshot()]
  {
    hide InodeTable.TableOf, FileSystem.Valid, Listing, DirShape, OthersSame, Bitmap.View, FreeCount, SameOnBoth, FileSystem.Contents;
    ghost var d, m := fs.disk, fs.Nodes();
    Numbered(fs);
    BitmapsOk(fs);
    halted, inode := fs.InodeCreate(false);
    if halted { return; }
    ghost var m1 := m[inode.iNo := Node(0, Zeros(13))];
    fs.NodesAre(m1);
    halted := FillDirectory(fs, inode, parent);
    if halted { return; }
    Numbered(fs);
    fs.NodesAre(m[inode.iNo := inode.Snapshot()]);
    QuietNew(d, m, fs.disk, m1, fs.Nodes(), inode.iNo);
  }

  lemma BitmapsOk(fs: FileSystem)
    requires fs.Valid()
    ensures fs.blockBitmap.Valid() && fs.inodeBitmap.Valid() && fs.inodeBitmap.bits != fs.blockBitmap.bits
  {
  }

  /** Every inode number is in use. */
  ghost predicate NoInode(inodes: map<nat, Inode>) {
    forall i :: 0 <= i < InodeTable.INODES ==> i in inodes
  }

  lemma TookCount(g: Area, bits: seq<bool>, bits': seq<bool>, lba: nat)
    requires Took(g, bits, bits', lba)
    ensures FreeCount(bits) == FreeCount(bits') + 1
  {
    hide FreeCount;
    TakeOne(bits, lba - g.lo);
  }

  lemma QuietNew(d: Disk, m: map<nat, Node>, d': Disk, m1: map<nat, Node>, m2: map<nat, Node>, no: nat)
    requires no !in m && m1 == m[no := Node(0, Zeros(13))] && OthersSame(d, d', m1, no) && no in m2 && m2 == m1[no := m2[no]]
    ensures Quiet(d, m, d', m2, no)
  {
    hide SameOnBoth;
  }

  // ------------------------------------------------------------------
  // Adding an entry to a directory
  // ------------------------------------------------------------------

  /** sync_dir_entry followed by inode_sync of the directory. */
  method AddEntry(fs: FileSystem, dir: Inode, e: DirEntry, ghost parent: nat) returns (r: Synced, ghost p: nat)
    requires Opened(fs, dir, parent) && NewTo(Listing(fs.disk, dir.Snapshot()), e)
    modifies fs`disk, fs.blockBitmap.bits, dir
    ensures SectorsOk(old(fs.disk), old(dir.Snapshot()))
    ensures r == BeyondDirect <==> |old(Listing(fs.disk, dir.Snapshot()))| == DIR_CAPACITY
    ensures r == NoFreeBlock <==>
      NeedsBlock(old(fs.disk), old(dir.Snapshot())) && FreeCount(old(fs.blockBitmap.View())) == 0
    ensures r == Stored ==> Opened(fs, dir, parent) && fs.Contents() == old(fs.Contents())
    ensures r == Stored ==> Quiet(old(fs.disk), old(fs.Nodes()), fs.disk, fs.Nodes(), dir.iNo)
    ensures r == Stored ==> KeptFirst(old(dir.iSectors), dir.iSectors) && StoredInode(fs, dir)
    ensures r == Stored ==> PutIn(old(Listing(fs.disk, dir.Snapshot())), Listing(fs.disk, dir.Snapshot()), p, e)
    ensures r == Stored ==> dir.iSize > old(dir.iSize) && fs.Nodes() == old(fs.Nodes())[dir.iNo := dir.Snapshot()]
    ensures r == Stored ==> fs.Table() == TableSynced(old(fs.Table()), dir.iNo, dir.Snapshot())
  {
    hide Listing, PutIn, NewTo, DirShape, OthersSame, FileSystem.Valid, FileSystem.Contents, StoredInode, NeedsBlock, SectorsOk,
      FreeCount, Bitmap.View, KeptFirst, InodeTable.TableOf, TableSynced;
    ghost var d, m := fs.disk, fs.Nodes();
    Numbered(fs);
    ShapeSectors(d, dir.Snapshot(), dir.iNo, parent);
    r, p := SyncDirEntry(fs, dir, e, parent);
    if r == Stored {
      ghost var d1, m1 := fs.disk, fs.Nodes();
      ShapeSectors(d1, dir.Snapshot(), dir.iNo, parent);
      OneLonger(Listing(d, m[dir.iNo]), Listing(d1, dir.Snapshot()), p, e);
      fs.NodesAre(m[dir.iNo := dir.Snapshot()]);
      SyncDir(fs, dir, parent);
      SameOthers(d1, fs.disk, m1, m, dir.iNo);
      OthersSameTransitive(d, d1, fs.disk, m, dir.iNo);
      QuietStep(d, m, fs.disk, fs.Nodes(), dir.iNo);
    }
  }

  lemma OneLonger(l: seq<DirEntry>, l': seq<DirEntry>, p: nat, e: DirEntry)
    requires PutIn(l, l', p, e)
    ensures |l'| == |l| + 1
  {
  }

  lemma QuietStep(d: Disk, m: map<nat, Node>, d': Disk, m': map<nat, Node>, i: nat)
    requires OthersSame(d, d', m, i) && forall j :: j in m && j != i ==> j in m' && m'[j] == m[j]
    ensures Quiet(d, m, d', m', i)
  {
    hide SameOnBoth;
  }

  // ------------------------------------------------------------------
  // sys_mkdir
  // ------------------------------------------------------------------

  /** What making a new name comes to. NoRoom is the failed ASSERT of a bitmap search; Beyond is
      a directory whose direct blocks are full, where this model ends. */
  datatype Made = Created | NoRoom | Beyond

  /** A name that a directory entry keeps and a path can name. */
  ghost predicate NameOk(name: Name) {
    1 <= |name| <= 15 && NoZero(name) && Component(name) && !IsDot(name)
  }

  /** From the steps of sys_mkdir to its effect: d, m before; d1, m1 with the new directory; d2, m2
      with its entry at home; d3 with its inode stored. */
  lemma MkdirDone(d: Disk, m: map<nat, Node>, t: Tree, d1: Disk, m1: map<nat, Node>, d2: Disk, m2: map<nat, Node>, d3: Disk,
                  h: nat, e: DirEntry, p: nat)
    requires h in t.dirs && h in m && h in m1 && h in m2 && e.ino !in m && e.ino in m1 && e.ino in m2 && e.ftype == FT_DIRECTORY
    requires m1.Keys == m.Keys + {e.ino} && m2.Keys == m1.Keys
    requires Quiet(d, m, d1, m1, e.ino) && Quiet(d1, m1, d2, m2, h) && OthersSame(d2, d3, m2, e.ino)
    requires DirShape(d, m[h], h, ParentOf(t, h)) && DirShape(d2, m2[h], h, ParentOf(t, h))
    requires SectorsOk(d1, m1[h]) && SectorsOk(d2, m2[h]) && KeptFirst(m1[h].sectors, m2[h].sectors)
    requires PutIn(Listing(d1, m1[h]), Listing(d2, m2[h]), p, e)
    requires DirShape(d3, m2[e.ino], e.ino, h) && SectorsOk(d3, m2[e.ino])
    requires SectorsOk(d1, m1[e.ino]) && DirShape(d1, m1[e.ino], e.ino, h) && Listing(d1, m1[e.ino]) == Dots(e.ino, h)
    requires SectorsOk(d2, m2[e.ino]) && Listing(d3, m2[e.ino]) == Listing(d2, m2[e.ino])
    ensures Grown1(d, m, t, d3, m2, h, e, p)
  {
    hide Listing, DirShape, SameOnBoth, PutIn, SectorsOk, KeptFirst;
    QuietShape(d, m, d1, m1, e.ino, h, ParentOf(t, h));
    QuietShape(d1, m1, d2, m2, h, e.ino, h);
    assert Quiet(d2, m2, d3, m2, e.ino);
    QuietShape(d2, m2, d3, m2, e.ino, h, ParentOf(t, h));
    ShapeSectors(d3, m2[h], h, ParentOf(t, h));
    forall j | j in m && j != h ensures j in m2 && m2[j] == m[j] && SameOnBoth(d, d3, m[j]) {
      SameThrice(d, d1, d2, d3, m[j]);
    }
  }

  lemma SameTwice(d: Disk, d1: Disk, d2: Disk, n: Node)
    requires SameOnBoth(d, d1, n) && SameOnBoth(d1, d2, n)
    ensures SameOnBoth(d, d2, n)
  {
  }

  lemma SameThrice(d: Disk, d1: Disk, d2: Disk, d3: Disk, n: Node)
    requires SameOnBoth(d, d1, n) && SameOnBoth(d1, d2, n) && SameOnBoth(d2, d3, n)
    ensures SameOnBoth(d, d3, n)
  {
  }

  lemma NeedsSame(d: Disk, d': Disk, n: Node)
    requires SectorsOk(d, n) && SectorsOk(d', n) && SameOnBoth(d, d', n)
    ensures NeedsBlock(d, n) <==> NeedsBlock(d', n)
  {
    forall c | 0 <= c < 12 && n.sectors[c] != 0 ensures d'[n.sectors[c]] == d[n.sectors[c]] {
      assert Slot(d, n, c) == n.sectors[c];
    }
    hide SameOnBoth, FullSector;
    forall b | 0 <= b < 12 ensures FullUpTo(d, n, b) <==> FullUpTo(d', n, b) {
    }
  }

  /** A directory of the tree, ready for use, and what is known of it. */
  lemma HomeReady(fs: FileSystem, t: Tree, h: nat)
    requires fs.Valid() && TreeOk(fs.g, fs.disk, fs.Nodes(), fs.files, t) && h in t.dirs
    ensures h in fs.inodes && Opened(fs, fs.inodes[h], ParentOf(t, h)) && fs.inodes[h].iNo == h < InodeTable.INODES
    ensures SectorsOk(fs.disk, fs.inodes[h].Snapshot())
    ensures ViewOf(fs.disk, fs.Nodes(), t)[h] == Listing(fs.disk, fs.inodes[h].Snapshot())
    ensures h in fs.Nodes() && h !in fs.files
  {
    hide Consistent, Agrees, DirShape, Listing, Bitmap.View;
    DirIsNoFile(fs, t, h);
    ShapeOf(fs.disk, fs.Nodes(), t, h);
  }

  /** Directory h is still what it was after something happened to inode i. */
  lemma StillReady(fs: FileSystem, d: Disk, m: map<nat, Node>, i: nat, dir: Inode, parent: nat)
    requires fs.Valid() && Quiet(d, m, fs.disk, fs.Nodes(), i) && dir.iNo in fs.inodes && fs.inodes[dir.iNo] == dir
    requires dir.iNo in m && dir.iNo != i && dir.iNo !in fs.files && DirShape(d, m[dir.iNo], dir.iNo, parent)
    ensures Opened(fs, dir, parent) && m[dir.iNo] == dir.Snapshot() && SectorsOk(d, m[dir.iNo]) && SectorsOk(fs.disk, dir.Snapshot())
    ensures Listing(fs.disk, dir.Snapshot()) == Listing(d, m[dir.iNo])
    ensures SameOnBoth(d, fs.disk, m[dir.iNo])
  {
    hide FileSystem.Valid, DirShape, Listing, SameOnBoth;
    QuietShape(d, m, fs.disk, fs.Nodes(), i, dir.iNo, parent);
    ShapeSectors(fs.disk, dir.Snapshot(), dir.iNo, parent);
  }

  /** sys_mkdir, the second half: the new directory is entered at home and both inodes are
      stored. d and m are from before sys_mkdir. */
  method LinkDirectory(fs: FileSystem, dir: Inode, inode: Inode, e: DirEntry,
                       ghost t: Tree, ghost d: Disk, ghost m: map<nat, Node>) returns (s: Synced, ghost p: nat)
    requires Opened(fs, dir, ParentOf(t, dir.iNo)) && Opened(fs, inode, dir.iNo) && dir.iNo != inode.iNo
    requires e.ino == inode.iNo && e.ftype == FT_DIRECTORY && !IsDot(e.name) && Component(e.name) && e.ino !in m
    requires TreeOk(fs.g, d, m, fs.files, t) && dir.iNo in t.dirs && dir.iNo in m && fs.Nodes().Keys == m.Keys + {e.ino}
    requires Quiet(d, m, fs.disk, fs.Nodes(), e.ino) && SectorsOk(fs.disk, inode.Snapshot()) && SectorsOk(fs.disk, dir.Snapshot())
    requires Listing(fs.disk, inode.Snapshot()) == Dots(e.ino, dir.iNo)
    requires NewTo(ViewOf(d, m, t)[dir.iNo], e) && NewTo(Listing(fs.disk, dir.Snapshot()), e)
    modifies fs`disk, fs.blockBitmap.bits, dir
    ensures s == BeyondDirect <==> |old(Listing(fs.disk, dir.Snapshot()))| == DIR_CAPACITY
    ensures s == NoFreeBlock <==>
      NeedsBlock(old(fs.disk), old(dir.Snapshot())) && FreeCount(old(fs.blockBitmap.View())) == 0
    ensures s == Stored ==> fs.Valid() && fs.Contents() == old(fs.Contents()) && StoredInode(fs, inode)
    ensures s == Stored ==> TreeOk(fs.g, fs.disk, fs.Nodes(), fs.files, Added(t, dir.iNo, e.ino, true))
    ensures s == Stored ==> AddStep(ViewOf(d, m, t), t, dir.iNo, e, p,
                                    ViewOf(fs.disk, fs.Nodes(), Added(t, dir.iNo, e.ino, true)))
    ensures s == Stored ==> dir.iSize > old(dir.iSize) && fs.Nodes() == old(fs.Nodes())[dir.iNo := dir.Snapshot()]
    ensures s == Stored ==>
      fs.Table() == TableSynced(TableSynced(old(fs.Table()), dir.iNo, dir.Snapshot()), e.ino, inode.Snapshot())
  {
    hide InodeTable.TableOf, TableSynced, FileSystem.Valid, FileSystem.Contents, Listing, DirShape, SameOnBoth, PutIn, SectorsOk, KeptFirst, TreeOk, NeedsBlock,
      FreeCount, Bitmap.View, NewTo, IsDot, Component, StoredInode, Quiet, OthersSame, Added;
    ghost var d1, m1, h := fs.disk, fs.Nodes(), dir.iNo;
    s, p := AddEntry(fs, dir, e, ParentOf(t, h));
    if s != Stored { return; }
    ghost var d2, m2 := fs.disk, fs.Nodes();
    ShapeSectors(d2, dir.Snapshot(), h, ParentOf(t, h));
    StillReady(fs, d1, m1, h, inode, h);
    SyncDir(fs, inode, h);
    fs.NodesAre(m2);
    ShapeSectors(fs.disk, inode.Snapshot(), inode.iNo, h);
    TreeShape(fs.g, d, m, fs.files, t, h);
    MkdirDone(d, m, t, d1, m1, d2, m2, fs.disk, h, e, p);
    TreeAdd(fs.g, d, m, fs.files, t, fs.disk, m2, fs.files, h, e, p);
  }

  lemma TreeShape(g: Area, d: Disk, m: map<nat, Node>, files: set<nat>, t: Tree, h: nat)
    requires TreeOk(g, d, m, files, t) && h in t.dirs
    ensures h in m && DirShape(d, m[h], h, ParentOf(t, h))
  {
    hide Agrees, DirShape, Listing;
  }

  /** sys_mkdir once the path is known to be free: the new directory is a child of h. */
  method MakeDirectory(fs: FileSystem, h: nat, name: Name, ghost t: Tree) returns (r: Made, ghost e: DirEntry, ghost p: nat)
    requires fs.Valid() && TreeOk(fs.g, fs.disk, fs.Nodes(), fs.files, t) && h in t.dirs && NameOk(name)
    requires Lookup(ViewOf(fs.disk, fs.Nodes(), t)[h], name) == Nothing
    modifies fs`disk, fs`inodes, fs`files, fs.blockBitmap.bits, fs.inodeBitmap.bits, fs.inodes.Values
    ensures h in old(fs.Nodes()) && SectorsOk(old(fs.disk), old(fs.Nodes())[h])
    ensures r == NoRoom <==> old(NoRoomAt(fs, h, true))
    ensures r == Beyond <==> !old(NoRoomAt(fs, h, true)) && |Listing(old(fs.disk), old(fs.Nodes())[h])| == DIR_CAPACITY
    ensures r == Created ==> fs.Valid() && fs.Contents() == old(fs.Contents())
    ensures r == Created ==> e == DirEntry(name, e.ino, FT_DIRECTORY) && e.ino !in old(fs.inodes)
    ensures r == Created ==> TreeOk(fs.g, fs.disk, fs.Nodes(), fs.files, Added(t, h, e.ino, true))
    ensures r == Created ==> AddStep(ViewOf(old(fs.disk), old(fs.Nodes()), t), t, h, e, p,
                                     ViewOf(fs.disk, fs.Nodes(), Added(t, h, e.ino, true)))
    ensures r == Created ==> e.ino in fs.inodes && StoredInode(fs, fs.inodes[e.ino])
    ensures r == Created ==> MadeOnDisk(old(fs.inodes), old(fs.Table()), old(fs.Nodes()), h, e.ino, fs.Table(), fs.Nodes())
    ensures r == Created && old(fs.Stored()) ==> (fs.Stored() <==> h < 256 && e.ino < 256)
    ensures r == Created ==> fs.inodes == old(fs.inodes)[e.ino := fs.inodes[e.ino]] && fresh(fs.inodes[e.ino])
  {
    hide InodeTable.TableOf, TableSynced, OnDisk, MadeOnDisk, FileSystem.Valid, FileSystem.Contents, Listing, DirShape, SameOnBoth, PutIn,
      SectorsOk, KeptFirst, TreeOk, NeedsBlock, FreeCount, Bitmap.View, NoInode, Lookup, NewTo, IsDot, Component, StoredInode, Quiet, OthersSame, Added, NameOk,
      NoRoomAt;
    ghost var d, m := fs.disk, fs.Nodes();
    e, p := BLANK, 0;
    HomeReady(fs, t, h);
    NoRoomIs(fs, h, true);
    var dir := fs.inodes[h];
    var halted, inode := NewDirectory(fs, h);
    if halted { return NoRoom, e, p; }
    StillReady(fs, d, m, inode.iNo, dir, ParentOf(t, h));
    NeedsSame(d, fs.disk, m[h]);
    var entry := DirEntry(name, inode.iNo, FT_DIRECTORY);
    e := entry;
    EntryIsNew(fs.g, d, m, fs.files, t, h, e);
    var s;
    ghost var tb := fs.Table();
    s, p := LinkDirectory(fs, dir, inode, entry, t, d, m);
    if s == Stored {
      BothStored(old(fs.inodes), tb, m, h, dir.Snapshot(), e.ino, inode.Snapshot());
    }
    r := match s case Stored => Created case NoFreeBlock => NoRoom case BeyondDirect => Beyond;
  }

  /** Some number below 256 is not in use; the least number not in use then is one. */
  ghost predicate HasLow(inodes: map<nat, Inode>) {
    exists j :: 0 <= j < 256 && j !in inodes
  }

  /** A new inode, with the least number not in use, and its home were stored. */
  ghost predicate MadeOnDisk(inodes: map<nat, Inode>, tb: seq<InodeTable.InodeRec>, m: map<nat, Node>, h: nat, no: nat,
                             tb': seq<InodeTable.InodeRec>, m': map<nat, Node>) {
    && no < InodeTable.INODES && no !in inodes && (forall j :: 0 <= j < no ==> j in inodes)
    && h in m && h in m' && no in m' && m' == m[h := m'[h]][no := m'[no]]
    && tb' == TableSynced(TableSynced(tb, h, m'[h]), no, m'[no])
  }

  lemma LowNumber(inodes: map<nat, Inode>, tb: seq<InodeTable.InodeRec>, m: map<nat, Node>, h: nat, no: nat,
                  tb': seq<InodeTable.InodeRec>, m': map<nat, Node>)
    requires MadeOnDisk(inodes, tb, m, h, no, tb', m')
    ensures no !in inodes && (no < 256 <==> HasLow(inodes))
  {
  }

  lemma BothStored(inodes: map<nat, Inode>, tb: seq<InodeTable.InodeRec>, m: map<nat, Node>, h: nat, nh: Node, no: nat, n: Node)
    requires h in m && no !in m && h < InodeTable.INODES && no < InodeTable.INODES && nh.size > m[h].size
    requires no !in inodes && forall j :: 0 <= j < no ==> j in inodes
    ensures MadeOnDisk(inodes, tb, m, h, no, TableSynced(TableSynced(tb, h, nh), no, n), m[no := n][h := nh])
    ensures OnDisk(tb, m) ==>
      (OnDisk(TableSynced(TableSynced(tb, h, nh), no, n), m[no := n][h := nh]) <==> h < 256 && no < 256)
  {
    assert m[no := n][h := nh] == m[h := nh][no := n];
    if OnDisk(tb, m) {
      SyncBothKeeps(tb, m, h, nh, no, n);
    }
  }

  /** The blocks sys_mkdir takes: one for the new directory, and one for its home when that has no
      room for the entry. */
  ghost function BlocksToMake(d: Disk, n: Node): nat
    requires SectorsOk(d, n)
  {
    1 + if NeedsBlock(d, n) then 1 else 0
  }

  /** The ASSERT of a bitmap search stops the making of a name: no inode number is free, or not
      enough blocks are. */
  ghost predicate NoRoomAt(fs: FileSystem, h: nat, isDir: bool)
    reads fs, fs.inodes.Values, fs.blockBitmap.bits
  {
    fs.blockBitmap.Valid() && h in fs.Nodes() && SectorsOk(fs.disk, fs.Nodes()[h])
    && (NoInode(fs.inodes)
        || FreeCount(fs.blockBitmap.View()) < BlocksToMake(fs.disk, fs.Nodes()[h]) - if isDir then 0 else 1)
  }

  lemma NoRoomIs(fs: FileSystem, h: nat, isDir: bool)
    requires fs.Valid() && h in fs.Nodes() && SectorsOk(fs.disk, fs.Nodes()[h])
    ensures fs.blockBitmap.Valid()
    ensures NoRoomAt(fs, h, isDir) <==> (NoInode(fs.inodes)
      || FreeCount(fs.blockBitmap.View()) < BlocksToMake(fs.disk, fs.Nodes()[h]) - if isDir then 0 else 1)
  {
    BitmapsOk(fs);
  }

  lemma EntryIsNew(g: Area, d: Disk, m: map<nat, Node>, files: set<nat>, t: Tree, h: nat, e: DirEntry)
    requires TreeOk(g, d, m, files, t) && h in t.dirs && NameOk(e.name) && 1 <= e.ftype <= 2
    requires e.ino !in m && e.ino < U32 && Lookup(ViewOf(d, m, t)[h], e.name) == Nothing
    ensures NewTo(ViewOf(d, m, t)[h], e) && !IsDot(e.name) && Component(e.name)
  {
    hide Agrees, Shapes;
    NewEntry(g, d, m, files, t, h, e);
  }
}
