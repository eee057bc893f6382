/** The calls that change the name space: creating a file, sys_mkdir, sys_unlink, sys_rmdir. */
module TreeCalls {
  import opened Sectors
  import opened BlockMap
  import opened Bitmaps
  import opened DirEntries
  import opened DirSpec
  import opened FileSystem
  import opened InodeStore
  import opened Directory
  import opened DirReading
  import opened Paths
  import opened TreeSpec
  import opened Namespace
  import opened NameOps
  import InodeTable

  // ------------------------------------------------------------------
  // file_create
  // ------------------------------------------------------------------

  /** Storing the inode of a file leaves the partition as it was. */
  lemma FileSynced(g: Area, d: Disk, bits: seq<bool>, m: map<nat, Node>, files: set<nat>, d': Disk)
    requires Consistent(g, d, bits, m, files) && Owned(g, d', bits, m) && forall j :: j in m ==> SameOnBoth(d, d', m[j])
    ensures Consistent(g, d', bits, m, files)
    ensures forall j :: j in files ==> j in m && NodeOk(d, m[j])
    ensures FilesOf(d', m, files) == FilesOf(d, m, files)
  {
    hide Owned, Filled, Content, SameOnBoth;
    forall j | j in files ensures AtRest(d', m[j]) && Content(d', m[j]) == Content(d, m[j]) {
      AtRestKept(d, d', m[j]);
    }
  }

  /** inode_sync of a file. */
  method SyncFile(fs: FileSystem, inode: Inode)
    requires fs.Valid() && inode.iNo in fs.inodes && fs.inodes[inode.iNo] == inode
    modifies fs`disk
    ensures fs.Valid() && fs.Contents() == old(fs.Contents()) && fs.Nodes() == old(fs.Nodes())
    ensures forall j :: j in fs.Nodes() ==> SameOnBoth(old(fs.disk), fs.disk, fs.Nodes()[j])
    ensures StoredInode(fs, inode) && fs.Table() == TableSynced(old(fs.Table()), inode.iNo, inode.Snapshot())
  {
    hide Consistent, Owned, FilesOf, SameOnBoth, Bitmap.View, InodeTable.LoadsAs, InodeTable.TableOf, TableSynced;
    ghost var d, bits, m, i := fs.disk, fs.blockBitmap.View(), fs.Nodes(), inode.iNo;
    ConsistentOwned(fs.g, d, bits, m, fs.files);
    OwnedBasics(fs.g, d, bits, m);
    fs.SyncInode(inode, m, i);
    FileSynced(fs.g, d, bits, m, fs.files, fs.disk);
    fs.NodesAre(m);
  }

  /** From the steps of file_create to its effect. */
  lemma CreateDone(d: Disk, m: map<nat, Node>, t: Tree, m1: map<nat, Node>, d2: Disk, m2: map<nat, Node>, d3: Disk,
                   h: nat, e: DirEntry, p: nat)
    requires h in t.dirs && h in m && h in m2 && e.ino !in m && m1 == m[e.ino := Node(0, Zeros(13))] && e.ftype == FT_REGULAR
    requires m2.Keys == m1.Keys && Quiet(d, m1, d2, m2, h) && forall j :: j in m2 ==> SameOnBoth(d2, d3, m2[j])
    requires DirShape(d2, m2[h], h, ParentOf(t, h)) && SectorsOk(d, m[h]) && SectorsOk(d2, m2[h])
    requires KeptFirst(m[h].sectors, m2[h].sectors) && PutIn(Listing(d, m[h]), Listing(d2, m2[h]), p, e)
    ensures Grown1(d, m, t, d3, m2, h, e, p)
  {
    hide Listing, DirShape, SameOnBoth, PutIn, SectorsOk, KeptFirst;
    DirKept(d2, d3, m2[h], h, ParentOf(t, h));
    ShapeSectors(d3, m2[h], h, ParentOf(t, h));
    forall j | j in m && j != h ensures j in m2 && m2[j] == m[j] && SameOnBoth(d, d3, m[j]) {
      assert m1[j] == m[j];
      SameTwice(d, d2, d3, m[j]);
    }
  }

  /** file_create, from the inode number on; the slot in the file table is not part of this
      model. */
  method MakeFile(fs: FileSystem, h: nat, name: Name, ghost t: Tree) returns (r: Made, ghost e: DirEntry, ghost p: nat)
    requires fs.Valid() && TreeOk(fs.g, fs.disk, fs.Nodes(), fs.files, t) && h in t.dirs && NameOk(name)
    requires Lookup(ViewOf(fs.disk, fs.Nodes(), t)[h], name) == Nothing
    modifies fs`disk, fs`inodes, fs`files, fs.blockBitmap.bits, fs.inodeBitmap.bits, fs.inodes.Values
    ensures h in old(fs.Nodes()) && SectorsOk(old(fs.disk), old(fs.Nodes())[h])
    ensures r == NoRoom <==> old(NoRoomAt(fs, h, false))
    ensures r == Beyond <==> !old(NoRoomAt(fs, h, false)) && |Listing(old(fs.disk), old(fs.Nodes())[h])| == DIR_CAPACITY
    ensures r == Created ==> e == DirEntry(name, e.ino, FT_REGULAR) && e.ino !in old(fs.inodes)
    ensures r == Created ==> fs.Valid() && fs.Contents() == old(fs.Contents())[e.ino := []]
    ensures r == Created ==> TreeOk(fs.g, fs.disk, fs.Nodes(), fs.files, Added(t, h, e.ino, false))
    ensures r == Created ==> AddStep(ViewOf(old(fs.disk), old(fs.Nodes()), t), t, h, e, p,
                                     ViewOf(fs.disk, fs.Nodes(), Added(t, h, e.ino, false)))
    ensures r == Created ==> e.ino in fs.inodes && StoredInode(fs, fs.inodes[e.ino])
    ensures r == Created ==> MadeOnDisk(old(fs.inodes), old(fs.Table()), old(fs.Nodes()), h, e.ino, fs.Table(), fs.Nodes())
    ensures r == Created && old(fs.Stored()) ==> (fs.Stored() <==> h < 256 && e.ino < 256)
    ensures r == Created ==> fs.inodes == old(fs.inodes)[e.ino := fs.inodes[e.ino]] && fresh(fs.inodes[e.ino])
  {
    hide FileSystem.Valid, FileSystem.Contents, Listing, DirShape, SameOnBoth, PutIn, SectorsOk, KeptFirst, TreeOk, NeedsBlock,
      FreeCount, Bitmap.View, NoInode, Lookup, NewTo, IsDot, Component, StoredInode, Quiet, OthersSame, Added, NameOk,
      NoRoomAt, InodeTable.TableOf, TableSynced, OnDisk, MadeOnDisk;
    ghost var d, m, files, parent := fs.disk, fs.Nodes(), fs.files, ParentOf(t, h);
    e, p := BLANK, 0;
    HomeReady(fs, t, h);
    NoRoomIs(fs, h, false);
    BitmapsOk(fs);
    var dir := fs.inodes[h];
    var halted, inode := fs.InodeCreate(true);
    AllInodes(old(fs.inodes));
    if halted { return NoRoom, e, p; }
    ghost var m1 := m[inode.iNo := Node(0, Zeros(13))];
    fs.NodesAre(m1);
    Numbered(fs);
    var entry := DirEntry(name, inode.iNo, FT_REGULAR);
    e := entry;
    EntryIsNew(fs.g, d, m, files, t, h, e);
    var s;
    s, p := AddEntry(fs, dir, entry, parent);
    if s != Stored {
      r := if s == NoFreeBlock then NoRoom else Beyond;
      return;
    }
    ghost var d2, m2 := fs.disk, fs.Nodes();
    ShapeSectors(d2, dir.Snapshot(), h, parent);
    SyncFile(fs, inode);
    r := Created;
    BothStored(old(fs.inodes), old(fs.Table()), m, h, dir.Snapshot(), e.ino, inode.Snapshot());
    CreateDone(d, m, t, m1, d2, m2, fs.disk, h, e, p);
    TreeAdd(fs.g, d, m, files, t, fs.disk, m2, fs.files, h, e, p);
  }

  lemma AllInodes(inodes: map<nat, Inode>)
    ensures NoInode(inodes) <==> forall i :: 0 <= i < InodeTable.INODES ==> i in inodes
  {
  }

  // ------------------------------------------------------------------
  // Taking an inode out of the tree
  // ------------------------------------------------------------------

  /** A directory with an entry for no, which delete_dir_entry will find. */
  lemma WillFind(v: Dirs, t: Tree, h: nat, no: nat)
    requires Agrees(v, t) && no in t.home && t.home[no] == h
    ensures h in v && !NoneNames(v[h], no)
  {
    hide Lookup, DotsBound;
    ListedAt(v, t, no);
    var k :| 0 <= k < |v[h]| && !IsDot(v[h][k].name) && v[h][k].ino == no;
    assert DirAgrees(v, t, h) && DirSpec.Storable(v[h][k]);
    assert Names(v[h][k], no);
  }

  /** From the steps of the removal to its effect. */
  lemma RemoveDone(d: Disk, m: map<nat, Node>, t: Tree, d1: Disk, m1: map<nat, Node>, d2: Disk, m2: map<nat, Node>,
                   h: nat, e: DirEntry, p: nat)
    requires h in t.dirs && h in m && h in m1 && h != e.ino && e.ino in m && m1.Keys == m.Keys && m2 == m1 - {e.ino}
    requires OthersSame(d, d1, m, h) && (forall j :: j in m && j != h ==> m1[j] == m[j])
    requires forall j :: j in m1 ==> SameOnBoth(d1, d2, m1[j])
    requires DirShape(d1, m1[h], h, ParentOf(t, h)) && SectorsOk(d, m[h]) && SectorsOk(d1, m1[h])
    requires KeptFirst(m[h].sectors, m1[h].sectors) && PutIn(Listing(d1, m1[h]), Listing(d, m[h]), p, e)
    ensures Shrunk1(d, m, t, d2, m2, h, e, p)
  {
    hide Listing, DirShape, SameOnBoth, PutIn, SectorsOk, KeptFirst;
    DirKept(d1, d2, m1[h], h, ParentOf(t, h));
    ShapeSectors(d2, m2[h], h, ParentOf(t, h));
    forall j | j in m2 && j != h ensures m2[j] == m[j] && SameOnBoth(d, d2, m[j]) {
      assert m1[j] == m[j];
      SameTwice(d, d1, d2, m[j]);
    }
  }

  /** delete_dir_entry and inode_release: the inode no leaves its home h. */
  method Unlist(fs: FileSystem, h: nat, no: nat, ghost t: Tree) returns (ghost e: DirEntry, ghost p: nat)
    requires fs.Valid() && TreeOk(fs.g, fs.disk, fs.Nodes(), fs.files, t)
    requires no in t.home && t.home[no] == h && h in t.dirs && h != no && no in fs.Nodes()
    requires no in t.dirs ==> ViewOf(fs.disk, fs.Nodes(), t)[no] == Dots(no, h)
    modifies fs`disk, fs`inodes, fs`files, fs.blockBitmap.bits, fs.inodeBitmap.bits, fs.inodes.Values
    ensures fs.Valid() && fs.inodes == old(fs.inodes) - {no} && fs.Contents() == old(fs.Contents()) - {no}
    ensures TreeOk(fs.g, fs.disk, fs.Nodes(), fs.files, Removed(t, no)) && e.ino == no
    ensures RemoveStep(ViewOf(old(fs.disk), old(fs.Nodes()), t), t, h, e, p, ViewOf(fs.disk, fs.Nodes(), Removed(t, no)))
    ensures h in fs.Nodes() && fs.Table() == TableCleared(TableSynced(old(fs.Table()), h, fs.Nodes()[h]), no)
    ensures old(fs.Stored()) ==> (fs.Stored() <==> h < 256)
  {
    hide InodeTable.TableOf, TableSynced, TableCleared, OnDisk, FileSystem.Valid, FileSystem.Contents, Listing, DirShape, SameOnBoth,
      PutIn, SectorsOk, KeptFirst, TreeOk, Bitmap.View, IsDot, StoredInode, OthersSame, Removed, Slot, Released, NoneNames;
    ghost var d, m, parent := fs.disk, fs.Nodes(), ParentOf(t, h);
    HomeReady(fs, t, h);
    TreeHome(fs.g, d, m, fs.files, t, h, no);
    var dir := fs.inodes[h];
    Numbered(fs);
    BitmapsOk(fs);
    var found;
    found, p, e := DeleteDirEntry(fs, dir, no, parent);
    assert found;
    ghost var d1, m1 := fs.disk, fs.Nodes();
    ShapeSectors(d1, m1[h], h, parent);
    fs.InodeRelease(no);
    RemoveDone(d, m, t, d1, m1, fs.disk, fs.Nodes(), h, e, p);
    NamedEntry(e, no);
    TreeRemove(fs.g, d, m, old(fs.files), t, fs.disk, fs.Nodes(), h, e, p);
    DeleteStored(d, m, d1, m1, old(fs.Table()), h, no, parent, e, p);
  }

  /** The directory's size has changed, so its slot must have. */
  lemma DeleteStored(d: Disk, m: map<nat, Node>, d1: Disk, m1: map<nat, Node>, tb: seq<InodeTable.InodeRec>, h: nat, no: nat,
                     parent: nat, e: DirEntry, p: nat)
    requires h in m && h in m1 && no in m && h != no && h < InodeTable.INODES && no < InodeTable.INODES && m1 == m[h := m1[h]]
    requires DirShape(d, m[h], h, parent) && DirShape(d1, m1[h], h, parent) && SectorsOk(d, m[h]) && SectorsOk(d1, m1[h])
    requires PutIn(Listing(d1, m1[h]), Listing(d, m[h]), p, e)
    ensures OnDisk(tb, m) ==> (OnDisk(TableCleared(TableSynced(tb, h, m1[h]), no), m1 - {no}) <==> h < 256)
  {
    hide Listing, DirShape;
    ShapeSectors(d, m[h], h, parent);
    ShapeSectors(d1, m1[h], h, parent);
    OneLonger(Listing(d1, m1[h]), Listing(d, m[h]), p, e);
    if OnDisk(tb, m) {
      SyncDeleteKeeps(tb, m, h, m1[h], no);
    }
  }

  lemma NamedEntry(e: DirEntry, no: nat)
    requires Names(e, no)
    ensures !IsDot(e.name) && e.ino == no
  {
  }

  lemma TreeHome(g: Area, d: Disk, m: map<nat, Node>, files: set<nat>, t: Tree, h: nat, no: nat)
    requires TreeOk(g, d, m, files, t) && h in t.dirs && no in t.home && t.home[no] == h
    ensures h in m && SectorsOk(d, m[h]) && !NoneNames(Listing(d, m[h]), no) && no != 0 && 0 in m && no in m
  {
    hide Agrees, DirShape, Listing;
    ShapeOf(d, m, t, h);
    WillFind(ViewOf(d, m, t), t, h, no);
  }

  // ------------------------------------------------------------------
  // The system calls
  // ------------------------------------------------------------------

  /** What a call comes to: 0, -1, a failed ASSERT, the use of memory that nobody has written (a number
      after a path of slashes alone, or the byte in front of an empty path), or the end of the direct
      blocks, where this model ends. */
  datatype Call = Zero | MinusOne | Halts | Garbage | OutOfModel

  /** The path leads nowhere, but all of it up to its last component does. */
  ghost predicate NewPath(v: Dirs, p: Bytes, h: nat, name: Name)
    requires 0 in v
  {
    SearchOf(v, p) == NotFound(h) && Components(p) != [] && Find(v, 0, 0, Components(p)) == Missing(h, [name])
    && Components(p)[|Components(p)| - 1] == name
  }

  /** The depths of the path and of the part searched agree exactly when only the last component
      was not found. */
  lemma DepthsAgree(v: Dirs, t: Tree, p: Bytes, searched: Bytes)
    requires Agrees(v, t) && 0 in v && SearchOf(v, p).NotFound? && Tried(v, Components(p), searched)
    ensures |Components(searched)| == |Components(p)| <==> NotFoundLast(v, p)
    ensures NotFoundLast(v, p) ==> searched == Paths.Joined(Components(p))
    ensures Components(p) != [] && Components(searched) != []
  {
    hide Components, Lookup, Agrees, Paths.Joined;
    var cs := Components(p);
    var r := Find(v, 0, 0, cs);
    FoundIn(v, 0, 0, cs);
    ComponentsProper(p);
    var tried := cs[..|cs| - |r.rest| + 1];
    ComponentsJoined(tried);
    assert |r.rest| == 1 ==> tried == cs;
  }

  /** Everything but the last component is there. */
  ghost predicate NotFoundLast(v: Dirs, p: Bytes)
    requires 0 in v
  {
    Find(v, 0, 0, Components(p)).Missing? && |Find(v, 0, 0, Components(p)).rest| == 1
  }

  /** The last component then is a proper new name in a directory of the tree. */
  lemma OnlyLast(v: Dirs, t: Tree, p: Bytes)
    requires Agrees(v, t) && 0 in v && SearchOf(v, p).NotFound? && NotFoundLast(v, p)
    requires NoZero(p) && Short(Components(p))
    ensures Components(p) != []
    ensures var name, h := Components(p)[|Components(p)| - 1], SearchOf(v, p).parent;
      h in v && NameOk(name) && Lookup(v[h], name) == Nothing && NewPath(v, p, h, name)
  {
    hide Components, Lookup, Agrees, DirAgrees;
    var cs := Components(p);
    var r := Find(v, 0, 0, cs);
    FoundIn(v, 0, 0, cs);
    ComponentsProper(p);
    ComponentsNoZero(p);
    MissingThere(v, t, 0, 0, cs);
    assert r.rest[0] == cs[|cs| - 1];
    DotsKnown(v, t, r.parent, r.rest[0]);
  }

  lemma DotsKnown(v: Dirs, t: Tree, at: nat, name: Name)
    requires Agrees(v, t) && at in v && Lookup(v[at], name) == Nothing
    ensures !IsDot(name)
  {
    hide Lookup, AllListed, Distinguished;
    assert DirAgrees(v, t, at);
  }

  lemma {:induction false} MissingThere(v: Dirs, t: Tree, parent: nat, at: nat, cs: seq<Name>)
    requires Agrees(v, t) && at in v && Find(v, parent, at, cs).Missing?
    ensures var r := Find(v, parent, at, cs); r.parent in v && r.rest != [] && Lookup(v[r.parent], r.rest[0]) == Nothing
    decreases |cs|
  {
    hide Agrees, Lookup;
    if Lookup(v[at], cs[0]).Something? {
      EntryLeads(v, t, at, cs[0]);
      MissingThere(v, t, at, Lookup(v[at], cs[0]).entry.ino, cs[1..]);
    }
  }

  /** A new name was made for path p: the tree grew by it, it is found there, and every path that
      led somewhere leads to the same place still. */
  ghost predicate MadeNew(v: Dirs, t: Tree, p: Bytes, e: DirEntry, at: nat, v': Dirs, t': Tree, isDir: bool) {
    && 0 in v && 0 in v'
    && var h := SearchOf(v, p);
    h.NotFound? && NewPath(v, p, h.parent, e.name) && AddStep(v, t, h.parent, e, at, v')
    && t' == Added(t, h.parent, e.ino, isDir) && Within(v, v')
    && Find(v', 0, 0, Components(p)) == if isDir then FoundDir(e.ino, h.parent) else FoundFile(e.ino, h.parent)
  }

  lemma NewFound(v: Dirs, t: Tree, p: Bytes, h: nat, e: DirEntry, at: nat, v': Dirs, isDir: bool)
    requires Agrees(v, t) && 0 in v && NewPath(v, p, h, e.name) && AddStep(v, t, h, e, at, v')
    requires e.ftype == if isDir then FT_DIRECTORY else FT_REGULAR
    ensures MadeNew(v, t, p, e, at, v', Added(t, h, e.ino, isDir), isDir)
  {
    hide Agrees, Components, AddStep, Find, Within;
    AddFinds(v, t, h, e, at, v', Components(p));
    RootStays(v, v');
  }

  lemma RootStays(v: Dirs, v': Dirs)
    requires 0 in v && Within(v, v')
    ensures 0 in v'
  {
  }

  /** sys_mkdir, and sys_open creating a file, find the directory and the name for the new entry.
      The name is what follows the last slash of the part of the path that was searched. */
  method FindHome(ns: Namespace, p: Bytes, ghost v: Dirs) returns (r: Search, fresh_: bool, name: Name)
    requires ns.Valid() && v == ns.View() && NoZero(p) && Short(Components(p))
    ensures 0 in v && r == SearchOf(v, p)
    ensures fresh_ <==> r.NotFound? && NotFoundLast(v, p)
    ensures fresh_ ==> r.parent in v && NameOk(name) && Lookup(v[r.parent], name) == Nothing && NewPath(v, p, r.parent, name)
  {
    hide Namespace.Mounted, FileSystem.Stored, Namespace.View, Components, Agrees, SearchOf, Tried, NotFoundLast, Lookup, NewPath, NameOk,
      Paths.Joined, Component;
    var searched;
    r, searched := ns.SearchFile(p, v);
    ns.TreeFacts(v);
    fresh_, name := false, [];
    if r.NotFound? {
      DepthsAgree(v, ns.tree, p, searched);
      var pathnameDepth := PathDepthCnt(p);
      var searchedDepth := PathDepthCnt(searched);
      if pathnameDepth == searchedDepth {
        OnlyLast(v, ns.tree, p);
        ComponentsProper(p);
        ghost var cs := Components(p);
        JoinedStarts(cs);
        var slash := StrRChr(searched, SLASH);
        assert searched[0] == SLASH;
        LastSlash(cs, slash);
        fresh_, name := true, searched[slash + 1..];
      }
    }
  }

  /** A new directory or file in directory h of the name space. */
  method MakeAt(ns: Namespace, h: nat, name: Name, isDir: bool, ghost v: Dirs) returns (m: Made, ghost e: DirEntry, ghost at: nat)
    requires ns.Valid() && v == ns.View() && h in v && NameOk(name) && Lookup(v[h], name) == Nothing
    modifies ns`tree, ns.fs`disk, ns.fs`inodes, ns.fs`files, ns.fs.blockBitmap.bits, ns.fs.inodeBitmap.bits,
      ns.fs.inodes.Values
    ensures m == NoRoom <==> old(NoRoomAt(ns.fs, h, isDir))
    ensures m == Beyond <==> !old(NoRoomAt(ns.fs, h, isDir)) && |v[h]| == DIR_CAPACITY
    ensures m == Created ==> e == DirEntry(name, e.ino, if isDir then FT_DIRECTORY else FT_REGULAR)
    ensures m == Created ==> ns.Mounted() && e.ino !in old(ns.fs.inodes)
    ensures m == Created ==> (ns.Valid() <==> h < 256 && HasLow(old(ns.fs.inodes)))
    ensures m == Created ==> e.ino !in old(ns.fs.Contents())
    ensures m == Created ==> e.ino in ns.fs.inodes && fresh(ns.fs.inodes[e.ino])
    ensures m == Created ==> ns.fs.inodes == old(ns.fs.inodes)[e.ino := ns.fs.inodes[e.ino]]
    ensures m == Created ==>
      MadeOnDisk(old(ns.fs.inodes), old(ns.fs.Table()), old(ns.fs.Nodes()), h, e.ino, ns.fs.Table(), ns.fs.Nodes())
    ensures m == Created ==> ns.fs.Contents() == if isDir then old(ns.fs.Contents()) else old(ns.fs.Contents())[e.ino := []]
    ensures m == Created ==> AddStep(v, old(ns.tree), h, e, at, ns.View())
    ensures m == Created ==> ns.tree == Added(old(ns.tree), h, e.ino, isDir)
  {
    hide FileSystem.Valid, FileSystem.Stored, FileSystem.Contents, Agrees, TreeOk, Lookup, NameOk, NoRoomAt, Added, Shapes, Bitmap.View,
      AddStep, MadeOnDisk, InodeTable.TableOf, Namespace.Mounted, HasLow;
    ghost var t := ns.tree;
    ViewFacts(ns, v);
    FilesNumbered(ns.fs);
    HomeReady(ns.fs, t, h);
    if isDir {
      m, e, at := MakeDirectory(ns.fs, h, name, t);
    } else {
      m, e, at := MakeFile(ns.fs, h, name, t);
    }
    if m == Created {
      LowNumber(old(ns.fs.inodes), old(ns.fs.Table()), old(ns.fs.Nodes()), h, e.ino, ns.fs.Table(), ns.fs.Nodes());
      SetTree(ns, Added(t, h, e.ino, isDir));
    }
  }

  lemma FilesNumbered(fs: FileSystem)
    requires fs.Valid()
    ensures forall i :: i in fs.Contents() ==> i in fs.inodes
  {
    hide Bitmap.View, Owned;
    HasContents(fs);
  }

  /** The tree that the partition now holds. */
  ghost method SetTree(ns: Namespace, t: Tree)
    requires ns.fs.Valid() && TreeOk(ns.fs.g, ns.fs.disk, ns.fs.Nodes(), ns.fs.files, t)
    modifies ns`tree
    ensures ns.tree == t && ns.Mounted() && ns.View() == old(ViewOf(ns.fs.disk, ns.fs.Nodes(), t))
    ensures ns.fs.Contents() == old(ns.fs.Contents()) && ns.fs.Nodes() == old(ns.fs.Nodes())
    ensures ns.fs.Table() == old(ns.fs.Table()) && (ns.Valid() <==> old(ns.fs.Stored()))
  {
    hide FileSystem.Valid, FileSystem.Stored, FileSystem.Contents, TreeOk, Agrees, Shapes;
    ns.tree := t;
  }

  /** sys_mkdir. The new inode has the least number not in use. With that number and the home's below
      256 the tree has grown by the path, on the disk as well; otherwise the inode table no longer
      tells what it should, and MadeOnDisk says what is in it. */
  method SysMkdir(ns: Namespace, p: Bytes) returns (r: Call, ghost e: DirEntry, ghost at: nat)
    requires ns.Valid() && NoZero(p) && Short(Components(p))
    modifies ns`tree, ns.fs`disk, ns.fs`inodes, ns.fs`files, ns.fs.blockBitmap.bits, ns.fs.inodeBitmap.bits,
      ns.fs.inodes.Values
    ensures 0 in old(ns.View())
    ensures r == old(MakeOutcome(ns, p, true))
    ensures r == MinusOne ==> ns.Valid() && ns.View() == old(ns.View()) && ns.fs.Contents() == old(ns.fs.Contents())
    ensures r == MinusOne ==> ns.fs.inodes == old(ns.fs.inodes)
    ensures r == Zero ==> e.ino in ns.fs.inodes && fresh(ns.fs.inodes[e.ino])
    ensures r == Zero ==> ns.fs.inodes == old(ns.fs.inodes)[e.ino := ns.fs.inodes[e.ino]]
    ensures r == Zero ==> old(SearchOf(ns.View(), p)).NotFound? && ns.Mounted()
    ensures r == Zero ==> var h := old(SearchOf(ns.View(), p)).parent;
      MadeOnDisk(old(ns.fs.inodes), old(ns.fs.Table()), old(ns.fs.Nodes()), h, e.ino, ns.fs.Table(), ns.fs.Nodes())
      && (ns.Valid() <==> h < 256 && HasLow(old(ns.fs.inodes)))
    ensures r == Zero && ns.Valid() ==> ns.fs.Contents() == old(ns.fs.Contents())
    ensures r == Zero && ns.Valid() ==> MadeNew(old(ns.View()), old(ns.tree), p, e, at, ns.View(), ns.tree, true)
  {
    hide Namespace.Mounted, FileSystem.Stored, Namespace.View, FileSystem.Valid, FileSystem.Contents, Components, Agrees, SearchOf, NotFoundLast,
      Lookup, NewPath, NameOk, NoRoomAt, Added, MadeNew, AddStep, MadeOnDisk, HasLow;
    ghost var v, t := ns.View(), ns.tree;
    ns.TreeFacts(v);
    e, at := BLANK, 0;
    var s, new_, name := FindHome(ns, p, v);
    if !new_ {
      r := match s case Stopped => Halts case Unset => Garbage case _ => MinusOne;
      return;
    }
    var m;
    m, e, at := MakeAt(ns, s.parent, name, true, v);
    r := match m case Created => Zero case NoRoom => Halts case Beyond => OutOfModel;
    if m == Created {
      NewFound(v, t, p, s.parent, e, at, ns.View(), true);
    }
  }

  /** What making a new name for p comes to. */
  ghost function MakeOutcome(ns: Namespace, p: Bytes, isDir: bool): Call
    requires ns.Mounted() && 0 in ns.View()
    reads ns, ns.fs, ns.fs.inodes.Values, ns.fs.blockBitmap.bits, ns.fs.inodeBitmap.bits
  {
    var v := ns.View();
    match SearchOf(v, p)
    case Stopped => Halts
    case Unset => Garbage
    case GotDir(_, _) => MinusOne
    case GotFile(_, _) => MinusOne
    case NotFound(h) =>
      if !NotFoundLast(v, p) then MinusOne
      else if NoRoomAt(ns.fs, h, isDir) then Halts
      else if h in v && |v[h]| == DIR_CAPACITY then OutOfModel
      else Zero
  }

  lemma ViewFacts(ns: Namespace, v: Dirs)
    requires ns.Mounted() && v == ns.View()
    ensures ns.fs.Valid()
    ensures TreeOk(ns.fs.g, ns.fs.disk, ns.fs.Nodes(), ns.fs.files, ns.tree) && Agrees(v, ns.tree) && v.Keys == ns.tree.dirs
    ensures Shapes(ns.fs.disk, ns.fs.Nodes(), ns.tree) && v == ViewOf(ns.fs.disk, ns.fs.Nodes(), ns.tree) && 0 in v
  {
    hide FileSystem.Valid, Agrees, Shapes;
    ns.TreeFacts(v);
    RootKnown(v, ns.tree);
  }

  /** A path that does not end in a slash has a component. */
  lemma EndsInName(p: Bytes)
    requires p != [] && p[0] == SLASH && p[|p| - 1] != SLASH
    ensures Components(p) != []
  {
    FirstComponent(p);
    SkippedTail(p);
    NotAllSlashes(p);
  }

  lemma {:induction false} NotAllSlashes(p: Bytes)
    requires p != [] && p[|p| - 1] != SLASH
    ensures SkipSlashes(p) != []
  {
    if p[0] == SLASH {
      NotAllSlashes(p[1..]);
    }
  }

  lemma NeverUnset(v: Dirs, p: Bytes)
    requires 0 in v && p != [] && p[|p| - 1] != SLASH
    ensures SearchOf(v, p) != Unset
  {
    if p[0] == SLASH { EndsInName(p); }
  }

  /** sys_open of a new file (flag O_CREAT). The name is what follows the last slash of the path; the
      numbers matter as for sys_mkdir. */
  method SysOpenCreate(ns: Namespace, p: Bytes) returns (r: Call, ghost e: DirEntry, ghost at: nat)
    requires ns.Valid() && NoZero(p) && Short(Components(p))
    modifies ns`tree, ns.fs`disk, ns.fs`inodes, ns.fs`files, ns.fs.blockBitmap.bits, ns.fs.inodeBitmap.bits,
      ns.fs.inodes.Values
    ensures 0 in old(ns.View())
    ensures r == if p == [] then Garbage else if p[|p| - 1] == SLASH then MinusOne else old(MakeOutcome(ns, p, false))
    ensures r == MinusOne ==> ns.Valid() && ns.View() == old(ns.View()) && ns.fs.Contents() == old(ns.fs.Contents())
    ensures r == MinusOne ==> ns.fs.inodes == old(ns.fs.inodes)
    ensures r == Zero ==> e.ino in ns.fs.inodes && fresh(ns.fs.inodes[e.ino])
    ensures r == Zero ==> ns.fs.inodes == old(ns.fs.inodes)[e.ino := ns.fs.inodes[e.ino]]
    ensures r == Zero ==> old(SearchOf(ns.View(), p)).NotFound? && ns.Mounted()
    ensures r == Zero ==> var h := old(SearchOf(ns.View(), p)).parent;
      MadeOnDisk(old(ns.fs.inodes), old(ns.fs.Table()), old(ns.fs.Nodes()), h, e.ino, ns.fs.Table(), ns.fs.Nodes())
      && e.ino !in old(ns.fs.Contents()) && (ns.Valid() <==> h < 256 && HasLow(old(ns.fs.inodes)))
    ensures r == Zero && ns.Valid() ==> ns.fs.Contents() == old(ns.fs.Contents())[e.ino := []]
    ensures r == Zero && ns.Valid() ==> MadeNew(old(ns.View()), old(ns.tree), p, e, at, ns.View(), ns.tree, false)
  {
    hide Namespace.Mounted, FileSystem.Stored, Namespace.View, FileSystem.Valid, FileSystem.Contents, Components, Agrees, NotFoundLast,
      Lookup, NewPath, NameOk, NoRoomAt, Added, MadeNew, AddStep, Find, MadeOnDisk, HasLow, SearchOf;
    ghost var v, t := ns.View(), ns.tree;
    ns.TreeFacts(v);
    e, at := BLANK, 0;
    if p == [] {
      return Garbage, e, at;
    }
    if p[|p| - 1] == SLASH {
      return MinusOne, e, at;
    }
    var s, new_, name := FindHome(ns, p, v);
    NeverUnset(v, p);
    if !new_ {
      r := if s == Stopped then Halts else MinusOne;
      return;
    }
    PathLast(v, p, s.parent, name);
    var slash := StrRChr(p, SLASH);
    LastComponent(p, slash);
    var m;
    m, e, at := MakeAt(ns, s.parent, p[slash + 1..], false, v);
    r := match m case Created => Zero case NoRoom => Halts case Beyond => OutOfModel;
    if m == Created {
      NewFound(v, t, p, s.parent, e, at, ns.View(), false);
    }
  }

  lemma PathLast(v: Dirs, p: Bytes, h: nat, name: Name)
    requires 0 in v && NewPath(v, p, h, name)
    ensures Components(p) != [] && Components(p)[|Components(p)| - 1] == name && p != [] && p[0] == SLASH
  {
  }

  // ------------------------------------------------------------------
  // sys_open
  // ------------------------------------------------------------------

  /** What sys_open without O_CREAT comes to: a descriptor for the inode, -1, a failed ASSERT, or the
      use of the byte in front of an empty path. */
  datatype Opening = Fd(no: nat) | Refused | Fails | Strays

  /** All components of the path were found. */
  ghost predicate AllReached(v: Dirs, p: Bytes)
    requires 0 in v
  {
    Reach(v, 0, Components(p)) == |Components(p)|
  }

  ghost function OpenOutcome(v: Dirs, p: Bytes): Opening
    requires 0 in v
  {
    if p == [] then Strays
    else if p[|p| - 1] == SLASH then Refused
    else
      match SearchOf(v, p)
      case Stopped => Fails
      case GotFile(no, _) => if AllReached(v, p) then Fd(no) else Refused
      case _ => Refused
  }

  /** Everything before the last component is a directory, and the path goes no further. */
  ghost predicate NamesFile(v: Dirs, p: Bytes)
    requires 0 in v
  {
    var cs := Components(p);
    p != [] && p[|p| - 1] != SLASH && cs != [] && Find(v, 0, 0, cs[..|cs| - 1]).FoundDir?
  }

  /** A path at which search_file finds a file opens it exactly when all components were needed to get
      there and it does not end in a slash: when the file is what the path names. */
  lemma OpensExactly(v: Dirs, p: Bytes, no: nat, h: nat)
    requires 0 in v && SearchOf(v, p) == GotFile(no, h)
    ensures p != [] && Components(p) != []
    ensures OpenOutcome(v, p) == Fd(no) <==> AllReached(v, p) && p[|p| - 1] != SLASH
    ensures OpenOutcome(v, p) == Fd(no) <==> NamesFile(v, p)
    ensures OpenOutcome(v, p) != Fd(no) ==> OpenOutcome(v, p) == Refused
  {
    hide Find, Reach, Components;
    FindRoot(v);
    FileReach(v, 0, 0, Components(p));
  }

  /** The depths of the path and of the part searched agree exactly when the file is its last
      component. */
  lemma FileDepth(v: Dirs, p: Bytes, searched: Bytes)
    requires 0 in v && SearchOf(v, p).GotFile? && Tried(v, Components(p), searched)
    ensures Components(p) != [] && Components(searched) != []
    ensures |Components(searched)| == |Components(p)| <==> AllReached(v, p)
  {
    hide Components, Find, Reach, Paths.Joined;
    var cs := Components(p);
    FindRoot(v);
    FileReach(v, 0, 0, cs);
    ComponentsProper(p);
    ComponentsJoined(cs[..Reach(v, 0, cs)]);
  }

  /** sys_open without O_CREAT, the slot in the file table left out. */
  method SysOpen(ns: Namespace, p: Bytes, ghost v: Dirs) returns (r: Opening)
    requires ns.Valid() && v == ns.View() && NoZero(p) && Short(Components(p))
    ensures 0 in v && r == OpenOutcome(v, p)
  {
    hide Namespace.Mounted, FileSystem.Stored, Namespace.View, Components, Agrees, Find, Reach, Tried;
    ns.TreeFacts(v);
    if p == [] { return Strays; }
    if p[|p| - 1] == SLASH { return Refused; }
    var pathnameDepth := PathDepthCnt(p);
    var s, searched := ns.SearchFile(p, v);
    NeverUnset(v, p);
    match s
    case Stopped => return Fails;
    case Unset => assert false;
    case GotDir(_, _) => return Refused;
    case NotFound(_) => return Refused;
    case GotFile(no, _) =>
      FileDepth(v, p, searched);
      var searchedDepth := PathDepthCnt(searched);
      if pathnameDepth != searchedDepth { return Refused; }
      return Fd(no);
  }

  // ------------------------------------------------------------------
  // sys_unlink
  // ------------------------------------------------------------------

  /** The path led to inode no in directory h; now it leads nowhere, and every path that still
      leads somewhere leads where it did. */
  ghost predicate TakenAway(v: Dirs, t: Tree, p: Bytes, h: nat, no: nat, e: DirEntry, at: nat, v': Dirs, t': Tree) {
    && 0 in v && 0 in v' && (SearchOf(v, p) == GotDir(no, h) || SearchOf(v, p) == GotFile(no, h))
    && e.ino == no && RemoveStep(v, t, h, e, at, v') && t' == Removed(t, no) && Within(v', v)
    && Find(v', 0, 0, Components(p)).Missing?
  }

  lemma Forgotten(v: Dirs, t: Tree, p: Bytes, h: nat, e: DirEntry, at: nat, v': Dirs)
    requires Agrees(v, t) && 0 in v && RemoveStep(v, t, h, e, at, v') && h != e.ino
    requires SearchOf(v, p) == GotDir(e.ino, h) || SearchOf(v, p) == GotFile(e.ino, h)
    ensures TakenAway(v, t, p, h, e.ino, e, at, v', Removed(t, e.ino))
  {
    hide Agrees, Components, RemoveStep, Find, Within;
    RemoveAgrees(v, t, h, e, at, v');
    RemoveForgets(v, t, h, e, at, v', Components(p));
  }

  /** What a path to a file says of the tree. */
  lemma FileHome(v: Dirs, t: Tree, p: Bytes, no: nat, h: nat)
    requires Agrees(v, t) && 0 in v && SearchOf(v, p) == GotFile(no, h)
    ensures h in t.dirs && no in t.home && t.home[no] == h && no !in t.dirs && h != no
  {
    hide Lookup, AllListed, Distinguished, Components, Find;
    TreeSpec.FoundEntry(v, 0, 0, Components(p));
    var k :| 0 <= k < |v[h]| && v[h][k].ino == no && v[h][k].ftype == FT_REGULAR;
    assert DirAgrees(v, t, h) && Placed(t, h, v[h][k]);
  }

  /** Unlist, at the level of the name space. */
  method UnlistAt(ns: Namespace, h: nat, no: nat, ghost v: Dirs) returns (ghost e: DirEntry, ghost at: nat)
    requires ns.Valid() && v == ns.View()
    requires no in ns.tree.home && ns.tree.home[no] == h && h in ns.tree.dirs && h != no
    requires no in v ==> v[no] == Dots(no, h)
    modifies ns`tree, ns.fs`disk, ns.fs`inodes, ns.fs`files, ns.fs.blockBitmap.bits, ns.fs.inodeBitmap.bits,
      ns.fs.inodes.Values
    ensures ns.Mounted() && ns.fs.inodes == old(ns.fs.inodes) - {no} && ns.fs.Contents() == old(ns.fs.Contents()) - {no}
    ensures (ns.Valid() <==> h < 256) && h in ns.fs.Nodes()
    ensures ns.fs.Table() == TableCleared(TableSynced(old(ns.fs.Table()), h, ns.fs.Nodes()[h]), no)
    ensures e.ino == no && RemoveStep(v, old(ns.tree), h, e, at, ns.View()) && ns.tree == Removed(old(ns.tree), no)
  {
    hide FileSystem.Valid, FileSystem.Stored, FileSystem.Contents, Agrees, TreeOk, Shapes, Removed, RemoveStep, Bitmap.View, Dots,
      InodeTable.TableOf, TableCleared, TableSynced, Namespace.Mounted;
    ghost var t := ns.tree;
    ViewFacts(ns, v);
    InNodes(ns.fs.g, ns.fs.disk, ns.fs.Nodes(), ns.fs.files, t, no);
    e, at := Unlist(ns.fs, h, no, t);
    SetTree(ns, Removed(t, no));
  }

  lemma InNodes(g: Area, d: Disk, m: map<nat, Node>, files: set<nat>, t: Tree, no: nat)
    requires TreeOk(g, d, m, files, t)
    ensures no in t.home ==> no in m
  {
    hide Agrees, Shapes;
  }

  /** The search of the file table for an open file with this inode. */
  method InTable(table: seq<int>, no: nat) returns (idx: nat)
    ensures idx < |table| ==> table[idx] == no
    ensures idx >= |table| ==> no !in table
  {
    idx := 0;
    while idx < |table|
      invariant idx <= |table| && forall k :: 0 <= k < idx ==> table[k] != no
    {
      if table[idx] == no { return; }
      idx := idx + 1;
    }
  }

  /** What sys_unlink comes to when table holds the inode numbers of the open files. */
  ghost function UnlinkOutcome(v: Dirs, p: Bytes, table: seq<int>): Call
    requires 0 in v
  {
    match SearchOf(v, p)
    case Stopped => Halts
    case Unset => Garbage
    case GotDir(i, _) => if i == 0 then Halts else MinusOne
    case NotFound(_) => MinusOne
    case GotFile(i, _) => if i in table then MinusOne else Zero
  }

  /** sys_unlink has no test of the depth: what it removes is not what the path names exactly when
      components remain after the file, or the path ends in a slash. */
  lemma UnlinkBeyond(v: Dirs, p: Bytes, table: seq<int>)
    requires 0 in v && UnlinkOutcome(v, p, table) == Zero
    ensures SearchOf(v, p).GotFile? && p != []
    ensures !NamesFile(v, p) <==> !AllReached(v, p) || p[|p| - 1] == SLASH
    ensures !NamesFile(v, p) <==> OpenOutcome(v, p) == Refused
  {
    hide Find, Reach, Components;
    var s := SearchOf(v, p);
    OpensExactly(v, p, s.ino, s.parent);
  }

  /** The paths /f, /f/x and /f/ of a file f in the root: all three remove it, only the first names
      it. */
  lemma UnlinkBelow(v: Dirs, e: DirEntry)
    requires 0 in v && Lookup(v[0], [102]) == Something(e) && e.ftype == FT_REGULAR
    ensures UnlinkOutcome(v, [SLASH, 102], []) == Zero && OpenOutcome(v, [SLASH, 102]) == Fd(e.ino)
    ensures UnlinkOutcome(v, [SLASH, 102, SLASH, 120], []) == Zero && OpenOutcome(v, [SLASH, 102, SLASH, 120]) == Refused
    ensures UnlinkOutcome(v, [SLASH, 102, SLASH], []) == Zero && OpenOutcome(v, [SLASH, 102, SLASH]) == Refused
  {
    hide Lookup, Components;
    FilePaths();
    FileAt(v, e, [SLASH, 102], []);
    FileAt(v, e, [SLASH, 102, SLASH, 120], [[120]]);
    FileAt(v, e, [SLASH, 102, SLASH], []);
  }

  lemma FilePaths()
    ensures Components([SLASH, 102]) == [[102]] + []
    ensures Components([SLASH, 102, SLASH, 120]) == [[102]] + [[120]]
    ensures Components([SLASH, 102, SLASH]) == [[102]] + []
  {
    hide Components;
    var f: Name, x: Name := [102], [120];
    NoComponents();
    FirstComponent([SLASH]);
    ComponentFirst(f, []);
    ComponentFirst(x, []);
    ComponentFirst(f, [SLASH] + x);
    ComponentFirst(f, [SLASH]);
    assert [SLASH] + f + [] == [SLASH, 102] && [SLASH] + x + [] == [SLASH] + x;
    assert [SLASH] + f + ([SLASH] + x) == [SLASH, 102, SLASH, 120] && [SLASH] + f + [SLASH] == [SLASH, 102, SLASH];
  }

  lemma FileAt(v: Dirs, e: DirEntry, p: Bytes, more: seq<Name>)
    requires 0 in v && Lookup(v[0], [102]) == Something(e) && e.ftype == FT_REGULAR
    requires Components(p) == [[102]] + more && p != [] && p[0] == SLASH && |p| < MAX_PATH_LEN
    ensures SearchOf(v, p) == GotFile(e.ino, 0) && (AllReached(v, p) <==> more == [])
  {
    hide Lookup, Components;
    assert Components(p)[0] == [102];
  }

  /** sys_unlink. A file is not removed while it is open. */
  method SysUnlink(ns: Namespace, p: Bytes, table: seq<int>) returns (r: Call, ghost e: DirEntry, ghost at: nat)
    requires ns.Valid() && NoZero(p) && Short(Components(p))
    modifies ns`tree, ns.fs`disk, ns.fs`inodes, ns.fs`files, ns.fs.blockBitmap.bits, ns.fs.inodeBitmap.bits,
      ns.fs.inodes.Values
    ensures 0 in old(ns.View())
    ensures r == UnlinkOutcome(old(ns.View()), p, table)
    ensures r == MinusOne ==> ns.Valid() && ns.View() == old(ns.View()) && ns.fs.Contents() == old(ns.fs.Contents())
    ensures r in {Zero, MinusOne} ==> ns.fs.inodes.Values <= old(ns.fs.inodes.Values)
    ensures r == Zero ==> old(SearchOf(ns.View(), p)).GotFile?
    ensures r == Zero ==> var s := old(SearchOf(ns.View(), p));
      && ns.Mounted() && (ns.Valid() <==> s.parent < 256) && s.parent in ns.fs.Nodes()
      && ns.fs.Table() == TableCleared(TableSynced(old(ns.fs.Table()), s.parent, ns.fs.Nodes()[s.parent]), s.ino)
      && (ns.Valid() ==>
            ns.fs.Contents() == old(ns.fs.Contents()) - {s.ino}
            && TakenAway(old(ns.View()), old(ns.tree), p, s.parent, s.ino, e, at, ns.View(), ns.tree))
  {
    hide Namespace.Mounted, FileSystem.Stored, Namespace.View, FileSystem.Valid, FileSystem.Contents, Components, Agrees, Removed, RemoveStep, Find,
      TakenAway, Tried, InodeTable.TableOf, TableCleared, TableSynced;
    ghost var v, t := ns.View(), ns.tree;
    ns.TreeFacts(v);
    e, at := BLANK, 0;
    if !(|p| < MAX_PATH_LEN) {
      return Halts, e, at;
    }
    var s, _ := ns.SearchFile(p, v);
    match s
    case Stopped => r := Halts;
    case Unset => r := Garbage;
    case NotFound(_) => r := MinusOne;
    case GotDir(i, _) => r := if i == 0 then Halts else MinusOne;
    case GotFile(i, h) =>
      FileHome(v, t, p, i, h);
      var fileIdx := InTable(table, i);
      if fileIdx < |table| {
        r := MinusOne;
      } else {
        RootKnown(v, t);
        e, at := UnlistAt(ns, h, i, v);
        r := Zero;
        Forgotten(v, t, p, h, e, at, ns.View());
      }
  }

  // ------------------------------------------------------------------
  // sys_rmdir
  // ------------------------------------------------------------------

  /** What sys_rmdir comes to: it removes a directory that holds nothing but "." and "..". */
  ghost function RmdirOutcome(v: Dirs, p: Bytes): Call
    requires 0 in v
  {
    match SearchOf(v, p)
    case Stopped => Halts
    case Unset => Garbage
    case NotFound(_) => MinusOne
    case GotFile(_, _) => MinusOne
    case GotDir(i, _) => if i == 0 then Halts else if i in v && OnlyDotNames(v[i]) then Zero else MinusOne
  }

  ghost predicate OnlyDotNames(l: seq<DirEntry>) {
    forall k :: 0 <= k < |l| ==> IsDot(l[k].name)
  }

  /** dir_is_empty, at the level of the name space. */
  method IsEmptyAt(ns: Namespace, no: nat, ghost v: Dirs) returns (r: bool)
    requires ns.Valid() && v == ns.View() && no in v
    ensures no in ns.fs.inodes && no in ns.tree.dirs && (r <==> OnlyDotNames(v[no]))
    ensures r ==> v[no] == Dots(no, ParentOf(ns.tree, no)) && forall k :: 1 <= k < 13 ==> ns.fs.inodes[no].iSectors[k] == 0
    ensures |ns.fs.inodes[no].iSectors| == 13
  {
    hide FileSystem.Valid, Agrees, TreeOk, Shapes, Listing;
    ViewFacts(ns, v);
    HomeReady(ns.fs, ns.tree, no);
    r := DirIsEmpty(ns.fs, ns.fs.inodes[no], ParentOf(ns.tree, no));
  }

  /** dir_remove of a directory found in its own "." entry: its entry at home is not looked for
      and stays, while the inode goes. What is left is no tree. */
  method RemoveFromItself(ns: Namespace, no: nat, ghost v: Dirs)
    requires ns.Valid() && v == ns.View() && no in v && no != 0 && v[no] == Dots(no, ParentOf(ns.tree, no))
    modifies ns.fs`disk, ns.fs`inodes, ns.fs`files, ns.fs.blockBitmap.bits, ns.fs.inodeBitmap.bits, ns.fs.inodes.Values
    ensures ns.fs.Valid() && ns.fs.Stored() && ns.fs.inodes == old(ns.fs.inodes) - {no}
    ensures forall t :: !TreeOk(ns.fs.g, ns.fs.disk, ns.fs.Nodes(), ns.fs.files, t)
  {
    hide FileSystem.Valid, FileSystem.Contents, Agrees, TreeOk, Shapes, Listing, DirShape, SameOnBoth, StoredInode, OthersSame, PutIn,
      KeptFirst, NoneNames, Slot, Released, Bitmap.View, InodeTable.TableOf, OnDisk, TableCleared;
    ghost var fs, t := ns.fs, ns.tree;
    ghost var d, m, files := fs.disk, fs.Nodes(), fs.files;
    ViewFacts(ns, v);
    HomeReady(fs, t, no);
    BitmapsOk(fs);
    DotsName(no, ParentOf(t, no));
    var found, _, _ := DeleteDirEntry(ns.fs, ns.fs.inodes[no], no, ParentOf(t, no));
    assert !found;
    fs.NodesAre(m);
    ns.fs.InodeRelease(no);
    fs.NodesAre(m - {no});
    NoTree(fs.g, d, m, files, t, fs.disk, no);
  }

  lemma DotsName(self: nat, parent: nat)
    ensures NoneNames(Dots(self, parent), self)
  {
  }

  /** Without directory no, still listed at home, there is no tree. */
  lemma NoTree(g: Area, d: Disk, m: map<nat, Node>, files: set<nat>, t: Tree, d': Disk, no: nat)
    requires TreeOk(g, d, m, files, t) && no in t.dirs && no != 0
    requires forall j :: j in m ==> SameOnBoth(d, d', m[j])
    ensures forall t' :: !TreeOk(g, d', m - {no}, files - {no}, t')
  {
    forall t' ensures !TreeOk(g, d', m - {no}, files - {no}, t') {
      NotThisTree(g, d, m, files, t, d', no, t');
    }
  }

  lemma NotThisTree(g: Area, d: Disk, m: map<nat, Node>, files: set<nat>, t: Tree, d': Disk, no: nat, t': Tree)
    requires TreeOk(g, d, m, files, t) && no in t.dirs && no != 0
    requires forall j :: j in m ==> SameOnBoth(d, d', m[j])
    ensures !TreeOk(g, d', m - {no}, files - {no}, t')
  {
    hide Agrees, Listing, DirShape, SameOnBoth;
    if TreeOk(g, d', m - {no}, files - {no}, t') {
      var v, v' := ViewOf(d, m, t), ViewOf(d', m - {no}, t');
      RootKnown(v, t);
      assert t'.dirs == t.dirs - {no};
      forall i | i in t'.dirs ensures SectorsOk(d, m[i]) && SectorsOk(d', m[i]) && Listing(d', m[i]) == Listing(d, m[i]) {
        ShapeOf(d, m, t, i);
        ShapeOf(d', m - {no}, t', i);
        DirKept(d, d', m[i], i, ParentOf(t, i));
      }
      assert v' == v - {no};
      Dangling(v, t, no, t');
      assert false;
    }
  }

  /** What a path to an empty directory other than the root says of the tree: it was found at
      home, unless the path ends in ".". */
  lemma DirHome(v: Dirs, t: Tree, p: Bytes, no: nat, h: nat)
    requires Agrees(v, t) && 0 in v && SearchOf(v, p) == GotDir(no, h) && no != 0
    ensures no in v && Components(p) != []
    ensures OnlyDotNames(v[no]) ==> (h == no <==> Components(p)[|Components(p)| - 1] == DOT)
    ensures OnlyDotNames(v[no]) && h != no ==> no in t.home && t.home[no] == h && h in t.dirs
  {
    hide Lookup, AllListed, DirAgrees, Components, Find;
    var cs := Components(p);
    FoundIn(v, 0, 0, cs);
    FindRoot(v);
    LastStep(v, t, cs);
    ListedAt(v, t, no);
  }

  lemma FindRoot(v: Dirs)
    requires 0 in v
    ensures Find(v, 0, 0, []) == FoundDir(0, 0)
  {
  }

  /** sys_rmdir. When it returns 0 the directory is gone from the tree, unless the path ended in
      ".": then its name stays behind and what is left is no tree. */
  method SysRmdir(ns: Namespace, p: Bytes) returns (r: Call, ghost e: DirEntry, ghost at: nat)
    requires ns.Valid() && NoZero(p) && Short(Components(p))
    modifies ns`tree, ns.fs`disk, ns.fs`inodes, ns.fs`files, ns.fs.blockBitmap.bits, ns.fs.inodeBitmap.bits,
      ns.fs.inodes.Values
    ensures 0 in old(ns.View())
    ensures r == RmdirOutcome(old(ns.View()), p)
    ensures r == MinusOne ==> ns.Valid() && ns.View() == old(ns.View()) && ns.fs.Contents() == old(ns.fs.Contents())
    ensures r in {Zero, MinusOne} ==> ns.fs.inodes.Values <= old(ns.fs.inodes.Values)
    ensures r == Zero ==> old(SearchOf(ns.View(), p)).GotDir? && Components(p) != []
    ensures r == Zero && Components(p)[|Components(p)| - 1] != DOT ==> var s := old(SearchOf(ns.View(), p));
      && ns.Mounted() && (ns.Valid() <==> s.parent < 256) && s.parent in ns.fs.Nodes()
      && ns.fs.Table() == TableCleared(TableSynced(old(ns.fs.Table()), s.parent, ns.fs.Nodes()[s.parent]), s.ino)
      && (ns.Valid() ==>
            ns.fs.Contents() == old(ns.fs.Contents()) - {s.ino}
            && TakenAway(old(ns.View()), old(ns.tree), p, s.parent, s.ino, e, at, ns.View(), ns.tree))
    ensures r == Zero && Components(p)[|Components(p)| - 1] == DOT ==> var s := old(SearchOf(ns.View(), p));
      && ns.fs.Valid() && ns.fs.Stored() && ns.fs.inodes == old(ns.fs.inodes) - {s.ino}
      && (forall t :: !TreeOk(ns.fs.g, ns.fs.disk, ns.fs.Nodes(), ns.fs.files, t))
  {
    hide Namespace.Mounted, FileSystem.Stored, Namespace.View, FileSystem.Valid, FileSystem.Contents, Components, Agrees, Removed, RemoveStep, Find,
      TakenAway, Tried, TreeOk, Dots, OnlyDotNames, InodeTable.TableOf, TableCleared, TableSynced;
    ghost var v, t := ns.View(), ns.tree;
    ns.TreeFacts(v);
    e, at := BLANK, 0;
    var s, _ := ns.SearchFile(p, v);
    match s
    case Stopped => r := Halts;
    case Unset => r := Garbage;
    case NotFound(_) => r := MinusOne;
    case GotFile(_, _) => r := MinusOne;
    case GotDir(i, h) =>
      if i == 0 {
        return Halts, e, at;
      }
      DirHome(v, t, p, i, h);
      var empty := IsEmptyAt(ns, i, v);
      if !empty {
        r := MinusOne;
      } else if h == i {
        assert forall k :: 1 <= k < 13 ==> ns.fs.inodes[i].iSectors[k] == 0;
        RemoveFromItself(ns, i, v);
        r := Zero;
      } else {
        assert forall k :: 1 <= k < 13 ==> ns.fs.inodes[i].iSectors[k] == 0;
        e, at := UnlistAt(ns, h, i, v);
        r := Zero;
        Forgotten(v, t, p, h, e, at, ns.View());
      }
  }

  // ------------------------------------------------------------------
  // Writing a file
  // ------------------------------------------------------------------

  /** Writing a file leaves the whole tree as it was. */
  lemma WriteKeepsTree(g: Area, d: Disk, m: map<nat, Node>, files: set<nat>, t: Tree, d': Disk, m': map<nat, Node>, i: nat)
    requires TreeOk(g, d, m, files, t) && i in files && m'.Keys == m.Keys && Quiet(d, m, d', m', i)
    ensures TreeOk(g, d', m', files, t) && Shapes(d', m', t) && ViewOf(d', m', t) == ViewOf(d, m, t)
  {
    hide Agrees, Listing, DirShape, SameOnBoth;
    RootKnown(ViewOf(d, m, t), t);
    forall j | j in t.dirs
      ensures j in m' && m'[j] == m[j] && DirShape(d', m'[j], j, ParentOf(t, j)) && SectorsOk(d, m[j]) && SectorsOk(d', m'[j])
      ensures Listing(d', m'[j]) == Listing(d, m[j])
    {
      QuietShape(d, m, d', m', i, j, ParentOf(t, j));
      ShapeSectors(d', m'[j], j, ParentOf(t, j));
    }
    assert ViewOf(d', m', t) == ViewOf(d, m, t);
  }

  /** File i, and no other, was extended by buf. */
  ghost predicate Grew(c: map<nat, seq<Byte>>, i: nat, buf: seq<Byte>, c': map<nat, seq<Byte>>) {
    i in c && c' == c[i := c[i] + buf]
  }

  /** file_write, in the name space. With a number below 256 no path leads anywhere else afterwards and
      no other file has changed; otherwise the inode table no longer tells what it should. */
  method SysWrite(ns: Namespace, file: File, buf: seq<Byte>) returns (r: Outcome)
    requires ns.Valid() && file.fdInode.iNo in ns.fs.files && ns.fs.inodes[file.fdInode.iNo] == file.fdInode
    requires |buf| < 0xC000_0000 && file.fdInode.iSize + |buf| < MAX_SIZE
    modifies ns.fs`disk, ns.fs.blockBitmap.bits, file, file.fdInode
    ensures r == Halted <==>
      FreeCount(old(ns.fs.blockBitmap.View())) < BlocksNeeded(old(file.fdInode.Snapshot()), |buf|)
    ensures r != Halted ==> r == Returned(|buf|) && ns.Mounted() && (ns.Valid() <==> file.fdInode.iNo < 256)
    ensures r != Halted && ns.Valid() ==>
      ns.View() == old(ns.View()) && Grew(old(ns.fs.Contents()), file.fdInode.iNo, buf, ns.fs.Contents())
  {
    hide FileSystem.Stored, FileSystem.Valid, FileSystem.Contents, Agrees, TreeOk, Shapes, OthersSame, Quiet, Bitmap.View, FreeCount, BlocksNeeded,
      InodeTable.LoadsAs;
    ghost var fs, t, v, i := ns.fs, ns.tree, ns.View(), file.fdInode.iNo;
    ghost var d, m := fs.disk, fs.Nodes();
    ViewFacts(ns, v);
    Numbered(fs);
    HasContents(fs);
    r := ns.fs.FileWrite(file, buf);
    if r != Halted {
      QuietStep(d, m, fs.disk, fs.Nodes(), i);
      WriteKeepsTree(fs.g, d, m, fs.files, t, fs.disk, fs.Nodes(), i);
    }
  }

  lemma HasContents(fs: FileSystem)
    requires fs.Valid()
    ensures fs.Contents().Keys == fs.files && fs.blockBitmap.Valid()
    ensures forall i :: i in fs.files ==> i in fs.inodes && |fs.inodes[i].iSectors| == 13
  {
    hide Owned, Filled, Bitmap.View, Content;
  }
}
