/** Opening every inode anew from the disk (inode.c:95-127), as happens to each inode that nobody has
    open: what a partition whose inode table is sound then holds. */
module Reload {
  import opened Sectors
  import opened BlockMap
  import opened Bitmaps
  import opened DirEntries
  import opened DirSpec
  import opened FileSystem
  import opened InodeStore
  import opened Paths
  import opened TreeSpec
  import opened Namespace
  import opened NameOps
  import opened TreeCalls
  import InodeTable

  /** Number no loads as inode no, as it was. */
  lemma LoadsIt(d: Disk, base: nat, m: map<nat, Node>, no: nat)
    requires OnDisk(InodeTable.TableOf(d, base), m) && no in m && no < InodeTable.INODES
    ensures base + InodeTable.TABLE_SECTORS <= |d|
    ensures InodeTable.Parse(InodeTable.Slice(d, base, no)) == RecordOf(no, m[no])
  {
    hide InodeTable.Parse, InodeTable.Slice;
    assert InodeTable.TableOf(d, base)[no] == SlotRec(m, no);
    InodeTable.TableAt(d, base, no);
  }

  /** Every inode whose number is marked is loaded from its slot. */
  method LoadInodes(d: Disk, base: nat, inodeBitmap: Bitmap, ghost m: map<nat, Node>) returns (inodes: map<nat, Inode>)
    requires OnDisk(InodeTable.TableOf(d, base), m) && inodeBitmap.Valid() && |inodeBitmap.View()| == InodeTable.INODES
    requires forall i :: 0 <= i < InodeTable.INODES ==> (inodeBitmap.View()[i] <==> i in m)
    requires forall i :: i in m ==> i < InodeTable.INODES
    ensures inodes.Keys == m.Keys && forall i :: i in inodes ==> fresh(inodes[i])
    ensures forall i :: i in inodes ==> inodes[i].iNo == i && inodes[i].Snapshot() == m[i]
  {
    hide InodeTable.TableOf, InodeTable.Parse, InodeTable.Slice, OnDisk, Bitmap.View, Bitmap.Guard;
    inodes := map[];
    var no := 0;
    while no < InodeTable.INODES
      invariant no <= InodeTable.INODES && forall i :: i in inodes ==> fresh(inodes[i])
      invariant forall i :: i in inodes <==> i in m && i < no
      invariant forall i :: i in inodes ==> inodes[i].iNo == i && inodes[i].Snapshot() == m[i]
    {
      var used := inodeBitmap.Test(no);
      if used {
        LoadsIt(d, base, m, no);
        var r := InodeTable.InodeLoad(d, base, no);
        var inode := new Inode(r.iNo);
        inode.iSize, inode.iSectors := r.iSize, r.sectors;
        inodes := inodes[no := inode];
      }
      no := no + 1;
    }
    assert inodes.Keys == m.Keys;
  }

  /** A partition with a sound inode table is the same after all its inodes were loaded anew. */
  method ReloadAll(fs: FileSystem) returns (fs': FileSystem)
    requires fs.Valid() && fs.Stored()
    ensures fresh(fs') && fs'.Valid() && fs'.Stored()
    ensures fs'.disk == fs.disk && fs'.g == fs.g && fs'.files == fs.files && fs'.Nodes() == fs.Nodes()
    ensures fs'.blockBitmap == fs.blockBitmap && fs'.inodeBitmap == fs.inodeBitmap && fs'.tableLba == fs.tableLba
    ensures fs'.Contents() == fs.Contents()
  {
    hide Consistent, OnDisk, Bitmap.View, InodeTable.TableOf, FilesOf;
    ghost var m := fs.Nodes();
    var inodes := LoadInodes(fs.disk, fs.tableLba, fs.inodeBitmap, m);
    fs' := new FileSystem(fs.g, fs.tableLba, fs.blockBitmap, fs.inodeBitmap, fs.disk, inodes, fs.files);
    fs'.NodesAre(m);
    assert fs.inodes[0].Snapshot() == m[0] == fs'.inodes[0].Snapshot();
  }

  /** The same for the name space: every path leads where it led, every file holds what it held. */
  method ReloadNames(ns: Namespace, ghost v: Dirs, ghost c: map<nat, seq<Byte>>) returns (ns': Namespace)
    requires ns.Valid() && v == ns.View() && c == ns.fs.Contents()
    ensures fresh(ns') && fresh(ns'.fs) && ns'.Valid() && ns'.tree == ns.tree
    ensures ns'.View() == v && ns'.fs.Contents() == c
  {
    hide FileSystem.Valid, FileSystem.Contents, OnDisk, TreeOk, InodeTable.TableOf;
    var fs' := ReloadAll(ns.fs);
    ns' := new Namespace(fs', ns.tree);
  }

  /** Whether a new name at the end of the path can be stored soundly, asked before the call. */
  method LowNumbers(ns: Namespace, p: Bytes, ghost v: Dirs) returns (low: bool)
    requires ns.Valid() && NoZero(p) && Short(Components(p)) && v == ns.View()
    ensures 0 in v && (low <==> SearchOf(v, p).NotFound? && SearchOf(v, p).parent < 256 && HasLow(ns.fs.inodes))
  {
    hide Namespace.Mounted, Namespace.View, FileSystem.Stored, FileSystem.Valid, Bitmap.View, Full, FirstFit, FreeRun, Tried, SearchOf,
      Components;
    FsPart(ns, v);
    var s, _ := ns.SearchFile(p, v);
    low := false;
    if s.NotFound? && s.parent < 256 {
      NumbersMarked(ns.fs);
      var none, b := ns.fs.inodeBitmap.Scan(1);
      low := !none && b < 256;
      MarkedLow(ns.fs.inodeBitmap.View(), ns.fs.inodes, none, b);
    }
  }

  lemma NumbersMarked(fs: FileSystem)
    requires fs.Valid()
    ensures fs.inodeBitmap.Valid() && |fs.inodeBitmap.View()| == InodeTable.INODES
    ensures forall i :: 0 <= i < |fs.inodeBitmap.View()| ==> (fs.inodeBitmap.View()[i] <==> i in fs.inodes)
  {
    hide Consistent, Bitmap.View;
  }

  lemma MarkedLow(v: seq<bool>, inodes: map<nat, Inode>, none: bool, b: int)
    requires |v| == InodeTable.INODES && forall i :: 0 <= i < |v| ==> (v[i] <==> i in inodes)
    requires (none <==> Full(v)) && (!none ==> FirstFit(v, 1, b))
    ensures HasLow(inodes) <==> !none && b < 256
  {
    if !none {
      LeastFree(v, b);
    }
  }

  /** sys_mkdir, and then everything read anew from the disk: the path leads to the new directory, all
      older paths lead where they led and all files hold what they held. Whether the numbers allow
      that is known before the call; when they do not, the inode table is not sound afterwards. */
  method MkdirReloaded(ns: Namespace, p: Bytes) returns (r: Call, low: bool, ns': Namespace, ghost e: DirEntry)
    requires ns.Valid() && NoZero(p) && Short(Components(p))
    modifies ns`tree, ns.fs`disk, ns.fs`inodes, ns.fs`files, ns.fs.blockBitmap.bits, ns.fs.inodeBitmap.bits,
      ns.fs.inodes.Values
    ensures 0 in old(ns.View()) && r == old(MakeOutcome(ns, p, true))
    ensures r == Zero ==> old(SearchOf(ns.View(), p)).NotFound?
    ensures r == Zero && low ==> ns'.Valid() && ns'.fs.Contents() == old(ns.fs.Contents())
    ensures r == Zero && low ==> 0 in ns'.View() && Within(old(ns.View()), ns'.View())
    ensures r == Zero && low ==>
      Find(ns'.View(), 0, 0, Components(p)) == FoundDir(e.ino, old(SearchOf(ns.View(), p)).parent)
    ensures r == Zero && !low ==> ns' == ns && !ns.fs.Stored()
  {
    hide Namespace.Mounted, FileSystem.Stored, Namespace.View, FileSystem.Valid, FileSystem.Contents, Components, SearchOf, Find, Within,
      MakeOutcome, InodeTable.TableOf, Tried, MadeOnDisk, MadeNew, HasLow, NoZero, Short;
    ghost var v, at, t := ns.View(), 0, ns.tree;
    FsPart(ns, v);
    low := LowNumbers(ns, p, v);
    r, e, at := SysMkdir(ns, p);
    ns' := ns;
    if r == Zero {
      FsPart(ns, ns.View());
      if low {
        NewLeads(v, t, p, e, at, ns.View(), ns.tree);
        ns' := ReloadNames(ns, ns.View(), ns.fs.Contents());
      }
    }
  }

  lemma NewLeads(v: Dirs, t: Tree, p: Bytes, e: DirEntry, at: nat, v': Dirs, t': Tree)
    requires MadeNew(v, t, p, e, at, v', t', true)
    ensures 0 in v && 0 in v' && SearchOf(v, p).NotFound? && Within(v, v')
    ensures Find(v', 0, 0, Components(p)) == FoundDir(e.ino, SearchOf(v, p).parent)
  {
  }

  lemma FsPart(ns: Namespace, v: Dirs)
    requires ns.Mounted() && v == ns.View()
    ensures ns.fs.Valid() && 0 in v && (ns.Valid() <==> ns.fs.Stored())
  {
    hide FileSystem.Valid, FileSystem.Stored;
    ns.TreeFacts(v);
  }
}
