/** Runs of file-system calls: what any sequence of them does to the tree and to the files, and where
    it must end. */
module CallRuns {
  import opened Sectors
  import opened BlockMap
  import opened Bitmaps
  import opened DirEntries
  import opened DirSpec
  import opened FileSystem
  import opened InodeStore
  import opened Paths
  import opened TreeSpec
  import opened Namespace
  import opened NameOps
  import opened TreeCalls
  import opened Reload
  import Directory
  import InodeTable

  type Contents = map<nat, seq<Byte>>

  /** Unlink carries the inode numbers of the open files; Write opens p, without O_CREAT, and appends to
      the file. */
  datatype FsCall = Mkdir(p: Bytes) | Create(p: Bytes) | Unlink(p: Bytes, table: seq<int>) | Rmdir(p: Bytes)
                  | Write(p: Bytes, buf: seq<Byte>)

  ghost predicate CallOk(c: FsCall) {
    NoZero(c.p) && Short(Components(c.p)) && (c.Write? ==> |c.buf| < 0xC000_0000)
  }

  /** What a call that comes back, with sound numbers, has done. */
  ghost predicate CallDid(call: FsCall, v: Dirs, c: Contents, v': Dirs, c': Contents) {
    0 in v && 0 in v' &&
    match call
    case Mkdir(p) =>
      if NameFree(v, p) then Gained(v, p, v') && Find(v', 0, 0, Components(p)).FoundDir? && c' == c
      else v' == v && c' == c
    case Create(p) =>
      if p != [] && p[|p| - 1] != SLASH && NameFree(v, p) then Gained(v, p, v') && NewFile(Find(v', 0, 0, Components(p)), c, c')
      else v' == v && c' == c
    case Unlink(p, table) =>
      if SearchOf(v, p).GotFile? && SearchOf(v, p).ino !in table then TakenOff(v, p, v') && c' == c - {SearchOf(v, p).ino}
      else v' == v && c' == c
    case Rmdir(p) =>
      if RmdirOutcome(v, p) == Zero then TakenOff(v, p, v') && c' == c - {SearchOf(v, p).ino}
      else v' == v && c' == c
    case Write(p, buf) =>
      if OpenOutcome(v, p).Fd? then
        var no := OpenOutcome(v, p).no;
        v' == v && no in c && c' == if |c[no]| + |buf| < MAX_SIZE then c[no := c[no] + buf] else c
      else v' == v && c' == c
  }

  ghost predicate NameFree(v: Dirs, p: Bytes)
    requires 0 in v
  {
    p != [] && SearchOf(v, p).NotFound? && NotFoundLast(v, p)
  }

  /** The path is found in the directory where it was missing, and all older paths lead where they
      led. */
  ghost predicate Gained(v: Dirs, p: Bytes, v': Dirs)
    requires 0 in v && 0 in v' && SearchOf(v, p).NotFound?
  {
    Within(v, v') && !Find(v', 0, 0, Components(p)).Missing?
    && Find(v', 0, 0, Components(p)).parent == SearchOf(v, p).parent
  }

  ghost predicate NewFile(found: Searched, c: Contents, c': Contents) {
    found.FoundFile? && found.ino !in c && c' == c[found.ino := []]
  }

  /** The path leads nowhere any more, and the paths that lead somewhere lead where they led. */
  ghost predicate TakenOff(v: Dirs, p: Bytes, v': Dirs)
    requires 0 in v'
  {
    Within(v', v) && Find(v', 0, 0, Components(p)).Missing?
  }

  /** Went: the call came back. Stops: an ASSERT stopped the machine, or it went on from memory that
      nobody had written. PastDirect: a directory left its direct blocks. High: an inode number of 256 or
      more was stored. Lost: a directory was removed through its own ".". */
  datatype Did = Went | Stops | PastDirect | High | Lost

  // ------------------------------------------------------------------
  // How a call ends
  // ------------------------------------------------------------------

  /** What the partition holds, as far as the end of a call depends on more than the tree and the
      contents. */
  datatype Held = Held(disk: Disk, bits: seq<bool>, nodes: map<nat, Node>)

  ghost function HeldBy(fs: FileSystem): Held
    requires fs.blockBitmap.Valid()
    reads fs, fs.inodes.Values, fs.blockBitmap.bits
  {
    Held(fs.disk, fs.blockBitmap.View(), fs.Nodes())
  }

  /** No inode number is free, or not enough blocks are. */
  ghost predicate NoRoomIn(h: Held, home: nat, isDir: bool) {
    home in h.nodes && SectorsOk(h.disk, h.nodes[home])
    && ((forall i :: 0 <= i < InodeTable.INODES ==> i in h.nodes)
        || FreeCount(h.bits) < BlocksToMake(h.disk, h.nodes[home]) - if isDir then 0 else 1)
  }

  ghost predicate LowLeft(h: Held) {
    exists j :: 0 <= j < 256 && j !in h.nodes
  }

  ghost function MakeEnds(h: Held, v: Dirs, p: Bytes, isDir: bool): Did
    requires 0 in v
  {
    match SearchOf(v, p)
    case Stopped => Stops
    case Unset => Stops
    case NotFound(home) =>
      if !NotFoundLast(v, p) then Went
      else if NoRoomIn(h, home, isDir) then Stops
      else if home in v && |v[home]| == Directory.DIR_CAPACITY then PastDirect
      else if home < 256 && LowLeft(h) then Went
      else High
    case _ => Went
  }

  ghost function UnlinkEnds(v: Dirs, p: Bytes, table: seq<int>): Did
    requires 0 in v
  {
    match UnlinkOutcome(v, p, table)
    case MinusOne => Went
    case Zero => if SearchOf(v, p).GotFile? && SearchOf(v, p).parent >= 256 then High else Went
    case _ => Stops
  }

  ghost function RmdirEnds(v: Dirs, p: Bytes): Did
    requires 0 in v
  {
    match RmdirOutcome(v, p)
    case MinusOne => Went
    case Zero =>
      if !SearchOf(v, p).GotDir? then Stops
      else if SearchOf(v, p).parent == SearchOf(v, p).ino then Lost
      else if SearchOf(v, p).parent >= 256 then High
      else Went
    case _ => Stops
  }

  ghost function WriteEnds(h: Held, v: Dirs, c: Contents, p: Bytes, buf: seq<Byte>): Did
    requires 0 in v
  {
    match OpenOutcome(v, p)
    case Refused => Went
    case Fd(no) =>
      if !(no in c && no in h.nodes && |h.nodes[no].sectors| == 13) then Stops
      else if |c[no]| + |buf| > MAX_SIZE then Went
      else if |c[no]| + |buf| == MAX_SIZE || FreeCount(h.bits) < BlocksNeeded(h.nodes[no], |buf|) then Stops
      else if no < 256 then Went
      else High
    case _ => Stops
  }

  /** How the call will end, told from the state before it. */
  ghost function Ends(h: Held, v: Dirs, c: Contents, call: FsCall): Did
    requires 0 in v
  {
    match call
    case Mkdir(p) => MakeEnds(h, v, p, true)
    case Create(p) => if p == [] then Stops else if p[|p| - 1] == SLASH then Went else MakeEnds(h, v, p, false)
    case Unlink(p, table) => UnlinkEnds(v, p, table)
    case Rmdir(p) => RmdirEnds(v, p)
    case Write(p, buf) => WriteEnds(h, v, c, p, buf)
  }

  ghost predicate After(did: Did, ns: Namespace, call: FsCall, h: Held, v: Dirs, c: Contents)
    reads ns, ns.fs, ns.fs.inodes.Values, ns.fs.blockBitmap.bits, ns.fs.inodeBitmap.bits
  {
    0 in v && did == Ends(h, v, c, call)
    && match did
       case Went => ns.Valid() && CallDid(call, v, c, ns.View(), ns.fs.Contents())
       case High => ns.Mounted() && !ns.fs.Stored()
       case Lost => call.Rmdir? && ns.fs.Valid() && ns.fs.Stored()
         && (forall t :: !TreeOk(ns.fs.g, ns.fs.disk, ns.fs.Nodes(), ns.fs.files, t))
       case _ => true
  }

  /** A partition, its tree and its contents, before a call. */
  ghost predicate Before(ns: Namespace, h: Held, v: Dirs, c: Contents)
    reads ns, ns.fs, ns.fs.inodes.Values, ns.fs.blockBitmap.bits, ns.fs.inodeBitmap.bits
  {
    ns.Valid() && ns.fs.blockBitmap.Valid() && h == HeldBy(ns.fs) && v == ns.View() && c == ns.fs.Contents()
  }

  /** How making a name ends, from what sys_mkdir or sys_open comes to. */
  lemma MakeEndsSo(ns: Namespace, h: Held, v: Dirs, c: Contents, p: Bytes, isDir: bool)
    requires Before(ns, h, v, c)
    ensures 0 in v
    ensures MakeEnds(h, v, p, isDir) ==
      match MakeOutcome(ns, p, isDir)
      case MinusOne => Went
      case Zero => if SearchOf(v, p).NotFound? && SearchOf(v, p).parent < 256 && HasLow(ns.fs.inodes) then Went else High
      case OutOfModel => PastDirect
      case _ => Stops
  {
    hide SearchOf, NotFoundLast, Namespace.Mounted, Namespace.View, FileSystem.Stored, FileSystem.Valid, FileSystem.Contents, Bitmap.View,
      FreeCount, BlocksToMake;
    FsPart(ns, v);
    assert h.nodes.Keys == ns.fs.inodes.Keys;
  }

  method DoMkdir(ns: Namespace, p: Bytes, ghost h: Held, ghost v: Dirs, ghost c: Contents) returns (did: Did)
    requires Before(ns, h, v, c) && CallOk(Mkdir(p))
    modifies ns`tree, ns.fs`disk, ns.fs`inodes, ns.fs`files, ns.fs.blockBitmap.bits, ns.fs.inodeBitmap.bits,
      ns.fs.inodes.Values
    ensures After(did, ns, Mkdir(p), h, v, c)
    ensures did == Went ==> fresh(ns.fs.inodes.Values - old(ns.fs.inodes.Values))
  {
    hide Namespace.Mounted, FileSystem.Stored, Namespace.View, FileSystem.Valid, FileSystem.Contents, Components, SearchOf, Find, Within,
      InodeTable.TableOf, MadeOnDisk, MadeNew, NoRoomAt, NotFoundLast, NoZero, Short, CallDid, NameFree, Gained, HasLow;
    ghost var t := ns.tree;
    FsPart(ns, v);
    MakeEndsSo(ns, h, v, c, p, true);
    var low := LowNumbers(ns, p, v);
    var r;
    ghost var e, at;
    r, e, at := SysMkdir(ns, p);
    if r == MinusOne {
      NothingMade(v, p, c);
      return Went;
    }
    if r != Zero { return if r == OutOfModel then PastDirect else Stops; }
    FsPart(ns, ns.View());
    if low {
      MadeAdded(v, t, p, e, at, ns.View(), ns.tree, true);
      DirMade(v, p, c, e, ns.View());
      did := Went;
    } else {
      did := High;
    }
  }

  lemma NothingMade(v: Dirs, p: Bytes, c: Contents)
    requires 0 in v
    ensures !(SearchOf(v, p).NotFound? && NotFoundLast(v, p)) ==> CallDid(Mkdir(p), v, c, v, c) && CallDid(Create(p), v, c, v, c)
    ensures p != [] && p[|p| - 1] == SLASH ==> CallDid(Create(p), v, c, v, c)
  {
    hide SearchOf, NotFoundLast;
  }

  lemma DirMade(v: Dirs, p: Bytes, c: Contents, e: DirEntry, v': Dirs)
    requires 0 in v && 0 in v' && SearchOf(v, p).NotFound? && NameFree(v, p) && Gained(v, p, v')
    requires Find(v', 0, 0, Components(p)) == FoundDir(e.ino, SearchOf(v, p).parent)
    ensures CallDid(Mkdir(p), v, c, v', c)
  {
    hide SearchOf, Find, Components, NotFoundLast;
  }

  lemma FileMade(v: Dirs, p: Bytes, c: Contents, e: DirEntry, v': Dirs)
    requires 0 in v && 0 in v' && SearchOf(v, p).NotFound? && NameFree(v, p) && Gained(v, p, v') && e.ino !in c
    requires Find(v', 0, 0, Components(p)) == FoundFile(e.ino, SearchOf(v, p).parent) && p[|p| - 1] != SLASH
    ensures CallDid(Create(p), v, c, v', c[e.ino := []])
  {
    hide SearchOf, Find, Components, NotFoundLast;
  }

  lemma MadeAdded(v: Dirs, t: Tree, p: Bytes, e: DirEntry, at: nat, v': Dirs, t': Tree, isDir: bool)
    requires MadeNew(v, t, p, e, at, v', t', isDir)
    ensures 0 in v && 0 in v' && SearchOf(v, p).NotFound? && NameFree(v, p) && Gained(v, p, v')
    ensures var f := Find(v', 0, 0, Components(p)); if isDir then f == FoundDir(e.ino, SearchOf(v, p).parent)
      else f == FoundFile(e.ino, SearchOf(v, p).parent)
  {
  }

  method DoCreate(ns: Namespace, p: Bytes, ghost h: Held, ghost v: Dirs, ghost c: Contents) returns (did: Did)
    requires Before(ns, h, v, c) && CallOk(Create(p))
    modifies ns`tree, ns.fs`disk, ns.fs`inodes, ns.fs`files, ns.fs.blockBitmap.bits, ns.fs.inodeBitmap.bits,
      ns.fs.inodes.Values
    ensures After(did, ns, Create(p), h, v, c)
    ensures did == Went ==> fresh(ns.fs.inodes.Values - old(ns.fs.inodes.Values))
  {
    hide Namespace.Mounted, FileSystem.Stored, Namespace.View, FileSystem.Valid, FileSystem.Contents, Components, SearchOf, Find, Within,
      InodeTable.TableOf, MadeOnDisk, MadeNew, NoRoomAt, NotFoundLast, NoZero, Short, CallDid, NameFree, Gained, HasLow;
    ghost var t := ns.tree;
    FsPart(ns, v);
    MakeEndsSo(ns, h, v, c, p, false);
    var low := LowNumbers(ns, p, v);
    var r;
    ghost var e, at;
    r, e, at := SysOpenCreate(ns, p);
    if r == MinusOne {
      NothingMade(v, p, c);
      return Went;
    }
    if r != Zero { return if r == OutOfModel then PastDirect else Stops; }
    FsPart(ns, ns.View());
    if low {
      MadeAdded(v, t, p, e, at, ns.View(), ns.tree, false);
      FileMade(v, p, c, e, ns.View());
      did := Went;
    } else {
      did := High;
    }
  }

  method DoUnlink(ns: Namespace, p: Bytes, table: seq<int>, ghost h: Held, ghost v: Dirs, ghost c: Contents)
      returns (did: Did)
    requires Before(ns, h, v, c) && CallOk(Unlink(p, table))
    modifies ns`tree, ns.fs`disk, ns.fs`inodes, ns.fs`files, ns.fs.blockBitmap.bits, ns.fs.inodeBitmap.bits,
      ns.fs.inodes.Values
    ensures After(did, ns, Unlink(p, table), h, v, c)
    ensures did == Went ==> fresh(ns.fs.inodes.Values - old(ns.fs.inodes.Values))
  {
    hide Namespace.Mounted, FileSystem.Stored, Namespace.View, FileSystem.Valid, FileSystem.Contents, Components, SearchOf, Find, Within,
      InodeTable.TableOf, Tried, TakenAway, TableSynced, TableCleared;
    ghost var t := ns.tree;
    FsPart(ns, v);
    if |p| >= MAX_PATH_LEN {
      LongStops(v, p);
      did := Stops;
    } else {
      var s, _ := ns.SearchFile(p, v);
      var r;
      ghost var e, at;
      r, e, at := SysUnlink(ns, p, table);
      if r == MinusOne { return Went; }
      if r != Zero { return Stops; }
      FsPart(ns, ns.View());
      if s.parent < 256 {
        TakenOffBy(v, t, p, s.parent, s.ino, e, at, ns.View(), ns.tree);
        did := Went;
      } else {
        did := High;
      }
    }
  }

  lemma LongStops(v: Dirs, p: Bytes)
    requires 0 in v && |p| >= MAX_PATH_LEN
    ensures SearchOf(v, p) == Stopped
  {
  }

  lemma TakenOffBy(v: Dirs, t: Tree, p: Bytes, h: nat, no: nat, e: DirEntry, at: nat, v': Dirs, t': Tree)
    requires TakenAway(v, t, p, h, no, e, at, v', t')
    ensures 0 in v && 0 in v' && TakenOff(v, p, v')
  {
  }

  method DoRmdir(ns: Namespace, p: Bytes, ghost h: Held, ghost v: Dirs, ghost c: Contents) returns (did: Did)
    requires Before(ns, h, v, c) && CallOk(Rmdir(p))
    modifies ns`tree, ns.fs`disk, ns.fs`inodes, ns.fs`files, ns.fs.blockBitmap.bits, ns.fs.inodeBitmap.bits,
      ns.fs.inodes.Values
    ensures After(did, ns, Rmdir(p), h, v, c)
    ensures did == Went ==> fresh(ns.fs.inodes.Values - old(ns.fs.inodes.Values))
  {
    hide Namespace.Mounted, FileSystem.Stored, Namespace.View, FileSystem.Valid, FileSystem.Contents, Components, SearchOf, Find, Within,
      InodeTable.TableOf, Tried, TakenAway, TableSynced, TableCleared, TreeOk, OnlyDotNames, Agrees;
    ghost var t := ns.tree;
    FsPart(ns, v);
    ns.TreeFacts(v);
    var s, _ := ns.SearchFile(p, v);
    var r;
    ghost var e, at;
    r, e, at := SysRmdir(ns, p);
    if r == MinusOne { return Went; }
    if r != Zero { return Stops; }
    assert RmdirOutcome(v, p) == Zero;
    DirHome(v, t, p, s.ino, s.parent);
    if s.parent == s.ino { return Lost; }
    FsPart(ns, ns.View());
    if s.parent < 256 {
      TakenOffBy(v, t, p, s.parent, s.ino, e, at, ns.View(), ns.tree);
      did := Went;
    } else {
      did := High;
    }
  }

  method DoWrite(ns: Namespace, p: Bytes, buf: seq<Byte>, ghost h: Held, ghost v: Dirs, ghost c: Contents)
      returns (did: Did)
    requires Before(ns, h, v, c) && CallOk(Write(p, buf))
    modifies ns.fs`disk, ns.fs.blockBitmap.bits, ns.fs.inodes.Values
    ensures After(did, ns, Write(p, buf), h, v, c)
    ensures did == Went ==> fresh(ns.fs.inodes.Values - old(ns.fs.inodes.Values))
  {
    hide Namespace.Mounted, FileSystem.Stored, Namespace.View, FileSystem.Valid, FileSystem.Contents, FreeCount, BlocksNeeded,
      Bitmap.View, Components, SearchOf, Tried;
    FsPart(ns, v);
    var opening := SysOpen(ns, p, v);
    if opening == Fails || opening == Strays { return Stops; }
    if opening == Refused { return Went; }
    var no := opening.no;
    OpenedFile(v, p, no);
    PathToFile(ns, v, p, no, SearchOf(v, p).parent);
    var file := new File(ns.fs.inodes[no]);
    if file.fdInode.iSize + |buf| > MAX_SIZE { return Went; }
    if file.fdInode.iSize + |buf| == MAX_SIZE { return Stops; }
    var r := SysWrite(ns, file, buf);
    if r == Halted { return Stops; }
    FsPart(ns, ns.View());
    did := if no < 256 then Went else High;
  }

  lemma OpenedFile(v: Dirs, p: Bytes, no: nat)
    requires 0 in v && OpenOutcome(v, p) == Fd(no)
    ensures SearchOf(v, p).GotFile? && SearchOf(v, p).ino == no
  {
    hide SearchOf, AllReached;
  }

  /** What a path to a file leads to is a regular file, with its content. */
  lemma PathToFile(ns: Namespace, v: Dirs, p: Bytes, no: nat, h: nat)
    requires ns.Mounted() && v == ns.View() && 0 in v && SearchOf(v, p) == GotFile(no, h)
    ensures ns.fs.Valid() && no in ns.fs.files && no in ns.fs.inodes && ns.fs.inodes[no].iNo == no
    ensures |ns.fs.inodes[no].iSectors| == 13
    ensures no in ns.fs.Contents() && |ns.fs.Contents()[no]| == ns.fs.inodes[no].iSize < MAX_SIZE
  {
    hide FileSystem.Valid, Agrees, Shapes, FileSystem.Contents, SearchOf;
    ns.TreeFacts(v);
    FileHome(v, ns.tree, p, no, h);
    Directory.Numbered(ns.fs);
    HasContents(ns.fs);
    ContentSize(ns.fs, no);
  }

  lemma ContentSize(fs: FileSystem, no: nat)
    requires fs.Valid() && no in fs.files
    ensures no in fs.Contents() && no in fs.inodes && |fs.Contents()[no]| == fs.inodes[no].iSize < MAX_SIZE
  {
    hide Owned, Bitmap.View, Filled;
    assert fs.Nodes()[no] == fs.inodes[no].Snapshot();
  }

  method DoCall(ns: Namespace, call: FsCall, ghost h: Held, ghost v: Dirs, ghost c: Contents) returns (did: Did)
    requires Before(ns, h, v, c) && CallOk(call)
    modifies ns`tree, ns.fs`disk, ns.fs`inodes, ns.fs`files, ns.fs.blockBitmap.bits, ns.fs.inodeBitmap.bits,
      ns.fs.inodes.Values
    ensures After(did, ns, call, h, v, c)
    ensures did == Went ==> fresh(ns.fs.inodes.Values - old(ns.fs.inodes.Values))
  {
    hide Namespace.Mounted, FileSystem.Stored, Namespace.View, FileSystem.Valid, FileSystem.Contents, CallDid, CallOk, TreeOk;
    match call
    case Mkdir(p) => did := DoMkdir(ns, p, h, v, c);
    case Create(p) => did := DoCreate(ns, p, h, v, c);
    case Unlink(p, table) => did := DoUnlink(ns, p, table, h, v, c);
    case Rmdir(p) => did := DoRmdir(ns, p, h, v, c);
    case Write(p, buf) => did := DoWrite(ns, p, buf, h, v, c);
  }

  /** Each call came back, as could be told before it, and did to the tree and the files before it what
      it should. */
  ghost predicate RunDid(calls: seq<FsCall>, helds: seq<Held>, views: seq<Dirs>, contents: seq<Contents>) {
    && |helds| == |views| == |contents| >= 1 && |views| - 1 <= |calls|
    && forall k :: 0 <= k < |views| - 1 ==> CameBack(calls[k], helds[k], views[k], contents[k], views[k + 1], contents[k + 1])
  }

  ghost predicate CameBack(call: FsCall, h: Held, v: Dirs, c: Contents, v': Dirs, c': Contents) {
    CallDid(call, v, c, v', c') && Ends(h, v, c, call) == Went
  }

  /** Any sequence of calls keeps a sound partition sound, each call doing what it should, up to the
      first call that stops the machine, leaves the direct blocks of a directory, stores an inode
      number of 256 or more, or removes a directory through its own ".". Which it is, and how it ends,
      can be told before each call. */
  method RunCalls(ns: Namespace, calls: seq<FsCall>, ghost h: Held, ghost v: Dirs, ghost c: Contents)
      returns (done: nat, did: Did, ghost helds: seq<Held>, ghost views: seq<Dirs>, ghost contents: seq<Contents>)
    requires Before(ns, h, v, c) && forall k :: 0 <= k < |calls| ==> CallOk(calls[k])
    modifies ns`tree, ns.fs`disk, ns.fs`inodes, ns.fs`files, ns.fs.blockBitmap.bits, ns.fs.inodeBitmap.bits,
      ns.fs.inodes.Values
    ensures done <= |calls| && |helds| == |views| == |contents| == done + 1
    ensures RunDid(calls, helds, views, contents)
    ensures helds[0] == h && views[0] == v && contents[0] == c
    ensures done == |calls| <==> did == Went
    ensures done == |calls| ==> Before(ns, helds[done], views[done], contents[done])
    ensures done < |calls| ==> After(did, ns, calls[done], helds[done], views[done], contents[done])
  {
    hide Namespace.Mounted, FileSystem.Stored, Namespace.View, FileSystem.Valid, FileSystem.Contents, CallDid, CallOk, TreeOk, Ends,
      HeldBy;
    done, did := 0, Went;
    helds, views, contents := [h], [v], [c];
    ghost var before := ns.fs.inodes.Values;
    while done < |calls|
      invariant done <= |calls| && |helds| == |views| == |contents| == done + 1 && RunDid(calls, helds, views, contents) && did == Went
      invariant helds[0] == h && views[0] == v && contents[0] == c
      invariant Before(ns, helds[done], views[done], contents[done])
      invariant fresh(ns.fs.inodes.Values - before)
    {
      did := DoCall(ns, calls[done], helds[done], views[done], contents[done]);
      if did != Went { return; }
      FsPart(ns, ns.View());
      BlocksMarked(ns.fs);
      helds, views, contents := helds + [HeldBy(ns.fs)], views + [ns.View()], contents + [ns.fs.Contents()];
      done := done + 1;
    }
  }

  lemma BlocksMarked(fs: FileSystem)
    requires fs.Valid()
    ensures fs.blockBitmap.Valid()
  {
    hide Consistent, Bitmap.View;
  }

  /** The call reaches file no: it writes it, or takes it away. */
  ghost predicate Reaches(call: FsCall, v: Dirs, no: nat) {
    0 in v &&
    match call
    case Write(p, _) => OpenOutcome(v, p) == Fd(no)
    case Unlink(p, table) => SearchOf(v, p).GotFile? && SearchOf(v, p).ino == no && no !in table
    case Rmdir(p) => SearchOf(v, p).GotDir? && SearchOf(v, p).ino == no
    case _ => false
  }

  /** Over any run, a file that no call reaches holds what it held at the start. */
  lemma {:induction false} Untouched(calls: seq<FsCall>, helds: seq<Held>, views: seq<Dirs>, contents: seq<Contents>,
                                     no: nat, n: nat)
    requires RunDid(calls, helds, views, contents) && n < |views| && no in contents[0]
    requires forall k :: 0 <= k < n ==> !Reaches(calls[k], views[k], no)
    ensures no in contents[n] && contents[n][no] == contents[0][no]
  {
    hide Find, SearchOf, Within, Components, NotFoundLast, OnlyDotNames;
    if n > 0 {
      Untouched(calls, helds, views, contents, no, n - 1);
      OneCall(calls[n - 1], views[n - 1], contents[n - 1], views[n], contents[n], no);
    }
  }

  lemma OneCall(call: FsCall, v: Dirs, c: Contents, v': Dirs, c': Contents, no: nat)
    requires CallDid(call, v, c, v', c') && no in c && !Reaches(call, v, no)
    ensures no in c' && c'[no] == c[no]
  {
    hide Find, Within, Components, NotFoundLast, OnlyDotNames;
  }

  /** A write through a path at which search_file finds file no reaches it exactly when all components
      were needed to get there and the path does not end in a slash; otherwise it changes nothing. */
  lemma WriteReaches(p: Bytes, buf: seq<Byte>, v: Dirs, c: Contents, v': Dirs, c': Contents, no: nat, home: nat)
    requires 0 in v && SearchOf(v, p) == GotFile(no, home) && CallDid(Write(p, buf), v, c, v', c')
    ensures p != [] && (Reaches(Write(p, buf), v, no) <==> AllReached(v, p) && p[|p| - 1] != SLASH)
    ensures if Reaches(Write(p, buf), v, no) && no in c && |c[no]| + |buf| < MAX_SIZE then c' == c[no := c[no] + buf] else c' == c
  {
    hide SearchOf, AllReached, NamesFile;
    OpensExactly(v, p, no, home);
  }
}
