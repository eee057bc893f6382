/** The name space of a partition (fs.c): its directories as a tree, path search, and the working
    directory's path. */
module Namespace {
  import opened Sectors
  import opened BlockMap
  import opened Bitmaps
  import opened DirEntries
  import opened DirSpec
  import opened FileSystem
  import opened Directory
  import opened DirReading
  import opened Paths
  import opened TreeSpec
  import InodeTable

  const MAX_PATH_LEN: nat := 512

  // ------------------------------------------------------------------
  // The tree on the disk
  // ------------------------------------------------------------------

  /** Every directory is well formed. */
  ghost predicate Shapes(d: Disk, m: map<nat, Node>, t: Tree) {
    forall i :: i in t.dirs ==> i in m && DirShape(d, m[i], i, ParentOf(t, i))
  }

  ghost function ViewOf(d: Disk, m: map<nat, Node>, t: Tree): Dirs
    requires Shapes(d, m, t)
  {
    map i | i in t.dirs :: Listing(d, m[i])
  }

  ghost predicate Partitioned(m: map<nat, Node>, files: set<nat>, t: Tree) {
    t.dirs + files == m.Keys && t.dirs !! files && t.home.Keys == m.Keys - {0}
  }

  /** Directories and files form a tree under inode 0, whose first block is the first of the data
      area. */
  ghost predicate TreeOk(g: Area, d: Disk, m: map<nat, Node>, files: set<nat>, t: Tree) {
    && Partitioned(m, files, t) && Shapes(d, m, t) && Agrees(ViewOf(d, m, t), t)
    && 0 in m && |m[0].sectors| == 13 && m[0].sectors[0] == g.lo
  }

  lemma ShapeOf(d: Disk, m: map<nat, Node>, t: Tree, i: nat)
    requires Shapes(d, m, t) && i in t.dirs
    ensures i in m && DirShape(d, m[i], i, ParentOf(t, i)) && SectorsOk(d, m[i]) && ViewOf(d, m, t)[i] == Listing(d, m[i])
  {
    hide Listing, DirShape;
    ShapeSectors(d, m[i], i, ParentOf(t, i));
  }

  /** What a name leads to is a file, or a directory of the tree. */
  lemma EntryLeads(v: Dirs, t: Tree, at: nat, name: Name)
    requires Agrees(v, t) && at in v && Lookup(v[at], name).Something?
    ensures var e := Lookup(v[at], name).entry;
      e.ftype == FT_REGULAR || (e.ftype == FT_DIRECTORY && e.ino in v)
  {
    hide Lookup, AllListed;
    var e := Lookup(v[at], name).entry;
    assert DirAgrees(v, t, at);
    var k :| 0 <= k < |v[at]| && v[at][k] == e;
    assert Placed(t, at, v[at][k]) && DirSpec.Storable(v[at][k]);
    assert IsDot(name) ==> e.ino == at || e.ino == ParentOf(t, at);
    assert at in t.home ==> Listed(v, t, at) by { ListedAt(v, t, at); }
  }

  lemma ListedAt(v: Dirs, t: Tree, i: nat)
    requires Agrees(v, t)
    ensures i in t.home ==> Listed(v, t, i)
  {
  }

  /** What search_file comes to: a failed ASSERT; the garbage it returns for a path of slashes
      alone; or an answer. */
  datatype Search = Stopped | Unset | GotDir(ino: nat, parent: nat) | GotFile(ino: nat, parent: nat) | NotFound(parent: nat)

  function Answer(s: Searched): Search {
    match s
    case FoundDir(i, h) => GotDir(i, h)
    case FoundFile(i, h) => GotFile(i, h)
    case Missing(h, _) => NotFound(h)
  }

  /** The part of the path a search has gone, up to the component it did not find or the file it
      found. */
  ghost predicate Tried(v: Dirs, cs: seq<Name>, searched: Bytes)
    requires 0 in v
  {
    var r := Find(v, 0, 0, cs);
    && (r.Missing? ==> 1 <= |r.rest| <= |cs| && searched == Paths.Joined(cs[..|cs| - |r.rest| + 1]))
    && (r.FoundFile? ==> searched == Paths.Joined(cs[..Reach(v, 0, cs)]))
  }

  /** What a search for p must come to in the tree v. */
  ghost function SearchOf(v: Dirs, p: Bytes): Search
    requires 0 in v
  {
    var cs := Components(p);
    if p == [] || p[0] != SLASH || |p| >= MAX_PATH_LEN then Stopped
    else if cs == [] && p != [SLASH] then Unset
    else Answer(Find(v, 0, 0, cs))
  }

  ghost predicate SearchAnswer(v: Dirs, p: Bytes, r: Search, searched: Bytes)
    requires 0 in v
  {
    r == SearchOf(v, p) && (r.NotFound? || r.GotFile? ==> Tried(v, Components(p), searched))
  }

  /** The whole name space of one partition. */
  class Namespace {
    const fs: FileSystem
    ghost var tree: Tree

    constructor (fs: FileSystem, ghost tree: Tree)
      ensures this.fs == fs && this.tree == tree
    {
      this.fs, this.tree := fs, tree;
    }

    /** The inodes, as far as they are in memory, are sound and form the tree. */
    ghost predicate Mounted()
      reads this, fs, fs.inodes.Values, fs.blockBitmap.bits, fs.inodeBitmap.bits
    {
      fs.Valid() && TreeOk(fs.g, fs.disk, fs.Nodes(), fs.files, tree)
    }

    /** And whoever opens an inode anew, from the disk, finds the same. */
    ghost predicate Valid()
      reads this, fs, fs.inodes.Values, fs.blockBitmap.bits, fs.inodeBitmap.bits
    {
      Mounted() && fs.Stored()
    }

    /** The entries of every directory. */
    ghost function View(): Dirs
      requires Mounted()
      reads this, fs, fs.inodes.Values, fs.blockBitmap.bits, fs.inodeBitmap.bits
    {
      ViewOf(fs.disk, fs.Nodes(), tree)
    }

    /** search_dir_entry in a directory of the tree. */
    method Search(at: nat, name: Name, ghost v: Dirs) returns (r: Found)
      requires Valid() && v == View() && at in v && name != [] && NoZero(name)
      ensures r == Lookup(v[at], name)
    {
      hide Shapes, Agrees, Listing, DirShape, Lookup, FileSystem.Valid;
      ShapeOf(fs.disk, fs.Nodes(), tree, at);
      DirIsNoFile(fs, tree, at);
      r := SearchDirEntry(fs, fs.inodes[at], name, ParentOf(tree, at));
    }

    /** search_file, and the path it has gone. */
    method SearchFile(p: Bytes, ghost v: Dirs) returns (r: Search, searched: Bytes)
      requires Valid() && v == View() && NoZero(p) && Short(Components(p))
      ensures 0 in v && SearchAnswer(v, p, r, searched)
    {
      hide Namespace.Mounted, FileSystem.Stored, Namespace.View, Components, Find, Agrees, Tried;
      TreeFacts(v);
      searched := [];
      if p == [SLASH] || p == [SLASH] + DOT || p == [SLASH] + DOTDOT { RootSearch(v, tree, p); }
      if p == [SLASH] || p == [SLASH] + DOT || p == [SLASH] + DOTDOT {
        return GotDir(0, 0), searched;
      }
      if !(|p| > 0 && p[0] == SLASH && |p| > 1 && |p| < MAX_PATH_LEN) {
        return Stopped, searched;
      }
      r, searched := SearchFrom(p, v);
    }

    /** The walk of search_file from the root. */
    method SearchFrom(p: Bytes, ghost v: Dirs) returns (r: Search, searched: Bytes)
      requires Valid() && v == View() && NoZero(p) && 1 < |p| < MAX_PATH_LEN && p[0] == SLASH
      ensures 0 in v
      ensures var cs := Components(p);
        if cs == [] then r == Unset else r == Answer(Find(v, 0, 0, cs)) && Tried(v, cs, searched)
    {
      hide Namespace.Mounted, FileSystem.Stored, Namespace.View, Components, Lookup, Find, Agrees, NoZero, Tried, Walked;
      TreeFacts(v);
      ghost var cs, k := Components(p), 0;
      var name, sub := PathParse(p);
      searched := [];
      var parent, at := 0, 0;
      r := Unset;
      NoComponents();
      WalkStart(v, cs);
      while name != []
        invariant at in v && NoZero(name) && NoZero(After(sub)) && k <= |cs|
        invariant cs[k..] == if name == [] then [] else [name] + Components(After(sub))
        invariant Walked(v, cs, k, parent, at, searched)
        invariant |searched| + |name| + |After(sub)| + (if name == [] then 0 else 1) <= |p|
        invariant name == [] ==> sub == Null
        invariant sub.At? ==> sub.path != [] && sub.path[0] == SLASH
        invariant r == if k == 0 then Unset else GotDir(at, parent)
        decreases |cs| - k
      {
        assert |searched| < 512;
        WalkOn(v, tree, cs, k, parent, at, searched);
        assert cs[k..][0] == name;
        assert cs[k..][1..] == cs[k + 1..];
        searched := searched + [SLASH] + name;
        var e := Search(at, name, v);
        if e == Nothing {
          return NotFound(at), searched;
        }
        k := k + 1;
        name := [];
        if sub.At? {
          name, sub := PathParse(sub.path);
        }
        if e.entry.ftype == FT_REGULAR {
          return GotFile(e.entry.ino, at), searched;
        }
        parent, at := at, e.entry.ino;
        r := GotDir(at, parent);
      }
      WalkDone(v, cs, k, parent, at, searched);
    }

    // ----------------------------------------------------------------
    // sys_getcwd
    // ----------------------------------------------------------------

    /** get_parent_dir_inode_nr */
    method GetParentDirInodeNr(child: nat, ghost v: Dirs) returns (no: nat)
      requires Valid() && v == View() && child in v
      ensures no == ParentOf(tree, child)
    {
      hide Listing, Agrees, Raw;
      hide HolesBlank, NoEmptyBlock, Distinguished, Bitmap.View, Consistent;
      ShapeOf(fs.disk, fs.Nodes(), tree, child);
      var blockLba := fs.inodes[child].iSectors[0];
      var es := Raw(fs.disk[blockLba]);
      assert es[1].ftype == FT_DIRECTORY;
      no := es[1].ino;
    }

    /** get_child_dir_name: the first entry with the child's number is the child's own, for "." and
        ".." of its home have other numbers. */
    method GetChildDirName(home: nat, child: nat, path: Bytes, ghost v: Dirs) returns (ok: bool, path': Bytes)
      requires Valid() && v == View() && child in tree.home && tree.home[child] == home
      ensures Listed(v, tree, child) && ok && path' == path + [SLASH] + NameIn(v[home], child)
    {
      hide Namespace.Mounted, FileSystem.Stored, Namespace.View, Agrees, Listed, HasChild, Entries, Raw, Live, Listing;
      TreeFacts(v);
      ListedAt(v, tree, child);
      HomeSectors(v, tree, child);
      ghost var d, n := fs.disk, fs.inodes[home].Snapshot();
      var all := fs.inodes[home].iSectors[..12] + Zeros(128);
      var blockIdx := 0;
      EntriesNoIno(d, n, child);
      while blockIdx < 12
        invariant blockIdx <= 12 && NoIno(Entries(d, n, 0, blockIdx), child)
      {
        if all[blockIdx] != 0 {
          var es := Raw(fs.disk[all[blockIdx]]);
          var k := FindIno(es, child);
          if k < PER_SECTOR {
            HoleHasNoName(d, n, home, ParentOf(tree, home), blockIdx, k, child);
            ChildEntry(v, tree, child, d, n, blockIdx, k);
            return true, path + [SLASH] + es[k].name;
          }
          NoInoSector(es, child);
        }
        NoInoStep(d, n, blockIdx, child);
        blockIdx := blockIdx + 1;
      }
      ok, path' := false, path;
      ListedSomewhere(v, tree, child, d, n);
      assert false;
    }

    /** sys_getcwd for a directory whose path fits its buffer of 512 bytes: the path from the root,
        unless the caller's buffer is too small for it, which stops the machine. */
    method GetCwd(cwd: nat, size: nat, ghost v: Dirs) returns (halted: bool, buf: Bytes)
      requires Valid() && v == View() && cwd in v && AllListed(v, tree)
      requires |Render(PathOf(v, tree, cwd))| < MAX_PATH_LEN
      ensures halted <==> cwd != 0 && |Render(PathOf(v, tree, cwd))| > size
      ensures !halted ==> buf == Render(PathOf(v, tree, cwd))
    {
      hide Namespace.Mounted, FileSystem.Stored, Namespace.View, Agrees, AllListed, Paths.Joined, NameIn;
      TreeFacts(v);
      RootPath(v, tree, cwd);
      if cwd == 0 {
        return false, [SLASH];
      }
      halted, buf := false, [];
      var full: Bytes := [];
      var child := cwd;
      ghost var up: seq<Name> := [];
      JoinedEmpty([]);
      while child != 0
        invariant child in v && full == Paths.Joined(up)
        invariant PathOf(v, tree, cwd) == PathOf(v, tree, child) + Rev(up)
        decreases if child in tree.depth then tree.depth[child] else 0
      {
        ListedAt(v, tree, child);
        RootPath(v, tree, child);
        var parent := GetParentDirInodeNr(child, v);
        var ok;
        ok, full := GetChildDirName(parent, child, full, v);
        ghost var name := NameIn(v[parent], child);
        JoinedSnoc(up, name);
        RevSnoc(up, name);
        up := up + [name];
        child := parent;
      }
      RootPath(v, tree, 0);
      PathLeads(v, tree, cwd);
      PathComponents(PathOf(v, tree, cwd), up);
      if !(|full| <= size) {
        return true, [];
      }
      buf := Reversed(full, up);
    }

    /** sys_getcwd, and search_file of the path it returns: the directory asked for. */
    method SearchCwd(cwd: nat, size: nat, ghost v: Dirs) returns (halted: bool, r: Search)
      requires Valid() && v == View() && cwd in v && AllListed(v, tree)
      requires |Render(PathOf(v, tree, cwd))| < MAX_PATH_LEN
      ensures halted <==> cwd != 0 && |Render(PathOf(v, tree, cwd))| > size
      ensures !halted ==> r == GotDir(cwd, ParentOf(tree, cwd))
    {
      hide Namespace.Mounted, FileSystem.Stored, Namespace.View, Agrees, AllListed, Paths.Joined, SearchAnswer, NoZero, Components;
      TreeFacts(v);
      var buf;
      halted, buf := GetCwd(cwd, size, v);
      r := Stopped;
      if halted { return; }
      PathTaken(v, tree, cwd);
      ghost var searched;
      r, searched := SearchFile(buf, v);
      GetCwdSearch(v, tree, cwd, r, searched);
    }

    /** The home of an inode, as the operations on it see it. */
    lemma HomeSectors(v: Dirs, t: Tree, child: nat)
      requires Valid() && v == View() && t == tree && Listed(v, t, child)
      ensures var h := t.home[child];
        h in v && h in fs.inodes && var n := fs.inodes[h].Snapshot();
        DirShape(fs.disk, n, h, ParentOf(t, h)) && SectorsOk(fs.disk, n) && v[h] == Listing(fs.disk, n) && child != 0
    {
      hide Agrees, Listing, DirShape, FileSystem.Valid, HasChild;
      ShapeOf(fs.disk, fs.Nodes(), t, t.home[child]);
    }

    lemma TreeFacts(v: Dirs)
      requires Mounted() && v == View()
      ensures Agrees(v, tree) && 0 in v
    {
      hide Agrees, Shapes;
      hide FileSystem.Valid;
      RootIn(v, tree);
    }
  }

  function Rev(cs: seq<Name>): (r: seq<Name>)
    ensures |r| == |cs|
  {
    if cs == [] then [] else Rev(cs[1..]) + [cs[0]]
  }

  lemma {:induction false} RevSnoc(cs: seq<Name>, c: Name)
    ensures Rev(cs + [c]) == [c] + Rev(cs)
  {
    if cs == [] {
      assert [] + [c] == [c];
    } else {
      assert (cs + [c])[1..] == cs[1..] + [c];
      RevSnoc(cs[1..], c);
    }
  }

  lemma {:induction false} RevMembers(cs: seq<Name>, c: Name)
    ensures c in Rev(cs) <==> c in cs
  {
    if cs != [] {
      RevMembers(cs[1..], c);
      assert c in cs <==> c == cs[0] || c in cs[1..];
    }
  }

  lemma {:induction false} JoinedLength(cs: seq<Name>)
    ensures |Paths.Joined(Rev(cs))| == |Paths.Joined(cs)|
  {
    if cs != [] {
      JoinedLength(cs[1..]);
      JoinedSnoc(Rev(cs[1..]), cs[0]);
    }
  }

  /** What the reversal of the names of a clean path may rely on. */
  lemma PathComponents(path: seq<Name>, up: seq<Name>)
    requires Clean(path) && path == [] + Rev(up) && up != []
    ensures forall i :: 0 <= i < |up| ==> Component(up[i])
    ensures path == Rev(up) && |Render(path)| == |Paths.Joined(up)| && Render(path) == Paths.Joined(Rev(up))
  {
    assert path == Rev(up);
    forall i | 0 <= i < |up| ensures Component(up[i]) {
      RevMembers(up, up[i]);
      var j :| 0 <= j < |path| && path[j] == up[i];
    }
    JoinedLength(up);
  }

  /** The last loop of sys_getcwd: the names are taken off the end one by one and put in front. */
  method Reversed(full_: Bytes, ghost up: seq<Name>) returns (buf: Bytes)
    requires full_ == Paths.Joined(up) && forall i :: 0 <= i < |up| ==> Component(up[i])
    ensures buf == Paths.Joined(Rev(up))
  {
    hide Paths.Joined, Component;
    var full := full_;
    ghost var k: nat := |up|;
    buf := [];
    assert up[..|up|] == up && up[|up|..] == [];
    NoComponents();
    JoinedEmpty([]);
    var slash := StrRChr(full, SLASH);
    while slash != -1
      invariant -1 <= slash < |full| && (slash >= 0 ==> full[slash] == SLASH)
      invariant forall i :: slash < i < |full| ==> full[i] != SLASH
      invariant k <= |up| && full == Paths.Joined(up[..k]) && buf == Paths.Joined(Rev(up[k..]))
      decreases k
    {
      JoinedEmpty(up[..k]);
      LastSlash(up[..k], slash);
      assert up[..k][..k - 1] == up[..k - 1];
      ghost var name := up[k - 1];
      assert up[k - 1..] == [name] + up[k..];
      assert Rev(up[k - 1..]) == Rev(up[k..]) + [name] by { RevFirst(up[k..], name); }
      JoinedSnoc(Rev(up[k..]), name);
      assert full[slash..] == [SLASH] + full[slash + 1..];
      buf := buf + full[slash..];
      full := full[..slash];
      k := k - 1;
      slash := StrRChr(full, SLASH);
    }
    JoinedStarts(up[..k]);
    assert k == 0;
    assert up[0..] == up;
  }

  lemma RevFirst(cs: seq<Name>, c: Name)
    ensures Rev([c] + cs) == Rev(cs) + [c]
  {
    assert ([c] + cs)[1..] == cs;
  }

  /** The path of the root, and of an inode from that of its home. */
  lemma RootPath(v: Dirs, t: Tree, i: nat)
    requires Agrees(v, t) && i in v
    ensures AllListed(v, t) && (i == 0 <==> PathOf(v, t, i) == [])
    ensures i != 0 ==> Listed(v, t, i) && t.home[i] == ParentOf(t, i)
    ensures i != 0 ==> PathOf(v, t, i) == PathOf(v, t, t.home[i]) + [NameIn(v[t.home[i]], i)]
  {
    hide DirAgrees, NameIn;
    ListedAt(v, t, i);
  }

  /** search_file undoes sys_getcwd: the path of a directory leads back to it. */
  lemma GetCwdSearch(v: Dirs, t: Tree, cwd: nat, r: Search, searched: Bytes)
    requires Agrees(v, t) && cwd in v && |Render(PathOf(v, t, cwd))| < MAX_PATH_LEN
    requires SearchAnswer(v, Render(PathOf(v, t, cwd)), r, searched)
    ensures r == GotDir(cwd, ParentOf(t, cwd)) && Short(Components(Render(PathOf(v, t, cwd))))
  {
    hide Agrees, Components, Find;
    RootPath(v, t, cwd);
    PathLeads(v, t, cwd);
    var cs := PathOf(v, t, cwd);
    ComponentsJoined(cs);
    JoinedStarts(cs);
  }

  /** The path of a directory is one that search_file can take. */
  lemma PathTaken(v: Dirs, t: Tree, cwd: nat)
    requires Agrees(v, t) && cwd in v && AllListed(v, t)
    ensures NoZero(Render(PathOf(v, t, cwd))) && Short(Components(Render(PathOf(v, t, cwd))))
  {
    hide Agrees, Components, Find, AllListed;
    PathLeads(v, t, cwd);
    var cs := PathOf(v, t, cwd);
    JoinedNoZero(cs);
    ComponentsJoined(cs);
  }

  lemma {:induction false} JoinedNoZero(cs: seq<Name>)
    requires forall i :: 0 <= i < |cs| ==> NoZero(cs[i])
    ensures NoZero(Paths.Joined(cs)) && NoZero(Render(cs))
  {
    if cs != [] {
      JoinedNoZero(cs[1..]);
    }
  }

  ghost predicate NoIno(l: seq<DirEntry>, no: nat) {
    forall i :: 0 <= i < |l| ==> l[i].ino != no
  }

  lemma EntriesNoIno(d: Disk, n: Node, no: nat)
    requires SectorsOk(d, n)
    ensures NoIno(Entries(d, n, 0, 0), no)
  {
  }

  lemma NoInoSector(es: seq<DirEntry>, no: nat)
    requires NoIno(es, no)
    ensures NoIno(Live(es), no)
  {
    forall i | 0 <= i < |Live(es)| ensures Live(es)[i].ino != no {
      LiveMember(es, Live(es)[i]);
    }
  }

  lemma NoInoStep(d: Disk, n: Node, b: nat, no: nat)
    requires SectorsOk(d, n) && b < 12 && NoIno(Entries(d, n, 0, b), no)
    requires n.sectors[b] != 0 ==> NoIno(Live(Raw(d[n.sectors[b]])), no)
    ensures NoIno(Entries(d, n, 0, b + 1), no)
  {
    hide Entries, Live, Raw;
    EntriesTo(d, n, b);
  }

  method FindIno(es: seq<DirEntry>, no: nat) returns (k: nat)
    requires |es| == PER_SECTOR
    ensures k < PER_SECTOR ==> es[k].ino == no
    ensures k >= PER_SECTOR ==> NoIno(es, no)
  {
    k := 0;
    while k < PER_SECTOR
      invariant k <= PER_SECTOR && forall j :: 0 <= j < k ==> es[j].ino != no
    {
      if es[k].ino == no {
        return;
      }
      k := k + 1;
    }
  }

  lemma HoleHasNoName(d: Disk, n: Node, self: nat, parent: nat, b: nat, k: nat, no: nat)
    requires DirShape(d, n, self, parent) && b < 12 && n.sectors[b] != 0 && k < PER_SECTOR && no != 0
    requires Raw(d[n.sectors[b]])[k].ino == no
    ensures Raw(d[n.sectors[b]])[k].ftype != FT_UNKNOWN
  {
    hide Raw, Listing;
    assert BlankHoles(d[n.sectors[b]]);
  }

  /** The entry with the child's number is the child's own. */
  lemma ChildEntry(v: Dirs, t: Tree, child: nat, d: Disk, n: Node, b: nat, k: nat)
    requires Agrees(v, t) && Listed(v, t, child) && child != 0 && SectorsOk(d, n) && v[t.home[child]] == Listing(d, n)
    requires b < 12 && n.sectors[b] != 0 && k < PER_SECTOR
    requires Raw(d[n.sectors[b]])[k].ino == child && Raw(d[n.sectors[b]])[k].ftype != FT_UNKNOWN
    ensures NameIn(v[t.home[child]], child) == Raw(d[n.sectors[b]])[k].name
  {
    hide Entries, Listing, Raw, Live, HasChild, AllListed, Distinguished, AllPlaced, DotsBound;
    var h, e := t.home[child], Raw(d[n.sectors[b]])[k];
    EntryPlace(d, n, b, k);
    assert DirAgrees(v, t, h);
    var j := NameIs(v[h], child);
    var q := |Entries(d, n, 0, b)| + |Live(Raw(d[n.sectors[b]])[..k])|;
    ListedAt(v, t, h);
    DotInos(v, t, h, q);
    if q != j { OthersDiffer(v[h], q, j); }
  }

  /** An entry of a directory with the number of one listed there is not "." or "..". */
  lemma DotInos(v: Dirs, t: Tree, h: nat, q: nat)
    requires Agrees(v, t) && h in v && q < |v[h]|
    requires v[h][q].ino in t.home && t.home[v[h][q].ino] == h
    ensures !IsDot(v[h][q].name)
  {
    hide AllListed, Lookup, Distinguished;
    assert DirAgrees(v, t, h);
    NamesDiffer(v[h]);
    LookupAt(v[h], q);
    ListedAt(v, t, h);
    ListedAt(v, t, v[h][q].ino);
  }

  lemma ListedSomewhere(v: Dirs, t: Tree, child: nat, d: Disk, n: Node)
    requires Listed(v, t, child) && SectorsOk(d, n) && v[t.home[child]] == Listing(d, n)
    ensures !NoIno(Entries(d, n, 0, 12), child)
  {
    hide Entries;
    var l := v[t.home[child]];
    var k :| 0 <= k < |l| && !IsDot(l[k].name) && l[k].ino == child;
    assert l[k].ino == child;
  }

  lemma RootIn(v: Dirs, t: Tree)
    requires Agrees(v, t)
    ensures 0 in v
  {
  }

  /** A search for cs has gone its first k components and is at directory at. */
  ghost predicate Walked(v: Dirs, cs: seq<Name>, k: nat, parent: nat, at: nat, searched: Bytes) {
    0 in v && at in v && k <= |cs| && Find(v, 0, 0, cs) == Find(v, parent, at, cs[k..]) && searched == Paths.Joined(cs[..k])
    && Reach(v, 0, cs) == k + Reach(v, at, cs[k..])
  }

  lemma WalkStart(v: Dirs, cs: seq<Name>)
    requires 0 in v
    ensures Walked(v, cs, 0, 0, 0, [])
  {
    assert cs[0..] == cs;
  }

  lemma WalkOn(v: Dirs, t: Tree, cs: seq<Name>, k: nat, parent: nat, at: nat, searched: Bytes)
    requires Agrees(v, t) && Walked(v, cs, k, parent, at, searched) && k < |cs|
    ensures var r, gone := Lookup(v[at], cs[k]), searched + [SLASH] + cs[k];
      if r == Nothing then Find(v, 0, 0, cs) == Missing(at, cs[k..]) && Tried(v, cs, gone)
      else if r.entry.ftype == FT_REGULAR then Find(v, 0, 0, cs) == FoundFile(r.entry.ino, at) && Tried(v, cs, gone)
      else r.entry.ino in v && Walked(v, cs, k + 1, at, r.entry.ino, gone)
  {
    hide Lookup, Agrees, Find, Reach, Paths.Joined;
    FindStep(v, t, parent, at, cs[k..]);
    assert cs[k..][1..] == cs[k + 1..];
    assert cs[..k + 1] == cs[..k] + [cs[k]];
    JoinedSnoc(cs[..k], cs[k]);
  }

  lemma WalkDone(v: Dirs, cs: seq<Name>, k: nat, parent: nat, at: nat, searched: Bytes)
    requires Walked(v, cs, k, parent, at, searched) && cs[k..] == []
    ensures k == |cs| && Find(v, 0, 0, cs) == FoundDir(at, parent) && Tried(v, cs, searched)
  {
  }

  lemma NothingMissing(v: Dirs, cs: seq<Name>)
    requires 0 in v && Find(v, 0, 0, cs).FoundDir?
    ensures Tried(v, cs, [])
  {
  }

  /** One step of a search. */
  lemma FindStep(v: Dirs, t: Tree, parent: nat, at: nat, cs: seq<Name>)
    requires Agrees(v, t) && at in v && cs != []
    ensures var r := Lookup(v[at], cs[0]);
      if r == Nothing then Find(v, parent, at, cs) == Missing(at, cs)
      else if r.entry.ftype == FT_REGULAR then Find(v, parent, at, cs) == FoundFile(r.entry.ino, at)
      else r.entry.ino in v && Find(v, parent, at, cs) == Find(v, at, r.entry.ino, cs[1..])
    ensures var r := Lookup(v[at], cs[0]);
      r.Something? ==> Reach(v, at, cs) == if r.entry.ftype == FT_REGULAR then 1 else 1 + Reach(v, r.entry.ino, cs[1..])
  {
    hide Lookup, Agrees;
    if Lookup(v[at], cs[0]).Something? {
      EntryLeads(v, t, at, cs[0]);
    }
  }

  /** The three paths search_file answers at once are answered as a walk would. */
  lemma RootSearch(v: Dirs, t: Tree, p: Bytes)
    requires Agrees(v, t) && (p == [SLASH] || p == [SLASH] + DOT || p == [SLASH] + DOTDOT)
    ensures 0 in v && SearchAnswer(v, p, GotDir(0, 0), [])
  {
    hide AllListed, Distinguished, Lookup, Components, Tried;
    var cs: seq<Name> := if p == [SLASH] then [] else if p == [SLASH] + DOT then [DOT] else [DOTDOT];
    JoinedSnoc([], DOT);
    JoinedSnoc([], DOTDOT);
    assert [] + [DOT] == [DOT] && [] + [DOTDOT] == [DOTDOT];
    assert p == Render(cs);
    ComponentsJoined(cs);
    assert DirAgrees(v, t, 0);
    assert cs != [] ==> cs[1..] == [];
    NothingMissing(v, cs);
  }

  /** A directory of the tree as the operations on directories want it. */
  lemma DirIsNoFile(fs: FileSystem, t: Tree, at: nat)
    requires fs.Valid() && TreeOk(fs.g, fs.disk, fs.Nodes(), fs.files, t) && at in t.dirs
    ensures at in fs.inodes && Opened(fs, fs.inodes[at], ParentOf(t, at)) && fs.inodes[at].iNo == at
  {
    hide Consistent, Agrees, DirShape, Bitmap.View;
  }
}
