/** The tree of directories: what mkdir, rmdir, creat and unlink must keep, and what looking up a
    path means. */
module TreeSpec {
  import opened Sectors
  import opened BlockMap
  import opened DirEntries
  import opened DirSpec
  import opened Paths

  // ------------------------------------------------------------------
  // Looking up a path
  // ------------------------------------------------------------------

  /** The entries of every directory. */
  type Dirs = map<nat, seq<DirEntry>>

  datatype Searched =
    | FoundDir(ino: nat, parent: nat)
    | FoundFile(ino: nat, parent: nat)
    | Missing(parent: nat, rest: seq<Name>)

  /** Where the components cs lead from directory at, entered from parent. A regular file ends the
      search, whatever components follow. */
  ghost function Find(v: Dirs, parent: nat, at: nat, cs: seq<Name>): Searched
    requires at in v
    decreases |cs|
  {
    if cs == [] then FoundDir(at, parent)
    else
      match Lookup(v[at], cs[0])
      case Nothing => Missing(at, cs)
      case Something(e) =>
        if e.ftype == FT_REGULAR then FoundFile(e.ino, at)
        else if e.ino in v then Find(v, at, e.ino, cs[1..])
        else Missing(at, cs)
  }

  /** How many of the components are found, one after the other, before the search ends. */
  ghost function Reach(v: Dirs, at: nat, cs: seq<Name>): (k: nat)
    requires at in v
    ensures k <= |cs|
    decreases |cs|
  {
    if cs == [] then 0
    else
      match Lookup(v[at], cs[0])
      case Nothing => 0
      case Something(e) =>
        if e.ftype == FT_REGULAR then 1
        else if e.ino in v then 1 + Reach(v, e.ino, cs[1..])
        else 0
  }

  /** A search that ends at a file: the components up to it lead there alone, and they are all of them
      exactly when what comes before the last one is a directory. */
  lemma {:induction false} FileReach(v: Dirs, parent: nat, at: nat, cs: seq<Name>)
    requires at in v && Find(v, parent, at, cs).FoundFile?
    ensures var k := Reach(v, at, cs);
      1 <= k && Find(v, parent, at, cs[..k]) == Find(v, parent, at, cs)
      && (k == |cs| <==> Find(v, parent, at, cs[..|cs| - 1]).FoundDir?)
    decreases |cs|
  {
    hide Lookup;
    var e := Lookup(v[at], cs[0]).entry;
    if e.ftype != FT_REGULAR {
      FileReach(v, at, e.ino, cs[1..]);
      var k := Reach(v, e.ino, cs[1..]);
      assert cs[..k + 1][1..] == cs[1..][..k] && cs[..|cs| - 1][1..] == cs[1..][..|cs| - 2];
    }
  }

  /** The search in two legs. */
  lemma {:induction false} FindOn(v: Dirs, parent: nat, at: nat, a: seq<Name>, b: seq<Name>)
    requires at in v && Find(v, parent, at, a).FoundDir?
    ensures var x := Find(v, parent, at, a);
      x.ino in v && Find(v, parent, at, a + b) == Find(v, x.parent, x.ino, b)
    decreases |a|
  {
    if a == [] {
      assert a + b == b;
    } else {
      assert (a + b)[1..] == a[1..] + b;
      FindOn(v, at, Lookup(v[at], a[0]).entry.ino, a[1..], b);
    }
  }

  /** Every name bound in v is bound to the same entry in w. */
  ghost predicate Within(v: Dirs, w: Dirs) {
    && (forall i :: i in v ==> i in w)
    && (forall i :: i in v ==> NamesWithin(v[i], w[i]))
  }

  ghost predicate NamesWithin(l: seq<DirEntry>, l': seq<DirEntry>) {
    forall name :: Lookup(l, name).Something? ==> Lookup(l', name) == Lookup(l, name)
  }

  /** What a path leads to in a tree it leads to in every larger tree. */
  lemma {:induction false} FindWithin(v: Dirs, w: Dirs, parent: nat, at: nat, cs: seq<Name>)
    requires Within(v, w) && at in v && !Find(v, parent, at, cs).Missing?
    ensures Find(w, parent, at, cs) == Find(v, parent, at, cs)
    decreases |cs|
  {
    if cs != [] {
      assert NamesWithin(v[at], w[at]);
      var e := Lookup(v[at], cs[0]).entry;
      assert Lookup(w[at], cs[0]) == Lookup(v[at], cs[0]);
      if e.ftype != FT_REGULAR {
        FindWithin(v, w, at, e.ino, cs[1..]);
      }
    }
  }

  lemma {:induction false} FoundIn(v: Dirs, parent: nat, at: nat, cs: seq<Name>)
    requires at in v
    ensures var r := Find(v, parent, at, cs); r.FoundDir? ==> r.ino in v
    ensures var r := Find(v, parent, at, cs);
      r.Missing? ==> r.parent in v && 1 <= |r.rest| <= |cs| && r.rest == cs[|cs| - |r.rest|..]
    decreases |cs|
  {
    if cs != [] && Lookup(v[at], cs[0]).Something? && Lookup(v[at], cs[0]).entry.ino in v {
      FoundIn(v, at, Lookup(v[at], cs[0]).entry.ino, cs[1..]);
    }
  }

  // ------------------------------------------------------------------
  // The tree
  // ------------------------------------------------------------------

  /** home is the directory an inode is listed in; depth orders the inodes away from the root. */
  datatype Tree = Tree(dirs: set<nat>, home: map<nat, nat>, depth: map<nat, nat>)

  ghost function ParentOf(t: Tree, i: nat): nat {
    if i in t.home then t.home[i] else 0
  }

  /** An entry other than "." and ".." names an inode whose home is this directory. */
  ghost predicate Placed(t: Tree, i: nat, e: DirEntry) {
    && Component(e.name) && (IsDot(e.name) ==> e.ftype == FT_DIRECTORY)
    && (!IsDot(e.name) ==> e.ino in t.home && t.home[e.ino] == i && (e.ftype == FT_DIRECTORY <==> e.ino in t.dirs))
  }

  ghost predicate AllPlaced(t: Tree, i: nat, l: seq<DirEntry>) {
    forall k :: 0 <= k < |l| ==> Placed(t, i, l[k])
  }

  ghost predicate HasChild(l: seq<DirEntry>, i: nat) {
    exists k :: 0 <= k < |l| && !IsDot(l[k].name) && l[k].ino == i
  }

  /** Every inode but the root is listed at home, further from the root than its home. */
  ghost predicate Listed(v: Dirs, t: Tree, i: nat) {
    && i in t.home && t.home[i] in v && HasChild(v[t.home[i]], i)
    && i in t.depth && t.home[i] in t.depth && t.depth[t.home[i]] < t.depth[i]
  }

  ghost predicate AllListed(v: Dirs, t: Tree) {
    forall i :: i in t.home ==> Listed(v, t, i)
  }

  ghost predicate DirAgrees(v: Dirs, t: Tree, i: nat) {
    i in v && i < U32 && Distinguished(v[i]) && AllPlaced(t, i, v[i]) && DotsBound(t, i, v[i])
  }

  /** "." leads to the directory itself and ".." to its home; the root is its own parent. */
  ghost predicate DotsBound(t: Tree, i: nat, l: seq<DirEntry>) {
    && Lookup(l, DOT) == Something(DirEntry(DOT, i, FT_DIRECTORY))
    && Lookup(l, DOTDOT) == Something(DirEntry(DOTDOT, ParentOf(t, i), FT_DIRECTORY))
  }

  /** The entries of the directories form the tree t, rooted at inode 0. */
  ghost predicate Agrees(v: Dirs, t: Tree) {
    && v.Keys == t.dirs && 0 in t.dirs && 0 !in t.home && t.dirs - {0} <= t.home.Keys && 0 in t.depth
    && (forall i :: i in v ==> DirAgrees(v, t, i))
    && AllListed(v, t)
  }

  // ------------------------------------------------------------------
  // The path of a directory
  // ------------------------------------------------------------------

  lemma NameIs(l: seq<DirEntry>, i: nat) returns (k: nat)
    requires Distinguished(l) && HasChild(l, i)
    ensures k < |l| && !IsDot(l[k].name) && l[k].ino == i && NameIn(l, i) == l[k].name
  {
    k :| 0 <= k < |l| && !IsDot(l[k].name) && l[k].ino == i && NameIn(l, i) == l[k].name;
  }

  /** The name a directory has at home. */
  ghost function NameIn(l: seq<DirEntry>, i: nat): Name
    requires HasChild(l, i)
  {
    var k :| 0 <= k < |l| && !IsDot(l[k].name) && l[k].ino == i;
    l[k].name
  }

  /** The components from the root down to directory i. */
  ghost function PathOf(v: Dirs, t: Tree, i: nat): seq<Name>
    requires AllListed(v, t)
    decreases if i in t.depth then t.depth[i] else 0
  {
    if i !in t.home then []
    else
      assert Listed(v, t, i);
      PathOf(v, t, t.home[i]) + [NameIn(v[t.home[i]], i)]
  }

  /** Components that the kernel's 16-byte name buffers have room for. */
  ghost predicate Short(cs: seq<Name>) {
    forall k :: 0 <= k < |cs| ==> |cs[k]| <= 15
  }

  /** The path of a directory leads to it. */
  lemma {:induction false} PathLeads(v: Dirs, t: Tree, i: nat)
    requires Agrees(v, t) && i in v
    ensures Clean(PathOf(v, t, i)) && Short(PathOf(v, t, i))
    ensures forall k :: 0 <= k < |PathOf(v, t, i)| ==> NoZero(PathOf(v, t, i)[k])
    ensures Find(v, 0, 0, PathOf(v, t, i)) == FoundDir(i, ParentOf(t, i))
    decreases if i in t.depth then t.depth[i] else 0
  {
    hide DirAgrees, Lookup, HasChild, NoZero;
    if i in t.home {
      var h := t.home[i];
      assert Listed(v, t, i);
      PathLeads(v, t, h);
      ChildLeads(v, t, i, ParentOf(t, h));
      FindOn(v, 0, 0, PathOf(v, t, h), [NameIn(v[h], i)]);
    } else {
      assert i == 0;
    }
  }

  lemma ChildLeads(v: Dirs, t: Tree, i: nat, p: nat)
    requires Agrees(v, t) && i in t.home && i in v
    ensures Listed(v, t, i)
    ensures var name := NameIn(v[t.home[i]], i);
      Component(name) && !IsDot(name) && |name| <= 15 && NoZero(name) && Find(v, p, t.home[i], [name]) == FoundDir(i, t.home[i])
  {
    hide Lookup;
    assert Listed(v, t, i);
    var h := t.home[i];
    var l := v[h];
    assert DirAgrees(v, t, h);
    var k := NameIs(l, i);
    assert Placed(t, h, l[k]) && DirSpec.Storable(l[k]);
    LookupAt(l, k);
    assert [l[k].name][1..] == [];
  }

  // ------------------------------------------------------------------
  // Adding an entry
  // ------------------------------------------------------------------

  /** The tree with inode no at home in h, as a directory or as a file. */
  function Added(t: Tree, h: nat, no: nat, isDir: bool): Tree {
    Tree(if isDir then t.dirs + {no} else t.dirs, t.home[no := h],
         t.depth[no := if h in t.depth then t.depth[h] + 1 else 0])
  }

  /** What creat and mkdir do to the entries: h gets a new name for a new inode, which if it is a
      directory holds "." and "..". */
  ghost predicate AddStep(v: Dirs, t: Tree, h: nat, e: DirEntry, p: nat, v': Dirs) {
    && h in v && h in v' && e.ino != 0 && e.ino !in t.home && e.ino !in t.dirs
    && NewTo(v[h], e) && !IsDot(e.name) && Component(e.name) && PutIn(v[h], v'[h], p, e)
    && (forall i :: i in v && i != h ==> i in v' && v'[i] == v[i])
    && (if e.ftype == FT_DIRECTORY then v'.Keys == v.Keys + {e.ino} && v'[e.ino] == Dots(e.ino, h) else v'.Keys == v.Keys)
  }

  lemma AddAgrees(v: Dirs, t: Tree, h: nat, e: DirEntry, p: nat, v': Dirs)
    requires Agrees(v, t) && AddStep(v, t, h, e, p, v')
    ensures Agrees(v', Added(t, h, e.ino, e.ftype == FT_DIRECTORY))
  {
    hide Distinguished, NewTo, HasChild, DirAgrees;
    var t' := Added(t, h, e.ino, e.ftype == FT_DIRECTORY);
    forall i | i in v' ensures DirAgrees(v', t', i) {
      AddDirAgrees(v, t, h, e, p, v', i);
    }
    forall i | i in t'.home ensures Listed(v', t', i) {
      AddListed(v, t, h, e, p, v', i);
    }
  }

  lemma AddDirAgrees(v: Dirs, t: Tree, h: nat, e: DirEntry, p: nat, v': Dirs, i: nat)
    requires Agrees(v, t) && AddStep(v, t, h, e, p, v') && i in v'
    ensures DirAgrees(v', Added(t, h, e.ino, e.ftype == FT_DIRECTORY), i)
  {
    hide HasChild, NewTo, AllListed, Distinguished, Lookup, DotsBound, IsDot, AllPlaced, PutIn, Component;
    var t' := Added(t, h, e.ino, e.ftype == FT_DIRECTORY);
    assert DirAgrees(v, t, h);
    if i == h {
      PutInDistinguished(v[h], v'[h], p, e);
      AddDots(v, t, h, e, p, v');
      AddPlaced(v, t, h, e, p, v');
    } else if i in v {
      assert DirAgrees(v, t, i);
      AddPlacedElsewhere(v, t, h, e, p, v', i);
    } else {
      NewIsStorable(v[h], e);
      NewDirAgrees(t, t', e.ino, h);
    }
  }

  lemma AddDots(v: Dirs, t: Tree, h: nat, e: DirEntry, p: nat, v': Dirs)
    requires Agrees(v, t) && AddStep(v, t, h, e, p, v') && Distinguished(v'[h]) && DotsBound(t, h, v[h])
    ensures DotsBound(Added(t, h, e.ino, e.ftype == FT_DIRECTORY), h, v'[h])
  {
    hide Lookup, Distinguished, DirAgrees, AllListed;
    PutInLookup(v[h], v'[h], p, e, DOT);
    PutInLookup(v[h], v'[h], p, e, DOTDOT);
  }

  lemma AddPlaced(v: Dirs, t: Tree, h: nat, e: DirEntry, p: nat, v': Dirs)
    requires Agrees(v, t) && AddStep(v, t, h, e, p, v') && AllPlaced(t, h, v[h])
    ensures AllPlaced(Added(t, h, e.ino, e.ftype == FT_DIRECTORY), h, v'[h])
  {
    hide Lookup, Distinguished, DirAgrees, AllListed, IsDot, Component, NewTo;
    var t' := Added(t, h, e.ino, e.ftype == FT_DIRECTORY);
    NewIsStorable(v[h], e);
    forall k | 0 <= k < |v'[h]| ensures Placed(t', h, v'[h][k]) {
      assert v'[h][k] == if k < p then v[h][k] else if k == p then e else v[h][k - 1];
      assert k != p ==> Placed(t, h, v'[h][k]);
    }
  }

  lemma AddPlacedElsewhere(v: Dirs, t: Tree, h: nat, e: DirEntry, p: nat, v': Dirs, i: nat)
    requires Agrees(v, t) && AddStep(v, t, h, e, p, v') && i in v && i != h && DirAgrees(v, t, i)
    ensures AllPlaced(Added(t, h, e.ino, e.ftype == FT_DIRECTORY), i, v[i])
    ensures DotsBound(Added(t, h, e.ino, e.ftype == FT_DIRECTORY), i, v[i])
  {
    hide Lookup, Distinguished, AllListed, IsDot, Component, NewTo;
    var t' := Added(t, h, e.ino, e.ftype == FT_DIRECTORY);
    forall k | 0 <= k < |v[i]| ensures Placed(t', i, v[i][k]) {
      assert Placed(t, i, v[i][k]);
    }
  }

  lemma NewDirAgrees(t: Tree, t': Tree, self: nat, h: nat)
    requires self < U32 && h < U32 && t' == Added(t, h, self, true)
    ensures Distinguished(Dots(self, h)) && AllPlaced(t', self, Dots(self, h)) && DotsBound(t', self, Dots(self, h))
  {
    var l := Dots(self, h);
    DotsDistinguished(self, h);
    hide Distinguished, Lookup;
    NamesDiffer(l);
    LookupAt(l, 0);
    LookupAt(l, 1);
  }

  lemma NewIsStorable(l: seq<DirEntry>, e: DirEntry)
    requires NewTo(l, e)
    ensures DirSpec.Storable(e)
  {
  }

  lemma DotsDistinguished(self: nat, parent: nat)
    requires self < U32 && parent < U32
    ensures Distinguished(Dots(self, parent))
  {
  }

  lemma AddListed(v: Dirs, t: Tree, h: nat, e: DirEntry, p: nat, v': Dirs, i: nat)
    requires Agrees(v, t) && AddStep(v, t, h, e, p, v')
    requires i in Added(t, h, e.ino, e.ftype == FT_DIRECTORY).home
    ensures Listed(v', Added(t, h, e.ino, e.ftype == FT_DIRECTORY), i)
  {
    hide Distinguished, NewTo, DirAgrees, Component;
    if i == e.ino {
      assert v'[h][p] == e;
      assert h in t.home ==> Listed(v, t, h);
    } else {
      assert Listed(v, t, i);
      var l := v[t.home[i]];
      var k :| 0 <= k < |l| && !IsDot(l[k].name) && l[k].ino == i;
      assert t.home[i] == h ==> v'[h][if k < p then k else k + 1] == l[k];
    }
  }

  /** After mkdir or creat the new name is found, and whatever could be found before still is. */
  lemma AddFinds(v: Dirs, t: Tree, h: nat, e: DirEntry, p: nat, v': Dirs, cs: seq<Name>)
    requires Agrees(v, t) && AddStep(v, t, h, e, p, v')
    requires cs != [] && cs[|cs| - 1] == e.name && Find(v, 0, 0, cs) == Missing(h, [e.name])
    ensures Within(v, v')
    ensures Find(v', 0, 0, cs) == if e.ftype == FT_DIRECTORY then FoundDir(e.ino, h) else FoundFile(e.ino, h)
  {
    hide Find, Lookup, Distinguished;
    forall i | i in v ensures NamesWithin(v[i], v'[i]) {
      AddWithin(v, t, h, e, p, v', i);
    }
    var front := cs[..|cs| - 1];
    assert cs == front + [e.name];
    UpToMissing(v, 0, 0, front, e.name, h);
    FindWithin(v, v', 0, 0, front);
    FindOn(v', 0, 0, front, [e.name]);
    AddedLast(v, t, h, e, p, v', Find(v, 0, 0, front).parent);
  }

  lemma AddWithin(v: Dirs, t: Tree, h: nat, e: DirEntry, p: nat, v': Dirs, i: nat)
    requires Agrees(v, t) && AddStep(v, t, h, e, p, v') && i in v
    ensures NamesWithin(v[i], v'[i])
  {
    hide Lookup, Distinguished, NewTo;
    if i == h {
      assert DirAgrees(v, t, h);
      PutInDistinguished(v[h], v'[h], p, e);
      forall name | Lookup(v[h], name).Something? ensures Lookup(v'[h], name) == Lookup(v[h], name) {
        PutInLookup(v[h], v'[h], p, e, name);
      }
    }
  }

  lemma AddedLast(v: Dirs, t: Tree, h: nat, e: DirEntry, p: nat, v': Dirs, parent: nat)
    requires Agrees(v, t) && AddStep(v, t, h, e, p, v')
    ensures Find(v', parent, h, [e.name]) == if e.ftype == FT_DIRECTORY then FoundDir(e.ino, h) else FoundFile(e.ino, h)
  {
    hide Lookup, Distinguished;
    assert DirAgrees(v, t, h);
    PutInDistinguished(v[h], v'[h], p, e);
    PutInLookup(v[h], v'[h], p, e, e.name);
    assert [e.name][1..] == [];
  }

  lemma {:induction false} UpToMissing(v: Dirs, parent: nat, at: nat, front: seq<Name>, name: Name, h: nat)
    requires at in v && Find(v, parent, at, front + [name]) == Missing(h, [name])
    ensures Find(v, parent, at, front).FoundDir? && Find(v, parent, at, front).ino == h
    decreases |front|
  {
    if front != [] {
      assert (front + [name])[1..] == front[1..] + [name];
      UpToMissing(v, at, Lookup(v[at], front[0]).entry.ino, front[1..], name, h);
    }
  }

  // ------------------------------------------------------------------
  // Removing an entry
  // ------------------------------------------------------------------

  function Removed(t: Tree, no: nat): Tree {
    Tree(t.dirs - {no}, t.home - {no}, t.depth - {no})
  }

  /** What unlink and rmdir do to the entries, rmdir of an empty directory only. */
  ghost predicate RemoveStep(v: Dirs, t: Tree, h: nat, e: DirEntry, p: nat, v': Dirs) {
    && h in v && h in v' && e.ino in t.home && !IsDot(e.name) && PutIn(v'[h], v[h], p, e)
    && v'.Keys == v.Keys - {e.ino}
    && (forall i :: i in v' && i != h ==> v'[i] == v[i])
    && (e.ino in v ==> v[e.ino] == Dots(e.ino, h))
  }

  lemma RemoveAgrees(v: Dirs, t: Tree, h: nat, e: DirEntry, p: nat, v': Dirs)
    requires Agrees(v, t) && RemoveStep(v, t, h, e, p, v')
    ensures Agrees(v', Removed(t, e.ino)) && Within(v', v)
  {
    hide Distinguished, HasChild, Lookup, DirAgrees;
    var t' := Removed(t, e.ino);
    forall i | i in v' ensures DirAgrees(v', t', i) && NamesWithin(v'[i], v[i]) {
      RemoveDirAgrees(v, t, h, e, p, v', i);
    }
    forall i | i in t'.home ensures Listed(v', t', i) {
      RemoveListed(v, t, h, e, p, v', i);
    }
  }

  lemma RemoveDirAgrees(v: Dirs, t: Tree, h: nat, e: DirEntry, p: nat, v': Dirs, i: nat)
    requires Agrees(v, t) && RemoveStep(v, t, h, e, p, v') && i in v'
    ensures DirAgrees(v', Removed(t, e.ino), i) && NamesWithin(v'[i], v[i])
  {
    hide HasChild, AllListed, Lookup, Distinguished, AllPlaced, DotsBound;
    assert DirAgrees(v, t, h) && DirAgrees(v, t, i);
    if i == h {
      TakenOut(v'[h], v[h], p, e);
      RemoveNames(v, t, h, e, p, v');
      RemovePlaced(v, t, h, e, p, v');
    } else {
      RemovePlacedElsewhere(v, t, h, e, p, v', i);
    }
  }

  lemma RemoveNames(v: Dirs, t: Tree, h: nat, e: DirEntry, p: nat, v': Dirs)
    requires Agrees(v, t) && RemoveStep(v, t, h, e, p, v') && Distinguished(v[h]) && DotsBound(t, h, v[h])
    ensures NamesWithin(v'[h], v[h]) && (h != e.ino ==> DotsBound(Removed(t, e.ino), h, v'[h]))
  {
    hide Lookup, Distinguished, DirAgrees, AllListed;
    forall name | Lookup(v'[h], name).Something? ensures Lookup(v[h], name) == Lookup(v'[h], name) {
      PutInLookup(v'[h], v[h], p, e, name);
    }
    PutInLookup(v'[h], v[h], p, e, DOT);
    PutInLookup(v'[h], v[h], p, e, DOTDOT);
  }

  lemma RemovePlaced(v: Dirs, t: Tree, h: nat, e: DirEntry, p: nat, v': Dirs)
    requires Agrees(v, t) && RemoveStep(v, t, h, e, p, v') && Distinguished(v[h]) && AllPlaced(t, h, v[h])
    ensures AllPlaced(Removed(t, e.ino), h, v'[h])
  {
    hide Lookup, Distinguished, DirAgrees, AllListed, IsDot, Component;
    var t' := Removed(t, e.ino);
    assert v[h][p] == e;
    forall k | 0 <= k < |v'[h]| ensures Placed(t', h, v'[h][k]) {
      var j := if k < p then k else k + 1;
      assert v'[h][k] == v[h][j];
      assert Placed(t, h, v[h][j]);
      if !IsDot(v[h][j].name) { OthersDiffer(v[h], j, p); }
    }
  }

  lemma RemovePlacedElsewhere(v: Dirs, t: Tree, h: nat, e: DirEntry, p: nat, v': Dirs, i: nat)
    requires Agrees(v, t) && RemoveStep(v, t, h, e, p, v') && i in v' && i != h && AllPlaced(t, h, v[h])
    requires DirAgrees(v, t, i)
    ensures AllPlaced(Removed(t, e.ino), i, v[i]) && DotsBound(Removed(t, e.ino), i, v[i])
  {
    hide Lookup, Distinguished, AllListed, IsDot, Component;
    var t' := Removed(t, e.ino);
    assert v[h][p] == e;
    assert Placed(t, h, v[h][p]);
    forall k | 0 <= k < |v[i]| ensures Placed(t', i, v[i][k]) {
      assert Placed(t, i, v[i][k]);
    }
  }

  lemma OthersDiffer(l: seq<DirEntry>, j: nat, k: nat)
    requires Distinguished(l) && j < |l| && k < |l| && j != k && !IsDot(l[j].name) && !IsDot(l[k].name)
    ensures l[j].ino != l[k].ino
  {
  }

  lemma RemoveListed(v: Dirs, t: Tree, h: nat, e: DirEntry, p: nat, v': Dirs, i: nat)
    requires Agrees(v, t) && RemoveStep(v, t, h, e, p, v') && i in t.home && i != e.ino
    ensures Listed(v', Removed(t, e.ino), i)
  {
    hide Distinguished, DirAgrees;
    assert Listed(v, t, i);
    var l := v[t.home[i]];
    var k :| 0 <= k < |l| && !IsDot(l[k].name) && l[k].ino == i;
    assert t.home[i] == h && k != p ==> v'[h][if k < p then k else k - 1] == l[k];
  }

  /** After rmdir or unlink nothing leads to the inode any more. */
  lemma RemoveForgets(v: Dirs, t: Tree, h: nat, e: DirEntry, p: nat, v': Dirs, cs: seq<Name>)
    requires Agrees(v, t) && RemoveStep(v, t, h, e, p, v') && h != e.ino
    requires Find(v, 0, 0, cs) == FoundDir(e.ino, h) || Find(v, 0, 0, cs) == FoundFile(e.ino, h)
    ensures 0 in v' && Find(v', 0, 0, cs).Missing?
  {
    hide Find, Lookup, Distinguished, DirAgrees;
    RemoveAgrees(v, t, h, e, p, v');
    if !Find(v', 0, 0, cs).Missing? {
      FindWithin(v', v, 0, 0, cs);
      FoundIn(v', 0, 0, cs);
      FoundEntry(v', 0, 0, cs);
      NotListed(v, t, h, e, p, v');
      assert false;
    }
  }

  ghost predicate HasFile(l: seq<DirEntry>, no: nat) {
    exists k :: 0 <= k < |l| && l[k].ino == no && l[k].ftype == FT_REGULAR
  }

  /** A file that is found is listed in the directory it is found in. */
  lemma {:induction false} FoundEntry(v: Dirs, parent: nat, at: nat, cs: seq<Name>)
    requires at in v
    ensures var r := Find(v, parent, at, cs);
      r.FoundFile? ==> r.parent in v && HasFile(v[r.parent], r.ino)
    decreases |cs|
  {
    if cs != [] && Lookup(v[at], cs[0]).Something? {
      var e := Lookup(v[at], cs[0]).entry;
      if e.ftype != FT_REGULAR && e.ino in v {
        FoundEntry(v, at, e.ino, cs[1..]);
      }
    }
  }

  lemma NotListed(v: Dirs, t: Tree, h: nat, e: DirEntry, p: nat, v': Dirs)
    requires Agrees(v, t) && RemoveStep(v, t, h, e, p, v')
    ensures !HasFile(v'[h], e.ino)
  {
    hide HasChild, AllListed, Distinguished, DotsBound, Component, IsDot;
    assert DirAgrees(v, t, h) && v[h][p] == e;
    forall k | 0 <= k < |v'[h]| && v'[h][k].ftype == FT_REGULAR ensures v'[h][k].ino != e.ino {
      var j := if k < p then k else k + 1;
      assert v'[h][k] == v[h][j];
      assert Placed(t, h, v[h][j]);
      OthersDiffer(v[h], j, p);
    }
  }

  // ------------------------------------------------------------------
  // rmdir of a path that ends in "." or ".."
  // ------------------------------------------------------------------

  /** What the last component of a path to a directory says about where it was found. */
  lemma LastStep(v: Dirs, t: Tree, cs: seq<Name>)
    requires Agrees(v, t) && cs != [] && Find(v, 0, 0, cs).FoundDir? && Find(v, 0, 0, cs).ino != 0
    ensures var r, last := Find(v, 0, 0, cs), cs[|cs| - 1];
      && (last == DOT ==> r.parent == r.ino)
      && (last == DOTDOT ==> r.ino in v && HasChild(v[r.ino], r.parent) && r.parent != r.ino)
      && (!IsDot(last) ==> r.ino in t.home && r.parent == t.home[r.ino] && r.parent != r.ino)
  {
    hide Lookup, Distinguished;
    var front, last: Name := cs[..|cs| - 1], cs[|cs| - 1];
    assert cs == front + [last];
    LastFound(v, 0, 0, front, last);
    var x := Find(v, 0, 0, front);
    FindOn(v, 0, 0, front, [last]);
    assert [last][1..] == [];
    assert DirAgrees(v, t, x.ino);
    var e := Lookup(v[x.ino], last).entry;
    var k :| 0 <= k < |v[x.ino]| && v[x.ino][k] == e;
    assert Placed(t, x.ino, e);
    if last == DOTDOT {
      assert x.ino in t.home;
      assert Listed(v, t, x.ino);
    } else if last != DOT {
      assert Listed(v, t, e.ino);
    }
  }

  lemma {:induction false} LastFound(v: Dirs, parent: nat, at: nat, front: seq<Name>, last: Name)
    requires at in v && Find(v, parent, at, front + [last]).FoundDir?
    ensures Find(v, parent, at, front).FoundDir? && Find(v, parent, at, front).ino in v
    ensures Lookup(v[Find(v, parent, at, front).ino], last).Something?
    decreases |front|
  {
    if front == [] {
      assert front + [last] == [last];
    } else {
      assert (front + [last])[1..] == front[1..] + [last];
      LastFound(v, at, Lookup(v[at], front[0]).entry.ino, front[1..], last);
    }
  }

  lemma AgreedPlace(v: Dirs, t: Tree, h: nat, k: nat)
    requires Agrees(v, t) && h in v && k < |v[h]|
    ensures Placed(t, h, v[h][k])
  {
    hide AllListed, Lookup, Distinguished;
    assert DirAgrees(v, t, h);
  }

  /** Releasing a directory that is still listed at home leaves no tree at all. */
  lemma Dangling(v: Dirs, t: Tree, no: nat, t': Tree)
    requires Agrees(v, t) && no in v && no != 0
    ensures !Agrees(v - {no}, t')
  {
    hide Distinguished, Lookup;
    var w := v - {no};
    assert Listed(v, t, no);
    var h := t.home[no];
    var k: nat :| 0 <= k < |v[h]| && !IsDot(v[h][k].name) && v[h][k].ino == no;
    assert DirAgrees(v, t, h) && Placed(t, h, v[h][k]);
    assert h != no && h in w;
    if Agrees(w, t') {
      AgreedPlace(w, t', h, k);
      assert false;
    }
  }
}
