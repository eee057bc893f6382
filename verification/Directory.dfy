/** Directories (dir.c): searching, adding, removing and reading entries. Claims are for directories
    that keep to their twelve direct blocks, so the indirect table is never there to be read. */
module Directory {
  import opened Sectors
  import opened BlockMap
  import opened Bitmaps
  import opened DirEntries
  import opened DirSpec
  import opened FileSystem
  import opened InodeStore
  import InodeTable

  const DIR_CAPACITY: nat := 12 * PER_SECTOR

  /** A partition and one of its directories. */
  ghost predicate Opened(fs: FileSystem, dir: Inode, parent: nat)
    reads fs, fs.inodes.Values, fs.blockBitmap.bits, fs.inodeBitmap.bits, dir
  {
    && fs.Valid() && dir.iNo in fs.inodes && fs.inodes[dir.iNo] == dir && dir.iNo !in fs.files
    && DirShape(fs.disk, dir.Snapshot(), dir.iNo, parent)
  }

  // ------------------------------------------------------------------
  // One sector
  // ------------------------------------------------------------------

  /** Writing an entry over an unused one. */
  lemma EntryPut(x: Sector, k: nat, e: DirEntry)
    requires k < PER_SECTOR && Raw(x)[k].ftype == FT_UNKNOWN && DirSpec.Storable(e) && BlankHoles(x)
    ensures var y := PutBytes(x, k, Encode(e));
      PutIn(Live(Raw(x)), Live(Raw(y)), |Live(Raw(x)[..k])|, e) && BlankHoles(y)
      && (forall j :: 0 <= j < PER_SECTOR && j != k ==> Raw(y)[j] == Raw(x)[j])
  {
    StoredName(e);
    PutRaw(x, k, Encode(e));
    LiveUpdate(Raw(x), k, e);
  }

  /** Clearing an entry in use. */
  lemma EntryCleared(x: Sector, k: nat)
    requires k < PER_SECTOR && Raw(x)[k].ftype != FT_UNKNOWN && BlankHoles(x)
    ensures var y := PutBytes(x, k, ZeroBytes(ENTRY_SIZE));
      PutIn(Live(Raw(y)), Live(Raw(x)), |Live(Raw(x)[..k])|, Raw(x)[k]) && BlankHoles(y)
      && (forall j :: 0 <= j < PER_SECTOR && j != k ==> Raw(y)[j] == Raw(x)[j])
  {
    var y := PutBytes(x, k, ZeroBytes(ENTRY_SIZE));
    BlankBytes();
    PutRaw(x, k, ZeroBytes(ENTRY_SIZE));
    LiveUpdate(Raw(y), k, Raw(x)[k]);
    assert Raw(y)[..k] == Raw(x)[..k];
    assert Raw(y)[k := Raw(x)[k]] == Raw(x);
  }

  /** The sector a directory's new block starts as: one entry, then zeros. */
  function FirstSector(e: DirEntry): Sector
    requires |e.name| <= NAME_LEN && e.ino < U32 && e.ftype < U32
  {
    PutBytes(ZeroBytes(SECTOR_SIZE), 0, Encode(e))
  }

  lemma FirstSectorLive(e: DirEntry)
    requires DirSpec.Storable(e)
    ensures Live(Raw(FirstSector(e))) == [e] && BlankHoles(FirstSector(e))
  {
    var z: Sector := ZeroBytes(SECTOR_SIZE);
    BlankSector(z);
    NoneLive(Raw(z));
    EntryPut(z, 0, e);
  }

  lemma {:induction false} NoneLive(es: seq<DirEntry>)
    requires forall k :: 0 <= k < |es| ==> es[k].ftype == FT_UNKNOWN
    ensures Live(es) == []
  {
    if es != [] {
      NoneLive(es[1..]);
    }
  }

  // ------------------------------------------------------------------
  // One directory
  // ------------------------------------------------------------------

  /** What a change to block b of a directory must leave true there. */
  ghost predicate BlockOk(d: Disk, n: Node, b: nat, self: nat, parent: nat) {
    && NodeOk(d, n) && SectorsOk(d, n) && b < 12 && n.sectors[TABLE] == 0
    && (n.sectors[b] != 0 ==> BlankHoles(d[n.sectors[b]]))
    && (b >= 1 && n.sectors[b] != 0 ==> BlockEntries(d, n, b) != [])
    && Dotted(d, n, self, parent)
  }

  lemma ElsewhereKept(d: Disk, n: Node, d': Disk, n': Node, b: nat, self: nat, parent: nat)
    requires SameBut(d, n, d', n', b) && DirShape(d, n, self, parent) && BlockOk(d', n', b, self, parent)
    ensures HolesBlank(d', n') && NoEmptyBlock(d', n')
  {
    hide Listing, Distinguished, BlankHoles, Dotted;
    forall c | 0 <= c < 12 && n'.sectors[c] != 0
      ensures BlankHoles(d'[n'.sectors[c]]) && (c >= 1 ==> BlockEntries(d', n', c) != [])
    {
      if c != b {
        assert BlankHoles(d[n.sectors[c]]);
        assert c >= 1 ==> BlockEntries(d, n, c) != [];
      }
    }
  }

  lemma PutInLength(l: seq<DirEntry>, l': seq<DirEntry>, p: nat, e: DirEntry)
    requires PutIn(l, l', p, e)
    ensures |l'| == |l| + 1
  {
  }

  /** Putting an entry into block b keeps the shape of the directory. */
  lemma GrownShape(d: Disk, n: Node, d': Disk, n': Node, b: nat, p: nat, e: DirEntry, self: nat, parent: nat)
    requires DirShape(d, n, self, parent) && SameBut(d, n, d', n', b) && BlockOk(d', n', b, self, parent)
    requires PutIn(BlockEntries(d, n, b), BlockEntries(d', n', b), p, e)
    requires NewTo(Listing(d, n), e) && n'.size == n.size + ENTRY_SIZE
    ensures DirShape(d', n', self, parent)
    ensures PutIn(Listing(d, n), Listing(d', n'), |Entries(d, n, 0, b)| + p, e)
  {
    hide Distinguished, Listing, Entries, BlockEntries, NewTo, HolesBlank, NoEmptyBlock, Dotted, PutIn, SameBut;
    assert SectorsOk(d, n) && SectorsOk(d', n');
    ElsewhereKept(d, n, d', n', b, self, parent);
    BlockPutIn(d, n, d', n', b, p, e);
    PutInLength(Listing(d, n), Listing(d', n'), |Entries(d, n, 0, b)| + p, e);
    PutInDistinguished(Listing(d, n), Listing(d', n'), |Entries(d, n, 0, b)| + p, e);
  }

  /** Taking an entry out of block b keeps the shape of the directory. */
  lemma ShrunkShape(d: Disk, n: Node, d': Disk, n': Node, b: nat, p: nat, e: DirEntry, self: nat, parent: nat)
    requires DirShape(d, n, self, parent) && SameBut(d', n', d, n, b) && SameBut(d, n, d', n', b)
    requires BlockOk(d', n', b, self, parent)
    requires PutIn(BlockEntries(d', n', b), BlockEntries(d, n, b), p, e) && n.size == n'.size + ENTRY_SIZE
    ensures DirShape(d', n', self, parent)
    ensures PutIn(Listing(d', n'), Listing(d, n), |Entries(d', n', 0, b)| + p, e)
  {
    hide Distinguished, Listing, Entries, BlockEntries, HolesBlank, NoEmptyBlock, Dotted, PutIn, SameBut;
    ElsewhereKept(d, n, d', n', b, self, parent);
    BlockPutIn(d', n', d, n, b, p, e);
    PutInLength(Listing(d', n'), Listing(d, n), |Entries(d', n', 0, b)| + p, e);
    TakenOut(Listing(d', n'), Listing(d, n), |Entries(d', n', 0, b)| + p, e);
  }

  // ------------------------------------------------------------------
  // The partition around it
  // ------------------------------------------------------------------

  /** A change to directory i that no other inode sees. */
  lemma FilesKept(g: Area, d: Disk, bits: seq<bool>, m: map<nat, Node>, files: set<nat>, i: nat,
                  d': Disk, bits': seq<bool>, n': Node)
    requires Consistent(g, d, bits, m, files) && i in m && i !in files
    requires Owned(g, d', bits', m[i := n']) && OthersSame(d, d', m, i)
    ensures Consistent(g, d', bits', m[i := n'], files)
    ensures forall j :: j in files ==> j in m && NodeOk(d, m[j])
    ensures FilesOf(d', m[i := n'], files) == FilesOf(d, m, files)
  {
    hide Owned, Content, SameOnBoth, Filled;
    forall j | j in files ensures AtRest(d', m[j]) && Content(d', m[j]) == Content(d, m[j]) {
      assert SameOnBoth(d, d', m[j]);
      AtRestKept(d, d', m[j]);
    }
  }

  /** Writing the sector in slot b of directory i. */
  lemma DirWrite(g: Area, d: Disk, bits: seq<bool>, m: map<nat, Node>, i: nat, b: nat, x: Sector, size: nat)
    requires Owned(g, d, bits, m) && i in m && b < 12 && m[i].sectors[b] != 0 && size <= MAX_SIZE
    ensures var a := m[i].sectors[b];
      a < |d| && var d', n' := d[a := x], m[i].(size := size);
      NodeOk(d', n') && Owned(g, d', bits, m[i := n']) && OthersSame(d, d', m, i)
      && SectorsOk(d, m[i]) && SameBut(d, m[i], d', n', b)
  {
    var a := m[i].sectors[b];
    DirSectors(g, d, bits, m, i, b);
    assert Slot(d, m[i], b) == a;
    hide Owned, Slot, SameOnBoth;
    DataWriteOwned(g, d, bits, m, i, b, x);
    ResizeOwned(g, d[a := x], bits, m, i, m[i].(size := size));
    forall j | j in m && j != i ensures SameOnBoth(d, d[a := x], m[j]) {
      OthersKept(g, d, bits, m, i, b, x, j);
    }
  }

  /** The direct blocks of an inode are on the disk and differ. */
  lemma DirSectors(g: Area, d: Disk, bits: seq<bool>, m: map<nat, Node>, i: nat, b: nat)
    requires Owned(g, d, bits, m) && i in m && b < 12
    ensures NodeOk(d, m[i]) && SectorsOk(d, m[i])
    ensures forall c :: 0 <= c < 12 && c != b && m[i].sectors[b] != 0 ==> m[i].sectors[c] != m[i].sectors[b]
    ensures m[i].sectors[b] != 0 ==> InArea(g, bits, m[i].sectors[b])
  {
    forall c | 0 <= c < 12 ensures m[i].sectors[c] < |d| {
      assert Holds(d, m, i, c, m[i].sectors[c]);
    }
    assert Holds(d, m, i, b, m[i].sectors[b]);
    forall c | 0 <= c < 12 && c != b && m[i].sectors[b] != 0 ensures m[i].sectors[c] != m[i].sectors[b] {
      assert Holds(d, m, i, c, m[i].sectors[c]);
    }
  }

  /** Hanging a new block in the empty slot b of directory i. */
  lemma DirGrow(g: Area, d: Disk, bits: seq<bool>, bits': seq<bool>, m: map<nat, Node>, i: nat, b: nat, lba: nat)
    requires Owned(g, d, bits, m) && i in m && b < 12 && m[i].sectors[b] == 0 && Took(g, bits, bits', lba)
    ensures var n' := m[i].(sectors := m[i].sectors[b := lba]);
      NodeOk(d, n') && Owned(g, d, bits', m[i := n'])
  {
    var n := m[i];
    var n' := n.(sectors := n.sectors[b := lba]);
    assert n'.sectors[TABLE] == n.sectors[TABLE];
    assert forall s :: 0 <= s < SLOTS ==> Slot(d, n', s) == if s == b then lba else Slot(d, n, s);
    assert Extends(g, d, bits, n, d, bits', n') by {
      assert Slot(d, n', b) == lba;
      assert forall c :: 0 <= c < |bits| && bits'[c] && !bits[c] ==> g.lo + c == lba;
    }
    GrowOwned(g, d, bits, m, i, d, bits', n');
  }

  /** Giving back the block in slot b of directory i. */
  lemma DirShrink(g: Area, d: Disk, bits: seq<bool>, m: map<nat, Node>, i: nat, b: nat)
    requires Owned(g, d, bits, m) && i in m && b < 12 && m[i].sectors[b] != 0
    ensures var a := m[i].sectors[b];
      g.lo <= a < g.lo + |bits| && var n' := m[i].(sectors := m[i].sectors[b := 0]);
      Owned(g, d, bits[a - g.lo := false], m[i := n'])
  {
    var n := m[i];
    var a := n.sectors[b];
    DirSectors(g, d, bits, m, i, b);
    var n', bits' := n.(sectors := n.sectors[b := 0]), bits[a - g.lo := false];
    assert Holds(d, m, i, b, a);
    forall j, s, c | c != 0
      ensures Holds(d, m[i := n'], j, s, c) <==> Holds(d, m, j, s, c) && InArea(g, bits', c)
    {
      ShrinkHolds(g, d, bits, m, i, b, j, s, c);
    }
    ShrinkOwned(g, d, bits, m, d, bits', m[i := n']);
  }

  lemma ShrinkHolds(g: Area, d: Disk, bits: seq<bool>, m: map<nat, Node>, i: nat, b: nat, j: nat, s: nat, c: nat)
    requires Owned(g, d, bits, m) && i in m && b < 12 && m[i].sectors[b] != 0 && c != 0
    requires g.lo <= m[i].sectors[b] < g.lo + |bits|
    ensures var n' := m[i].(sectors := m[i].sectors[b := 0]);
      Holds(d, m[i := n'], j, s, c) <==> Holds(d, m, j, s, c) && InArea(g, bits[m[i].sectors[b] - g.lo := false], c)
  {
    var n := m[i];
    var n' := n.(sectors := n.sectors[b := 0]);
    assert n'.sectors[TABLE] == n.sectors[TABLE];
    assert Holds(d, m, i, b, n.sectors[b]);
    assert j == i && s < SLOTS && NodeOk(d, n) ==> Slot(d, n', s) == if s == b then 0 else Slot(d, n, s);
    if Holds(d, m, j, s, c) {
      assert InArea(g, bits, c);
      assert c == n.sectors[b] <==> j == i && s == b;
    }
  }

  // ------------------------------------------------------------------
  // The four ways a directory changes
  // ------------------------------------------------------------------

  /** Directory i became n' and nothing else in the partition noticed. */
  ghost predicate DirStep(g: Area, d: Disk, m: map<nat, Node>, files: set<nat>, i: nat,
                          d': Disk, bits': seq<bool>, n': Node, parent: nat) {
    && i in m && Consistent(g, d', bits', m[i := n'], files)
    && (forall j :: j in files ==> j in m && NodeOk(d, m[j]))
    && FilesOf(d', m[i := n'], files) == FilesOf(d, m, files)
    && OthersSame(d, d', m, i) && DirShape(d', n', i, parent)
  }

  /** An entry written over an unused one of block b. */
  lemma InsertExisting(g: Area, d: Disk, bits: seq<bool>, m: map<nat, Node>, files: set<nat>, i: nat, parent: nat,
                       b: nat, k: nat, e: DirEntry) returns (p: nat)
    requires Consistent(g, d, bits, m, files) && i in m && i !in files && DirShape(d, m[i], i, parent)
    requires b < 12 && k < PER_SECTOR && m[i].sectors[b] != 0
    requires Raw(d[m[i].sectors[b]])[k].ftype == FT_UNKNOWN && NewTo(Listing(d, m[i]), e)
    requires m[i].size + ENTRY_SIZE <= MAX_SIZE
    ensures var n, a := m[i], m[i].sectors[b];
      var d', n' := d[a := PutBytes(d[a], k, Encode(e))], n.(size := n.size + ENTRY_SIZE);
      DirStep(g, d, m, files, i, d', bits, n', parent) && PutIn(Listing(d, n), Listing(d', n'), p, e)
      && p == |Entries(d, n, 0, b)| + |Live(Raw(d[a])[..k])|
  {
    hide Owned, Listing, Entries, Distinguished, NewTo, Live, AtRest, OthersSame, PutIn;
    var n, a := m[i], m[i].sectors[b];
    NewStorable(Listing(d, n), e);
    var x := PutBytes(d[a], k, Encode(e));
    var d', n' := d[a := x], n.(size := n.size + ENTRY_SIZE);
    EntryPut(d[a], k, e);
    DirWrite(g, d, bits, m, i, b, x, n.size + ENTRY_SIZE);
    FilesKept(g, d, bits, m, files, i, d', bits, n');
    var q := |Live(Raw(d[a])[..k])|;
    PutInSome(Live(Raw(d[a])), Live(Raw(x)), q, e);
    DottedKept(d, n, d', n', b, k, i, parent);
    GrownShape(d, n, d', n', b, q, e, i, parent);
    p := |Entries(d, n, 0, b)| + q;
  }

  lemma NewStorable(l: seq<DirEntry>, e: DirEntry)
    requires NewTo(l, e)
    ensures DirSpec.Storable(e)
  {
  }

  lemma PutInSome(l: seq<DirEntry>, l': seq<DirEntry>, p: nat, e: DirEntry)
    requires PutIn(l, l', p, e)
    ensures l' != []
  {
  }

  /** The first two entries are not the one that was touched. */
  lemma DottedKept(d: Disk, n: Node, d': Disk, n': Node, b: nat, k: nat, self: nat, parent: nat)
    requires SameBut(d, n, d', n', b) && Dotted(d, n, self, parent) && b < 12 && k < PER_SECTOR
    requires b == 0 ==> n'.sectors[0] == n.sectors[0] && !(k <= 1 && IsDot(Raw(d[n.sectors[0]])[k].name))
    requires b == 0 ==> forall j :: 0 <= j < PER_SECTOR && j != k ==> Raw(d'[n.sectors[0]])[j] == Raw(d[n.sectors[0]])[j]
    ensures Dotted(d', n', self, parent)
  {
    hide Raw, Decode;
  }

  /** An entry as the first of a new block in the empty slot b. */
  lemma InsertFresh(g: Area, d: Disk, bits: seq<bool>, bits': seq<bool>, m: map<nat, Node>, files: set<nat>, i: nat,
                    parent: nat, b: nat, lba: nat, e: DirEntry) returns (p: nat)
    requires Consistent(g, d, bits, m, files) && i in m && i !in files && DirShape(d, m[i], i, parent)
    requires b < 12 && m[i].sectors[b] == 0 && Took(g, bits, bits', lba)
    requires NewTo(Listing(d, m[i]), e) && m[i].size + ENTRY_SIZE <= MAX_SIZE
    ensures var n := m[i];
      lba < |d| && var d', n' := d[lba := FirstSector(e)], Node(n.size + ENTRY_SIZE, n.sectors[b := lba]);
      DirStep(g, d, m, files, i, d', bits', n', parent) && PutIn(Listing(d, n), Listing(d', n'), p, e)
      && p == |Entries(d, n, 0, b)|
  {
    hide Owned, Listing, Entries, Distinguished, NewTo, Live, AtRest, OthersSame, PutIn, Took;
    var n := m[i];
    NewStorable(Listing(d, n), e);
    var n1 := n.(sectors := n.sectors[b := lba]);
    var x := FirstSector(e);
    OwnedBasics(g, d, bits, m);
    TookBlock(g, bits, bits', lba);
    DirGrow(g, d, bits, bits', m, i, b, lba);
    DirWrite(g, d, bits', m[i := n1], i, b, x, n.size + ENTRY_SIZE);
    var d', n' := d[lba := x], n1.(size := n.size + ENTRY_SIZE);
    assert m[i := n1][i := n'] == m[i := n'];
    SameOthers(d, d', m[i := n1], m, i);
    FilesKept(g, d, bits, m, files, i, d', bits', n');
    FirstSectorLive(e);
    PutInFirst(e);
    SameButVia(d, n, n1, d', n', b);
    DottedKept(d, n, d', n', b, 2, i, parent);
    GrownShape(d, n, d', n', b, 0, e, i, parent);
    p := |Entries(d, n, 0, b)|;
  }

  lemma SameButVia(d: Disk, n: Node, n1: Node, d': Disk, n': Node, b: nat)
    requires SectorsOk(d, n) && SameBut(d, n1, d', n', b)
    requires forall c :: 0 <= c < 12 && c != b ==> n1.sectors[c] == n.sectors[c]
    ensures SameBut(d, n, d', n', b)
  {
    forall c | 0 <= c < 12 && c != b ensures n'.sectors[c] == n.sectors[c] {
      assert n'.sectors[c] == n1.sectors[c];
    }
    forall c | 0 <= c < 12 && c != b && n.sectors[c] != 0 ensures d'[n.sectors[c]] == d[n.sectors[c]] {
      assert n.sectors[c] == n1.sectors[c];
    }
  }

  lemma TookBlock(g: Area, bits: seq<bool>, bits': seq<bool>, lba: nat)
    requires Took(g, bits, bits', lba)
    ensures g.lo <= lba < g.lo + |bits|
  {
  }

  lemma PutInFirst(e: DirEntry)
    ensures PutIn([], [e], 0, e)
  {
  }

  /** The entry at place k of block b cleared, others staying in the block. */
  lemma ClearEntry(g: Area, d: Disk, bits: seq<bool>, m: map<nat, Node>, files: set<nat>, i: nat, parent: nat,
                   b: nat, k: nat, e: DirEntry) returns (p: nat)
    requires Consistent(g, d, bits, m, files) && i in m && i !in files && DirShape(d, m[i], i, parent)
    requires b < 12 && k < PER_SECTOR && m[i].sectors[b] != 0
    requires Raw(d[m[i].sectors[b]])[k] == e && e.ftype != FT_UNKNOWN && !IsDot(e.name)
    requires b == 0 || |BlockEntries(d, m[i], b)| >= 2
    requires m[i].size >= ENTRY_SIZE
    ensures var n, a := m[i], m[i].sectors[b];
      var d', n' := d[a := PutBytes(d[a], k, ZeroBytes(ENTRY_SIZE))], n.(size := n.size - ENTRY_SIZE);
      DirStep(g, d, m, files, i, d', bits, n', parent) && PutIn(Listing(d', n'), Listing(d, n), p, e)
  {
    hide Owned, Listing, Entries, Distinguished, Live, AtRest, OthersSame, PutIn;
    var n, a := m[i], m[i].sectors[b];
    var x := PutBytes(d[a], k, ZeroBytes(ENTRY_SIZE));
    var d', n' := d[a := x], n.(size := n.size - ENTRY_SIZE);
    EntryCleared(d[a], k);
    DirWrite(g, d, bits, m, i, b, x, n.size - ENTRY_SIZE);
    FilesKept(g, d, bits, m, files, i, d', bits, n');
    var q := |Live(Raw(d[a])[..k])|;
    PutInLength(Live(Raw(x)), Live(Raw(d[a])), q, e);
    DottedKept(d, n, d', n', b, k, i, parent);
    SameButBack(d, n, d', n', b);
    ShrunkShape(d, n, d', n', b, q, e, i, parent);
    p := |Entries(d', n', 0, b)| + q;
  }

  lemma SameButBack(d: Disk, n: Node, d': Disk, n': Node, b: nat)
    requires SameBut(d, n, d', n', b)
    ensures SameBut(d', n', d, n, b)
  {
  }

  /** The only entry of block b removed together with the block. */
  lemma ClearBlock(g: Area, d: Disk, bits: seq<bool>, m: map<nat, Node>, files: set<nat>, i: nat, parent: nat,
                   b: nat, e: DirEntry) returns (p: nat)
    requires Consistent(g, d, bits, m, files) && i in m && i !in files && DirShape(d, m[i], i, parent)
    requires 1 <= b < 12 && m[i].sectors[b] != 0 && BlockEntries(d, m[i], b) == [e]
    requires m[i].size >= ENTRY_SIZE
    ensures var n, a := m[i], m[i].sectors[b];
      var n' := Node(n.size - ENTRY_SIZE, n.sectors[b := 0]);
      g.lo <= a < g.lo + |bits| && DirStep(g, d, m, files, i, d, bits[a - g.lo := false], n', parent)
      && PutIn(Listing(d, n'), Listing(d, n), p, e)
  {
    hide Owned, Listing, Entries, Distinguished, Live, AtRest, OthersSame, PutIn;
    var n, a := m[i], m[i].sectors[b];
    DirShrink(g, d, bits, m, i, b);
    var bits' := bits[a - g.lo := false];
    var n1 := n.(sectors := n.sectors[b := 0]);
    var n' := n1.(size := n.size - ENTRY_SIZE);
    ResizeOwned(g, d, bits', m[i := n1], i, n');
    assert m[i := n1][i := n'] == m[i := n'];
    OwnedBasics(g, d, bits, m);
    NoneChanged(d, m, i);
    FilesKept(g, d, bits, m, files, i, d, bits', n');
    PutInFirst(e);
    DottedKept(d, n, d, n', b, 2, i, parent);
    ShrunkShape(d, n, d, n', b, 0, e, i, parent);
    p := |Entries(d, n', 0, b)|;
  }

  // ------------------------------------------------------------------
  // Places in the list
  // ------------------------------------------------------------------

  /** The entry at place k of block b is in the list. */
  lemma EntryPlace(d: Disk, n: Node, b: nat, k: nat)
    requires SectorsOk(d, n) && b < 12 && n.sectors[b] != 0 && k < PER_SECTOR
    requires Raw(d[n.sectors[b]])[k].ftype != FT_UNKNOWN
    ensures var p := |Entries(d, n, 0, b)| + |Live(Raw(d[n.sectors[b]])[..k])|;
      p < |Listing(d, n)| && Listing(d, n)[p] == Raw(d[n.sectors[b]])[k]
  {
    hide Entries, Live, Raw;
    ListingAround(d, n, b);
    LiveAt(Raw(d[n.sectors[b]]), k);
  }

  lemma PlacesDiffer(es: seq<DirEntry>, j: nat, k: nat)
    requires j < k <= |es| && es[j].ftype != FT_UNKNOWN
    ensures |Live(es[..j])| < |Live(es[..k])|
  {
    hide Live;
    LiveAt(es[..k], j);
    assert es[..k][..j] == es[..j];
  }

  /** Two entries in use of one block that are not "." or ".." have different inode numbers. */
  lemma BlockDistinguished(d: Disk, n: Node, b: nat, j: nat, k: nat)
    requires SectorsOk(d, n) && b < 12 && n.sectors[b] != 0 && j < k < PER_SECTOR && Distinguished(Listing(d, n))
    requires var es := Raw(d[n.sectors[b]]);
      es[j].ftype != FT_UNKNOWN && es[k].ftype != FT_UNKNOWN && !IsDot(es[j].name) && !IsDot(es[k].name)
    ensures Raw(d[n.sectors[b]])[j].ino != Raw(d[n.sectors[b]])[k].ino
  {
    hide Live, Entries, Listing, Raw;
    EntryPlace(d, n, b, j);
    EntryPlace(d, n, b, k);
    PlacesDiffer(Raw(d[n.sectors[b]]), j, k);
  }

  lemma EntriesTo(d: Disk, n: Node, b: nat)
    requires SectorsOk(d, n) && b < 12
    ensures Entries(d, n, 0, b + 1) == Entries(d, n, 0, b) + BlockEntries(d, n, b)
  {
    hide BlockEntries;
    EntriesSplit(d, n, 0, b, b + 1);
    EntriesFrom(d, n, b, b + 1);
  }

  // ------------------------------------------------------------------
  // search_dir_entry
  // ------------------------------------------------------------------

  ghost predicate Unnamed(l: seq<DirEntry>, name: Name) {
    forall i :: 0 <= i < |l| ==> l[i].name != name
  }

  lemma UnnamedSector(es: seq<DirEntry>, name: Name)
    requires Unnamed(es, name)
    ensures Unnamed(Live(es), name)
  {
    forall i | 0 <= i < |Live(es)| ensures Live(es)[i].name != name {
      LiveMember(es, Live(es)[i]);
    }
  }

  lemma FoundEntry(d: Disk, n: Node, self: nat, parent: nat, b: nat, k: nat, name: Name)
    requires DirShape(d, n, self, parent) && b < 12 && n.sectors[b] != 0 && k < PER_SECTOR && name != []
    requires Raw(d[n.sectors[b]])[k].name == name
    ensures Lookup(Listing(d, n), name) == Something(Raw(d[n.sectors[b]])[k])
  {
    hide Live, Entries, Listing, Raw, Lookup;
    assert BlankHoles(d[n.sectors[b]]);
    EntryPlace(d, n, b, k);
    LookupAt(Listing(d, n), |Entries(d, n, 0, b)| + |Live(Raw(d[n.sectors[b]])[..k])|);
  }

  method FindInSector(es: seq<DirEntry>, name: Name) returns (k: nat)
    requires |es| == PER_SECTOR
    ensures k < PER_SECTOR ==> es[k].name == name
    ensures k >= PER_SECTOR ==> Unnamed(es, name)
  {
    k := 0;
    while k < PER_SECTOR
      invariant k <= PER_SECTOR && forall j :: 0 <= j < k ==> es[j].name != name
    {
      if es[k].name == name {
        return;
      }
      k := k + 1;
    }
  }

  /** search_dir_entry. It compares every entry, in use or not. */
  method SearchDirEntry(fs: FileSystem, dir: Inode, name: Name, ghost parent: nat) returns (r: Found)
    requires Opened(fs, dir, parent) && name != [] && NoZero(name)
    ensures SectorsOk(fs.disk, dir.Snapshot())
    ensures r == Lookup(Listing(fs.disk, dir.Snapshot()), name)
  {
    hide Live, Entries, Raw, Lookup, Distinguished, FileSystem.Valid, Dotted, HolesBlank, NoEmptyBlock;
    ghost var d, n := fs.disk, dir.Snapshot();
    var all := dir.iSectors[..12] + Zeros(128);
    var blockIdx := 0;
    EntriesNone(d, n, name);
    while blockIdx < 140
      invariant blockIdx <= 140
      invariant Unnamed(Entries(d, n, 0, if blockIdx <= 12 then blockIdx else 12), name)
    {
      if all[blockIdx] != 0 {
        var es := Raw(fs.disk[all[blockIdx]]);
        var k := FindInSector(es, name);
        if k < PER_SECTOR {
          FoundEntry(d, n, dir.iNo, parent, blockIdx, k, name);
          return Something(es[k]);
        }
        UnnamedSector(es, name);
      }
      if blockIdx < 12 { EntriesTo(d, n, blockIdx); }
      blockIdx := blockIdx + 1;
    }
    r := Nothing;
  }

  lemma EntriesNone(d: Disk, n: Node, name: Name)
    requires SectorsOk(d, n)
    ensures Unnamed(Entries(d, n, 0, 0), name)
  {
  }

  // ------------------------------------------------------------------
  // sync_dir_entry
  // ------------------------------------------------------------------

  /** The first block stayed the same. */
  ghost predicate KeptFirst(before: seq<nat>, after: seq<nat>) {
    |before| == |after| == 13 && after[0] == before[0]
  }

  /** Stored; stopped by the ASSERT of the block search, because no block is free; or come to the
      indirect blocks, where this model ends. */
  datatype Synced = Stored | NoFreeBlock | BeyondDirect

  /** Every entry of the blocks before b is in use. */
  ghost predicate FullUpTo(d: Disk, n: Node, b: nat)
    requires SectorsOk(d, n) && b <= 12
  {
    forall c :: 0 <= c < b ==> n.sectors[c] != 0 && FullSector(d[n.sectors[c]])
  }

  ghost predicate FullSector(x: Sector) {
    forall k :: 0 <= k < PER_SECTOR ==> Raw(x)[k].ftype != FT_UNKNOWN
  }

  /** The first room for an entry is a block yet to be allocated. */
  ghost predicate NeedsBlock(d: Disk, n: Node)
    requires SectorsOk(d, n)
  {
    exists b :: 0 <= b < 12 && n.sectors[b] == 0 && FullUpTo(d, n, b)
  }

  /** Entry q of the direct blocks, counted through, is in use. */
  ghost predicate SlotLive(d: Disk, n: Node, q: nat)
    requires SectorsOk(d, n) && q < DIR_CAPACITY
  {
    n.sectors[q / PER_SECTOR] != 0 && Raw(d[n.sectors[q / PER_SECTOR]])[q % PER_SECTOR].ftype != FT_UNKNOWN
  }

  /** The first place that has no entry. */
  ghost predicate FirstRoomAt(d: Disk, n: Node, p: nat)
    requires SectorsOk(d, n)
  {
    p < DIR_CAPACITY && !SlotLive(d, n, p) && forall q :: 0 <= q < p ==> SlotLive(d, n, q)
  }

  /** All is in use up to entry k of block b. */
  lemma RoomAt(d: Disk, n: Node, b: nat, k: nat)
    requires SectorsOk(d, n) && b < 12 && FullUpTo(d, n, b) && k < PER_SECTOR
    requires if n.sectors[b] == 0 then k == 0
             else FirstUnused(Raw(d[n.sectors[b]]), k)
    ensures FirstRoomAt(d, n, PER_SECTOR * b + k) && |Entries(d, n, 0, b)| == PER_SECTOR * b
    ensures n.sectors[b] != 0 ==> |Live(Raw(d[n.sectors[b]])[..k])| == k
  {
    hide Entries, Raw, Live, FullUpTo, SlotLive;
    CountFull(d, n, b);
    if n.sectors[b] != 0 { AllLive(Raw(d[n.sectors[b]])[..k]); }
    var p := PER_SECTOR * b + k;
    NoEntryAt(d, n, b, k);
    forall q | 0 <= q < p ensures SlotLive(d, n, q) {
      EntryBefore(d, n, b, k, q);
    }
  }

  lemma NoEntryAt(d: Disk, n: Node, b: nat, k: nat)
    requires SectorsOk(d, n) && b < 12 && k < PER_SECTOR
    requires n.sectors[b] == 0 || Raw(d[n.sectors[b]])[k].ftype == FT_UNKNOWN
    ensures PER_SECTOR * b + k < DIR_CAPACITY && !SlotLive(d, n, PER_SECTOR * b + k)
  {
    hide Raw;
    var p := PER_SECTOR * b + k;
    assert p / PER_SECTOR == b && p % PER_SECTOR == k;
  }

  lemma EntryBefore(d: Disk, n: Node, b: nat, k: nat, q: nat)
    requires SectorsOk(d, n) && b < 12 && FullUpTo(d, n, b) && k < PER_SECTOR && q < PER_SECTOR * b + k
    requires k > 0 ==> n.sectors[b] != 0 && forall j :: 0 <= j < k ==> Raw(d[n.sectors[b]])[j].ftype != FT_UNKNOWN
    ensures q < DIR_CAPACITY && SlotLive(d, n, q)
  {
    hide Raw;
    var c, j := q / PER_SECTOR, q % PER_SECTOR;
    assert q == PER_SECTOR * c + j;
    if c < b { assert FullSector(d[n.sectors[c]]); }
  }

  ghost predicate FirstUnused(es: seq<DirEntry>, k: nat) {
    k < |es| && es[k].ftype == FT_UNKNOWN && forall j :: 0 <= j < k ==> es[j].ftype != FT_UNKNOWN
  }

  lemma {:induction false} AllLive(es: seq<DirEntry>)
    ensures |Live(es)| <= |es|
    ensures |Live(es)| == |es| <==> forall k :: 0 <= k < |es| ==> es[k].ftype != FT_UNKNOWN
  {
    if es != [] {
      AllLive(es[1..]);
      assert es == [es[0]] + es[1..];
    }
  }

  /** Full blocks, counted. */
  lemma {:induction false} CountFull(d: Disk, n: Node, b: nat)
    requires SectorsOk(d, n) && b <= 12
    ensures |Entries(d, n, 0, b)| <= PER_SECTOR * b
    ensures |Entries(d, n, 0, b)| == PER_SECTOR * b <==> FullUpTo(d, n, b)
  {
    hide Live, Raw;
    if b > 0 {
      CountFull(d, n, b - 1);
      EntriesTo(d, n, b - 1);
      if n.sectors[b - 1] != 0 { AllLive(Raw(d[n.sectors[b - 1]])); }
      assert FullUpTo(d, n, b) <==> FullUpTo(d, n, b - 1) && n.sectors[b - 1] != 0 && FullSector(d[n.sectors[b - 1]]);
    }
  }

  method FindUnused(es: seq<DirEntry>) returns (k: nat)
    requires |es| == PER_SECTOR
    ensures k <= PER_SECTOR && forall j :: 0 <= j < k ==> es[j].ftype != FT_UNKNOWN
    ensures k < PER_SECTOR ==> es[k].ftype == FT_UNKNOWN
  {
    k := 0;
    while k < PER_SECTOR
      invariant k <= PER_SECTOR && forall j :: 0 <= j < k ==> es[j].ftype != FT_UNKNOWN
    {
      if es[k].ftype == FT_UNKNOWN {
        return;
      }
      k := k + 1;
    }
  }

  /** sync_dir_entry, the entry going over an unused one. */
  method StoreEntry(fs: FileSystem, dir: Inode, b: nat, k: nat, e: DirEntry, ghost parent: nat) returns (ghost p: nat)
    requires Opened(fs, dir, parent) && NewTo(Listing(fs.disk, dir.Snapshot()), e)
    requires b < 12 && k < PER_SECTOR && dir.iSectors[b] != 0 && dir.iSize + ENTRY_SIZE <= MAX_SIZE
    requires Raw(fs.disk[dir.iSectors[b]])[k].ftype == FT_UNKNOWN
    modifies fs`disk, dir
    ensures Opened(fs, dir, parent) && fs.Contents() == old(fs.Contents())
    ensures OthersSame(old(fs.disk), fs.disk, old(fs.Nodes()), dir.iNo)
    ensures SectorsOk(old(fs.disk), old(dir.Snapshot())) && dir.iSectors == old(dir.iSectors)
    ensures PutIn(old(Listing(fs.disk, dir.Snapshot())), Listing(fs.disk, dir.Snapshot()), p, e)
    ensures p == |old(Entries(fs.disk, dir.Snapshot(), 0, b))| + |Live(old(Raw(fs.disk[dir.iSectors[b]]))[..k])|
    ensures fs.Table() == old(fs.Table())
  {
    hide Consistent, Listing, Entries, Live, PutIn, NewTo, Raw, FilesOf, DirShape, OthersSame, Bitmap.View, InodeTable.TableOf;
    ghost var d, bits, m, i := fs.disk, fs.blockBitmap.View(), fs.Nodes(), dir.iNo;
    ShapeSectors(d, m[i], i, parent);
    EntrySizes(Listing(d, m[i]), e);
    SectorAbove(fs.g, d, bits, m, fs.files, i, b);
    SectorWrite(fs.g.lo, d, dir.iSectors[b], PutBytes(d[dir.iSectors[b]], k, Encode(e)), fs.tableLba);
    p := InsertExisting(fs.g, d, bits, m, fs.files, i, parent, b, k, e);
    fs.disk := fs.disk[dir.iSectors[b] := PutBytes(fs.disk[dir.iSectors[b]], k, Encode(e))];
    dir.iSize := dir.iSize + ENTRY_SIZE;
    StepTaken(fs, m, d, bits, dir, parent);
  }

  lemma ShapeSectors(d: Disk, n: Node, self: nat, parent: nat)
    requires DirShape(d, n, self, parent)
    ensures SectorsOk(d, n) && NodeOk(d, n) && n.sectors[0] != 0
    ensures n.size == ENTRY_SIZE * |Listing(d, n)|
  {
  }

  lemma EntrySizes(l: seq<DirEntry>, e: DirEntry)
    requires NewTo(l, e)
    ensures |e.name| <= NAME_LEN && e.ino < U32 && e.ftype < U32
  {
  }

  /** The partition object after a step of one of its directories. */
  lemma StepTaken(fs: FileSystem, m: map<nat, Node>, d: Disk, bits: seq<bool>, dir: Inode, parent: nat)
    requires DirStep(fs.g, d, m, fs.files, dir.iNo, fs.disk, bits, dir.Snapshot(), parent)
    requires fs.blockBitmap.Valid() && bits == fs.blockBitmap.View()
    requires m.Keys == fs.inodes.Keys && fs.inodes[dir.iNo] == dir && dir.iNo !in fs.files
    requires forall j :: j in fs.inodes && j != dir.iNo ==> m[j] == fs.inodes[j].Snapshot()
    ensures fs.Nodes() == m[dir.iNo := dir.Snapshot()]
    ensures Consistent(fs.g, fs.disk, bits, fs.Nodes(), fs.files) && DirShape(fs.disk, dir.Snapshot(), dir.iNo, parent)
    ensures OthersSame(d, fs.disk, m, dir.iNo)
    ensures forall j :: j in fs.files ==> j in m && NodeOk(d, m[j]) && j in fs.Nodes() && NodeOk(fs.disk, fs.Nodes()[j])
    ensures FilesOf(fs.disk, fs.Nodes(), fs.files) == FilesOf(d, m, fs.files)
  {
    hide Consistent, DirShape, OthersSame, Bitmap.View;
    fs.NodesAre(m[dir.iNo := dir.Snapshot()]);
    ConsistentNodes(fs.g, fs.disk, bits, fs.Nodes(), fs.files);
  }

  lemma ConsistentNodes(g: Area, d: Disk, bits: seq<bool>, m: map<nat, Node>, files: set<nat>)
    requires Consistent(g, d, bits, m, files)
    ensures forall j :: j in files ==> j in m && NodeOk(d, m[j])
  {
    hide Owned, Filled;
  }

  /** sync_dir_entry, the entry becoming the first of a new block. */
  method StoreInNewBlock(fs: FileSystem, dir: Inode, b: nat, e: DirEntry, ghost parent: nat)
      returns (halted: bool, ghost p: nat)
    requires Opened(fs, dir, parent) && NewTo(Listing(fs.disk, dir.Snapshot()), e)
    requires b < 12 && dir.iSectors[b] == 0 && dir.iSize + ENTRY_SIZE <= MAX_SIZE
    modifies fs`disk, fs.blockBitmap.bits, dir
    ensures halted <==> FreeCount(old(fs.blockBitmap.View())) == 0
    ensures !halted ==> Opened(fs, dir, parent) && fs.Contents() == old(fs.Contents())
    ensures !halted ==> OthersSame(old(fs.disk), fs.disk, old(fs.Nodes()), dir.iNo)
    ensures SectorsOk(old(fs.disk), old(dir.Snapshot()))
    ensures !halted ==> KeptFirst(old(dir.iSectors), dir.iSectors)
    ensures !halted ==> PutIn(old(Listing(fs.disk, dir.Snapshot())), Listing(fs.disk, dir.Snapshot()), p, e)
    ensures !halted ==> p == |old(Entries(fs.disk, dir.Snapshot(), 0, b))|
    ensures !halted ==> fs.Table() == old(fs.Table())
  {
    hide Consistent, Listing, Entries, PutIn, NewTo, Raw, FilesOf, DirShape, OthersSame, Bitmap.View, Took, FirstSector, FreeCount,
      FirstFit, FreeRun, DirStep, InodeTable.TableOf;
    ghost var d, bits, m, i := fs.disk, fs.blockBitmap.View(), fs.Nodes(), dir.iNo;
    ShapeSectors(d, m[i], i, parent);
    EntrySizes(Listing(d, m[i]), e);
    p := 0;
    var lba;
    halted, lba := fs.AllocBlock();
    if halted { return; }
    p := InsertFresh(fs.g, d, bits, fs.blockBitmap.View(), m, fs.files, i, parent, b, lba, e);
    dir.iSectors := dir.iSectors[b := lba];
    TookAbove(fs.g, bits, fs.blockBitmap.View(), lba);
    SectorWrite(fs.g.lo, fs.disk, lba, FirstSector(e), fs.tableLba);
    fs.disk := fs.disk[lba := FirstSector(e)];
    dir.iSize := dir.iSize + ENTRY_SIZE;
    StepTaken(fs, m, d, fs.blockBitmap.View(), dir, parent);
  }

  /** Writing a sector of the data area leaves the inode table alone. */
  lemma SectorWrite(lo: nat, d: Disk, a: nat, x: Sector, base: nat)
    requires lo <= a < |d| && base + InodeTable.TABLE_SECTORS <= lo
    ensures InodeTable.TableOf(d[a := x], base) == InodeTable.TableOf(d, base)
  {
    hide InodeTable.TableOf;
    TableBelow(lo, d, d[a := x], base);
  }

  lemma TookAbove(g: Area, bits: seq<bool>, bits': seq<bool>, lba: nat)
    requires Took(g, bits, bits', lba)
    ensures g.lo <= lba
  {
  }

  /** The blocks of a directory lie in the data area. */
  lemma SectorAbove(g: Area, d: Disk, bits: seq<bool>, m: map<nat, Node>, files: set<nat>, i: nat, b: nat)
    requires Consistent(g, d, bits, m, files) && i in m && SectorsOk(d, m[i]) && b < 12 && m[i].sectors[b] != 0
    ensures g.lo <= m[i].sectors[b] < |d|
  {
    assert NodeOk(d, m[i]);
    assert Holds(d, m, i, b, m[i].sectors[b]);
  }

  /** sync_dir_entry: the entry is put in among the others, in a block of its own when there is no room. */
  method SyncDirEntry(fs: FileSystem, dir: Inode, e: DirEntry, ghost parent: nat) returns (r: Synced, ghost p: nat)
    requires Opened(fs, dir, parent) && NewTo(Listing(fs.disk, dir.Snapshot()), e)
    modifies fs`disk, fs.blockBitmap.bits, dir
    ensures SectorsOk(old(fs.disk), old(dir.Snapshot()))
    ensures r == BeyondDirect <==> |old(Listing(fs.disk, dir.Snapshot()))| == DIR_CAPACITY
    ensures r == NoFreeBlock <==>
      NeedsBlock(old(fs.disk), old(dir.Snapshot())) && FreeCount(old(fs.blockBitmap.View())) == 0
    ensures r == Stored ==> Opened(fs, dir, parent) && fs.Contents() == old(fs.Contents())
    ensures r == Stored ==> OthersSame(old(fs.disk), fs.disk, old(fs.Nodes()), dir.iNo)
    ensures r == Stored ==> KeptFirst(old(dir.iSectors), dir.iSectors)
    ensures r == Stored ==> PutIn(old(Listing(fs.disk, dir.Snapshot())), Listing(fs.disk, dir.Snapshot()), p, e)
    ensures r == Stored ==> FirstRoomAt(old(fs.disk), old(dir.Snapshot()), p)
    ensures r == Stored ==> fs.Table() == old(fs.Table())
    ensures r == BeyondDirect ==> Opened(fs, dir, parent) && SectorsOk(fs.disk, dir.Snapshot()) && FullUpTo(fs.disk, dir.Snapshot(), 12)
    ensures r == BeyondDirect ==>
      fs.disk == old(fs.disk) && dir.Snapshot() == old(dir.Snapshot()) && fs.Nodes() == old(fs.Nodes())
      && fs.blockBitmap.View() == old(fs.blockBitmap.View())
  {
    hide Consistent, Listing, PutIn, NewTo, Raw, FilesOf, DirShape, OthersSame, Bitmap.View, FullUpTo, FullSector, NeedsBlock,
      FreeCount, SectorsOk, FirstRoomAt, Entries, Live, InodeTable.TableOf;
    ghost var d, n, i := fs.disk, dir.Snapshot(), dir.iNo;
    ShapeSectors(d, n, i, parent);
    DirFits(d, n, i, parent);
    assert dir.iSize % ENTRY_SIZE == 0;
    p := 0;
    var blockIdx := 0;
    NoneBefore(d, n);
    while blockIdx < 12
      invariant blockIdx <= 12 && dir.Snapshot() == n && fs.disk == d
      invariant Opened(fs, dir, parent) && NewTo(Listing(d, n), e) && fs.Contents() == old(fs.Contents())
      invariant fs.blockBitmap.View() == old(fs.blockBitmap.View())
      invariant fs.Nodes() == old(fs.Nodes())
      invariant FullUpTo(d, n, blockIdx)
    {
      FirstRoom(d, n, blockIdx);
      if dir.iSectors[blockIdx] == 0 {
        var halted;
        RoomAt(d, n, blockIdx, 0);
        halted, p := StoreInNewBlock(fs, dir, blockIdx, e, parent);
        r := if halted then NoFreeBlock else Stored;
        return;
      }
      var es := Raw(fs.disk[dir.iSectors[blockIdx]]);
      var k := FindUnused(es);
      RoomInBlock(d, n, blockIdx, k);
      if k < PER_SECTOR {
        RoomAt(d, n, blockIdx, k);
        p := StoreEntry(fs, dir, blockIdx, k, e, parent);
        r := Stored;
        return;
      }
      blockIdx := blockIdx + 1;
    }
    r := BeyondDirect;
    CountAll(d, n);
  }

  lemma NoneBefore(d: Disk, n: Node)
    requires SectorsOk(d, n)
    ensures FullUpTo(d, n, 0)
  {
  }

  lemma DirFits(d: Disk, n: Node, self: nat, parent: nat)
    requires DirShape(d, n, self, parent)
    ensures |Listing(d, n)| <= DIR_CAPACITY && n.size + ENTRY_SIZE <= MAX_SIZE
  {
    CountFull(d, n, 12);
  }

  lemma CountAll(d: Disk, n: Node)
    requires SectorsOk(d, n)
    ensures |Listing(d, n)| == DIR_CAPACITY <==> FullUpTo(d, n, 12)
    ensures FullUpTo(d, n, 12) ==> !NeedsBlock(d, n)
  {
    hide FullSector, Entries;
    CountFull(d, n, 12);
  }

  /** What being full up to block b says when b has no block. */
  lemma FirstRoom(d: Disk, n: Node, b: nat)
    requires SectorsOk(d, n) && b < 12 && FullUpTo(d, n, b)
    ensures n.sectors[b] == 0 ==> NeedsBlock(d, n) && |Listing(d, n)| != DIR_CAPACITY && !FullUpTo(d, n, 12)
    ensures n.sectors[b] < |d|
  {
    hide FullSector, Entries, Raw;
    CountFull(d, n, 12);
  }

  /** What it says when b has a block whose first unused entry is at k. */
  lemma RoomInBlock(d: Disk, n: Node, b: nat, k: nat)
    requires SectorsOk(d, n) && b < 12 && FullUpTo(d, n, b) && n.sectors[b] != 0 && k <= PER_SECTOR
    requires forall j :: 0 <= j < k ==> Raw(d[n.sectors[b]])[j].ftype != FT_UNKNOWN
    requires k < PER_SECTOR ==> Raw(d[n.sectors[b]])[k].ftype == FT_UNKNOWN
    ensures k < PER_SECTOR ==> !NeedsBlock(d, n) && |Listing(d, n)| != DIR_CAPACITY
    ensures k == PER_SECTOR ==> FullUpTo(d, n, b + 1)
  {
    hide Entries, Raw;
    CountFull(d, n, 12);
    if k < PER_SECTOR {
      assert !FullSector(d[n.sectors[b]]);
      assert !FullUpTo(d, n, 12);
    }
  }

  // ------------------------------------------------------------------
  // delete_dir_entry
  // ------------------------------------------------------------------

  /** The entry is in use, is not "." or "..", and has this inode number. */
  predicate Names(e: DirEntry, no: nat) {
    e.ftype != FT_UNKNOWN && !IsDot(e.name) && e.ino == no
  }

  ghost predicate NoneNames(l: seq<DirEntry>, no: nat) {
    forall i :: 0 <= i < |l| ==> !Names(l[i], no)
  }

  lemma NoneNamesSector(es: seq<DirEntry>, no: nat)
    requires NoneNames(es, no)
    ensures NoneNames(Live(es), no)
  {
    forall i | 0 <= i < |Live(es)| ensures !Names(Live(es)[i], no) {
      LiveMember(es, Live(es)[i]);
    }
  }

  /** The number of entries in use other than "." and "..". */
  ghost function Others(es: seq<DirEntry>): nat {
    if es == [] then 0
    else Others(es[..|es| - 1]) + if es[|es| - 1].ftype != FT_UNKNOWN && !IsDot(es[|es| - 1].name) then 1 else 0
  }

  /** Without "." and "..", the others are all there are. */
  lemma {:induction false} OthersAreLive(es: seq<DirEntry>)
    requires forall k :: 0 <= k < |es| && es[k].ftype != FT_UNKNOWN ==> !IsDot(es[k].name)
    ensures Others(es) == |Live(es)|
  {
    if es != [] {
      var last := |es| - 1;
      OthersAreLive(es[..last]);
      LiveAt(es, last);
      assert es[last + 1..] == [];
    }
  }

  ghost predicate AtMostOneNames(es: seq<DirEntry>, no: nat) {
    forall j, k :: 0 <= j < k < |es| && Names(es[j], no) ==> !Names(es[k], no)
  }

  /** The pass of delete_dir_entry over one sector: the number of its other entries, whether "."
      is among its entries, and where the entry looked for is, if it is there. */
  method CountSector(es: seq<DirEntry>, no: nat) returns (cnt: nat, hasDot: bool, at: int)
    requires |es| == PER_SECTOR && AtMostOneNames(es, no)
    ensures cnt == Others(es)
    ensures hasDot <==> exists k :: 0 <= k < PER_SECTOR && es[k].ftype != FT_UNKNOWN && es[k].name == DOT
    ensures at == -1 ==> NoneNames(es, no)
    ensures at != -1 ==> 0 <= at < PER_SECTOR && Names(es[at], no)
  {
    cnt, hasDot, at := 0, false, -1;
    var k := 0;
    while k < PER_SECTOR
      invariant k <= PER_SECTOR && cnt == Others(es[..k])
      invariant hasDot <==> exists j :: 0 <= j < k && es[j].ftype != FT_UNKNOWN && es[j].name == DOT
      invariant at == -1 ==> forall j :: 0 <= j < k ==> !Names(es[j], no)
      invariant at != -1 ==> 0 <= at < k && Names(es[at], no)
    {
      assert es[..k + 1][..k] == es[..k];
      if es[k].ftype != FT_UNKNOWN {
        if es[k].name == DOT {
          hasDot := true;
        } else if es[k].name != DOTDOT {
          cnt := cnt + 1;
          if es[k].ino == no {
            assert at == -1;
            at := k;
          }
        }
      }
      k := k + 1;
    }
    assert es[..PER_SECTOR] == es;
  }

  /** "." is in block 0 only, and there it is. */
  lemma DotBlock(d: Disk, n: Node, self: nat, parent: nat, b: nat)
    requires DirShape(d, n, self, parent) && b < 12 && n.sectors[b] != 0
    ensures var es := Raw(d[n.sectors[b]]);
      ((exists k :: 0 <= k < PER_SECTOR && es[k].ftype != FT_UNKNOWN && es[k].name == DOT) <==> b == 0)
      && (b != 0 ==> Others(es) == |BlockEntries(d, n, b)|)
  {
    hide Live, Entries, Raw, Others, HolesBlank, NoEmptyBlock;
    var es := Raw(d[n.sectors[b]]);
    if b == 0 {
      assert es[0].ftype != FT_UNKNOWN && es[0].name == DOT;
    } else {
      forall k | 0 <= k < PER_SECTOR && es[k].ftype != FT_UNKNOWN ensures !IsDot(es[k].name) {
        FirstBlockFirst(d, n, self, parent, b, k);
      }
      OthersAreLive(es);
    }
  }

  lemma FirstBlockFirst(d: Disk, n: Node, self: nat, parent: nat, b: nat, k: nat)
    requires DirShape(d, n, self, parent) && 1 <= b < 12 && n.sectors[b] != 0 && k < PER_SECTOR
    requires Raw(d[n.sectors[b]])[k].ftype != FT_UNKNOWN
    ensures !IsDot(Raw(d[n.sectors[b]])[k].name)
  {
    hide Live, Entries, Raw, HolesBlank, NoEmptyBlock;
    EntryPlace(d, n, 0, 0);
    EntryPlace(d, n, 0, 1);
    EntryPlace(d, n, b, k);
    PlacesDiffer(Raw(d[n.sectors[0]]), 0, 1);
    EntriesAtLeast(d, n, b);
    PlacesDiffer(Raw(d[n.sectors[0]]), 1, PER_SECTOR);
  }

  lemma EntriesAtLeast(d: Disk, n: Node, b: nat)
    requires SectorsOk(d, n) && 1 <= b <= 12 && n.sectors[0] != 0
    ensures |Entries(d, n, 0, b)| >= |Live(Raw(d[n.sectors[0]])[..PER_SECTOR])| && Entries(d, n, 0, 0) == []
  {
    EntriesSplit(d, n, 0, 1, b);
    EntriesFrom(d, n, 0, 1);
    assert Raw(d[n.sectors[0]])[..PER_SECTOR] == Raw(d[n.sectors[0]]);
  }

  lemma OneNamed(d: Disk, n: Node, self: nat, parent: nat, b: nat, no: nat)
    requires DirShape(d, n, self, parent) && b < 12 && n.sectors[b] != 0
    ensures AtMostOneNames(Raw(d[n.sectors[b]]), no)
  {
    hide Live, Entries, Raw, HolesBlank, NoEmptyBlock, Dotted, Listing, Distinguished;
    var es := Raw(d[n.sectors[b]]);
    forall j, k | 0 <= j < k < |es| && Names(es[j], no) ensures !Names(es[k], no) {
      if Names(es[k], no) {
        BlockDistinguished(d, n, b, j, k);
        assert false;
      }
    }
  }

  /** delete_dir_entry, the entry being the only one of its block: the block is given back. */
  method GiveBackBlock(fs: FileSystem, dir: Inode, b: nat, ghost e: DirEntry, ghost parent: nat) returns (ghost p: nat)
    requires Opened(fs, dir, parent) && 1 <= b < 12 && dir.iSectors[b] != 0 && dir.iSize >= ENTRY_SIZE
    requires BlockEntries(fs.disk, dir.Snapshot(), b) == [e]
    modifies fs.blockBitmap.bits, dir
    ensures SectorsOk(fs.disk, old(dir.Snapshot()))
    ensures Opened(fs, dir, parent) && fs.Contents() == old(fs.Contents())
    ensures OthersSame(fs.disk, fs.disk, old(fs.Nodes()), dir.iNo)
    ensures KeptFirst(old(dir.iSectors), dir.iSectors)
    ensures PutIn(Listing(fs.disk, dir.Snapshot()), old(Listing(fs.disk, dir.Snapshot())), p, e)
  {
    hide Consistent, Listing, PutIn, Raw, FilesOf, DirShape, OthersSame, Bitmap.View, BlockEntries;
    ghost var d, bits, m, i := fs.disk, fs.blockBitmap.View(), fs.Nodes(), dir.iNo;
    ShapeSectors(d, m[i], i, parent);
    p := ClearBlock(fs.g, d, bits, m, fs.files, i, parent, b, e);
    fs.blockBitmap.Set(dir.iSectors[b] - fs.g.lo, false);
    dir.iSectors := dir.iSectors[b := 0];
    dir.iSize := dir.iSize - ENTRY_SIZE;
    StepTaken(fs, m, d, fs.blockBitmap.View(), dir, parent);
  }

  /** delete_dir_entry, other entries staying in the block: the entry is overwritten with zeros. */
  method EraseEntry(fs: FileSystem, dir: Inode, b: nat, k: nat, ghost e: DirEntry, ghost parent: nat) returns (ghost p: nat)
    requires Opened(fs, dir, parent) && b < 12 && k < PER_SECTOR && dir.iSectors[b] != 0 && dir.iSize >= ENTRY_SIZE
    requires Raw(fs.disk[dir.iSectors[b]])[k] == e && e.ftype != FT_UNKNOWN && !IsDot(e.name)
    requires b == 0 || |BlockEntries(fs.disk, dir.Snapshot(), b)| >= 2
    modifies fs`disk, dir
    ensures SectorsOk(old(fs.disk), old(dir.Snapshot()))
    ensures Opened(fs, dir, parent) && fs.Contents() == old(fs.Contents())
    ensures OthersSame(old(fs.disk), fs.disk, old(fs.Nodes()), dir.iNo)
    ensures KeptFirst(old(dir.iSectors), dir.iSectors)
    ensures PutIn(Listing(fs.disk, dir.Snapshot()), old(Listing(fs.disk, dir.Snapshot())), p, e)
    ensures fs.Table() == old(fs.Table())
  {
    hide Consistent, Listing, PutIn, Raw, FilesOf, DirShape, OthersSame, Bitmap.View, BlockEntries, InodeTable.TableOf;
    ghost var d, bits, m, i := fs.disk, fs.blockBitmap.View(), fs.Nodes(), dir.iNo;
    ShapeSectors(d, m[i], i, parent);
    SectorAbove(fs.g, d, bits, m, fs.files, i, b);
    SectorWrite(fs.g.lo, d, dir.iSectors[b], PutBytes(d[dir.iSectors[b]], k, ZeroBytes(ENTRY_SIZE)), fs.tableLba);
    p := ClearEntry(fs.g, d, bits, m, fs.files, i, parent, b, k, e);
    fs.disk := fs.disk[dir.iSectors[b] := PutBytes(fs.disk[dir.iSectors[b]], k, ZeroBytes(ENTRY_SIZE))];
    dir.iSize := dir.iSize - ENTRY_SIZE;
    StepTaken(fs, m, d, fs.blockBitmap.View(), dir, parent);
  }

  lemma OneEntry(d: Disk, n: Node, b: nat, k: nat)
    requires SectorsOk(d, n) && b < 12 && n.sectors[b] != 0 && k < PER_SECTOR
    requires Raw(d[n.sectors[b]])[k].ftype != FT_UNKNOWN
    ensures |BlockEntries(d, n, b)| >= 1
    ensures |BlockEntries(d, n, b)| == 1 ==> BlockEntries(d, n, b) == [Raw(d[n.sectors[b]])[k]]
  {
    hide Live, Raw;
    LiveAt(Raw(d[n.sectors[b]]), k);
  }

  lemma NotTooSmall(d: Disk, n: Node, self: nat, parent: nat, b: nat, k: nat)
    requires DirShape(d, n, self, parent) && b < 12 && n.sectors[b] != 0 && k < PER_SECTOR
    requires Raw(d[n.sectors[b]])[k].ftype != FT_UNKNOWN
    ensures n.size >= ENTRY_SIZE
  {
    EntryPlace(d, n, b, k);
  }

  /** Storing the inode table leaves the directory as it was. */
  lemma DirSynced(g: Area, d: Disk, bits: seq<bool>, m: map<nat, Node>, files: set<nat>, i: nat, parent: nat, d': Disk)
    requires Consistent(g, d, bits, m, files) && i in m && DirShape(d, m[i], i, parent)
    requires Owned(g, d', bits, m) && forall j :: j in m ==> SameOnBoth(d, d', m[j])
    ensures Consistent(g, d', bits, m, files) && OthersSame(d, d', m, i)
    ensures forall j :: j in files ==> j in m && NodeOk(d, m[j])
    ensures FilesOf(d', m, files) == FilesOf(d, m, files)
    ensures DirShape(d', m[i], i, parent) && SectorsOk(d, m[i]) && Listing(d', m[i]) == Listing(d, m[i])
  {
    hide Owned, Filled, Content, SameOnBoth, DirShape, Listing;
    ShapeSectors(d, m[i], i, parent);
    DirKept(d, d', m[i], i, parent);
    forall j | j in files ensures AtRest(d', m[j]) && Content(d', m[j]) == Content(d, m[j]) {
      AtRestKept(d, d', m[j]);
    }
  }

  /** inode_sync of a directory. */
  method SyncDir(fs: FileSystem, dir: Inode, ghost parent: nat)
    requires Opened(fs, dir, parent)
    modifies fs`disk
    ensures Opened(fs, dir, parent) && fs.Contents() == old(fs.Contents())
    ensures OthersSame(old(fs.disk), fs.disk, old(fs.Nodes()), dir.iNo)
    ensures SectorsOk(old(fs.disk), dir.Snapshot())
    ensures Listing(fs.disk, dir.Snapshot()) == old(Listing(fs.disk, dir.Snapshot()))
    ensures StoredInode(fs, dir) && fs.Nodes() == old(fs.Nodes())
    ensures fs.Table() == TableSynced(old(fs.Table()), dir.iNo, dir.Snapshot())
  {
    hide Consistent, Owned, Listing, FilesOf, DirShape, OthersSame, SameOnBoth, Bitmap.View, InodeTable.LoadsAs,
      InodeTable.TableOf, TableSynced;
    ghost var d, bits, m, i := fs.disk, fs.blockBitmap.View(), fs.Nodes(), dir.iNo;
    ConsistentOwned(fs.g, d, bits, m, fs.files);
    fs.SyncInode(dir, m, i);
    DirSynced(fs.g, d, bits, m, fs.files, i, parent, fs.disk);
    fs.NodesAre(m);
  }

  lemma ConsistentOwned(g: Area, d: Disk, bits: seq<bool>, m: map<nat, Node>, files: set<nat>)
    requires Consistent(g, d, bits, m, files)
    ensures Owned(g, d, bits, m)
  {
  }

  /** delete_dir_entry, once the entry is found at place k of block b. */
  method TakeEntry(fs: FileSystem, dir: Inode, b: nat, k: nat, cnt: nat, hasDot: bool, ghost e: DirEntry, ghost parent: nat)
      returns (ghost p: nat)
    requires Opened(fs, dir, parent) && b < 12 && k < PER_SECTOR && dir.iSectors[b] != 0
    requires Raw(fs.disk[dir.iSectors[b]])[k] == e && e.ftype != FT_UNKNOWN && !IsDot(e.name)
    requires cnt == Others(Raw(fs.disk[dir.iSectors[b]])) && (hasDot <==> b == 0)
    modifies fs`disk, fs.blockBitmap.bits, dir
    ensures SectorsOk(old(fs.disk), old(dir.Snapshot()))
    ensures Opened(fs, dir, parent) && fs.Contents() == old(fs.Contents())
    ensures OthersSame(old(fs.disk), fs.disk, old(fs.Nodes()), dir.iNo)
    ensures KeptFirst(old(dir.iSectors), dir.iSectors)
    ensures PutIn(Listing(fs.disk, dir.Snapshot()), old(Listing(fs.disk, dir.Snapshot())), p, e)
    ensures StoredInode(fs, dir) && fs.Nodes() == old(fs.Nodes())[dir.iNo := dir.Snapshot()]
    ensures fs.Table() == TableSynced(old(fs.Table()), dir.iNo, dir.Snapshot())
  {
    hide Listing, PutIn, Raw, DirShape, OthersSame, Others, BlockEntries, FileSystem.Valid, FileSystem.Contents, StoredInode,
      InodeTable.TableOf, TableSynced;
    ghost var d, m, i := fs.disk, fs.Nodes(), dir.iNo;
    ShapeSectors(d, dir.Snapshot(), i, parent);
    SectorsLength(d, dir.Snapshot());
    DotBlock(d, dir.Snapshot(), i, parent, b);
    OneEntry(d, dir.Snapshot(), b, k);
    NotTooSmall(d, dir.Snapshot(), i, parent, b, k);
    Numbered(fs);
    assert dir.iSize >= ENTRY_SIZE;
    if cnt == 1 && !hasDot {
      p := GiveBackBlock(fs, dir, b, e, parent);
    } else {
      p := EraseEntry(fs, dir, b, k, e, parent);
    }
    ghost var d1, m1 := fs.disk, fs.Nodes();
    fs.NodesAre(m[i := dir.Snapshot()]);
    SyncDir(fs, dir, parent);
    SameOthers(d1, fs.disk, m1, m, i);
    OthersSameTransitive(d, d1, fs.disk, m, i);
  }

  lemma Numbered(fs: FileSystem)
    requires fs.Valid()
    ensures forall j :: j in fs.inodes ==> fs.inodes[j].iNo == j < InodeTable.INODES
    ensures forall j :: j in fs.files ==> j in fs.inodes
    ensures 0 in fs.inodes && 0 !in fs.files
  {
    hide Owned, AtRest, Bitmap.View;
  }

  /** Loading the inode from the table gives its number, size and blocks, its number being taken
      as the byte that inode_sync makes of it. */
  ghost predicate StoredInode(fs: FileSystem, inode: Inode)
    reads fs, inode
  {
    && fs.tableLba + InodeTable.TABLE_SECTORS <= |fs.disk| && |inode.iSectors| == 13
    && InodeTable.LoadsAs(fs.disk, fs.tableLba, inode.iNo % 256, RecordOf(inode.iNo, inode.Snapshot()))
  }

  /** delete_dir_entry. */
  method DeleteDirEntry(fs: FileSystem, dir: Inode, no: nat, ghost parent: nat)
      returns (found: bool, ghost p: nat, ghost e: DirEntry)
    requires Opened(fs, dir, parent)
    modifies fs`disk, fs.blockBitmap.bits, dir
    ensures Opened(fs, dir, parent) && fs.Contents() == old(fs.Contents())
    ensures SectorsOk(old(fs.disk), old(dir.Snapshot()))
    ensures found <==> !NoneNames(old(Listing(fs.disk, dir.Snapshot())), no)
    ensures !found ==> fs.disk == old(fs.disk) && dir.Snapshot() == old(dir.Snapshot())
    ensures found ==> OthersSame(old(fs.disk), fs.disk, old(fs.Nodes()), dir.iNo) && Names(e, no)
    ensures found ==> KeptFirst(old(dir.iSectors), dir.iSectors)
    ensures found ==> PutIn(Listing(fs.disk, dir.Snapshot()), old(Listing(fs.disk, dir.Snapshot())), p, e)
    ensures found ==> StoredInode(fs, dir) && fs.Nodes() == old(fs.Nodes())[dir.iNo := dir.Snapshot()]
    ensures found ==> fs.Table() == TableSynced(old(fs.Table()), dir.iNo, dir.Snapshot())
  {
    hide Listing, Entries, PutIn, Raw, Live, DirShape, OthersSame, SectorsOk, Others, FileSystem.Valid,
      FileSystem.Contents, StoredInode, InodeTable.TableOf, TableSynced;
    ghost var d, n, i := fs.disk, dir.Snapshot(), dir.iNo;
    ShapeSectors(d, n, i, parent);
    SectorsLength(d, n);
    var all := dir.iSectors[..12] + Zeros(128);
    p, e, found := 0, BLANK, false;
    var blockIdx := 0;
    NamesNone(d, n, no);
    while blockIdx < 140
      invariant blockIdx <= 140 && dir.Snapshot() == n && fs.disk == d
      invariant Opened(fs, dir, parent) && fs.Contents() == old(fs.Contents()) && fs.Nodes() == old(fs.Nodes())
      invariant NoneNames(Entries(d, n, 0, if blockIdx <= 12 then blockIdx else 12), no)
    {
      if all[blockIdx] != 0 {
        var es := Raw(fs.disk[all[blockIdx]]);
        OneNamed(d, n, i, parent, blockIdx, no);
        var cnt, hasDot, at := CountSector(es, no);
        if at != -1 {
          DotBlock(d, n, i, parent, blockIdx);
          e, found := es[at], true;
          EntryPlace(d, n, blockIdx, at);
          p := TakeEntry(fs, dir, blockIdx, at, cnt, hasDot, e, parent);
          return;
        }
        NoneNamesSector(es, no);
      }
      NamesStep(d, n, blockIdx, no);
      blockIdx := blockIdx + 1;
    }
    NamesAll(d, n, no);
  }

  lemma SectorsLength(d: Disk, n: Node)
    requires SectorsOk(d, n)
    ensures |n.sectors| == 13 && forall b :: 0 <= b < 12 ==> n.sectors[b] < |d|
  {
  }

  lemma NamesNone(d: Disk, n: Node, no: nat)
    requires SectorsOk(d, n)
    ensures NoneNames(Entries(d, n, 0, 0), no)
  {
  }

  lemma NamesAll(d: Disk, n: Node, no: nat)
    requires SectorsOk(d, n)
    ensures NoneNames(Listing(d, n), no) <==> NoneNames(Entries(d, n, 0, 12), no)
  {
  }

  lemma NamesStep(d: Disk, n: Node, b: nat, no: nat)
    requires SectorsOk(d, n) && NoneNames(Entries(d, n, 0, if b <= 12 then b else 12), no)
    requires b < 12 && n.sectors[b] != 0 ==> NoneNames(Live(Raw(d[n.sectors[b]])), no)
    ensures NoneNames(Entries(d, n, 0, if b + 1 <= 12 then b + 1 else 12), no)
  {
    hide Entries, Live, Raw;
    if b < 12 { EntriesTo(d, n, b); }
  }
}
