/** A directory whose twelve direct blocks are full (dir.c:130-198). sync_dir_entry starts from the direct
    addresses only, so from block 12 on it does not see a table that is there already: it makes
    another. */
module DirOverflow {
  import opened Sectors
  import opened BlockMap
  import opened Bitmaps
  import opened DirEntries
  import opened DirSpec
  import opened FileSystem
  import Directory

  // ------------------------------------------------------------------
  // The entries in all 140 blocks
  // ------------------------------------------------------------------

  ghost predicate BlocksOk(d: Disk, n: Node) {
    NodeOk(d, n) && forall k :: 0 <= k < BLOCKS ==> Block(d, n, k) < |d|
  }

  ghost function EntriesIn(d: Disk, n: Node, k: nat): seq<DirEntry>
    requires BlocksOk(d, n) && k < BLOCKS
  {
    if Block(d, n, k) == 0 then [] else Live(Raw(d[Block(d, n, k)]))
  }

  /** The entries of blocks lo, ..., hi - 1 in storage order. */
  ghost function Through(d: Disk, n: Node, lo: nat, hi: nat): seq<DirEntry>
    requires BlocksOk(d, n) && lo <= hi <= BLOCKS
    decreases hi - lo
  {
    if lo == hi then [] else EntriesIn(d, n, lo) + Through(d, n, lo + 1, hi)
  }

  /** What search_dir_entry looks through, which reads the table. */
  ghost function WholeListing(d: Disk, n: Node): seq<DirEntry>
    requires BlocksOk(d, n)
  {
    Through(d, n, 0, BLOCKS)
  }

  ghost function InDirect(d: Disk, n: Node): seq<DirEntry>
    requires BlocksOk(d, n)
  {
    Through(d, n, 0, DIRECT)
  }

  ghost function InTable(d: Disk, n: Node): seq<DirEntry>
    requires BlocksOk(d, n)
  {
    Through(d, n, DIRECT, BLOCKS)
  }

  lemma {:induction false} ThroughSplit(d: Disk, n: Node, lo: nat, mid: nat, hi: nat)
    requires BlocksOk(d, n) && lo <= mid <= hi <= BLOCKS
    ensures Through(d, n, lo, hi) == Through(d, n, lo, mid) + Through(d, n, mid, hi)
    decreases mid - lo
  {
    hide EntriesIn;
    if lo < mid {
      ThroughSplit(d, n, lo + 1, mid, hi);
    }
  }

  lemma {:induction false} ThroughSame(d: Disk, n: Node, d': Disk, n': Node, lo: nat, hi: nat)
    requires BlocksOk(d, n) && BlocksOk(d', n') && lo <= hi <= BLOCKS
    requires forall k :: lo <= k < hi ==> EntriesIn(d', n', k) == EntriesIn(d, n, k)
    ensures Through(d', n', lo, hi) == Through(d, n, lo, hi)
    decreases hi - lo
  {
    hide EntriesIn;
    if lo < hi {
      ThroughSame(d, n, d', n', lo + 1, hi);
    }
  }

  lemma {:induction false} ThroughEmpty(d: Disk, n: Node, lo: nat, hi: nat)
    requires BlocksOk(d, n) && lo <= hi <= BLOCKS && forall k :: lo <= k < hi ==> EntriesIn(d, n, k) == []
    ensures Through(d, n, lo, hi) == []
    decreases hi - lo
  {
    hide EntriesIn;
    if lo < hi {
      ThroughEmpty(d, n, lo + 1, hi);
    }
  }

  /** No room in the direct blocks. */
  ghost predicate Brimful(d: Disk, n: Node) {
    BlocksOk(d, n) && forall k :: 0 <= k < DIRECT ==> Block(d, n, k) != 0 && Directory.FullSector(d[Block(d, n, k)])
  }

  // ------------------------------------------------------------------
  // Another table
  // ------------------------------------------------------------------

  function TableWords(lba: nat): (w: seq<nat>)
    ensures |w| == WORDS && w[0] == lba && forall k :: 0 < k < WORDS ==> w[k] == 0
  {
    [lba] + Zeros(WORDS - 1)
  }

  /** The disk after the table went to sector t and the entry to sector lba. */
  function DiskAfter(d: Disk, t: nat, lba: nat, e: DirEntry): (d': Disk)
    requires t < |d| && lba < |d| && lba < U32 && DirSpec.Storable(e)
    ensures |d'| == |d|
  {
    d[t := FromWords(TableWords(lba))][lba := Directory.FirstSector(e)]
  }

  function NodeAfter(n: Node, t: nat): Node
    requires |n.sectors| == 13
  {
    Node(n.size + ENTRY_SIZE, n.sectors[TABLE := t])
  }

  /** Two sectors of the disk that no slot of the directory's direct part names. */
  ghost predicate Spare(d: Disk, n: Node, t: nat, lba: nat) {
    && BlocksOk(d, n) && (forall k :: 0 <= k < DIRECT ==> n.sectors[k] < |d|) && 0 < t < |d| <= U32 && 0 < lba < |d| && t != lba && n.size + ENTRY_SIZE <= MAX_SIZE
    && forall k :: 0 <= k < DIRECT ==> n.sectors[k] != t && n.sectors[k] != lba
  }

  lemma SlotsAfter(d: Disk, n: Node, t: nat, lba: nat, e: DirEntry)
    requires Spare(d, n, t, lba) && DirSpec.Storable(e)
    ensures var d', n' := DiskAfter(d, t, lba, e), NodeAfter(n, t);
      BlocksOk(d', n') && (forall s :: 0 <= s < SLOTS ==>
        Slot(d', n', s) == if s < TABLE then n.sectors[s] else if s == TABLE then t else if s == 13 then lba else 0)
  {
    hide FromWords, Directory.FirstSector;
    var d', n' := DiskAfter(d, t, lba, e), NodeAfter(n, t);
    assert d'[t] == FromWords(TableWords(lba));
    TableRead(d'[t], lba);
    OnDiskAfter(d', n', lba);
  }

  lemma TableRead(x: Sector, lba: nat)
    requires lba < U32 && x == FromWords(TableWords(lba))
    ensures forall k :: 0 <= k < WORDS ==> WordAt(x, k) == if k == 0 then lba else 0
  {
    hide FromWords;
    WordsRoundTrip(TableWords(lba));
    assert forall k :: 0 <= k < WORDS ==> WordAt(x, k) == Words(x)[k];
  }

  lemma OnDiskAfter(d: Disk, n: Node, lba: nat)
    requires NodeOk(d, n) && n.sectors[TABLE] != 0 && 0 < |d| && lba < |d| && forall k :: 0 <= k < DIRECT ==> n.sectors[k] < |d|
    requires forall k :: 0 <= k < WORDS ==> WordAt(d[n.sectors[TABLE]], k) == if k == 0 then lba else 0
    ensures BlocksOk(d, n)
  {
  }

  /** Afterwards the directory has the entries of its direct blocks and the new one. */
  lemma ListingAfter(d: Disk, n: Node, t: nat, lba: nat, e: DirEntry)
    requires Spare(d, n, t, lba) && DirSpec.Storable(e)
    ensures var d', n' := DiskAfter(d, t, lba, e), NodeAfter(n, t);
      BlocksOk(d', n') && WholeListing(d', n') == InDirect(d, n) + [e] && InTable(d', n') == [e]
      && InDirect(d', n') == InDirect(d, n)
  {
    hide DiskAfter, NodeAfter, Through, Raw, Live;
    var d', n' := DiskAfter(d, t, lba, e), NodeAfter(n, t);
    SlotsAfter(d, n, t, lba, e);
    BlocksAfter(d, n, t, lba, e);
    ThroughSame(d, n, d', n', 0, DIRECT);
    ThroughEmpty(d', n', DIRECT + 1, BLOCKS);
    ThroughFrom(d', n', DIRECT, BLOCKS);
    ThroughSplit(d', n', 0, DIRECT, BLOCKS);
  }

  lemma ThroughFrom(d: Disk, n: Node, lo: nat, hi: nat)
    requires BlocksOk(d, n) && lo < hi <= BLOCKS
    ensures Through(d, n, lo, hi) == EntriesIn(d, n, lo) + Through(d, n, lo + 1, hi)
  {
    hide EntriesIn;
  }

  lemma BlocksAfter(d: Disk, n: Node, t: nat, lba: nat, e: DirEntry)
    requires Spare(d, n, t, lba) && DirSpec.Storable(e)
    ensures var d', n' := DiskAfter(d, t, lba, e), NodeAfter(n, t);
      BlocksOk(d', n') && EntriesIn(d', n', DIRECT) == [e]
      && (forall k :: 0 <= k < DIRECT ==> EntriesIn(d', n', k) == EntriesIn(d, n, k))
      && (forall k :: DIRECT < k < BLOCKS ==> EntriesIn(d', n', k) == [])
  {
    hide Raw, Live;
    SlotsAfter(d, n, t, lba, e);
    Directory.FirstSectorLive(e);
    assert forall k :: 0 <= k < DIRECT ==> Block(d, n, k) == n.sectors[k];
  }

  /** The new entry comes on top of the others exactly when no entry was in the table; otherwise the
      entries there are found no more. */
  lemma KeptExactly(d: Disk, n: Node, t: nat, lba: nat, e: DirEntry)
    requires Spare(d, n, t, lba) && DirSpec.Storable(e)
    ensures var d', n' := DiskAfter(d, t, lba, e), NodeAfter(n, t);
      BlocksOk(d', n') && (WholeListing(d', n') == WholeListing(d, n) + [e] <==> InTable(d, n) == [])
  {
    hide DiskAfter, NodeAfter, Through, BlocksOk;
    ListingAfter(d, n, t, lba, e);
    ThroughSplit(d, n, 0, DIRECT, BLOCKS);
  }

  /** Names being different, every name that was in the table is found no more. */
  lemma NamesLost(d: Disk, n: Node, t: nat, lba: nat, e: DirEntry, x: DirEntry)
    requires Spare(d, n, t, lba) && NewTo(WholeListing(d, n), e) && Distinguished(WholeListing(d, n)) && x in InTable(d, n)
    ensures BlocksOk(DiskAfter(d, t, lba, e), NodeAfter(n, t))
    ensures Lookup(WholeListing(d, n), x.name) == Something(x)
    ensures Lookup(WholeListing(DiskAfter(d, t, lba, e), NodeAfter(n, t)), x.name) == Nothing
  {
    hide DiskAfter, NodeAfter, Through, BlocksOk;
    var l, a := WholeListing(d, n), InDirect(d, n);
    ListingAfter(d, n, t, lba, e);
    ThroughSplit(d, n, 0, DIRECT, BLOCKS);
    var k :| 0 <= k < |InTable(d, n)| && InTable(d, n)[k] == x;
    assert l == a + InTable(d, n) && l[|a| + k] == x;
    LookupAt(l, |a| + k);
    forall i | 0 <= i < |a + [e]| ensures (a + [e])[i].name != x.name {
      if i < |a| { assert l[i] == a[i]; }
    }
  }

  // ------------------------------------------------------------------
  // The blocks
  // ------------------------------------------------------------------

  /** Block ownership, but for blocks that nobody owns any more. */
  ghost predicate Apart(g: Area, d: Disk, bits: seq<bool>, m: map<nat, Node>) {
    Sized(g, d, bits, m) && InBitmap(g, d, bits, m) && OnePlace(d, m)
  }

  /** Two blocks were taken. */
  ghost predicate TookBoth(g: Area, bits: seq<bool>, bits': seq<bool>, t: nat, lba: nat) {
    && 1 <= g.lo && g.lo <= t < g.lo + |bits| && g.lo <= lba < g.lo + |bits| && t != lba
    && !bits[t - g.lo] && !bits[lba - g.lo] && bits' == bits[t - g.lo := true][lba - g.lo := true]
  }

  /** A clear bit is that of a sector that nobody uses. */
  lemma ClearUnused(g: Area, d: Disk, bits: seq<bool>, m: map<nat, Node>, a: nat)
    requires Apart(g, d, bits, m) && g.lo <= a < g.lo + |bits| && !bits[a - g.lo]
    ensures 1 <= a < |d| && forall j, s :: !Holds(d, m, j, s, a)
  {
  }

  lemma InBlocks(g: Area, d: Disk, bits: seq<bool>, m: map<nat, Node>, i: nat)
    requires Apart(g, d, bits, m) && i in m
    ensures 1 <= g.lo && BlocksOk(d, m[i]) && forall k :: 0 <= k < DIRECT ==> m[i].sectors[k] < |d|
  {
    hide OnePlace;
    forall k | 0 <= k < BLOCKS ensures Block(d, m[i], k) < |d| {
      assert Holds(d, m, i, SlotOfBlock(k), Block(d, m[i], k));
    }
    assert forall k :: 0 <= k < DIRECT ==> Block(d, m[i], k) == m[i].sectors[k];
  }

  lemma SpareAfter(g: Area, d: Disk, bits: seq<bool>, m: map<nat, Node>, i: nat, bits': seq<bool>, t: nat, lba: nat)
    requires Apart(g, d, bits, m) && i in m && TookBoth(g, bits, bits', t, lba) && m[i].size + ENTRY_SIZE <= MAX_SIZE
    ensures Spare(d, m[i], t, lba)
  {
    hide InBitmap, OnePlace;
    InBlocks(g, d, bits, m, i);
    ClearUnused(g, d, bits, m, t);
    ClearUnused(g, d, bits, m, lba);
    forall k | 0 <= k < DIRECT ensures m[i].sectors[k] != t && m[i].sectors[k] != lba {
      assert Slot(d, m[i], k) == m[i].sectors[k];
      assert !Holds(d, m, i, k, t) && !Holds(d, m, i, k, lba);
    }
  }

  /** The places after the step: those of the other inodes, the direct ones of this one, the new table
      and the new block. */
  lemma HoldsAfter(g: Area, d: Disk, bits: seq<bool>, m: map<nat, Node>, i: nat, bits': seq<bool>, t: nat, lba: nat,
                   e: DirEntry, j: nat, s: nat, a: nat)
    requires Apart(g, d, bits, m) && i in m && TookBoth(g, bits, bits', t, lba) && m[i].size + ENTRY_SIZE <= MAX_SIZE
    requires DirSpec.Storable(e) && Spare(d, m[i], t, lba) && a != 0
    ensures Holds(DiskAfter(d, t, lba, e), m[i := NodeAfter(m[i], t)], j, s, a) <==>
      (Holds(d, m, j, s, a) && (j == i ==> s < TABLE)) || (j == i && ((s == TABLE && a == t) || (s == 13 && a == lba)))
  {
    hide InBitmap, OnePlace;
    if j == i {
      SlotsAfter(d, m[i], t, lba, e);
    } else if j in m && m[j].sectors[TABLE] != 0 {
      ClearUnused(g, d, bits, m, t);
      ClearUnused(g, d, bits, m, lba);
      assert Slot(d, m[j], TABLE) == m[j].sectors[TABLE];
      assert !Holds(d, m, j, TABLE, t) && !Holds(d, m, j, TABLE, lba);
    }
  }

  /** No block comes to be in two places. */
  lemma ApartKept(g: Area, d: Disk, bits: seq<bool>, m: map<nat, Node>, i: nat, bits': seq<bool>, t: nat, lba: nat,
                  e: DirEntry)
    requires Apart(g, d, bits, m) && i in m && TookBoth(g, bits, bits', t, lba) && m[i].size + ENTRY_SIZE <= MAX_SIZE
    requires DirSpec.Storable(e) && Spare(d, m[i], t, lba)
    ensures Apart(g, DiskAfter(d, t, lba, e), bits', m[i := NodeAfter(m[i], t)])
  {
    hide DiskAfter, NodeAfter;
    var d', m' := DiskAfter(d, t, lba, e), m[i := NodeAfter(m[i], t)];
    SizedAfter(g, d, bits, m, i, bits', t, lba, e);
    ClearUnused(g, d, bits, m, t);
    ClearUnused(g, d, bits, m, lba);
    forall j, s, a | Holds(d', m', j, s, a) && a != 0 ensures InArea(g, bits', a) {
      HoldsAfter(g, d, bits, m, i, bits', t, lba, e, j, s, a);
    }
    forall j, s, k, u, a | Holds(d', m', j, s, a) && Holds(d', m', k, u, a) && a != 0 ensures j == k && s == u {
      HoldsAfter(g, d, bits, m, i, bits', t, lba, e, j, s, a);
      HoldsAfter(g, d, bits, m, i, bits', t, lba, e, k, u, a);
    }
  }

  lemma SizedAfter(g: Area, d: Disk, bits: seq<bool>, m: map<nat, Node>, i: nat, bits': seq<bool>, t: nat, lba: nat,
                   e: DirEntry)
    requires Apart(g, d, bits, m) && i in m && TookBoth(g, bits, bits', t, lba) && m[i].size + ENTRY_SIZE <= MAX_SIZE
    requires DirSpec.Storable(e) && Spare(d, m[i], t, lba)
    ensures Sized(g, DiskAfter(d, t, lba, e), bits', m[i := NodeAfter(m[i], t)])
    ensures t < g.lo + g.usable && lba < g.lo + g.usable
  {
    hide InBitmap, OnePlace;
  }

  /** Every set bit stays accounted for exactly when there was no table; else the old table's block
      is lost, and with it those it names. */
  lemma LeakExactly(g: Area, d: Disk, bits: seq<bool>, m: map<nat, Node>, i: nat, bits': seq<bool>, t: nat, lba: nat,
                    e: DirEntry)
    requires Owned(g, d, bits, m) && i in m && TookBoth(g, bits, bits', t, lba) && m[i].size + ENTRY_SIZE <= MAX_SIZE
    requires DirSpec.Storable(e) && Spare(d, m[i], t, lba)
    ensures Owned(g, DiskAfter(d, t, lba, e), bits', m[i := NodeAfter(m[i], t)]) <==> m[i].sectors[TABLE] == 0
  {
    hide DiskAfter, NodeAfter, OnePlace, InBitmap, Sized;
    ApartKept(g, d, bits, m, i, bits', t, lba, e);
    if m[i].sectors[TABLE] == 0 {
      AllAccounted(g, d, bits, m, i, bits', t, lba, e);
    } else {
      TableLost(g, d, bits, m, i, bits', t, lba, e);
    }
  }

  lemma AllAccounted(g: Area, d: Disk, bits: seq<bool>, m: map<nat, Node>, i: nat, bits': seq<bool>, t: nat, lba: nat,
                     e: DirEntry)
    requires Owned(g, d, bits, m) && i in m && TookBoth(g, bits, bits', t, lba) && m[i].size + ENTRY_SIZE <= MAX_SIZE
    requires DirSpec.Storable(e) && Spare(d, m[i], t, lba) && m[i].sectors[TABLE] == 0
    ensures NoLeak(g, DiskAfter(d, t, lba, e), bits', m[i := NodeAfter(m[i], t)])
  {
    hide DiskAfter, NodeAfter, OnePlace, InBitmap;
    var d', m' := DiskAfter(d, t, lba, e), m[i := NodeAfter(m[i], t)];
    forall b | 0 <= b < g.usable && bits'[b] ensures Accounted(d', m', g.lo + b) {
      var a := g.lo + b;
      if a == t {
        HoldsAfter(g, d, bits, m, i, bits', t, lba, e, i, TABLE, a);
      } else if a == lba {
        HoldsAfter(g, d, bits, m, i, bits', t, lba, e, i, 13, a);
      } else {
        assert Accounted(d, m, a);
        var j, s :| Holds(d, m, j, s, a);
        HoldsAfter(g, d, bits, m, i, bits', t, lba, e, j, s, a);
      }
    }
  }

  lemma TableLost(g: Area, d: Disk, bits: seq<bool>, m: map<nat, Node>, i: nat, bits': seq<bool>, t: nat, lba: nat,
                  e: DirEntry)
    requires Owned(g, d, bits, m) && i in m && TookBoth(g, bits, bits', t, lba) && m[i].size + ENTRY_SIZE <= MAX_SIZE
    requires DirSpec.Storable(e) && Spare(d, m[i], t, lba) && m[i].sectors[TABLE] != 0
    ensures var a := m[i].sectors[TABLE];
      InArea(g, bits', a) && !Accounted(DiskAfter(d, t, lba, e), m[i := NodeAfter(m[i], t)], a)
    ensures !Owned(g, DiskAfter(d, t, lba, e), bits', m[i := NodeAfter(m[i], t)])
  {
    hide DiskAfter, NodeAfter;
    var d', m', a := DiskAfter(d, t, lba, e), m[i := NodeAfter(m[i], t)], m[i].sectors[TABLE];
    assert Slot(d, m[i], TABLE) == a;
    assert Holds(d, m, i, TABLE, a);
    ClearUnused(g, d, bits, m, t);
    ClearUnused(g, d, bits, m, lba);
    forall j, s ensures !Holds(d', m', j, s, a) {
      HoldsAfter(g, d, bits, m, i, bits', t, lba, e, j, s, a);
      assert Holds(d, m, j, s, a) ==> j == i && s == TABLE;
    }
    assert g.lo + (a - g.lo) == a;
  }

  /** Every other inode keeps its blocks and its content. */
  lemma OthersAfter(g: Area, d: Disk, bits: seq<bool>, m: map<nat, Node>, i: nat, bits': seq<bool>, t: nat, lba: nat,
                    e: DirEntry)
    requires Apart(g, d, bits, m) && i in m && TookBoth(g, bits, bits', t, lba) && DirSpec.Storable(e)
    requires m[i].size + ENTRY_SIZE <= MAX_SIZE && Spare(d, m[i], t, lba)
    ensures OthersSame(d, DiskAfter(d, t, lba, e), m, i)
  {
    var d' := DiskAfter(d, t, lba, e);
    ClearUnused(g, d, bits, m, t);
    ClearUnused(g, d, bits, m, lba);
    forall j | j in m && j != i ensures SameOnBoth(d, d', m[j]) {
      forall s | 0 <= s < SLOTS ensures Slot(d, m[j], s) != t && Slot(d, m[j], s) != lba {
        assert !Holds(d, m, j, s, t) && !Holds(d, m, j, s, lba);
      }
      assert Slot(d, m[j], TABLE) == m[j].sectors[TABLE];
      SameContent(d, m[j], d', m[j]);
    }
  }

  // ------------------------------------------------------------------
  // The code
  // ------------------------------------------------------------------

  /** sync_dir_entry of a directory whose direct blocks are full, from block 12 on: two blocks are
      taken, one for a table and one for the entry, whether there is a table or not. */
  method SyncPastDirect(fs: FileSystem, dir: Inode, e: DirEntry) returns (halted: bool, ghost t: nat, ghost lba: nat)
    requires fs.blockBitmap.Valid() && dir.iNo in fs.inodes && fs.inodes[dir.iNo] == dir
    requires forall j :: j in fs.inodes ==> fs.inodes[j].iNo == j
    requires Apart(fs.g, fs.disk, fs.blockBitmap.View(), fs.Nodes()) && Brimful(fs.disk, dir.Snapshot())
    requires DirSpec.Storable(e) && dir.iSize + ENTRY_SIZE <= MAX_SIZE
    modifies fs`disk, fs.blockBitmap.bits, dir
    ensures halted <==> FreeCount(old(fs.blockBitmap.View())) < 2
    ensures !halted ==> FreeCount(fs.blockBitmap.View()) == FreeCount(old(fs.blockBitmap.View())) - 2
    ensures !halted ==> TookBoth(fs.g, old(fs.blockBitmap.View()), fs.blockBitmap.View(), t, lba)
    ensures !halted ==> Spare(old(fs.disk), old(dir.Snapshot()), t, lba)
    ensures !halted ==> fs.disk == DiskAfter(old(fs.disk), t, lba, e) && dir.Snapshot() == NodeAfter(old(dir.Snapshot()), t)
    ensures !halted ==> fs.Nodes() == old(fs.Nodes())[dir.iNo := dir.Snapshot()]
    ensures !halted ==> Apart(fs.g, fs.disk, fs.blockBitmap.View(), fs.Nodes()) && Brimful(fs.disk, dir.Snapshot())
    ensures !halted ==> OthersSame(old(fs.disk), fs.disk, old(fs.Nodes()), dir.iNo)
    ensures BlocksOk(old(fs.disk), old(dir.Snapshot())) && (!halted ==> BlocksOk(fs.disk, dir.Snapshot()))
    ensures !halted ==> WholeListing(fs.disk, dir.Snapshot()) == old(InDirect(fs.disk, dir.Snapshot())) + [e]
    ensures !halted ==> InDirect(fs.disk, dir.Snapshot()) == old(InDirect(fs.disk, dir.Snapshot()))
    ensures !halted ==> InTable(fs.disk, dir.Snapshot()) == [e]
  {
    hide Apart, Brimful, Bitmap.View, FreeCount, Spare, OthersSame, Through, FromWords, Directory.FirstSector, BlocksOk;
    ghost var g, d, n, m, i := fs.g, fs.disk, dir.Snapshot(), fs.Nodes(), dir.iNo;
    ghost var bits := fs.blockBitmap.View();
    assert m[i] == n;
    InBlocks(g, d, bits, m, i);
    t, lba := 0, 0;
    var table;
    halted, table := fs.AllocBlock();
    if halted { return; }
    TakeOne(bits, table - g.lo);
    ghost var bits1 := fs.blockBitmap.View();
    var block;
    halted, block := fs.AllocBlock();
    if halted { return; }
    TakeOne(bits1, block - g.lo);
    t, lba := table, block;
    SpareAfter(g, d, bits, m, i, fs.blockBitmap.View(), t, lba);
    AllAfter(g, d, bits, m, i, fs.blockBitmap.View(), t, lba, e);
    dir.iSectors := dir.iSectors[12 := table];
    fs.disk := fs.disk[table := FromWords(TableWords(block))];
    fs.disk := fs.disk[block := Directory.FirstSector(e)];
    dir.iSize := dir.iSize + ENTRY_SIZE;
    fs.NodesAre(m[i := dir.Snapshot()]);
  }

  lemma FullStays(d: Disk, n: Node, t: nat, lba: nat, e: DirEntry)
    requires Brimful(d, n) && Spare(d, n, t, lba) && DirSpec.Storable(e)
    ensures Brimful(DiskAfter(d, t, lba, e), NodeAfter(n, t))
  {
    hide Directory.FullSector;
    SlotsAfter(d, n, t, lba, e);
    assert forall k :: 0 <= k < DIRECT ==> Block(d, n, k) == n.sectors[k];
  }

  lemma AllAfter(g: Area, d: Disk, bits: seq<bool>, m: map<nat, Node>, i: nat, bits': seq<bool>, t: nat, lba: nat,
                 e: DirEntry)
    requires Apart(g, d, bits, m) && i in m && TookBoth(g, bits, bits', t, lba) && m[i].size + ENTRY_SIZE <= MAX_SIZE
    requires DirSpec.Storable(e) && Spare(d, m[i], t, lba) && Brimful(d, m[i])
    ensures |m[i].sectors| == 13 && t < |d| && lba < |d| && lba < U32
    ensures Apart(g, DiskAfter(d, t, lba, e), bits', m[i := NodeAfter(m[i], t)])
    ensures OthersSame(d, DiskAfter(d, t, lba, e), m, i)
    ensures var d', n' := DiskAfter(d, t, lba, e), NodeAfter(m[i], t);
      Brimful(d', n') && BlocksOk(d', n') && WholeListing(d', n') == InDirect(d, m[i]) + [e] && InTable(d', n') == [e]
      && InDirect(d', n') == InDirect(d, m[i])
  {
    hide DiskAfter, NodeAfter, Through, OthersSame;
    ApartKept(g, d, bits, m, i, bits', t, lba, e);
    OthersAfter(g, d, bits, m, i, bits', t, lba, e);
    ListingAfter(d, m[i], t, lba, e);
    FullStays(d, m[i], t, lba, e);
  }

  /** The blocks that one more entry takes. */
  ghost function BlocksNeededFor(d: Disk, n: Node): nat
    requires SectorsOk(d, n)
  {
    if Directory.NeedsBlock(d, n) then 1 else if |Listing(d, n)| == Directory.DIR_CAPACITY then 2 else 0
  }

  /** sync_dir_entry of any directory without a table: the entry is put in among the others, the table and
      its first block being made when the direct blocks are full. */
  method SyncDirEntry(fs: FileSystem, dir: Inode, e: DirEntry, ghost parent: nat) returns (halted: bool, ghost p: nat)
    requires Directory.Opened(fs, dir, parent) && NewTo(Listing(fs.disk, dir.Snapshot()), e)
    modifies fs`disk, fs.blockBitmap.bits, dir
    ensures SectorsOk(old(fs.disk), old(dir.Snapshot()))
    ensures halted <==> FreeCount(old(fs.blockBitmap.View())) < BlocksNeededFor(old(fs.disk), old(dir.Snapshot()))
    ensures !halted ==> BlocksOk(fs.disk, dir.Snapshot())
    ensures !halted ==> PutIn(old(Listing(fs.disk, dir.Snapshot())), WholeListing(fs.disk, dir.Snapshot()), p, e)
    ensures !halted ==> Owned(fs.g, fs.disk, fs.blockBitmap.View(), fs.Nodes())
    ensures !halted ==> OthersSame(old(fs.disk), fs.disk, old(fs.Nodes()), dir.iNo)
  {
    hide FileSystem.Valid, DirShape, Apart, Brimful, Owned, Bitmap.View, FreeCount, Spare, OthersSame, Through, BlocksOk, Listing,
      DiskAfter, NodeAfter, Directory.FullUpTo, Directory.NeedsBlock, NewTo, SectorsOk;
    var r;
    r, p := Directory.SyncDirEntry(fs, dir, e, parent);
    halted := r == Directory.NoFreeBlock;
    if r == Directory.Stored {
      StoredFacts(fs, dir, parent);
    } else if r == Directory.BeyondDirect {
      p := |Listing(fs.disk, dir.Snapshot())|;
      StoredFacts(fs, dir, parent);
      ghost var d, bits, m, n, i := fs.disk, fs.blockBitmap.View(), fs.Nodes(), dir.Snapshot(), dir.iNo;
      FullShape(d, n, i, parent, e);
      ghost var t, lba;
      halted, t, lba := SyncPastDirect(fs, dir, e);
      if halted { return; }
      LeakExactly(fs.g, d, bits, m, i, fs.blockBitmap.View(), t, lba, e);
    }
  }

  lemma StoredFacts(fs: FileSystem, dir: Inode, parent: nat)
    requires Directory.Opened(fs, dir, parent)
    ensures fs.Valid() && fs.blockBitmap.Valid() && Owned(fs.g, fs.disk, fs.blockBitmap.View(), fs.Nodes())
    ensures Apart(fs.g, fs.disk, fs.blockBitmap.View(), fs.Nodes()) && forall j :: j in fs.inodes ==> fs.inodes[j].iNo == j
    ensures BlocksOk(fs.disk, dir.Snapshot())
    ensures SectorsOk(fs.disk, dir.Snapshot()) && WholeListing(fs.disk, dir.Snapshot()) == Listing(fs.disk, dir.Snapshot())
  {
    hide FileSystem.Valid, Owned, Apart, Bitmap.View, BlocksOk, Listing, Through;
    MountedFacts(fs);
    assert fs.Nodes()[dir.iNo] == dir.Snapshot();
    InBlocks(fs.g, fs.disk, fs.blockBitmap.View(), fs.Nodes(), dir.iNo);
    NoTable(fs.disk, dir.Snapshot());
  }

  /** Without a table all entries are in the direct blocks. */
  lemma NoTable(d: Disk, n: Node)
    requires BlocksOk(d, n) && SectorsOk(d, n) && n.sectors[TABLE] == 0
    ensures WholeListing(d, n) == InDirect(d, n) == Listing(d, n)
  {
    ThroughEmpty(d, n, DIRECT, BLOCKS);
    ThroughSplit(d, n, 0, DIRECT, BLOCKS);
    DirectListing(d, n, 0);
  }

  lemma {:induction false} DirectListing(d: Disk, n: Node, lo: nat)
    requires BlocksOk(d, n) && SectorsOk(d, n) && lo <= 12
    ensures Through(d, n, lo, 12) == Entries(d, n, lo, 12)
    decreases 12 - lo
  {
    if lo < 12 {
      DirectListing(d, n, lo + 1);
      assert EntriesIn(d, n, lo) == BlockEntries(d, n, lo);
    }
  }

  lemma FullShape(d: Disk, n: Node, i: nat, parent: nat, e: DirEntry)
    requires DirShape(d, n, i, parent) && Directory.FullUpTo(d, n, 12) && BlocksOk(d, n) && NewTo(Listing(d, n), e)
    ensures Brimful(d, n) && n.sectors[TABLE] == 0 && DirSpec.Storable(e) && n.size + ENTRY_SIZE <= MAX_SIZE
    ensures InDirect(d, n) == Listing(d, n) && !Directory.NeedsBlock(d, n)
  {
    hide Listing, Directory.FullSector, Directory.FullUpTo, Brimful, BlocksOk, Through, HolesBlank, NoEmptyBlock, Distinguished, Dotted;
    NoTable(d, n);
    Directory.DirFits(d, n, i, parent);
    Directory.CountAll(d, n);
    FullBrim(d, n);
  }

  lemma FullBrim(d: Disk, n: Node)
    requires SectorsOk(d, n) && Directory.FullUpTo(d, n, 12) && BlocksOk(d, n)
    ensures Brimful(d, n)
  {
    hide Directory.FullSector;
    assert forall k :: 0 <= k < DIRECT ==> Block(d, n, k) == n.sectors[k];
  }

  /** Two entries beyond the direct blocks: the first is found until the second comes, and then neither
      it nor its block is anybody's. */
  method TwoPastDirect(fs: FileSystem, dir: Inode, e: DirEntry, f: DirEntry) returns (halted: bool)
    requires fs.Valid() && dir.iNo in fs.inodes && fs.inodes[dir.iNo] == dir && Brimful(fs.disk, dir.Snapshot())
    requires dir.iSectors[TABLE] == 0 && dir.iSize + 2 * ENTRY_SIZE <= MAX_SIZE
    requires Distinguished(WholeListing(fs.disk, dir.Snapshot())) && NewTo(WholeListing(fs.disk, dir.Snapshot()), e)
    requires NewTo(WholeListing(fs.disk, dir.Snapshot()) + [e], f)
    modifies fs`disk, fs.blockBitmap.bits, dir
    ensures halted <==> FreeCount(old(fs.blockBitmap.View())) < 4
    ensures !halted ==> BlocksOk(fs.disk, dir.Snapshot())
    ensures !halted ==> WholeListing(fs.disk, dir.Snapshot()) == old(WholeListing(fs.disk, dir.Snapshot())) + [f]
    ensures !halted ==> Lookup(WholeListing(fs.disk, dir.Snapshot()), e.name) == Nothing
    ensures !halted ==> !Owned(fs.g, fs.disk, fs.blockBitmap.View(), fs.Nodes())
  {
    hide FileSystem.Valid, Apart, Brimful, Owned, Bitmap.View, FreeCount, DiskAfter, NodeAfter, Spare, OthersSame, Through, BlocksOk,
      TookBoth, Distinguished;
    MountedFacts(fs);
    ghost var g, d, bits, m, n, i := fs.g, fs.disk, fs.blockBitmap.View(), fs.Nodes(), dir.Snapshot(), dir.iNo;
    DirectOnly(d, n);
    ghost var t, lba, t2, lba2;
    halted, t, lba := SyncPastDirect(fs, dir, e);
    if halted { return; }
    ghost var d1, bits1, m1, n1 := fs.disk, fs.blockBitmap.View(), fs.Nodes(), dir.Snapshot();
    TableSet(n, t, d, lba);
    LeakExactly(g, d, bits, m, i, bits1, t, lba, e);
    halted, t2, lba2 := SyncPastDirect(fs, dir, f);
    if halted { return; }
    TableLost(g, d1, bits1, m1, i, fs.blockBitmap.View(), t2, lba2, f);
    OneGone(WholeListing(d, n), e, f);
  }

  lemma MountedFacts(fs: FileSystem)
    requires fs.Valid()
    ensures fs.blockBitmap.Valid() && Owned(fs.g, fs.disk, fs.blockBitmap.View(), fs.Nodes())
    ensures Apart(fs.g, fs.disk, fs.blockBitmap.View(), fs.Nodes()) && forall j :: j in fs.inodes ==> fs.inodes[j].iNo == j
  {
    hide InBitmap, OnePlace, NoLeak, Sized, Bitmap.View;
  }

  lemma DirectOnly(d: Disk, n: Node)
    requires Brimful(d, n) && n.sectors[TABLE] == 0
    ensures BlocksOk(d, n) && WholeListing(d, n) == InDirect(d, n)
  {
    hide Directory.FullSector;
    ThroughEmpty(d, n, DIRECT, BLOCKS);
    ThroughSplit(d, n, 0, DIRECT, BLOCKS);
  }

  lemma TableSet(n: Node, t: nat, d: Disk, lba: nat)
    requires Spare(d, n, t, lba)
    ensures |n.sectors| == 13 && |NodeAfter(n, t).sectors| == 13 && NodeAfter(n, t).sectors[TABLE] == t != 0
    ensures NodeAfter(n, t).size == n.size + ENTRY_SIZE
  {
  }

  lemma OneGone(l: seq<DirEntry>, e: DirEntry, f: DirEntry)
    requires NewTo(l, e) && NewTo(l + [e], f)
    ensures Lookup(l + [f], e.name) == Nothing
  {
    assert (l + [e])[|l|] == e;
  }
}
