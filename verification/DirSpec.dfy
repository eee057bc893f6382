/** A directory as the list of its entries. Claims are for directories that keep to their twelve
    direct blocks. */
module DirSpec {
  import opened Sectors
  import opened BlockMap
  import opened DirEntries

  const DOT: Name := [46]
  const DOTDOT: Name := [46, 46]

  // ------------------------------------------------------------------
  // The list of entries
  // ------------------------------------------------------------------

  ghost predicate SectorsOk(d: Disk, n: Node) {
    |n.sectors| == 13 && forall b :: 0 <= b < 12 ==> n.sectors[b] < |d|
  }

  /** The entries in use in direct block b. */
  ghost function BlockEntries(d: Disk, n: Node, b: nat): seq<DirEntry>
    requires SectorsOk(d, n) && b < 12
  {
    if n.sectors[b] == 0 then [] else Live(Raw(d[n.sectors[b]]))
  }

  /** The entries of blocks lo, ..., hi - 1 in storage order. */
  ghost function Entries(d: Disk, n: Node, lo: nat, hi: nat): seq<DirEntry>
    requires SectorsOk(d, n) && lo <= hi <= 12
    decreases hi - lo
  {
    if lo == hi then [] else BlockEntries(d, n, lo) + Entries(d, n, lo + 1, hi)
  }

  /** All entries of the directory. */
  ghost function Listing(d: Disk, n: Node): seq<DirEntry>
    requires SectorsOk(d, n)
  {
    Entries(d, n, 0, 12)
  }

  lemma {:induction false} EntriesSplit(d: Disk, n: Node, lo: nat, mid: nat, hi: nat)
    requires SectorsOk(d, n) && lo <= mid <= hi <= 12
    ensures Entries(d, n, lo, hi) == Entries(d, n, lo, mid) + Entries(d, n, mid, hi)
    decreases mid - lo
  {
    if lo < mid {
      EntriesSplit(d, n, lo + 1, mid, hi);
    }
  }

  /** The list around block b. */
  lemma ListingAround(d: Disk, n: Node, b: nat)
    requires SectorsOk(d, n) && b < 12
    ensures Listing(d, n) == Entries(d, n, 0, b) + BlockEntries(d, n, b) + Entries(d, n, b + 1, 12)
  {
    hide BlockEntries, Entries;
    EntriesSplit(d, n, 0, b, 12);
    EntriesFrom(d, n, b, 12);
  }

  lemma EntriesFrom(d: Disk, n: Node, lo: nat, hi: nat)
    requires SectorsOk(d, n) && lo < hi <= 12
    ensures Entries(d, n, lo, hi) == BlockEntries(d, n, lo) + Entries(d, n, lo + 1, hi)
  {
    hide BlockEntries;
  }

  /** Outside block b the two directories use the same sectors, with the same content. */
  ghost predicate SameBut(d: Disk, n: Node, d': Disk, n': Node, b: nat) {
    && SectorsOk(d, n) && SectorsOk(d', n')
    && (forall c :: 0 <= c < 12 && c != b ==> n'.sectors[c] == n.sectors[c])
    && (forall c :: 0 <= c < 12 && c != b && n.sectors[c] != 0 ==> d'[n.sectors[c]] == d[n.sectors[c]])
  }

  lemma {:induction false} SameEntries(d: Disk, n: Node, d': Disk, n': Node, b: nat, lo: nat, hi: nat)
    requires SameBut(d, n, d', n', b) && lo <= hi <= 12 && !(lo <= b < hi)
    ensures Entries(d', n', lo, hi) == Entries(d, n, lo, hi)
    decreases hi - lo
  {
    if lo < hi {
      SameEntries(d, n, d', n', b, lo + 1, hi);
      assert BlockEntries(d', n', lo) == BlockEntries(d, n, lo);
    }
  }

  /** Putting an entry into one block puts it into the list. */
  lemma BlockPutIn(d: Disk, n: Node, d': Disk, n': Node, b: nat, p: nat, e: DirEntry)
    requires b < 12 && SameBut(d, n, d', n', b) && PutIn(BlockEntries(d, n, b), BlockEntries(d', n', b), p, e)
    ensures PutIn(Listing(d, n), Listing(d', n'), |Entries(d, n, 0, b)| + p, e)
  {
    hide BlockEntries, Entries;
    ListingAround(d, n, b);
    ListingAround(d', n', b);
    SameEntries(d, n, d', n', b, 0, b);
    SameEntries(d, n, d', n', b, b + 1, 12);
    PutInMiddle(Entries(d, n, 0, b), BlockEntries(d, n, b), BlockEntries(d', n', b), Entries(d, n, b + 1, 12), p, e);
  }

  lemma PutInMiddle(a: seq<DirEntry>, l: seq<DirEntry>, l': seq<DirEntry>, c: seq<DirEntry>, p: nat, e: DirEntry)
    requires PutIn(l, l', p, e)
    ensures PutIn(a + l + c, a + l' + c, |a| + p, e)
  {
    assert (a + l + c)[..|a| + p] == a + l[..p];
    assert (a + l + c)[|a| + p..] == l[p..] + c;
  }

  // ------------------------------------------------------------------
  // What every directory keeps
  // ------------------------------------------------------------------

  predicate IsDot(name: Name) {
    name == DOT || name == DOTDOT
  }

  /** What sys_mkdir puts into a new directory. */
  function Dots(self: nat, parent: nat): seq<DirEntry> {
    [DirEntry(DOT, self, FT_DIRECTORY), DirEntry(DOTDOT, parent, FT_DIRECTORY)]
  }

  /** An entry whose name leaves room for its terminating zero. */
  ghost predicate Storable(e: DirEntry) {
    1 <= |e.name| <= 15 && NoZero(e.name) && 1 <= e.ftype <= 2 && e.ino < U32
  }

  /** Names differ, and except for "." and ".." so do the inode numbers. */
  ghost predicate Distinguished(l: seq<DirEntry>) {
    && (forall i :: 0 <= i < |l| ==> Storable(l[i]))
    && (forall i, j :: 0 <= i < j < |l| ==> l[i].name != l[j].name)
    && (forall i, j :: 0 <= i < j < |l| && !IsDot(l[i].name) && !IsDot(l[j].name) ==> l[i].ino != l[j].ino)
  }

  ghost predicate BlankHoles(x: Sector) {
    forall k :: 0 <= k < PER_SECTOR && Raw(x)[k].ftype == FT_UNKNOWN ==> Raw(x)[k] == BLANK
  }

  /** An unused entry is all zeros, so no search can find it. */
  ghost predicate HolesBlank(d: Disk, n: Node)
    requires SectorsOk(d, n)
  {
    forall b :: 0 <= b < 12 && n.sectors[b] != 0 ==> BlankHoles(d[n.sectors[b]])
  }

  /** A block after the first is kept only while it holds an entry. */
  ghost predicate NoEmptyBlock(d: Disk, n: Node)
    requires SectorsOk(d, n)
  {
    forall b :: 1 <= b < 12 && n.sectors[b] != 0 ==> BlockEntries(d, n, b) != []
  }

  /** The first two entries are "." and "..". */
  ghost predicate Dotted(d: Disk, n: Node, self: nat, parent: nat)
    requires SectorsOk(d, n)
  {
    && n.sectors[0] != 0
    && Raw(d[n.sectors[0]])[0] == DirEntry(DOT, self, FT_DIRECTORY)
    && Raw(d[n.sectors[0]])[1] == DirEntry(DOTDOT, parent, FT_DIRECTORY)
  }

  ghost predicate DirShape(d: Disk, n: Node, self: nat, parent: nat) {
    && NodeOk(d, n) && SectorsOk(d, n) && n.sectors[TABLE] == 0
    && Dotted(d, n, self, parent) && HolesBlank(d, n) && NoEmptyBlock(d, n)
    && Distinguished(Listing(d, n))
    && n.size == ENTRY_SIZE * |Listing(d, n)|
  }

  /** A directory whose sectors nobody wrote keeps its shape and its list. */
  lemma DirKept(d: Disk, d': Disk, n: Node, self: nat, parent: nat)
    requires SameOnBoth(d, d', n) && DirShape(d, n, self, parent)
    ensures DirShape(d', n, self, parent) && Listing(d', n) == Listing(d, n)
  {
    forall c | 0 <= c < 12 && n.sectors[c] != 0 ensures d'[n.sectors[c]] == d[n.sectors[c]] {
      assert Slot(d, n, c) == n.sectors[c];
    }
    assert SameBut(d, n, d', n, 12);
    SameEntries(d, n, d', n, 12, 0, 12);
    assert forall b :: 0 <= b < 12 ==> BlockEntries(d', n, b) == BlockEntries(d, n, b);
  }

  // ------------------------------------------------------------------
  // The list as a finite map from names
  // ------------------------------------------------------------------

  datatype Found = Nothing | Something(entry: DirEntry)

  /** The entry of a name. */
  ghost function Lookup(l: seq<DirEntry>, name: Name): (r: Found)
    ensures r == Nothing <==> forall i :: 0 <= i < |l| ==> l[i].name != name
    ensures r.Something? ==> r.entry in l && r.entry.name == name
  {
    if l == [] then Nothing else if l[0].name == name then Something(l[0]) else Lookup(l[1..], name)
  }

  lemma {:induction false} LookupAt(l: seq<DirEntry>, i: nat)
    requires i < |l| && forall j, k :: 0 <= j < k < |l| ==> l[j].name != l[k].name
    ensures Lookup(l, l[i].name) == Something(l[i])
  {
    if i > 0 {
      LookupAt(l[1..], i - 1);
    }
  }

  /** Putting an entry in binds its name and leaves every other name as it was. */
  lemma PutInLookup(l: seq<DirEntry>, l': seq<DirEntry>, p: nat, e: DirEntry, name: Name)
    requires PutIn(l, l', p, e) && Distinguished(l')
    ensures Lookup(l', name) == if name == e.name then Something(e) else Lookup(l, name)
    ensures Lookup(l, e.name) == Nothing
  {
    hide Distinguished, Lookup;
    NamesDiffer(l');
    assert l'[p] == e;
    assert forall i :: 0 <= i < |l| ==> l[i] == l'[if i < p then i else i + 1];
    if name == e.name {
      LookupAt(l', p);
    } else if Lookup(l, name).Something? {
      var i :| 0 <= i < |l| && l[i] == Lookup(l, name).entry;
      LookupAt(l', if i < p then i else i + 1);
    }
  }

  lemma NamesDiffer(l: seq<DirEntry>)
    requires Distinguished(l)
    ensures forall i, j :: 0 <= i < j < |l| ==> l[i].name != l[j].name
  {
  }

  /** Two lists of one name space: what is left after taking an entry out is distinguished. */
  lemma TakenOut(l: seq<DirEntry>, l': seq<DirEntry>, p: nat, e: DirEntry)
    requires PutIn(l, l', p, e) && Distinguished(l')
    ensures Distinguished(l)
  {
    assert forall i :: 0 <= i < |l| ==> l[i] == l'[if i < p then i else i + 1];
  }

  /** An entry with a new name and a new inode number can be put in. */
  ghost predicate NewTo(l: seq<DirEntry>, e: DirEntry) {
    Storable(e) && forall i :: 0 <= i < |l| ==> l[i].name != e.name && (!IsDot(l[i].name) ==> l[i].ino != e.ino)
  }

  lemma PutInDistinguished(l: seq<DirEntry>, l': seq<DirEntry>, p: nat, e: DirEntry)
    requires PutIn(l, l', p, e) && Distinguished(l) && NewTo(l, e)
    ensures Distinguished(l')
  {
    assert l'[p] == e;
    assert forall i :: 0 <= i < |l'| ==> l'[i] == if i < p then l[i] else if i == p then e else l[i - 1];
  }
}
