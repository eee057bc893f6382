/** How an inode names the blocks of its file: twelve direct addresses and one table of 128 more
    (inode.h), and the ownership of blocks by inodes through the block bitmap. */
module BlockMap {
  import opened Sectors
  import opened Bitmaps

  const DIRECT: nat := 12
  const TABLE: nat := 12
  const BLOCKS: nat := 140
  const SLOTS: nat := 141
  const MAX_SIZE: nat := 71680

  type Disk = seq<Sector>

  /** The fields of struct inode that describe the file: i_size and i_sectors. */
  datatype Node = Node(size: nat, sectors: seq<nat>)

  ghost predicate NodeOk(d: Disk, n: Node) {
    |n.sectors| == 13 && n.sectors[TABLE] < |d| && n.size <= MAX_SIZE
  }

  // ------------------------------------------------------------------
  // Places that hold a block address
  // ------------------------------------------------------------------

  /** The address in slot s: 0..11 are the direct blocks, 12 is the indirect table itself and
      13..140 are the entries of that table. Zero means none. */
  ghost function Slot(d: Disk, n: Node, s: nat): nat
    requires NodeOk(d, n) && s < SLOTS
  {
    if s <= TABLE then n.sectors[s]
    else if n.sectors[TABLE] == 0 then 0
    else WordAt(d[n.sectors[TABLE]], s - 13)
  }

  function SlotOfBlock(k: nat): nat {
    if k < DIRECT then k else k + 1
  }

  /** The address of block k of the file. */
  ghost function Block(d: Disk, n: Node, k: nat): nat
    requires NodeOk(d, n) && k < BLOCKS
  {
    Slot(d, n, SlotOfBlock(k))
  }

  // ------------------------------------------------------------------
  // Ownership
  // ------------------------------------------------------------------

  /** The data area: block b of the bitmap is sector lo + b, and bits from usable on, always set, only
      pad the bitmap. */
  datatype Area = Area(lo: nat, usable: nat)

  ghost predicate InArea(g: Area, bits: seq<bool>, a: nat) {
    g.lo <= a < g.lo + g.usable && a < g.lo + |bits| && bits[a - g.lo]
  }

  ghost predicate Padded(g: Area, bits: seq<bool>) {
    forall b :: g.usable <= b < |bits| ==> bits[b]
  }

  ghost predicate Holds(d: Disk, m: map<nat, Node>, i: nat, s: nat, a: nat) {
    i in m && s < SLOTS && NodeOk(d, m[i]) && Slot(d, m[i], s) == a
  }

  ghost predicate Accounted(d: Disk, m: map<nat, Node>, a: nat) {
    exists i, s :: Holds(d, m, i, s, a)
  }

  /** Every address in a slot is a data block whose bit is set. */
  ghost predicate InBitmap(g: Area, d: Disk, bits: seq<bool>, m: map<nat, Node>) {
    forall i, s, a :: Holds(d, m, i, s, a) && a != 0 ==> InArea(g, bits, a)
  }

  /** No address is in two places, of one inode or of two. */
  ghost predicate OnePlace(d: Disk, m: map<nat, Node>) {
    forall i, s, j, t, a :: Holds(d, m, i, s, a) && Holds(d, m, j, t, a) && a != 0 ==> i == j && s == t
  }

  /** Every set bit is accounted for by a slot: no block is leaked. */
  ghost predicate NoLeak(g: Area, d: Disk, bits: seq<bool>, m: map<nat, Node>)
    requires g.usable <= |bits|
  {
    forall b :: 0 <= b < g.usable && bits[b] ==> Accounted(d, m, g.lo + b)
  }

  /** The data area lies on the disk. */
  ghost predicate AreaFits(g: Area, d: Disk, bits: seq<bool>) {
    1 <= g.lo && g.lo + g.usable <= |d| <= U32 && g.usable <= |bits| && Padded(g, bits)
  }

  ghost predicate Sized(g: Area, d: Disk, bits: seq<bool>, m: map<nat, Node>) {
    && AreaFits(g, d, bits)
    && (forall i :: i in m ==> NodeOk(d, m[i]))
  }

  /** Block ownership. */
  ghost predicate Owned(g: Area, d: Disk, bits: seq<bool>, m: map<nat, Node>) {
    Sized(g, d, bits, m) && InBitmap(g, d, bits, m) && OnePlace(d, m) && NoLeak(g, d, bits, m)
  }

  /** The address became allocated between the two bitmaps. */
  ghost predicate Fresh(g: Area, bits: seq<bool>, bits': seq<bool>, a: nat)
    requires |bits'| == |bits|
  {
    g.lo <= a < g.lo + |bits| && !bits[a - g.lo] && bits'[a - g.lo]
  }

  /** Bits were only set, never cleared. */
  ghost predicate Grown(bits: seq<bool>, bits': seq<bool>) {
    |bits'| == |bits| && forall b :: 0 <= b < |bits| && bits[b] ==> bits'[b]
  }

  /** Node i takes up newly allocated blocks in empty slots. */
  ghost predicate Extends(g: Area, d: Disk, bits: seq<bool>, n: Node, d': Disk, bits': seq<bool>, n': Node)
    requires |bits'| == |bits|
  {
    && NodeOk(d, n) && NodeOk(d', n')
    && (forall s :: 0 <= s < SLOTS ==>
          (Slot(d', n', s) == Slot(d, n, s) || (Slot(d, n, s) == 0 && Fresh(g, bits, bits', Slot(d', n', s)))))
    && (forall s, t :: 0 <= s < t < SLOTS && Slot(d, n, s) == Slot(d, n, t) == 0 ==>
          (Slot(d', n', s) == Slot(d', n', t) ==> Slot(d', n', s) == 0))
    && (forall b :: 0 <= b < |bits| && bits'[b] && !bits[b] ==>
          exists s :: 0 <= s < SLOTS && Slot(d', n', s) == g.lo + b)
  }

  /** The tables of the other inodes are on sectors that did not change. */
  ghost predicate TablesKept(d: Disk, d': Disk, m: map<nat, Node>, i: nat) {
    |d'| == |d| && forall j :: j in m && j != i && NodeOk(d, m[j]) && m[j].sectors[TABLE] != 0 ==>
      d'[m[j].sectors[TABLE]] == d[m[j].sectors[TABLE]]
  }

  lemma HoldsKept(d: Disk, d': Disk, m: map<nat, Node>, m': map<nat, Node>, i: nat, j: nat, s: nat, a: nat)
    requires TablesKept(d, d', m, i) && j != i && j in m && j in m' && m'[j] == m[j]
    ensures Holds(d, m, j, s, a) <==> Holds(d', m', j, s, a)
  {
  }

  lemma OldOrFresh(g: Area, d: Disk, bits: seq<bool>, m: map<nat, Node>, i: nat,
                   d': Disk, bits': seq<bool>, n': Node, j: nat, s: nat, a: nat)
    requires Sized(g, d, bits, m) && i in m && |bits'| == |bits|
    requires TablesKept(d, d', m, i) && Extends(g, d, bits, m[i], d', bits', n')
    requires Holds(d', m[i := n'], j, s, a) && a != 0
    ensures Holds(d, m, j, s, a) || (j == i && Fresh(g, bits, bits', a))
  {
    if j != i {
      HoldsKept(d, d', m, m[i := n'], i, j, s, a);
    }
  }

  /** Giving newly allocated blocks to one inode keeps every block in one place. */
  lemma GrowOwned(g: Area, d: Disk, bits: seq<bool>, m: map<nat, Node>, i: nat,
                  d': Disk, bits': seq<bool>, n': Node)
    requires Owned(g, d, bits, m) && i in m
    requires Grown(bits, bits') && TablesKept(d, d', m, i)
    requires Extends(g, d, bits, m[i], d', bits', n')
    ensures Owned(g, d', bits', m[i := n'])
  {
    var m' := m[i := n'];
    forall j, s, a | Holds(d', m', j, s, a) && a != 0 ensures InArea(g, bits', a) {
      OldOrFresh(g, d, bits, m, i, d', bits', n', j, s, a);
    }
    forall j, s, k, t, a | Holds(d', m', j, s, a) && Holds(d', m', k, t, a) && a != 0
      ensures j == k && s == t
    {
      GrowOnePlace(g, d, bits, m, i, d', bits', n', j, s, k, t, a);
    }
    forall b | 0 <= b < g.usable && bits'[b] ensures Accounted(d', m', g.lo + b) {
      GrowAccounted(g, d, bits, m, i, d', bits', n', b);
    }
  }

  lemma GrowOnePlace(g: Area, d: Disk, bits: seq<bool>, m: map<nat, Node>, i: nat,
                     d': Disk, bits': seq<bool>, n': Node, j: nat, s: nat, k: nat, t: nat, a: nat)
    requires Owned(g, d, bits, m) && i in m
    requires Grown(bits, bits') && TablesKept(d, d', m, i)
    requires Extends(g, d, bits, m[i], d', bits', n')
    requires Holds(d', m[i := n'], j, s, a) && Holds(d', m[i := n'], k, t, a) && a != 0
    ensures j == k && s == t
  {
    OldOrFresh(g, d, bits, m, i, d', bits', n', j, s, a);
    OldOrFresh(g, d, bits, m, i, d', bits', n', k, t, a);
    assert Holds(d, m, j, s, a) || Holds(d, m, k, t, a) ==> InArea(g, bits, a);
  }

  lemma GrowAccounted(g: Area, d: Disk, bits: seq<bool>, m: map<nat, Node>, i: nat,
                      d': Disk, bits': seq<bool>, n': Node, b: nat)
    requires Owned(g, d, bits, m) && i in m
    requires Grown(bits, bits') && TablesKept(d, d', m, i)
    requires Extends(g, d, bits, m[i], d', bits', n')
    requires b < g.usable && bits'[b]
    ensures Accounted(d', m[i := n'], g.lo + b)
  {
    var m' := m[i := n'];
    if bits[b] {
      assert Accounted(d, m, g.lo + b);
      var j, s :| Holds(d, m, j, s, g.lo + b);
      if j == i {
        assert Slot(d, m[i], s) != 0;
        assert Holds(d', m', i, s, g.lo + b);
      } else {
        HoldsKept(d, d', m, m', i, j, s, g.lo + b);
      }
    } else {
      var s :| 0 <= s < SLOTS && Slot(d', n', s) == g.lo + b;
      assert Holds(d', m', i, s, g.lo + b);
    }
  }

  // ------------------------------------------------------------------
  // Regular files
  // ------------------------------------------------------------------

  /** Exactly the blocks 0..cap-1 exist, and the indirect table exists exactly when cap exceeds
      the direct blocks. */
  ghost predicate Filled(d: Disk, n: Node, cap: nat) {
    && NodeOk(d, n) && cap <= BLOCKS
    && (forall k :: 0 <= k < BLOCKS ==> (Block(d, n, k) != 0 <==> k < cap))
    && (n.sectors[TABLE] != 0 <==> cap > DIRECT)
  }

  /** The number of blocks of a file no operation is working on: none before the first write,
      and from then on always one more than the whole blocks its size fills. */
  ghost function RestCap(n: Node): nat
    requires |n.sectors| == 13
  {
    if n.sectors[0] == 0 then 0 else n.size / SECTOR_SIZE + 1
  }

  /** The shape of a regular file between operations. */
  ghost predicate AtRest(d: Disk, n: Node) {
    && NodeOk(d, n) && n.size < MAX_SIZE
    && (n.sectors[0] == 0 ==> n.size == 0)
    && Filled(d, n, RestCap(n))
  }

  ghost function ByteAt(d: Disk, n: Node, p: nat): Byte
    requires NodeOk(d, n) && p < MAX_SIZE
  {
    var b := Block(d, n, p / SECTOR_SIZE);
    if b < |d| then d[b][p % SECTOR_SIZE] else 0
  }

  /** The file's content: its first i_size bytes. */
  ghost function Content(d: Disk, n: Node): (c: seq<Byte>)
    requires NodeOk(d, n)
    ensures |c| == n.size
    ensures forall p :: 0 <= p < n.size ==> c[p] == ByteAt(d, n, p)
  {
    seq(n.size, p requires 0 <= p < n.size => ByteAt(d, n, p))
  }

  /** A file whose blocks are named by the same addresses, and whose data sectors did not change,
      has the same content. */
  lemma SameContent(d: Disk, n: Node, d': Disk, n': Node)
    requires NodeOk(d, n) && NodeOk(d', n') && n'.size == n.size && |d'| == |d|
    requires forall k :: 0 <= k < BLOCKS && k * SECTOR_SIZE < n.size ==>
      Block(d', n', k) == Block(d, n, k) && (Block(d, n, k) < |d| ==> d'[Block(d, n, k)] == d[Block(d, n, k)])
    ensures Content(d', n') == Content(d, n)
  {
    forall p | 0 <= p < n.size ensures ByteAt(d', n', p) == ByteAt(d, n, p) {
      assert p / SECTOR_SIZE * SECTOR_SIZE <= p;
    }
  }

  /** Both disks give every inode the same slots. */
  ghost predicate SlotsKept(d: Disk, d': Disk, m: map<nat, Node>, m': map<nat, Node>) {
    && |d'| == |d| && m'.Keys == m.Keys
    && (forall j :: j in m ==> NodeOk(d, m[j]) && NodeOk(d', m'[j]))
    && (forall j, t :: j in m && 0 <= t < SLOTS ==> Slot(d', m'[j], t) == Slot(d, m[j], t))
  }

  /** A write to a data sector of one inode leaves every slot of every inode as it was. */
  lemma DataWriteKeepsSlots(g: Area, d: Disk, bits: seq<bool>, m: map<nat, Node>, i: nat, s: nat, x: Sector)
    requires Owned(g, d, bits, m) && i in m && s < SLOTS && s != TABLE && Slot(d, m[i], s) != 0
    ensures Slot(d, m[i], s) < |d|
    ensures SlotsKept(d, d[Slot(d, m[i], s) := x], m, m)
  {
    var a := Slot(d, m[i], s);
    assert Holds(d, m, i, s, a);
    assert InArea(g, bits, a);
    forall j, t | j in m && 0 <= t < SLOTS
      ensures Slot(d[a := x], m[j], t) == Slot(d, m[j], t)
    {
      assert Holds(d, m, j, TABLE, m[j].sectors[TABLE]);
      assert m[j].sectors[TABLE] != a;
    }
  }

  /** Ownership does not look at data sectors. */
  lemma DataWriteOwned(g: Area, d: Disk, bits: seq<bool>, m: map<nat, Node>, i: nat, s: nat, x: Sector)
    requires Owned(g, d, bits, m) && i in m && s < SLOTS && s != TABLE && Slot(d, m[i], s) != 0
    ensures Slot(d, m[i], s) < |d| && Owned(g, d[Slot(d, m[i], s) := x], bits, m)
  {
    var a := Slot(d, m[i], s);
    DataWriteKeepsSlots(g, d, bits, m, i, s, x);
    var d' := d[a := x];
    SameSlotsOwned(g, d, bits, m, d', m);
  }

  /** Ownership depends on the slots alone. */
  lemma SameSlotsOwned(g: Area, d: Disk, bits: seq<bool>, m: map<nat, Node>, d': Disk, m': map<nat, Node>)
    requires Owned(g, d, bits, m) && SlotsKept(d, d', m, m')
    ensures Owned(g, d', bits, m')
  {
    assert forall j, t, a :: Holds(d', m', j, t, a) <==> Holds(d, m, j, t, a);
    forall b | 0 <= b < g.usable && bits[b] ensures Accounted(d', m', g.lo + b) {
      assert Accounted(d, m, g.lo + b);
      var j, t :| Holds(d, m, j, t, g.lo + b);
      assert Holds(d', m', j, t, g.lo + b);
    }
  }

  // ------------------------------------------------------------------
  // One chunk of file_write and of file_read
  // ------------------------------------------------------------------

  /** The sector with bytes off, off + 1, ... replaced by chunk. */
  function Splice(x: Sector, off: nat, chunk: seq<Byte>): (y: Sector)
    requires off + |chunk| <= SECTOR_SIZE
    ensures forall j :: 0 <= j < SECTOR_SIZE ==>
      y[j] == if off <= j < off + |chunk| then chunk[j - off] else x[j]
  {
    x[..off] + chunk + x[off + |chunk|..]
  }

  /** Writing a chunk at the end of the file, within its block, appends the chunk. What the rest
      of the written sector holds does not matter, as long as the bytes before the chunk are
      those that were there. */
  lemma AppendChunk(g: Area, d: Disk, bits: seq<bool>, m: map<nat, Node>, i: nat, base: Sector, chunk: seq<Byte>)
    requires Owned(g, d, bits, m) && i in m
    requires var n := m[i];
             n.size + |chunk| <= MAX_SIZE && n.size % SECTOR_SIZE + |chunk| <= SECTOR_SIZE && |chunk| > 0
             && Block(d, n, n.size / SECTOR_SIZE) != 0
             && (forall j :: 0 <= j < n.size % SECTOR_SIZE && Block(d, n, n.size / SECTOR_SIZE) < |d| ==>
                   base[j] == d[Block(d, n, n.size / SECTOR_SIZE)][j])
    ensures var n := m[i];
            var a := Block(d, n, n.size / SECTOR_SIZE);
            a < |d| &&
            var d', n' := d[a := Splice(base, n.size % SECTOR_SIZE, chunk)], n.(size := n.size + |chunk|);
            NodeOk(d', n') && Content(d', n') == Content(d, n) + chunk
  {
    hide Owned;
    var n := m[i];
    var k := n.size / SECTOR_SIZE;
    BlockOnDisk(g, d, bits, m, i, k);
    var a := Block(d, n, k);
    var x := Splice(base, n.size % SECTOR_SIZE, chunk);
    var d', n' := d[a := x], n.(size := n.size + |chunk|);
    DataWriteKeepsSlots(g, d, bits, m, i, SlotOfBlock(k), x);
    var c, c' := Content(d, n), Content(d', n');
    forall p | 0 <= p < n'.size ensures c'[p] == (c + chunk)[p] {
      assert Block(d', n', p / SECTOR_SIZE) == Block(d, n, p / SECTOR_SIZE);
      if p / SECTOR_SIZE != k {
        assert p < n.size;
        OtherBlock(g, d, bits, m, i, p / SECTOR_SIZE, k);
      }
    }
  }

  lemma BlockOnDisk(g: Area, d: Disk, bits: seq<bool>, m: map<nat, Node>, i: nat, k: nat)
    requires Owned(g, d, bits, m) && i in m && k < BLOCKS
    ensures NodeOk(d, m[i]) && Block(d, m[i], k) < |d|
  {
    assert Holds(d, m, i, SlotOfBlock(k), Block(d, m[i], k));
  }

  lemma OtherBlock(g: Area, d: Disk, bits: seq<bool>, m: map<nat, Node>, i: nat, k: nat, l: nat)
    requires Owned(g, d, bits, m) && i in m && k < BLOCKS && l < BLOCKS && k != l && Block(d, m[i], l) != 0
    ensures Block(d, m[i], k) != Block(d, m[i], l)
  {
    assert Holds(d, m, i, SlotOfBlock(k), Block(d, m[i], k));
    assert Holds(d, m, i, SlotOfBlock(l), Block(d, m[i], l));
  }

  /** Writing to a block of one file leaves the content of every other file as it was. */
  lemma OthersKept(g: Area, d: Disk, bits: seq<bool>, m: map<nat, Node>, i: nat, s: nat, x: Sector, j: nat)
    requires Owned(g, d, bits, m) && i in m && s < SLOTS && s != TABLE && Slot(d, m[i], s) != 0
    requires j in m && j != i
    ensures Slot(d, m[i], s) < |d| && NodeOk(d[Slot(d, m[i], s) := x], m[j])
    ensures SameOnBoth(d, d[Slot(d, m[i], s) := x], m[j])
  {
    var a := Slot(d, m[i], s);
    assert Holds(d, m, i, s, a);
    DataWriteKeepsSlots(g, d, bits, m, i, s, x);
    forall t | 0 <= t < SLOTS ensures Slot(d, m[j], t) != a && Slot(d, m[j], t) < |d| {
      assert Holds(d, m, j, t, Slot(d, m[j], t));
    }
    SameContent(d, m[j], d[a := x], m[j]);
  }

  /** The bytes of a block that lie within the file are the file's bytes there. */
  lemma ReadChunk(d: Disk, n: Node, pos: nat, len: nat)
    requires NodeOk(d, n) && pos + len <= n.size && pos % SECTOR_SIZE + len <= SECTOR_SIZE && len > 0
    requires Block(d, n, pos / SECTOR_SIZE) < |d|
    ensures d[Block(d, n, pos / SECTOR_SIZE)][pos % SECTOR_SIZE..pos % SECTOR_SIZE + len] == Content(d, n)[pos..pos + len]
  {
    var k, off := pos / SECTOR_SIZE, pos % SECTOR_SIZE;
    var x := d[Block(d, n, k)];
    forall p | pos <= p < pos + len ensures Content(d, n)[p] == x[p - k * SECTOR_SIZE] {
      assert p / SECTOR_SIZE == k;
    }
  }

  // ------------------------------------------------------------------
  // Newly allocated blocks
  // ------------------------------------------------------------------

  ghost predicate Distinct(a: seq<nat>) {
    forall x, y :: 0 <= x < y < |a| ==> a[x] != a[y]
  }

  ghost predicate AllFresh(g: Area, bits: seq<bool>, bits': seq<bool>, news: seq<nat>)
    requires |bits'| == |bits|
  {
    forall x :: 0 <= x < |news| ==> Fresh(g, bits, bits', news[x])
  }

  ghost predicate OnlyThese(g: Area, bits: seq<bool>, bits': seq<bool>, news: seq<nat>)
    requires |bits'| == |bits|
  {
    forall b :: 0 <= b < |bits| && bits'[b] != bits[b] ==> bits'[b] && g.lo + b in news
  }

  /** Between the two bitmaps exactly the blocks in news were allocated. */
  ghost predicate NewBlocks(g: Area, bits: seq<bool>, bits': seq<bool>, news: seq<nat>) {
    && |bits'| == |bits|
    && Distinct(news) && AllFresh(g, bits, bits', news) && OnlyThese(g, bits, bits', news)
    && FreeCount(bits') + |news| == FreeCount(bits)
  }

  lemma OneMoreBlock(g: Area, bits: seq<bool>, bits': seq<bool>, news: seq<nat>, b: nat)
    requires NewBlocks(g, bits, bits', news) && b < |bits| && !bits'[b]
    ensures !bits[b] && NewBlocks(g, bits, bits'[b := true], news + [g.lo + b])
  {
    TakeOne(bits', b);
    var after, more := bits'[b := true], news + [g.lo + b];
    hide OnlyThese;
    assert !bits[b] by { OldBit(g, bits, bits', news, b); }
    assert Distinct(more) by {
      assert forall x :: 0 <= x < |news| ==> more[x] == news[x] && news[x] != g.lo + b;
    }
    assert AllFresh(g, bits, after, more);
    OnlyNewer(g, bits, bits', news, b);
  }

  lemma NewBlocksCount(g: Area, bits: seq<bool>, bits': seq<bool>, news: seq<nat>)
    requires NewBlocks(g, bits, bits', news)
    ensures FreeCount(bits) == FreeCount(bits') + |news| && |bits'| == |bits|
    ensures forall x :: 0 <= x < |news| ==> g.lo <= news[x] < g.lo + |bits|
  {
  }

  lemma OldBit(g: Area, bits: seq<bool>, bits': seq<bool>, news: seq<nat>, b: nat)
    requires |bits'| == |bits| && OnlyThese(g, bits, bits', news) && b < |bits| && !bits'[b]
    ensures !bits[b]
  {
  }

  lemma OnlyNewer(g: Area, bits: seq<bool>, bits': seq<bool>, news: seq<nat>, b: nat)
    requires NewBlocks(g, bits, bits', news) && b < |bits| && !bits'[b]
    ensures OnlyThese(g, bits, bits'[b := true], news + [g.lo + b])
  {
    var after, more := bits'[b := true], news + [g.lo + b];
    forall c | 0 <= c < |bits| && after[c] != bits[c] ensures after[c] && g.lo + c in more {
      NewerBlock(g, bits, bits', news, b, c);
    }
  }

  lemma NewerBlock(g: Area, bits: seq<bool>, bits': seq<bool>, news: seq<nat>, b: nat, c: nat)
    requires NewBlocks(g, bits, bits', news) && b < |bits| && !bits'[b]
    requires c < |bits| && bits'[b := true][c] != bits[c]
    ensures bits'[b := true][c] && g.lo + c in news + [g.lo + b]
  {
    var more := news + [g.lo + b];
    if c == b {
      assert more[|news|] == g.lo + b;
    } else {
      var x :| 0 <= x < |news| && news[x] == g.lo + c;
      assert more[x] == g.lo + c;
    }
  }

  /** The blocks of an inode after new ones were hung on it: data blocks news from index has on,
      and a new table when tbl is not empty. */
  ghost predicate Hung(d: Disk, n: Node, has: nat, news: seq<nat>, tbl: seq<nat>, d': Disk, n': Node)
    requires NodeOk(d, n) && NodeOk(d', n')
  {
    && has + |news| <= BLOCKS && |tbl| <= 1
    && (forall k :: 0 <= k < BLOCKS ==>
          Block(d', n', k) == if has <= k < has + |news| then news[k - has] else Block(d, n, k))
    && (if tbl == [] then n'.sectors[TABLE] == n.sectors[TABLE]
        else n.sectors[TABLE] == 0 && n'.sectors[TABLE] == tbl[0])
  }

  lemma HungExtends(g: Area, d: Disk, bits: seq<bool>, n: Node, has: nat, news: seq<nat>, tbl: seq<nat>,
                    d': Disk, bits': seq<bool>, n': Node)
    requires 1 <= g.lo && NodeOk(d, n) && NodeOk(d', n') && Filled(d, n, has)
    requires NewBlocks(g, bits, bits', tbl + news) && Hung(d, n, has, news, tbl, d', n')
    ensures Extends(g, d, bits, n, d', bits', n')
  {
    assert |bits'| == |bits|;
    hide NewBlocks, Hung, Slot;
    forall s | 0 <= s < SLOTS
      ensures Slot(d', n', s) == Slot(d, n, s) || (Slot(d, n, s) == 0 && Fresh(g, bits, bits', Slot(d', n', s)))
    {
      HungSlot(g, d, bits, n, has, news, tbl, d', bits', n', s);
    }
    forall s, t | 0 <= s < t < SLOTS && Slot(d, n, s) == Slot(d, n, t) == 0 && Slot(d', n', s) == Slot(d', n', t)
      ensures Slot(d', n', s) == 0
    {
      HungDistinct(g, d, bits, n, has, news, tbl, d', bits', n', s, t);
    }
    forall b | 0 <= b < |bits| && bits'[b] && !bits[b]
      ensures exists s :: 0 <= s < SLOTS && Slot(d', n', s) == g.lo + b
    {
      HungAccounted(g, d, bits, n, has, news, tbl, d', bits', n', b);
    }
  }

  lemma HungFilled(g: Area, d: Disk, bits: seq<bool>, n: Node, has: nat, news: seq<nat>, tbl: seq<nat>,
                   d': Disk, bits': seq<bool>, n': Node)
    requires 1 <= g.lo && NodeOk(d, n) && NodeOk(d', n') && Filled(d, n, has)
    requires NewBlocks(g, bits, bits', tbl + news) && Hung(d, n, has, news, tbl, d', n')
    requires tbl != [] <==> has <= DIRECT < has + |news|
    ensures Filled(d', n', has + |news|) && Grown(bits, bits')
  {
    hide Slot;
    var added := tbl + news;
    assert forall x :: 0 <= x < |news| ==> added[|tbl| + x] == news[x];
    assert tbl != [] ==> added[0] == tbl[0];
    forall k | 0 <= k < BLOCKS ensures Block(d', n', k) != 0 <==> k < has + |news| {
    }
  }

  lemma HungAccounted(g: Area, d: Disk, bits: seq<bool>, n: Node, has: nat, news: seq<nat>, tbl: seq<nat>,
                      d': Disk, bits': seq<bool>, n': Node, b: nat)
    requires NodeOk(d, n) && NodeOk(d', n')
    requires NewBlocks(g, bits, bits', tbl + news) && Hung(d, n, has, news, tbl, d', n')
    requires b < |bits| && bits'[b] && !bits[b]
    ensures exists s :: 0 <= s < SLOTS && Slot(d', n', s) == g.lo + b
  {
    var added := tbl + news;
    var x :| 0 <= x < |added| && added[x] == g.lo + b;
    if x < |tbl| {
      assert Slot(d', n', TABLE) == g.lo + b;
    } else {
      var k := has + x - |tbl|;
      assert Block(d', n', k) == g.lo + b;
      assert Slot(d', n', SlotOfBlock(k)) == g.lo + b;
    }
  }

  lemma HungSlot(g: Area, d: Disk, bits: seq<bool>, n: Node, has: nat, news: seq<nat>, tbl: seq<nat>,
                 d': Disk, bits': seq<bool>, n': Node, s: nat)
    requires 1 <= g.lo && NodeOk(d, n) && NodeOk(d', n') && Filled(d, n, has) && s < SLOTS
    requires NewBlocks(g, bits, bits', tbl + news) && Hung(d, n, has, news, tbl, d', n')
    ensures Slot(d', n', s) == Slot(d, n, s) || (Slot(d, n, s) == 0 && Fresh(g, bits, bits', Slot(d', n', s)))
  {
    var x := HungFrom(d, n, has, news, tbl, d', n', s);
    if x != -1 && s != TABLE {
      assert Block(d, n, if s < TABLE then s else s - 1) == Slot(d, n, s);
    }
  }

  /** Where in the list of new blocks the address in slot s comes from. */
  lemma HungFrom(d: Disk, n: Node, has: nat, news: seq<nat>, tbl: seq<nat>, d': Disk, n': Node, s: nat)
      returns (x: int)
    requires NodeOk(d, n) && NodeOk(d', n') && Hung(d, n, has, news, tbl, d', n') && s < SLOTS
    ensures x == -1 ==> Slot(d', n', s) == Slot(d, n, s)
    ensures x != -1 ==> 0 <= x < |tbl + news| && Slot(d', n', s) == (tbl + news)[x]
    ensures x != -1 ==> x == if s == TABLE then 0 else |tbl| + (if s < TABLE then s else s - 1) - has
    ensures x != -1 && s == TABLE ==> |tbl| == 1 && Slot(d, n, s) == 0
    ensures x != -1 && s != TABLE ==> |tbl| <= x
  {
    if s == TABLE {
      x := if tbl == [] then -1 else 0;
    } else {
      var k := if s < TABLE then s else s - 1;
      assert SlotOfBlock(k) == s;
      assert Block(d', n', k) == Slot(d', n', s) && Block(d, n, k) == Slot(d, n, s);
      x := if has <= k < has + |news| then |tbl| + k - has else -1;
    }
  }

  lemma HungDistinct(g: Area, d: Disk, bits: seq<bool>, n: Node, has: nat, news: seq<nat>, tbl: seq<nat>,
                     d': Disk, bits': seq<bool>, n': Node, s: nat, t: nat)
    requires NodeOk(d, n) && NodeOk(d', n') && s < t < SLOTS
    requires NewBlocks(g, bits, bits', tbl + news) && Hung(d, n, has, news, tbl, d', n')
    requires Slot(d, n, s) == Slot(d, n, t) == 0 && Slot(d', n', s) == Slot(d', n', t)
    ensures Slot(d', n', s) == 0
  {
    var x := HungFrom(d, n, has, news, tbl, d', n', s);
    var y := HungFrom(d, n, has, news, tbl, d', n', t);
  }

  ghost predicate HungOn(d: Disk, n: Node, has: nat, news: seq<nat>, tbl: seq<nat>, d': Disk, n': Node) {
    NodeOk(d, n) && NodeOk(d', n') && Hung(d, n, has, news, tbl, d', n')
  }

  /** Only the sector of the indirect table was written. */
  ghost predicate WroteTable(d: Disk, d': Disk, t: nat) {
    t < |d| && |d'| == |d| && forall a :: 0 <= a < |d| && a != t ==> d'[a] == d[a]
  }

  /** To every inode but i both disks give the same slots, the same sectors in them and the same
      content. */
  ghost predicate OthersSame(d: Disk, d': Disk, m: map<nat, Node>, i: nat) {
    forall j :: j in m && j != i ==> SameOnBoth(d, d', m[j])
  }

  ghost predicate SameOnBoth(d: Disk, d': Disk, n: Node) {
    && |d'| == |d| && NodeOk(d, n) && NodeOk(d', n)
    && Content(d', n) == Content(d, n)
    && (forall s :: 0 <= s < SLOTS ==> Slot(d', n, s) == Slot(d, n, s))
    && (forall s :: 0 <= s < SLOTS && 0 < Slot(d, n, s) < |d| ==> d'[Slot(d, n, s)] == d[Slot(d, n, s)])
  }

  lemma OthersSameTransitive(d: Disk, d': Disk, d'': Disk, m: map<nat, Node>, i: nat)
    requires OthersSame(d, d', m, i) && OthersSame(d', d'', m, i)
    ensures OthersSame(d, d'', m, i)
  {
    forall j | j in m && j != i ensures SameOnBoth(d, d'', m[j]) {
      assert SameOnBoth(d, d', m[j]) && SameOnBoth(d', d'', m[j]);
    }
  }

  lemma AtRestKept(d: Disk, d': Disk, n: Node)
    requires SameOnBoth(d, d', n) && AtRest(d, n)
    ensures AtRest(d', n) && Content(d', n) == Content(d, n)
  {
    assert forall k :: 0 <= k < BLOCKS ==> Block(d', n, k) == Block(d, n, k);
  }

  /** The sector written while growing inode i is no data block and no table of another. */
  ghost predicate TableStep(g: Area, d: Disk, bits: seq<bool>, n: Node, d': Disk, n': Node) {
    && NodeOk(d, n) && NodeOk(d', n')
    && (d' == d || (WroteTable(d, d', n'.sectors[TABLE]) && n'.sectors[TABLE] != 0
        && (n'.sectors[TABLE] == n.sectors[TABLE] || !InArea(g, bits, n'.sectors[TABLE]))))
  }

  /** Growing one file moves no byte of any file. */
  lemma GrowFile(g: Area, d: Disk, bits: seq<bool>, m: map<nat, Node>, i: nat, cap: nat, news: seq<nat>, tbl: seq<nat>,
                 d': Disk, bits': seq<bool>, n': Node)
    requires Owned(g, d, bits, m) && i in m && Filled(d, m[i], cap) && m[i].size <= cap * SECTOR_SIZE
    requires NewBlocks(g, bits, bits', tbl + news) && HungOn(d, m[i], cap, news, tbl, d', n')
    requires tbl != [] <==> cap <= DIRECT < cap + |news|
    requires TableStep(g, d, bits, m[i], d', n') && n'.size == m[i].size
    ensures Owned(g, d', bits', m[i := n']) && Filled(d', n', cap + |news|)
    ensures Content(d', n') == Content(d, m[i]) && OthersSame(d, d', m, i)
  {
    hide *;
    assert TablesKept(d, d', m, i) by { GrowKeepsTables(g, d, bits, m, i, d', n'); }
    assert NodeOk(d, m[i]) && NodeOk(d', n') && Hung(d, m[i], cap, news, tbl, d', n') && 1 <= g.lo by {
      GrowBasics(g, d, bits, m, i, cap, news, tbl, d', n');
    }
    HungExtends(g, d, bits, m[i], cap, news, tbl, d', bits', n');
    HungFilled(g, d, bits, m[i], cap, news, tbl, d', bits', n');
    GrowOwned(g, d, bits, m, i, d', bits', n');
    GrowOwnContent(g, d, bits, m, i, cap, news, tbl, d', n');
    GrowOthers(g, d, bits, m, i, d', n');
  }

  lemma GrowBasics(g: Area, d: Disk, bits: seq<bool>, m: map<nat, Node>, i: nat, cap: nat, news: seq<nat>, tbl: seq<nat>,
                   d': Disk, n': Node)
    requires Owned(g, d, bits, m) && i in m && HungOn(d, m[i], cap, news, tbl, d', n')
    ensures NodeOk(d, m[i]) && NodeOk(d', n') && Hung(d, m[i], cap, news, tbl, d', n') && 1 <= g.lo
  {
  }

  lemma GrowKeepsTables(g: Area, d: Disk, bits: seq<bool>, m: map<nat, Node>, i: nat, d': Disk, n': Node)
    requires Owned(g, d, bits, m) && i in m && TableStep(g, d, bits, m[i], d', n')
    ensures TablesKept(d, d', m, i)
  {
    forall j | j in m && j != i && m[j].sectors[TABLE] != 0
      ensures m[j].sectors[TABLE] < |d| == |d'| && d'[m[j].sectors[TABLE]] == d[m[j].sectors[TABLE]]
    {
      assert Slot(d, m[j], TABLE) == m[j].sectors[TABLE];
      GrowKeepsSector(g, d, bits, m, i, d', n', j, TABLE);
    }
  }

  lemma GrowKeepsSector(g: Area, d: Disk, bits: seq<bool>, m: map<nat, Node>, i: nat, d': Disk, n': Node, j: nat, s: nat)
    requires Owned(g, d, bits, m) && i in m && TableStep(g, d, bits, m[i], d', n')
    requires j in m && s < SLOTS && (j != i || s != TABLE) && Slot(d, m[j], s) != 0
    ensures |d'| == |d| && Slot(d, m[j], s) < |d| && d'[Slot(d, m[j], s)] == d[Slot(d, m[j], s)]
  {
    var a := Slot(d, m[j], s);
    assert Holds(d, m, j, s, a);
    assert InArea(g, bits, a);
    assert Holds(d, m, i, TABLE, m[i].sectors[TABLE]);
  }

  lemma GrowOwnContent(g: Area, d: Disk, bits: seq<bool>, m: map<nat, Node>, i: nat, cap: nat, news: seq<nat>,
                       tbl: seq<nat>, d': Disk, n': Node)
    requires Owned(g, d, bits, m) && i in m && Filled(d, m[i], cap) && m[i].size <= cap * SECTOR_SIZE
    requires HungOn(d, m[i], cap, news, tbl, d', n') && TableStep(g, d, bits, m[i], d', n') && n'.size == m[i].size
    ensures Content(d', n') == Content(d, m[i])
  {
    assert |d'| == |d|;
    forall k | 0 <= k < BLOCKS && k * SECTOR_SIZE < m[i].size
      ensures Block(d', n', k) == Block(d, m[i], k)
      ensures Block(d, m[i], k) < |d| && d'[Block(d, m[i], k)] == d[Block(d, m[i], k)]
    {
      assert k < cap;
      GrowKeepsSector(g, d, bits, m, i, d', n', i, SlotOfBlock(k));
    }
    SameContent(d, m[i], d', n');
  }

  lemma GrowOthers(g: Area, d: Disk, bits: seq<bool>, m: map<nat, Node>, i: nat, d': Disk, n': Node)
    requires Owned(g, d, bits, m) && i in m && TableStep(g, d, bits, m[i], d', n')
    ensures OthersSame(d, d', m, i)
  {
    forall j | j in m && j != i ensures SameOnBoth(d, d', m[j]) {
      GrowOther(g, d, bits, m, i, d', n', j);
    }
  }

  lemma GrowOther(g: Area, d: Disk, bits: seq<bool>, m: map<nat, Node>, i: nat, d': Disk, n': Node, j: nat)
    requires Owned(g, d, bits, m) && i in m && TableStep(g, d, bits, m[i], d', n') && j in m && j != i
    ensures SameOnBoth(d, d', m[j])
  {
    var n := m[j];
    assert |d'| == |d|;
    if n.sectors[TABLE] != 0 {
      GrowKeepsSector(g, d, bits, m, i, d', n', j, TABLE);
    }
    forall s | 0 <= s < SLOTS && Slot(d, n, s) != 0
      ensures Slot(d, n, s) < |d| && d'[Slot(d, n, s)] == d[Slot(d, n, s)]
    {
      GrowKeepsSector(g, d, bits, m, i, d', n', j, s);
    }
    BlockZero(g, d, d', bits, m, i, d', n');
    SameContent(d, n, d', n);
  }

  /** Sector 0 is outside the data area and was not written. */
  lemma BlockZero(g: Area, d: Disk, d0: Disk, bits: seq<bool>, m: map<nat, Node>, i: nat, d': Disk, n': Node)
    requires Owned(g, d, bits, m) && i in m && TableStep(g, d, bits, m[i], d', n')
    ensures |d'| == |d| && (|d| > 0 ==> d'[0] == d[0])
  {
  }

  // ------------------------------------------------------------------
  // Giving blocks back
  // ------------------------------------------------------------------

  /** Exactly the blocks whose bits were cleared left the slots. */
  ghost predicate Dropped(g: Area, d: Disk, m: map<nat, Node>, d': Disk, bits': seq<bool>, m': map<nat, Node>) {
    forall j, s, a :: a != 0 ==> (Holds(d', m', j, s, a) <==> Holds(d, m, j, s, a) && InArea(g, bits', a))
  }

  lemma ShrinkOwned(g: Area, d: Disk, bits: seq<bool>, m: map<nat, Node>, d': Disk, bits': seq<bool>, m': map<nat, Node>)
    requires Owned(g, d, bits, m) && Sized(g, d', bits', m') && Dropped(g, d, m, d', bits', m')
    requires |bits'| == |bits| && forall b :: 0 <= b < |bits| && bits'[b] ==> bits[b]
    ensures Owned(g, d', bits', m')
  {
    assert OnePlace(d', m');
    forall b | 0 <= b < g.usable && bits'[b] ensures Accounted(d', m', g.lo + b) {
      assert Accounted(d, m, g.lo + b);
      var j, s :| Holds(d, m, j, s, g.lo + b);
      assert Holds(d', m', j, s, g.lo + b);
    }
  }
}
