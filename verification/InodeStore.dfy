/** The inode table against the inodes in memory: which calls leave on the disk what a later load of
    each inode needs. inode_sync stores into the slot of the number's low byte (inode.c:48). */
module InodeStore {
  import opened Sectors
  import opened BlockMap
  import opened InodeTable

  /** The record inode_sync stores for an inode; the other members are cleared there. */
  function RecordOf(no: nat, n: Node): InodeRec {
    InodeRec(no, n.size, 0, 0, n.sectors, 0, 0)
  }

  /** Nothing below sector lo was written. */
  ghost predicate Below(lo: nat, d: Disk, d': Disk) {
    |d'| == |d| && forall a :: 0 <= a < lo && a < |d| ==> d'[a] == d[a]
  }

  lemma BelowWrite(lo: nat, d: Disk, a: nat, x: Sector)
    requires lo <= a < |d|
    ensures Below(lo, d, d) && Below(lo, d, d[a := x])
  {
  }

  /** A table below sector lo is then as it was. */
  lemma TableBelow(lo: nat, d: Disk, d': Disk, base: nat)
    requires Below(lo, d, d') && base + TABLE_SECTORS <= lo
    ensures TableOf(d', base) == TableOf(d, base)
  {
    hide TableOf;
    TableUntouched(d, base, d');
  }

  /** What slot no should hold: the inode with that number, or nothing. */
  function SlotRec(m: map<nat, Node>, no: nat): InodeRec {
    if no in m then RecordOf(no, m[no]) else NO_REC
  }

  /** Every inode can be loaded from its slot, and the slots of unused numbers are blank. */
  ghost predicate OnDisk(tb: seq<InodeRec>, m: map<nat, Node>) {
    |tb| == INODES && forall no :: 0 <= no < INODES ==> tb[no] == SlotRec(m, no)
  }

  /** inode_sync of inode no. */
  function TableSynced(tb: seq<InodeRec>, no: nat, n: Node): (tb': seq<InodeRec>)
    ensures |tb'| == |tb|
  {
    if no % 256 < |tb| then tb[no % 256 := RecordOf(no, n)] else tb
  }

  /** inode_delete of slot no. */
  function TableCleared(tb: seq<InodeRec>, no: nat): (tb': seq<InodeRec>)
    ensures |tb'| == |tb|
  {
    if no < |tb| then tb[no := NO_REC] else tb
  }

  /** Storing one changed or new inode keeps the table exactly when its number is below 256. */
  lemma SyncKeeps(tb: seq<InodeRec>, m: map<nat, Node>, no: nat, n: Node)
    requires OnDisk(tb, m) && no < INODES
    ensures OnDisk(TableSynced(tb, no, n), m[no := n]) <==> no < 256
  {
    var tb' := TableSynced(tb, no, n);
    if no >= 256 {
      assert tb'[no % 256].iNo == no && SlotRec(m[no := n], no % 256).iNo != no;
    }
  }

  /** Storing a directory that got an entry, and then the new inode it names (sys_mkdir, file_create):
      the table is kept exactly when both numbers are below 256. */
  lemma SyncBothKeeps(tb: seq<InodeRec>, m: map<nat, Node>, h: nat, nh: Node, no: nat, n: Node)
    requires OnDisk(tb, m) && h in m && h < INODES && no !in m && no < INODES && nh.size != m[h].size
    ensures OnDisk(TableSynced(TableSynced(tb, h, nh), no, n), m[h := nh][no := n]) <==> h < 256 && no < 256
  {
    var tb', m' := TableSynced(TableSynced(tb, h, nh), no, n), m[h := nh][no := n];
    if h >= 256 {
      assert tb'[h] == tb[h] == RecordOf(h, m[h]) && SlotRec(m', h) == RecordOf(h, nh);
    } else if no >= 256 {
      assert tb'[no] == tb[no] == NO_REC && SlotRec(m', no).iNo == no;
    }
  }

  /** Storing a directory that lost an entry, and clearing the slot of the inode it named (sys_unlink,
      sys_rmdir): the table is kept exactly when the directory's number is below 256. */
  lemma SyncDeleteKeeps(tb: seq<InodeRec>, m: map<nat, Node>, h: nat, nh: Node, no: nat)
    requires OnDisk(tb, m) && h in m && h < INODES && no in m && no < INODES && h != no && nh.size != m[h].size
    ensures OnDisk(TableCleared(TableSynced(tb, h, nh), no), m[h := nh] - {no}) <==> h < 256
  {
    var tb', m' := TableCleared(TableSynced(tb, h, nh), no), m[h := nh] - {no};
    if h >= 256 {
      assert tb'[h] == tb[h] == RecordOf(h, m[h]) && SlotRec(m', h) == RecordOf(h, nh);
    }
  }

  lemma DeleteKeeps(tb: seq<InodeRec>, m: map<nat, Node>, no: nat)
    requires OnDisk(tb, m) && no < INODES
    ensures OnDisk(TableCleared(tb, no), m - {no})
  {
  }

  /** What goes wrong from 256 on: the slot of the low byte loads as the high number, and the slot of
      the high number does not load as it did not before. */
  lemma HighNumberLost(tb: seq<InodeRec>, m: map<nat, Node>, no: nat, n: Node)
    requires OnDisk(tb, m) && 256 <= no < INODES && no !in m
    ensures var tb' := TableSynced(tb, no, n);
      tb'[no % 256] == RecordOf(no, n) && tb'[no] == NO_REC
      && (no % 256 in m ==> tb'[no % 256] != RecordOf(no % 256, m[no % 256]))
  {
  }

  /** At number 300: storing it puts it in slot 44, where inode 44 no longer loads, and slot 300 stays
      blank. */
  lemma Number300(tb: seq<InodeRec>, m: map<nat, Node>, n: Node)
    requires OnDisk(tb, m) && 300 !in m && 44 in m
    ensures var tb' := TableSynced(tb, 300, n);
      tb'[44] == RecordOf(300, n) != RecordOf(44, m[44]) && tb'[300] == NO_REC && !OnDisk(tb', m[300 := n])
  {
    HighNumberLost(tb, m, 300, n);
    SyncKeeps(tb, m, 300, n);
  }
}
