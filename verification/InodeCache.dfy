/** The inodes kept open in memory (inode.c:80-149): one entry per number, shared by all who opened it,
    and dropped with the last close. */
module InodeCaches {
  import opened Sectors
  import opened InodeTable

  // ------------------------------------------------------------------
  // The open counts as a value
  // ------------------------------------------------------------------

  datatype CacheOp = OpenOp(no: nat) | CloseOp(no: nat)

  type Counts = map<nat, nat>

  function Opened(m: Counts, no: nat): Counts {
    m[no := if no in m then m[no] + 1 else 1]
  }

  function Closed(m: Counts, no: nat): Counts
    requires no in m
  {
    if m[no] <= 1 then m - {no} else m[no := m[no] - 1]
  }

  function Opens(ops: seq<CacheOp>, no: nat): nat {
    if ops == [] then 0 else Opens(ops[..|ops| - 1], no) + (if ops[|ops| - 1] == OpenOp(no) then 1 else 0)
  }

  function Closes(ops: seq<CacheOp>, no: nat): nat {
    if ops == [] then 0 else Closes(ops[..|ops| - 1], no) + (if ops[|ops| - 1] == CloseOp(no) then 1 else 0)
  }

  /** Every close in the run closes an inode that is open. */
  ghost predicate Sound(ops: seq<CacheOp>) {
    ops != [] ==>
      && Sound(ops[..|ops| - 1])
      && (ops[|ops| - 1].CloseOp? ==> ops[|ops| - 1].no in After(ops[..|ops| - 1]))
  }

  function After(ops: seq<CacheOp>): Counts {
    if ops == [] then map[] else
    var m, op := After(ops[..|ops| - 1]), ops[|ops| - 1];
    if op.OpenOp? then Opened(m, op.no) else if op.no in m then Closed(m, op.no) else m
  }

  /** Over every run, an inode is in the cache exactly while it has been opened more often than closed,
      and its i_open_cnts is the difference. */
  lemma {:induction false} CountsBalance(ops: seq<CacheOp>, no: nat)
    requires Sound(ops)
    ensures Opens(ops, no) >= Closes(ops, no)
    ensures no in After(ops) <==> Opens(ops, no) > Closes(ops, no)
    ensures no in After(ops) ==> After(ops)[no] == Opens(ops, no) - Closes(ops, no)
  {
    if ops != [] {
      CountsBalance(ops[..|ops| - 1], no);
    }
  }

  // ------------------------------------------------------------------
  // The records on the list
  // ------------------------------------------------------------------

  ghost predicate Listed(recs: seq<InodeRec>, no: nat) {
    exists i :: 0 <= i < |recs| && recs[i].iNo == no
  }

  /** One entry per number, each open at least once. */
  ghost predicate Sole(recs: seq<InodeRec>) {
    && (forall i :: 0 <= i < |recs| ==> recs[i].openCnts >= 1)
    && (forall i, j :: 0 <= i < j < |recs| ==> recs[i].iNo != recs[j].iNo)
  }

  ghost function CountsOf(recs: seq<InodeRec>): Counts
    requires Sole(recs)
  {
    map i | 0 <= i < |recs| :: recs[i].iNo := recs[i].openCnts
  }

  lemma CountsHas(recs: seq<InodeRec>, i: nat)
    requires Sole(recs) && i < |recs|
    ensures recs[i].iNo in CountsOf(recs) && CountsOf(recs)[recs[i].iNo] == recs[i].openCnts
  {
  }

  lemma CountsKeys(recs: seq<InodeRec>, no: nat)
    requires Sole(recs)
    ensures no in CountsOf(recs) <==> Listed(recs, no)
  {
  }

  lemma Distinct(recs: seq<InodeRec>, i: nat, j: nat)
    requires Sole(recs) && i < |recs| && j < |recs| && i != j
    ensures recs[i].iNo != recs[j].iNo
  {
  }

  /** A map with the numbers on the list as keys and their counts as values is the map of the list. */
  lemma EqualCounts(recs: seq<InodeRec>, m: Counts)
    requires Sole(recs) && (forall no :: no in m ==> Listed(recs, no))
    requires forall i :: 0 <= i < |recs| ==> recs[i].iNo in m && m[recs[i].iNo] == recs[i].openCnts
    ensures CountsOf(recs) == m
  {
    hide Sole, CountsOf;
    var c := CountsOf(recs);
    forall no ensures no in c <==> no in m {
      CountsKeys(recs, no);
    }
    forall no | no in m ensures no in c && c[no] == m[no] {
      var i :| 0 <= i < |recs| && recs[i].iNo == no;
      CountsHas(recs, i);
    }
  }

  function Shared(r: InodeRec): InodeRec {
    r.(openCnts := r.openCnts + 1)
  }

  function Left(r: InodeRec): InodeRec {
    r.(openCnts := if r.openCnts == 0 then 0 else r.openCnts - 1)
  }

  /** One entry gets another count, and stays. */
  lemma RecountOk(recs: seq<InodeRec>, i: nat, r: InodeRec)
    requires Sole(recs) && i < |recs| && r.iNo == recs[i].iNo && r.openCnts >= 1
    ensures var s := recs[i := r]; Sole(s) && CountsOf(s) == CountsOf(recs)[r.iNo := r.openCnts]
  {
    var s := recs[i := r];
    assert Sole(s);
    hide Sole, CountsOf;
    var m := CountsOf(recs)[r.iNo := r.openCnts];
    forall k | 0 <= k < |s| ensures s[k].iNo in m && m[s[k].iNo] == s[k].openCnts {
      CountsHas(recs, k);
      if k != i { Distinct(recs, k, i); }
    }
    forall no | no in m ensures Listed(s, no) {
      CountsKeys(recs, no);
      CountsHas(recs, i);
      var k :| 0 <= k < |recs| && recs[k].iNo == no;
      assert s[k].iNo == no;
    }
    EqualCounts(s, m);
  }

  lemma SharedOk(recs: seq<InodeRec>, i: nat)
    requires Sole(recs) && i < |recs|
    ensures var s := recs[i := Shared(recs[i])]; Sole(s) && CountsOf(s) == Opened(CountsOf(recs), recs[i].iNo)
  {
    hide Sole, CountsOf;
    RecountOk(recs, i, Shared(recs[i]));
    CountsHas(recs, i);
  }

  lemma LeftOk(recs: seq<InodeRec>, i: nat)
    requires Sole(recs) && i < |recs| && recs[i].openCnts > 1
    ensures var s := recs[i := Left(recs[i])]; Sole(s) && CountsOf(s) == Closed(CountsOf(recs), recs[i].iNo)
  {
    hide Sole, CountsOf;
    CountsHas(recs, i);
    RecountOk(recs, i, Left(recs[i]));
  }

  /** A loaded inode in front of the list: it stays sound exactly when its number is new there. */
  lemma PushedOk(recs: seq<InodeRec>, r: InodeRec)
    requires Sole(recs) && r.openCnts == 1
    ensures Sole([r] + recs) <==> !Listed(recs, r.iNo)
    ensures !Listed(recs, r.iNo) ==> CountsOf([r] + recs) == Opened(CountsOf(recs), r.iNo)
  {
    var s := [r] + recs;
    assert s[0] == r && forall k :: 0 < k < |s| ==> s[k] == recs[k - 1];
    if Listed(recs, r.iNo) {
      var i :| 0 <= i < |recs| && recs[i].iNo == r.iNo;
      assert s[i + 1].iNo == s[0].iNo;
    } else {
      assert Sole(s);
      PushedCounts(recs, r);
    }
  }

  lemma PushedCounts(recs: seq<InodeRec>, r: InodeRec)
    requires Sole(recs) && r.openCnts == 1 && !Listed(recs, r.iNo) && Sole([r] + recs)
    ensures CountsOf([r] + recs) == Opened(CountsOf(recs), r.iNo)
  {
    hide Sole, CountsOf;
    var s, m := [r] + recs, Opened(CountsOf(recs), r.iNo);
    CountsKeys(recs, r.iNo);
    forall k | 0 <= k < |s| ensures s[k].iNo in m && m[s[k].iNo] == s[k].openCnts {
      if k > 0 {
        CountsHas(recs, k - 1);
        Distinct(s, k, 0);
      }
    }
    forall no | no in m ensures Listed(s, no) {
      CountsKeys(recs, no);
      if no == r.iNo { assert s[0].iNo == no; } else {
        var k :| 0 <= k < |recs| && recs[k].iNo == no;
        assert s[k + 1].iNo == no;
      }
    }
    EqualCounts(s, m);
  }

  lemma GoneOk(recs: seq<InodeRec>, i: nat)
    requires Sole(recs) && i < |recs| && recs[i].openCnts == 1
    ensures var s := recs[..i] + recs[i + 1..]; Sole(s) && CountsOf(s) == Closed(CountsOf(recs), recs[i].iNo)
  {
    var s := recs[..i] + recs[i + 1..];
    assert forall k :: 0 <= k < |s| ==> s[k] == recs[if k < i then k else k + 1];
    assert Sole(s);
    hide Sole, CountsOf;
    CountsHas(recs, i);
    var m := CountsOf(recs) - {recs[i].iNo};
    forall k | 0 <= k < |s| ensures s[k].iNo in m && m[s[k].iNo] == s[k].openCnts {
      var j := if k < i then k else k + 1;
      CountsHas(recs, j);
      Distinct(recs, j, i);
    }
    forall no | no in m ensures Listed(s, no) {
      CountsKeys(recs, no);
      var k :| 0 <= k < |recs| && recs[k].iNo == no;
      assert k != i && s[if k < i then k else k - 1].iNo == no;
    }
    EqualCounts(s, m);
  }

  // ------------------------------------------------------------------
  // The list of open inodes
  // ------------------------------------------------------------------

  class OpenInode {
    var rec: InodeRec

    constructor (rec: InodeRec)
      ensures this.rec == rec
    {
      this.rec := rec;
    }
  }

  class Cache {
    const base: nat
    var disk: seq<Sector>
    var open: seq<OpenInode>

    ghost function Recs(): (recs: seq<InodeRec>)
      reads this, open
      ensures |recs| == |open| && forall i :: 0 <= i < |open| ==> recs[i] == open[i].rec
    {
      seq(|open|, i requires 0 <= i < |open| reads this, open => open[i].rec)
    }

    ghost predicate Valid()
      reads this, open
    {
      base + TABLE_SECTORS <= |disk| && Sole(Recs())
    }

    /** inode_open. An inode already open is shared. One that is not is loaded, and the list stays
        sound exactly when the number in its slot is not that of another open inode: a slot that was
        cleared, or not written yet, holds the number 0. */
    method InodeOpen(no: nat) returns (found: OpenInode)
      requires Valid() && no < INODES
      modifies this`open, open
      ensures old(Listed(Recs(), no)) ==>
        && open == old(open) && found in open && found.rec == Shared(old(found.rec)) && found.rec.iNo == no
        && Valid() && CountsOf(Recs()) == Opened(old(CountsOf(Recs())), no)
      ensures !old(Listed(Recs(), no)) ==>
        && var r := Parse(Slice(disk, base, no)).(openCnts := 1);
        && fresh(found) && open == [found] + old(open) && Recs() == [r] + old(Recs())
        && (Valid() <==> !old(Listed(Recs(), r.iNo)))
        && (Valid() ==> CountsOf(Recs()) == Opened(old(CountsOf(Recs())), r.iNo))
    {
      hide Slice, Parse, Sole, CountsOf;
      ghost var recs := Recs();
      var i := 0;
      while i < |open|
        modifies {}
        invariant i <= |open| && forall k :: 0 <= k < i ==> recs[k].iNo != no
      {
        if open[i].rec.iNo == no { break; }
        i := i + 1;
      }
      if i < |open| {
        found := open[i];
        SoleObjects(recs, i);
        SharedOk(recs, i);
        found.rec := Shared(found.rec);
        assert Recs() == recs[i := Shared(recs[i])];
      } else {
        var r := InodeLoad(disk, base, no);
        found := new OpenInode(r.(openCnts := 1));
        open := [found] + open;
        PushedOk(recs, r.(openCnts := 1));
        assert Recs() == [r.(openCnts := 1)] + recs;
      }
    }

    lemma SoleObjects(recs: seq<InodeRec>, i: nat)
      requires recs == Recs() && Sole(recs) && i < |open|
      ensures forall k :: 0 <= k < |open| && k != i ==> open[k] != open[i]
    {
      forall k | 0 <= k < |open| && k != i ensures open[k] != open[i] {
        assert recs[k].iNo != recs[i].iNo;
      }
    }

    /** inode_close, with the place of the inode on the list. */
    method InodeClose(inode: OpenInode, at: nat)
      requires Valid() && at < |open| && open[at] == inode
      modifies this`open, inode
      ensures Valid() && CountsOf(Recs()) == Closed(old(CountsOf(Recs())), old(inode.rec.iNo))
      ensures open == if old(inode.rec.openCnts) == 1 then old(open)[..at] + old(open)[at + 1..] else old(open)
    {
      hide Sole, CountsOf;
      ghost var recs := Recs();
      SoleObjects(recs, at);
      assert recs[at].openCnts >= 1 by { AtLeastOnce(recs, at); }
      inode.rec := Left(inode.rec);
      if inode.rec.openCnts == 0 {
        GoneOk(recs, at);
        open := open[..at] + open[at + 1..];
        assert Recs() == recs[..at] + recs[at + 1..];
      } else {
        LeftOk(recs, at);
        assert Recs() == recs[at := Left(recs[at])];
      }
    }

    lemma AtLeastOnce(recs: seq<InodeRec>, i: nat)
      requires Sole(recs) && i < |recs|
      ensures recs[i].openCnts >= 1
    {
    }
  }
}
