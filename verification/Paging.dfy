/** Pages and frames (memory.c): first-fit virtual pages, two pools of physical frames, and 32-bit
    two-level page tables reached through the directory's own last entry. Pages and frames are
    named by their number, the address divided by 4096. */
module Paging {
  import opened Bitmaps

  const PAGE: nat := 4096
  const ENTRIES: nat := 1024

  /** Address spaces are numbered; 0 is the kernel's. */
  const KERNEL: nat := 0

  // ------------------------------------------------------------------
  // Where an entry lies
  // ------------------------------------------------------------------

  function PdeIdx(v: nat): nat { v / 0x40_0000 % ENTRIES }

  function PteIdx(v: nat): nat { v / PAGE % ENTRIES }

  /** pte_ptr */
  function PtePtr(v: nat): nat {
    0xffc0_0000 + v / 0x40_0000 * 0x40_0000 / 1024 + PteIdx(v) * 4
  }

  /** pde_ptr */
  function PdePtr(v: nat): nat {
    0xffff_f000 + PdeIdx(v) * 4
  }

  /** What the processor makes of a virtual address: the directory's entry names a table, the
      table's entry names a frame. dir is the frame of the directory and word(f, i) the frame that
      entry i of frame f names. */
  function Translate(dir: nat, word: (nat, nat) -> nat, v: nat): nat {
    word(word(dir, PdeIdx(v)), PteIdx(v)) * PAGE + v % PAGE
  }

  /** With the directory as its own last entry, pte_ptr reaches the entry of v in the table of v,
      pde_ptr reaches the entry of v in the directory, and the page around pte_ptr is the table. */
  lemma EntriesReached(dir: nat, word: (nat, nat) -> nat, v: nat)
    requires v < 0x1_0000_0000 && word(dir, 1023) == dir
    ensures PtePtr(v) < 0x1_0000_0000 && PdePtr(v) < 0x1_0000_0000
    ensures Translate(dir, word, PtePtr(v)) == word(dir, PdeIdx(v)) * PAGE + 4 * PteIdx(v)
    ensures Translate(dir, word, PdePtr(v)) == dir * PAGE + 4 * PdeIdx(v)
    ensures Translate(dir, word, PtePtr(v) / PAGE * PAGE) == word(dir, PdeIdx(v)) * PAGE
  {
    var i, j := v / 0x40_0000, v / PAGE % 1024;
    assert i < 1024;
    assert PtePtr(v) == 0xffc0_0000 + PAGE * i + 4 * j;
    assert PtePtr(v) / 0x40_0000 == 1023;
    assert PtePtr(v) / PAGE == 1023 * 1024 + i;
    assert PtePtr(v) % PAGE == 4 * j;
    assert PdePtr(v) / 0x40_0000 == 1023 && PdePtr(v) / PAGE == 1023 * 1024 + 1023;
  }

  // ------------------------------------------------------------------
  // Frames and who uses them
  // ------------------------------------------------------------------

  /** What a frame is used for: the table of space s behind directory entry d, or page p of it. The
      kernel's own tables are there from the start, outside of the pools. */
  datatype Use = Table(s: nat, d: nat) | Page(s: nat, p: nat)

  /** The two pools, and the present entries of all directories and tables. */
  datatype Mem = Mem(kfirst: nat, kbits: seq<bool>, ufirst: nat, ubits: seq<bool>, uses: map<Use, nat>)

  /** Pages of the kernel and page tables are in kernel frames, user pages in user frames. */
  predicate ForKernel(u: Use) {
    u.Table? || u.s == KERNEL
  }

  predicate InPool(m: Mem, kernel: bool, f: nat) {
    if kernel then m.kfirst <= f < m.kfirst + |m.kbits| else m.ufirst <= f < m.ufirst + |m.ubits|
  }

  predicate Taken(m: Mem, kernel: bool, f: nat) {
    InPool(m, kernel, f) && (if kernel then m.kbits[f - m.kfirst] else m.ubits[f - m.ufirst])
  }

  ghost predicate Used(m: Mem, kernel: bool, f: nat) {
    exists u :: u in m.uses && m.uses[u] == f && ForKernel(u) == kernel
  }

  ghost predicate AllTaken(m: Mem) {
    forall u :: u in m.uses ==> Taken(m, ForKernel(u), m.uses[u])
  }

  /** No frame is used twice. */
  ghost predicate OneUse(m: Mem) {
    forall u, w :: u in m.uses && w in m.uses && m.uses[u] == m.uses[w] ==> u == w
  }

  /** No frame is taken without being used. */
  ghost predicate NoneLost(m: Mem) {
    forall kernel, f :: Taken(m, kernel, f) ==> Used(m, kernel, f)
  }

  /** The pools do not overlap and lie above the frames of the low megabyte and of the kernel's
      own directory and first table. */
  ghost predicate PoolsApart(m: Mem) {
    258 <= m.kfirst && m.kfirst + |m.kbits| <= m.ufirst
  }

  predicate HasTable(m: Mem, s: nat, d: nat) {
    s == KERNEL || Table(s, d) in m.uses
  }

  /** A page is only present in a table that is. */
  ghost predicate HasTables(m: Mem) {
    forall u :: u in m.uses && u.Page? ==> HasTable(m, u.s, u.p / ENTRIES)
  }

  ghost predicate Sound(m: Mem) {
    PoolsApart(m) && AllTaken(m) && OneUse(m) && NoneLost(m) && HasTables(m)
  }

  /** The virtual pages marked in the bitmap of a space are the ones present. */
  ghost predicate Mapped(m: Mem, s: nat, first: nat, vbits: seq<bool>) {
    forall p: nat :: Page(s, p) in m.uses <==> first <= p < first + |vbits| && vbits[p - first]
  }

  // ------------------------------------------------------------------
  // Taking and giving back
  // ------------------------------------------------------------------

  /** The bit of frame f set or cleared. */
  function Mark(m: Mem, kernel: bool, f: nat, value: bool): Mem
    requires InPool(m, kernel, f)
  {
    if kernel then m.(kbits := m.kbits[f - m.kfirst := value]) else m.(ubits := m.ubits[f - m.ufirst := value])
  }

  /** A frame is taken for a use. */
  function With(m: Mem, u: Use, f: nat): Mem
    requires InPool(m, ForKernel(u), f)
  {
    Mark(m, ForKernel(u), f, true).(uses := m.uses[u := f])
  }

  /** A use ends, and its frame is given back. */
  function Without(m: Mem, u: Use): Mem
    requires u in m.uses && InPool(m, ForKernel(u), m.uses[u])
  {
    Mark(m, ForKernel(u), m.uses[u], false).(uses := m.uses - {u})
  }

  lemma WithTaken(m: Mem, u: Use, f: nat, k: bool, g: nat)
    requires InPool(m, ForKernel(u), f)
    ensures Taken(With(m, u, f), k, g) <==> (k == ForKernel(u) && g == f) || Taken(m, k, g)
  {
  }

  lemma WithoutTaken(m: Mem, u: Use, k: bool, g: nat)
    requires u in m.uses && InPool(m, ForKernel(u), m.uses[u])
    ensures Taken(Without(m, u), k, g) <==> !(k == ForKernel(u) && g == m.uses[u]) && Taken(m, k, g)
  {
  }

  lemma UseAdded(m: Mem, u: Use, f: nat)
    requires Sound(m) && u !in m.uses && InPool(m, ForKernel(u), f) && !Taken(m, ForKernel(u), f)
    requires u.Page? ==> HasTable(m, u.s, u.p / ENTRIES)
    ensures Sound(With(m, u, f))
  {
    hide Taken, InPool, Mark, NoneLost;
    var m' := With(m, u, f);
    assert m'.uses == m.uses[u := f];
    forall w | w in m'.uses ensures Taken(m', ForKernel(w), m'.uses[w]) && (w != u ==> m'.uses[w] != f) {
      WithTaken(m, u, f, ForKernel(w), m'.uses[w]);
      if w != u { FreshFrame(m, u, f, w); }
    }
    AddedNoneLost(m, u, f);
    AddedApart(m, u, f);
  }

  lemma AddedNoneLost(m: Mem, u: Use, f: nat)
    requires NoneLost(m) && u !in m.uses && InPool(m, ForKernel(u), f)
    ensures NoneLost(With(m, u, f))
  {
    hide Taken, InPool, Mark;
    var m' := With(m, u, f);
    forall k, g | Taken(m', k, g) ensures Used(m', k, g) {
      WithTaken(m, u, f, k, g);
      if k == ForKernel(u) && g == f {
        assert u in m'.uses && m'.uses[u] == g;
      } else {
        var w :| w in m.uses && m.uses[w] == g && ForKernel(w) == k;
        assert w in m'.uses && m'.uses[w] == g;
      }
    }
  }

  lemma AddedApart(m: Mem, u: Use, f: nat)
    requires InPool(m, ForKernel(u), f) && PoolsApart(m)
    ensures PoolsApart(With(m, u, f))
  {
  }

  /** A frame not taken from its pool has no use at all. */
  lemma FreshFrame(m: Mem, u: Use, f: nat, w: Use)
    requires AllTaken(m) && PoolsApart(m) && InPool(m, ForKernel(u), f) && !Taken(m, ForKernel(u), f) && w in m.uses
    ensures m.uses[w] != f
  {
    assert Taken(m, ForKernel(w), m.uses[w]);
  }

  /** pfree finds the pool a frame was taken from by its address. */
  lemma RightPool(m: Mem, u: Use)
    requires Sound(m) && u in m.uses
    ensures var f := m.uses[u]; InPool(m, ForKernel(u), f) && (f >= m.ufirst <==> !ForKernel(u)) && 258 <= f
  {
    hide NoneLost, HasTables, OneUse;
    assert Taken(m, ForKernel(u), m.uses[u]);
  }

  lemma UseEnds(m: Mem, u: Use)
    requires Sound(m) && u in m.uses && u.Page?
    ensures InPool(m, ForKernel(u), m.uses[u]) && Sound(Without(m, u))
  {
    hide Taken, InPool, Mark, NoneLost;
    RightPool(m, u);
    var f, m' := m.uses[u], Without(m, u);
    assert m'.uses == m.uses - {u};
    forall w | w in m'.uses ensures Taken(m', ForKernel(w), m'.uses[w]) {
      WithoutTaken(m, u, ForKernel(w), m'.uses[w]);
    }
    EndedNoneLost(m, u);
    EndedApart(m, u);
  }

  lemma EndedNoneLost(m: Mem, u: Use)
    requires NoneLost(m) && u in m.uses && InPool(m, ForKernel(u), m.uses[u])
    ensures NoneLost(Without(m, u))
  {
    hide Taken, InPool, Mark;
    var m' := Without(m, u);
    forall k, g | Taken(m', k, g) ensures Used(m', k, g) {
      WithoutTaken(m, u, k, g);
      var w :| w in m.uses && m.uses[w] == g && ForKernel(w) == k;
      assert w in m'.uses && m'.uses[w] == g;
    }
  }

  lemma EndedApart(m: Mem, u: Use)
    requires u in m.uses && InPool(m, ForKernel(u), m.uses[u]) && PoolsApart(m)
    ensures PoolsApart(Without(m, u))
  {
  }

  // ------------------------------------------------------------------
  // Ranges of pages
  // ------------------------------------------------------------------

  /** Page p of space s was added, and the table behind it if there was none. */
  ghost predicate PageAdded(m: Mem, s: nat, p: nat, m': Mem) {
    && m'.kfirst == m.kfirst && m'.ufirst == m.ufirst && |m'.kbits| == |m.kbits| && |m'.ubits| == |m.ubits|
    && m'.uses.Keys == m.uses.Keys + {Page(s, p)} + (if HasTable(m, s, p / ENTRIES) then {} else {Table(s, p / ENTRIES)})
    && (forall u :: u in m.uses ==> m'.uses[u] == m.uses[u])
  }

  /** Pages lo, ..., hi - 1 of space s were added, with tables where there were none. */
  ghost predicate RangeAdded(m: Mem, s: nat, lo: nat, hi: nat, m': Mem) {
    && m'.kfirst == m.kfirst && m'.ufirst == m.ufirst && |m'.kbits| == |m.kbits| && |m'.ubits| == |m.ubits|
    && (forall u :: u in m.uses ==> u in m'.uses && m'.uses[u] == m.uses[u])
    && (forall u :: u in m'.uses && u !in m.uses ==> u.s == s && (u.Page? ==> lo <= u.p < hi))
    && (forall p :: lo <= p < hi ==> Page(s, p) in m'.uses && Page(s, p) !in m.uses)
    && (s == KERNEL ==> forall d :: Table(s, d) in m'.uses ==> Table(s, d) in m.uses)
  }

  /** The tables are those of before and those behind the range. */
  ghost predicate TablesFor(m: Mem, s: nat, lo: nat, hi: nat, m': Mem) {
    forall d: nat :: HasTable(m', s, d) <==> HasTable(m, s, d) || (lo < hi && lo / ENTRIES <= d <= (hi - 1) / ENTRIES)
  }

  /** The number of tables that the pages lo, ..., hi - 1 of space s are missing. */
  ghost function NewTables(m: Mem, s: nat, lo: nat, hi: nat): nat
    requires lo <= hi
    decreases hi - lo
  {
    if lo == hi then 0
    else NewTables(m, s, lo, hi - 1) + if NeedsTable(m, s, lo, hi - 1) then 1 else 0
  }

  /** Page p is the first of the range behind an empty directory entry. */
  predicate NeedsTable(m: Mem, s: nat, lo: nat, p: nat) {
    !HasTable(m, s, p / ENTRIES) && (p == lo || (p > lo && (p - 1) / ENTRIES != p / ENTRIES))
  }

  /** The free frames of a pool. */
  ghost function Free(m: Mem, kernel: bool): nat {
    FreeCount(if kernel then m.kbits else m.ubits)
  }

  lemma TablesGrow(m: Mem, s: nat, lo: nat, hi: nat, m1: Mem, m2: Mem)
    requires lo <= hi && TablesFor(m, s, lo, hi, m1) && PageAdded(m1, s, hi, m2)
    ensures !HasTable(m1, s, hi / ENTRIES) <==> NeedsTable(m, s, lo, hi)
    ensures TablesFor(m, s, lo, hi + 1, m2)
  {
    assert lo < hi ==> hi / ENTRIES == (hi - 1) / ENTRIES || hi / ENTRIES == (hi - 1) / ENTRIES + 1;
    assert lo / ENTRIES <= hi / ENTRIES;
    forall d: nat
      ensures HasTable(m2, s, d) <==> HasTable(m, s, d) || (lo < hi + 1 && lo / ENTRIES <= d <= hi / ENTRIES)
    {
      assert HasTable(m2, s, d) <==> HasTable(m1, s, d) || d == hi / ENTRIES;
    }
  }

  /** Marking a frame takes one off the count of its pool. */
  lemma MarkCounts(m: Mem, kernel: bool, f: nat)
    requires InPool(m, kernel, f) && !Taken(m, kernel, f)
    ensures Free(Mark(m, kernel, f, true), kernel) == Free(m, kernel) - 1
    ensures Free(Mark(m, kernel, f, true), !kernel) == Free(m, !kernel)
  {
    hide FreeCount;
    TakeOne(if kernel then m.kbits else m.ubits, f - if kernel then m.kfirst else m.ufirst);
  }

  lemma RangeGrows(m: Mem, s: nat, lo: nat, hi: nat, m1: Mem, m2: Mem)
    requires lo <= hi && RangeAdded(m, s, lo, hi, m1) && PageAdded(m1, s, hi, m2) && Page(s, hi) !in m1.uses
    ensures RangeAdded(m, s, lo, hi + 1, m2)
  {
  }

  /** Pages lo, ..., hi - 1 of space s were removed. */
  ghost predicate RangeRemoved(m: Mem, s: nat, lo: nat, hi: nat, m': Mem) {
    && m'.kfirst == m.kfirst && m'.ufirst == m.ufirst && |m'.kbits| == |m.kbits| && |m'.ubits| == |m.ubits|
    && (forall u :: u in m'.uses <==> u in m.uses && !(u.Page? && u.s == s && lo <= u.p < hi))
    && (forall u :: u in m'.uses ==> m'.uses[u] == m.uses[u])
  }

  /** Allocating a range of pages and freeing it again gives back every page frame and every
      virtual page; the only frames that stay taken are those of new page tables, and in the
      kernel's space there are none. */
  lemma RoundTrip(m: Mem, s: nat, first: nat, vbits: seq<bool>, lo: nat, cnt: nat, m1: Mem, m2: Mem)
    requires Sound(m) && Sound(m2) && Mapped(m, s, first, vbits)
    requires first <= lo && FreeRun(vbits, lo - first, cnt)
    requires RangeAdded(m, s, lo, lo + cnt, m1) && RangeRemoved(m1, s, lo, lo + cnt, m2)
    ensures SetRun(SetRun(vbits, lo - first, cnt, true), lo - first, cnt, false) == vbits
    ensures forall q :: Page(s, q) in m2.uses <==> Page(s, q) in m.uses
    ensures forall k, f :: Taken(m2, k, f) <==> Taken(m, k, f) || NewTable(m, m2, s, k, f)
    ensures s == KERNEL ==> m2.uses == m.uses && m2 == m
  {
    hide Taken;
    forall k, f ensures Taken(m2, k, f) <==> Taken(m, k, f) || NewTable(m, m2, s, k, f) {
      SameFrames(m, s, lo, cnt, m1, m2, k, f);
    }
    if s == KERNEL {
      assert m2.uses == m.uses;
      SameBits(m, m2);
    }
  }

  ghost predicate NewTable(m: Mem, m2: Mem, s: nat, k: bool, f: nat) {
    k && exists d :: Table(s, d) in m2.uses && Table(s, d) !in m.uses && m2.uses[Table(s, d)] == f
  }

  lemma SameFrames(m: Mem, s: nat, lo: nat, cnt: nat, m1: Mem, m2: Mem, k: bool, f: nat)
    requires Sound(m) && Sound(m2)
    requires RangeAdded(m, s, lo, lo + cnt, m1) && RangeRemoved(m1, s, lo, lo + cnt, m2)
    ensures Taken(m2, k, f) <==> Taken(m, k, f) || NewTable(m, m2, s, k, f)
  {
    hide Taken, InPool;
    if Taken(m, k, f) {
      assert Used(m, k, f);
      var u :| u in m.uses && m.uses[u] == f && ForKernel(u) == k;
      assert u in m1.uses && u in m2.uses && m2.uses[u] == f;
      assert Taken(m2, ForKernel(u), m2.uses[u]);
    }
    if NewTable(m, m2, s, k, f) {
      var d :| Table(s, d) in m2.uses && Table(s, d) !in m.uses && m2.uses[Table(s, d)] == f;
      assert Taken(m2, ForKernel(Table(s, d)), m2.uses[Table(s, d)]);
    }
    if Taken(m2, k, f) {
      assert Used(m2, k, f);
      var u :| u in m2.uses && m2.uses[u] == f && ForKernel(u) == k;
      if u in m.uses {
        assert Taken(m, ForKernel(u), m.uses[u]);
      } else {
        assert u in m1.uses && u == Table(s, u.d);
      }
    }
  }

  lemma SameBits(m: Mem, m2: Mem)
    requires m2.kfirst == m.kfirst && m2.ufirst == m.ufirst && |m2.kbits| == |m.kbits| && |m2.ubits| == |m.ubits|
    requires m2.uses == m.uses && forall k, f :: Taken(m2, k, f) <==> Taken(m, k, f) || NewTable(m, m2, KERNEL, k, f)
    ensures m2 == m
  {
    forall i | 0 <= i < |m.kbits| ensures m2.kbits[i] == m.kbits[i] {
      assert Taken(m2, true, m.kfirst + i) <==> Taken(m, true, m.kfirst + i);
    }
    forall i | 0 <= i < |m.ubits| ensures m2.ubits[i] == m.ubits[i] {
      assert Taken(m2, false, m.ufirst + i) <==> Taken(m, false, m.ufirst + i);
    }
  }
}
