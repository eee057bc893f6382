/** sys_malloc and sys_free (memory.c), on top of the page allocator. One heap at a time: the
    kernel's, or that of one process. */
module Heaps {
  import opened Lists
  import opened Bitmaps
  import opened Paging
  import opened PageAlloc
  import opened HeapSpec

  /** RanPast: a block whose last page lies past the bitmap of the heap's virtual pages. */
  datatype Alloc = Addr(a: nat) | RanPast(a: nat) | NullPtr | Stops

  /** Page q belongs to an arena. */
  ghost predicate HeapPage(h: Heap, q: nat) {
    exists p :: p in h.arenas && p <= q < p + HeapSpec.Pages(h.arenas[p])
  }

  /** Beyond what was there before the heap took its first page, exactly the pages of its arenas
      are present, with tables for them where there were none. */
  ghost predicate OnItsPages(h: Heap, base: Mem, m: Mem, s: nat) {
    && m.kfirst == base.kfirst && m.ufirst == base.ufirst && |m.kbits| == |base.kbits| && |m.ubits| == |base.ubits|
    && (forall u :: u in base.uses ==> u in m.uses && m.uses[u] == base.uses[u])
    && (forall u :: u in m.uses && u !in base.uses ==> u.s == s && (u.Page? ==> HeapPage(h, u.p)))
    && (forall q: nat :: HeapPage(h, q) ==> Page(s, q) in m.uses && Page(s, q) !in base.uses)
    && (s == KERNEL ==> forall d :: Table(s, d) in m.uses ==> Table(s, d) in base.uses)
  }

  lemma NoPages(base: Mem, s: nat)
    ensures OnItsPages(EMPTY, base, base, s)
  {
  }

  /** New pages are free of arenas. */
  lemma NewPagesFree(h: Heap, base: Mem, m: Mem, s: nat, p: nat, n: nat, m': Mem)
    requires Filled(h) && OnItsPages(h, base, m, s) && n >= 1 && RangeAdded(m, s, p, p + n, m')
    ensures PagesFree(h, p, n)
  {
    hide OnItsPages;
    PagesPositive(h);
    forall q | q in h.arenas ensures q + HeapSpec.Pages(h.arenas[q]) <= p || p + n <= q {
      var e := q + HeapSpec.Pages(h.arenas[q]);
      if p < e && q < p + n {
        var x: nat := if p < q then q else p;
        assert HeapPage(h, x);
        PagePresent(h, base, m, s, x);
        assert false;
      }
    }
  }

  lemma PagePresent(h: Heap, base: Mem, m: Mem, s: nat, x: nat)
    requires OnItsPages(h, base, m, s) && HeapPage(h, x)
    ensures Page(s, x) in m.uses && Page(s, x) !in base.uses
  {
  }

  lemma PagesGrow(h: Heap, h': Heap, base: Mem, m: Mem, s: nat, p: nat, a: Arena, m': Mem)
    requires OnItsPages(h, base, m, s) && p !in h.arenas && h'.arenas == h.arenas[p := a]
    requires RangeAdded(m, s, p, p + HeapSpec.Pages(a), m')
    ensures OnItsPages(h', base, m', s)
  {
    forall q: nat ensures HeapPage(h', q) <==> HeapPage(h, q) || p <= q < p + HeapSpec.Pages(a) {
      if p <= q < p + HeapSpec.Pages(a) { assert p in h'.arenas; }
      if HeapPage(h, q) {
        var r :| r in h.arenas && r <= q < r + HeapSpec.Pages(h.arenas[r]);
        assert r in h'.arenas;
      }
    }
  }

  lemma PagesShrink(h: Heap, h': Heap, base: Mem, m: Mem, s: nat, p: nat, m': Mem)
    requires OnItsPages(h, base, m, s) && ArenasApart(h) && p in h.arenas && h'.arenas == h.arenas - {p}
    requires RangeRemoved(m, s, p, p + HeapSpec.Pages(h.arenas[p]), m')
    requires forall q :: q in h.arenas ==> HeapSpec.Pages(h.arenas[q]) >= 1
    ensures OnItsPages(h', base, m', s)
  {
    hide RangeRemoved, ArenasApart;
    var n := HeapSpec.Pages(h.arenas[p]);
    PagesLess(h, h', p);
    forall q: nat | p <= q < p + n ensures Page(s, q) !in base.uses { assert HeapPage(h, q); }
    assert n >= 1;
    RemovedUses(m, s, p, p + n, m');
  }

  lemma RemovedUses(m: Mem, s: nat, lo: nat, hi: nat, m': Mem)
    requires RangeRemoved(m, s, lo, hi, m')
    ensures m'.kfirst == m.kfirst && m'.ufirst == m.ufirst && |m'.kbits| == |m.kbits| && |m'.ubits| == |m.ubits|
    ensures forall u :: u in m'.uses <==> u in m.uses && !(u.Page? && u.s == s && lo <= u.p < hi)
    ensures forall u :: u in m'.uses ==> m'.uses[u] == m.uses[u]
  {
  }

  lemma PagesLess(h: Heap, h': Heap, p: nat)
    requires ArenasApart(h) && p in h.arenas && h'.arenas == h.arenas - {p}
    requires forall q :: q in h.arenas ==> HeapSpec.Pages(h.arenas[q]) >= 1
    ensures forall q: nat :: HeapPage(h', q) <==> HeapPage(h, q) && !(p <= q < p + HeapSpec.Pages(h.arenas[p]))
  {
    var n := HeapSpec.Pages(h.arenas[p]);
    forall q: nat ensures HeapPage(h', q) <==> HeapPage(h, q) && !(p <= q < p + n) {
      if HeapPage(h, q) && !(p <= q < p + n) {
        var r :| r in h.arenas && r <= q < r + HeapSpec.Pages(h.arenas[r]);
        assert r in h'.arenas;
      }
    }
  }

  /** Only the arenas matter to the pages. */
  lemma SameArenaPages(h: Heap, h': Heap, base: Mem, m: Mem, s: nat)
    requires OnItsPages(h, base, m, s) && h'.arenas.Keys == h.arenas.Keys
    requires forall p :: p in h.arenas ==> HeapSpec.Pages(h'.arenas[p]) == HeapSpec.Pages(h.arenas[p])
    ensures OnItsPages(h', base, m, s)
  {
    forall q: nat ensures HeapPage(h', q) <==> HeapPage(h, q) {
      if HeapPage(h, q) {
        var r :| r in h.arenas && r <= q < r + HeapSpec.Pages(h.arenas[r]);
        assert r in h'.arenas;
      }
      if HeapPage(h', q) {
        var r :| r in h'.arenas && r <= q < r + HeapSpec.Pages(h'.arenas[r]);
        assert r in h.arenas;
      }
    }
  }

  /** When every block is freed the heap is empty again, and all page frames and virtual pages are
      as they were; only new page tables stay, and the kernel has none. */
  lemma EverythingBack(h: Heap, base: Mem, bits: seq<bool>, m: Mem, bits': seq<bool>, s: nat, first: nat)
    requires HeapOk(h) && h.live == map[] && OnItsPages(h, base, m, s)
    requires Sound(base) && Sound(m) && Mapped(base, s, first, bits) && Mapped(m, s, first, bits') && |bits'| == |bits|
    ensures h.arenas == map[] && forall k :: 0 <= k < CLASSES ==> h.free[k] == []
    ensures bits' == bits
    ensures forall k, f :: Taken(m, k, f) <==> Taken(base, k, f) || NewTable(base, m, s, k, f)
    ensures s == KERNEL ==> m == base
  {
    hide Sound, Taken, Filled;
    NothingLeft(h);
    assert forall q: nat :: !HeapPage(h, q);
    NothingBetween(h, base, m, s);
    forall i | 0 <= i < |bits| ensures bits'[i] == bits[i] {
      assert Page(s, first + i) in m.uses <==> Page(s, first + i) in base.uses;
    }
    forall k, f ensures Taken(m, k, f) <==> Taken(base, k, f) || NewTable(base, m, s, k, f) {
      SameFrames(base, s, 0, 0, m, m, k, f);
    }
    if s == KERNEL {
      assert m.uses == base.uses;
      SameBits(base, m);
    }
  }

  lemma NothingBetween(h: Heap, base: Mem, m: Mem, s: nat)
    requires OnItsPages(h, base, m, s) && forall q: nat :: !HeapPage(h, q)
    ensures RangeAdded(base, s, 0, 0, m) && RangeRemoved(m, s, 0, 0, m)
    ensures forall p: nat :: Page(s, p) in m.uses <==> Page(s, p) in base.uses
    ensures forall u :: u in m.uses && u !in base.uses ==> u.Table? && u.s == s
  {
  }

  // ------------------------------------------------------------------
  // What a call does to the heap
  // ------------------------------------------------------------------

  /** The pages p, ..., p + n - 1 were the first that fit, and they are mapped now. */
  ghost predicate PagesTaken(s: nat, first: nat, m: Mem, bits: seq<bool>, guard: bool, m': Mem, bits': seq<bool>, p: nat, n: nat) {
    && first <= p && p - first + n <= |bits| && FirstFit(Searched(bits, guard, n), n, p - first)
    && bits' == SetRun(bits, p - first, n, true) && RangeAdded(m, s, p, p + n, m')
  }

  /** These pages, and no others, are given back. */
  ghost predicate PagesReturned(s: nat, first: nat, m: Mem, bits: seq<bool>, m': Mem, bits': seq<bool>, p: nat, n: nat) {
    && first <= p && p - first + n <= |bits| && bits' == SetRun(bits, p - first, n, false)
    && RangeRemoved(m, s, p, p + n, m')
  }

  /** A small block is the one that has been free longest, of the list of class k. */
  ghost predicate FromList(h: Heap, h': Heap, k: nat, size: nat, a: nat) {
    && k < CLASSES && |h.free| == CLASSES && h.free[k] != [] && a == h.free[k][0] && InClass(h, PageOf(a), k)
    && h'.free == h.free[k := h.free[k][1..]] && h'.live == h.live[a := size] && h.arenas[PageOf(a)].cnt >= 1
    && h'.arenas == h.arenas[PageOf(a) := Arena(k, h.arenas[PageOf(a)].cnt - 1)]
  }

  /** A small block is the first of a new page for class k, whose other blocks are free now, in the
      order of their addresses. */
  ghost predicate FromPage(h: Heap, h': Heap, k: nat, size: nat, a: nat) {
    && k < CLASSES && |h.free| == |h'.free| == CLASSES && h.free[k] == [] && h'.live == h.live[a := size]
    && PageOf(a) !in h.arenas && a == PageOf(a) * PAGE_SIZE + HEADER
    && h'.arenas == h.arenas[PageOf(a) := Arena(k, BlocksPer(k) - 1)] && h'.free == h.free[k := h'.free[k]]
    && |h'.free[k]| == BlocksPer(k) - 1
    && forall i :: 0 <= i < |h'.free[k]| ==> h'.free[k][i] == a + (i + 1) * BlockSize(k)
  }

  /** A large block has n pages of its own, behind the header of the first. */
  ghost predicate OwnPages(h: Heap, h': Heap, n: nat, size: nat, a: nat) {
    && a == PageOf(a) * PAGE_SIZE + HEADER && PageOf(a) !in h.arenas
    && h' == Heap(h.arenas[PageOf(a) := Arena(-1, n)], h.free, h.live[a := size])
  }

  /** The blocks on the list that are not in page p, in order. */
  function Beside(l: seq<nat>, p: nat): seq<nat> {
    if l == [] then [] else (if PageOf(l[0]) == p then [] else [l[0]]) + Beside(l[1..], p)
  }

  lemma {:induction false} BesideOff(l: seq<nat>, p: nat, b: nat)
    requires PageOf(b) == p
    ensures Beside(Lists.Without(l, b), p) == Beside(l, p)
  {
    if l != [] && l[0] != b {
      BesideOff(l[1..], p, b);
      assert Lists.Without(l, b)[1..] == Lists.Without(l[1..], b);
    }
  }

  lemma {:induction false} BesideAll(l: seq<nat>, p: nat)
    requires forall b :: b in l ==> PageOf(b) != p
    ensures Beside(l, p) == l
  {
    if l != [] {
      assert l[0] in l;
      BesideAll(l[1..], p);
      assert l == [l[0]] + l[1..];
    }
  }

  /** A small block goes to the end of its list. */
  ghost predicate ToList(h: Heap, h': Heap, ptr: nat) {
    && |h.free| == CLASSES && PageOf(ptr) in h.arenas && 0 <= h.arenas[PageOf(ptr)].desc < CLASSES
    && var p, a := PageOf(ptr), h.arenas[PageOf(ptr)];
    h' == Heap(h.arenas[p := Arena(a.desc, a.cnt + 1)], h.free[a.desc := h.free[a.desc] + [ptr]], h.live - {ptr})
  }

  /** The last live block of its page: the page goes, and with it its blocks from the list. */
  ghost predicate LastOfPage(h: Heap, h': Heap, ptr: nat) {
    && |h.free| == CLASSES && PageOf(ptr) in h.arenas && 0 <= h.arenas[PageOf(ptr)].desc < CLASSES
    && var p, k := PageOf(ptr), h.arenas[PageOf(ptr)].desc;
    h' == Heap(h.arenas - {p}, h.free[k := Beside(h.free[k], p)], h.live - {ptr})
  }

  /** A kernel or user heap: its memory, its space, the bitmap of its virtual pages. */
  class Allocator {
    const mem: Memory
    const s: nat
    const v: Bitmap
    const first: nat
    const poolSize: nat
    var arenas: map<nat, Arena>
    var free: seq<seq<nat>>
    ghost var live: map<nat, nat>
    ghost const base: Mem
    ghost const baseBits: seq<bool>

    /** block_desc_init */
    constructor (mem: Memory, s: nat, v: Bitmap, first: nat, poolSize: nat)
      requires mem.Valid() && v.Valid() && v.bits != mem.kernelPool.bits && v.bits != mem.userPool.bits
      requires BelowKernel(s, first, v.View()) && Mapped(mem.Value(), s, first, v.View())
      ensures Valid() && live == map[] && this.mem == mem && this.v == v && this.s == s && this.first == first
      ensures base == mem.Value() && baseBits == v.View()
    {
      this.mem, this.s, this.v, this.first, this.poolSize := mem, s, v, first, poolSize;
      arenas, free, live := map[], [[], [], [], [], [], [], []], map[];
      base, baseBits := mem.Value(), v.View();
      new;
      NoPages(base, s);
      EmptyOk();
    }

    ghost function State(): Heap
      reads this
    {
      Heap(arenas, free, live)
    }

    ghost predicate OnMemory()
      reads this, mem, mem.kernelPool.bits, mem.userPool.bits, v.bits
    {
      && mem.Valid() && v.Valid() && v.bits != mem.kernelPool.bits && v.bits != mem.userPool.bits
      && BelowKernel(s, first, v.View()) && Mapped(mem.Value(), s, first, v.View())
      && Sound(base) && Mapped(base, s, first, baseBits) && |baseBits| == |v.View()|
      && OnItsPages(State(), base, mem.Value(), s)
    }

    ghost predicate Valid()
      reads this, mem, mem.kernelPool.bits, mem.userPool.bits, v.bits
    {
      OnMemory() && HeapOk(State())
    }

    /** malloc_page for the heap: the result and what it means for a new arena. */
    method GetPages(n: nat) returns (r: Got)
      requires Valid() && 1 <= n < 3840
      modifies mem`uses, mem.kernelPool.bits, mem.userPool.bits, v.bits
      ensures r == Null <==>
        !Full(old(v.View())) && NoRun(old(v.View()), n) && !RunsPast(old(v.View()), old(v.Guard()), n)
      ensures r == Halted <==> StopsFor(old(mem.Value()), s, first, old(v.View()), old(v.Guard()), n)
      ensures r.Past? <==> PastFor(old(mem.Value()), s, first, old(v.View()), old(v.Guard()), n)
      ensures r.Past? ==> !Mapped(mem.Value(), s, first, v.View())
      ensures r == Null ==> OnMemory() && HeapOk(State())
      ensures r.At? ==> PagesFree(State(), r.page, n) && Added(r.page, n, old(mem.Value()))
      ensures r.At? ==>
        PagesTaken(s, first, old(mem.Value()), old(v.View()), old(v.Guard()), mem.Value(), v.View(), r.page, n)
    {
      hide Sound, HeapOk, Filled, Mapped, OnItsPages, Bitmap.View, FirstFit, Full, NoRun, SetRun, RangeAdded, Allocated, StopsFor,
        PastFor, RunsPast, Searched, Bitmap.Guard;
      ghost var m := mem.Value();
      ghost var at;
      r, at := mem.MallocPage(s, v, first, n);
      StopsWhen(m, s, first, old(v.View()), old(v.Guard()), n, r, at);
      if r.At? {
        AtFirst(m, s, first, at, n, |old(v.View())|, r);
        IsFilled(State());
        NewPagesFree(State(), base, m, s, r.page, n, mem.Value());
      }
    }

    lemma AtFirst(m: Mem, s: nat, first: nat, at: nat, n: nat, len: nat, r: Got)
      requires Allocated(m, s, first, at, n, len, r) && r.At?
      ensures r.page == first + at
    {
    }

    lemma IsFilled(h: Heap)
      requires HeapOk(h)
      ensures Filled(h)
    {
    }

    /** The memory holds n new pages at p; the heap does not know of them yet. */
    ghost predicate Added(p: nat, n: nat, m: Mem)
      reads this, mem, mem.kernelPool.bits, mem.userPool.bits, v.bits
    {
      && mem.Valid() && v.Valid() && v.bits != mem.kernelPool.bits && v.bits != mem.userPool.bits
      && BelowKernel(s, first, v.View()) && Mapped(mem.Value(), s, first, v.View())
      && Sound(base) && Mapped(base, s, first, baseBits) && |baseBits| == |v.View()|
      && OnItsPages(State(), base, m, s) && RangeAdded(m, s, p, p + n, mem.Value()) && HeapOk(State())
    }

    /** sys_malloc of more than 1024 bytes: whole pages. */
    method MallocLarge(size: nat) returns (r: Alloc)
      requires Valid() && size > 1024
      modifies this`arenas, this`live, mem`uses, mem.kernelPool.bits, mem.userPool.bits, v.bits
      ensures r.Addr? ==> Valid() && r.a !in old(live) && OwnPages(old(State()), State(), PagesFor(size), size, r.a)
      ensures r.Addr? ==>
        PagesTaken(s, first, old(mem.Value()), old(v.View()), old(v.Guard()), mem.Value(), v.View(), PageOf(r.a), PagesFor(size))
      ensures r == NullPtr ==> Valid() && State() == old(State())
      ensures r == NullPtr <==> (PagesFor(size) < 3840 && !Full(old(v.View())) && NoRun(old(v.View()), PagesFor(size))
        && !RunsPast(old(v.View()), old(v.Guard()), PagesFor(size)))
      ensures r == Stops <==> PagesFor(size) >= 3840 || old(StopsFor(mem.Value(), s, first, v.View(), v.Guard(), PagesFor(size)))
      ensures r.RanPast? <==> PagesFor(size) < 3840 && old(PastFor(mem.Value(), s, first, v.View(), v.Guard(), PagesFor(size)))
      ensures r.RanPast? ==> !Mapped(mem.Value(), s, first, v.View())
    {
      hide Sound, HeapOk, Filled, Mapped, OnItsPages, Bitmap.View, Full, NoRun, RangeAdded, StopsFor, PastFor, RunsPast, Bitmap.Guard,
        PagesTaken;
      var pageCnt := (size + HEADER + PAGE_SIZE - 1) / PAGE_SIZE;
      if !(pageCnt > 0 && pageCnt < 3840) {
        return Stops;
      }
      ghost var h, m := State(), mem.Value();
      var got := GetPages(pageCnt);
      match got
      case Halted => r := Stops;
      case Null => r := NullPtr;
      case Past(p) =>
        arenas := arenas[p := Arena(-1, pageCnt)];
        r := RanPast(p * PAGE_SIZE + HEADER);
        live := live[r.a := size];
      case At(p) =>
        NewLargeOk(h, p, pageCnt, size);
        arenas := arenas[p := Arena(-1, pageCnt)];
        r := Addr(p * PAGE_SIZE + HEADER);
        live := live[r.a := size];
        assert State() == NewLarge(h, p, pageCnt, size);
        InPage(r.a, p, HEADER);
        PagesGrow(h, State(), base, m, s, p, Arena(-1, pageCnt), mem.Value());
    }

    /** sys_malloc, a new page cut into blocks for an empty free list. */
    method CutPage(k: nat) returns (got: Got)
      requires Valid() && k < CLASSES && free[k] == []
      modifies this`arenas, this`free, mem`uses, mem.kernelPool.bits, mem.userPool.bits, v.bits
      ensures got == Null <==> !Full(old(v.View())) && NoRun(old(v.View()), 1)
      ensures got == Halted <==> StopsFor(old(mem.Value()), s, first, old(v.View()), old(v.Guard()), 1)
      ensures !got.Past?
      ensures got == Null ==> Valid() && State() == old(State())
      ensures got.At? ==> |free| == CLASSES && State() == NewSmall(old(State()), got.page, k)
      ensures got.At? ==> OnMemory() && Filled(State()) && got.page !in old(arenas)
      ensures got.At? ==> forall q :: q in arenas && q != got.page ==> Kept(State(), q)
      ensures got.At? ==> free[k] != [] && PageOf(free[k][0]) == got.page
      ensures got.At? ==>
        PagesTaken(s, first, old(mem.Value()), old(v.View()), old(v.Guard()), mem.Value(), v.View(), got.page, 1)
    {
      hide Sound, Filled, Mapped, OnItsPages, Bitmap.View, Full, NoRun, RangeAdded, Kept, Block, BlocksPer, StopsFor,
        Bitmap.Guard, PagesTaken;
      ghost var h, m := State(), mem.Value();
      IsFilled(h);
      SevenLists(h);
      got := GetPages(1);
      if !got.At? { return; }
      var p := got.page;
      NewSmallOk(h, p, k);
      arenas := arenas[p := Arena(k, BlocksPer(k))];
      var i := 0;
      while i < BlocksPer(k)
        invariant i <= BlocksPer(k) && |free| == CLASSES && free == h.free[k := AllBlocks(p, k)[..i]]
        invariant arenas == h.arenas[p := Arena(k, BlocksPer(k))] && live == h.live
        modifies this`free
      {
        var b := Block(p, k, i);
        NotYetOnList(p, k, i);
        assert b !in free[k];
        free := free[k := free[k] + [b]];
        i := i + 1;
      }
      assert AllBlocks(p, k)[..BlocksPer(k)] == AllBlocks(p, k);
      assert State() == NewSmall(h, p, k);
      PagesGrow(h, State(), base, m, s, p, Arena(k, BlocksPer(k)), mem.Value());
      SomeBlocks(p, k);
    }

    lemma SevenLists(h: Heap)
      requires Filled(h)
      ensures |h.free| == CLASSES
    {
    }

    lemma NotYetOnList(p: nat, k: nat, i: nat)
      requires k < CLASSES && i < BlocksPer(k)
      ensures Block(p, k, i) !in AllBlocks(p, k)[..i] && AllBlocks(p, k)[..i + 1] == AllBlocks(p, k)[..i] + [Block(p, k, i)]
    {
      forall j | 0 <= j < i ensures Block(p, k, j) != Block(p, k, i) {
        BlocksApart(p, k, j, i);
      }
    }

    lemma SomeBlocks(p: nat, k: nat)
      requires k < CLASSES
      ensures AllBlocks(p, k) != [] && PageOf(AllBlocks(p, k)[0]) == p
    {
      BlockInPage(p, k, 0);
    }

    /** sys_malloc, the taking of a block from a list that is not empty. */
    method TakeBlock(k: nat, size: nat) returns (a: nat)
      requires OnMemory() && Filled(State()) && k < CLASSES && |free| == CLASSES && free[k] != [] && 1 <= size <= BlockSize(k)
      requires forall q :: q in arenas && q != PageOf(free[k][0]) ==> Kept(State(), q)
      modifies this`arenas, this`free, this`live
      ensures Valid() && a !in old(live) && FromList(old(State()), State(), k, size, a)
    {
      hide Sound, Filled, Mapped, OnItsPages, Bitmap.View, Kept;
      ghost var h := State();
      FirstOk(h, k);
      TakeFirstOk(h, k, size);
      var b := free[k][0];
      free := free[k := free[k][1..]];
      var p := PageOf(b);
      arenas := arenas[p := arenas[p].(cnt := arenas[p].cnt - 1)];
      live := live[b := size];
      a := b;
      assert State() == TakeFirst(h, k, size);
      SameArenaPages(h, State(), base, mem.Value(), s);
    }

    /** mfree_page of the pages of an arena. */
    method ReturnPages(p: nat, n: nat, ghost h: Heap)
      requires OnMemory() && Filled(h) && h.arenas.Keys == arenas.Keys && p in arenas && n == HeapSpec.Pages(h.arenas[p])
      requires OnItsPages(h, base, mem.Value(), s)
      modifies mem`uses, mem.kernelPool.bits, mem.userPool.bits, v.bits
      ensures mem.Valid() && BelowKernel(s, first, v.View()) && Mapped(mem.Value(), s, first, v.View()) && |v.View()| == |old(v.View())|
      ensures RangeRemoved(old(mem.Value()), s, p, p + n, mem.Value())
      ensures PagesReturned(s, first, old(mem.Value()), old(v.View()), mem.Value(), v.View(), p, n)
    {
      hide Sound, Filled, Mapped, OnItsPages, Bitmap.View, RangeRemoved;
      PagesPositive(h);
      forall q | p <= q < p + n ensures Page(s, q) in mem.uses {
        assert HeapPage(h, q);
        PagePresent(h, base, mem.Value(), s, q);
      }
      mem.MfreePage(s, v, first, p, n);
    }

    /** sys_free, a page all of whose blocks are free: they leave the list and the page goes back.
        Each of them is on the list, so the ASSERT never fails. */
    method DropPage(p: nat, k: nat)
      requires OnMemory() && Filled(State()) && InClass(State(), p, k) && arenas[p].cnt == BlocksPer(k)
      requires forall q :: q in arenas && q != p ==> Kept(State(), q)
      modifies this`arenas, this`free, mem`uses, mem.kernelPool.bits, mem.userPool.bits, v.bits
      ensures Valid() && |old(free)| == CLASSES
      ensures State() == Heap(old(arenas) - {p}, old(free)[k := Beside(old(free)[k], p)], old(live))
      ensures PagesReturned(s, first, old(mem.Value()), old(v.View()), mem.Value(), v.View(), p, 1)
    {
      hide Sound, Filled, Mapped, OnItsPages, Bitmap.View, RangeRemoved, Kept, Block, BlocksPer, IsBlock, IndexOf, PageOf, NoDup, Dropped,
        PagesReturned, Beside;
      ghost var h, m := State(), mem.Value();
      SevenLists(h);
      AllOnList(h, p);
      NothingOff(h, p, k);
      var i := 0;
      while i < BlocksPer(k)
        invariant i <= BlocksPer(k) && |free| == CLASSES && free == h.free[k := free[k]]
        invariant OffList(h, p, k, i, free[k]) && Beside(free[k], p) == Beside(h.free[k], p)
        modifies this`free
      {
        var b := Block(p, k, i);
        OneOff(h, p, k, i, free[k]);
        BlockInPage(p, k, i);
        BesideOff(free[k], p, b);
        assert b in free[k];
        free := free[k := Lists.Without(free[k], b)];
        i := i + 1;
      }
      SameArenaPages(h, State(), base, m, s);
      ReturnPages(p, 1, h);
      arenas := arenas - {p};
      AllOff(h, p, k, free[k], State());
      NoneLeft(h, p, k, State());
      BesideAll(free[k], p);
      DropOk(h, p, k, State());
      PagesPositive(h);
      FilledApart(h);
      PagesShrink(h, State(), base, m, s, p, mem.Value());
    }

    lemma NoneLeft(h: Heap, p: nat, k: nat, h': Heap)
      requires Dropped(h, p, k, h')
      ensures forall b :: b in h'.free[k] ==> PageOf(b) != p
    {
    }

    /** sys_free of a large block. */
    method FreeWhole(ptr: nat, p: nat)
      requires Valid() && ptr in live && p == PageOf(ptr) && p in arenas && arenas[p].desc == -1
      modifies this`arenas, this`live, mem`uses, mem.kernelPool.bits, mem.userPool.bits, v.bits
      ensures Valid() && State() == Heap(old(arenas) - {p}, old(free), old(live) - {ptr})
      ensures PagesReturned(s, first, old(mem.Value()), old(v.View()), mem.Value(), v.View(), p, old(arenas)[p].cnt)
    {
      hide Sound, Filled, HeapOk, Mapped, OnItsPages, Bitmap.View, RangeRemoved, PageOf, PagesReturned;
      ghost var h, m := State(), mem.Value();
      IsFilled(h);
      FreeLargeOk(h, ptr);
      ReturnPages(p, arenas[p].cnt, h);
      PagesPositive(h);
      FilledApart(h);
      arenas := arenas - {p};
      live := live - {ptr};
      assert State() == FreeLarge(h, ptr);
      PagesShrink(h, State(), base, m, s, p, mem.Value());
    }

    lemma FilledApart(h: Heap)
      requires Filled(h)
      ensures ArenasApart(h)
    {
    }

    /** sys_free of a live block. A large one goes with its pages. A small one goes to the end of its list
        and its page stays, unless it was the page's last live block. */
    method SysFree(ptr: nat)
      requires Valid() && ptr in live
      modifies this`arenas, this`free, this`live, mem`uses, mem.kernelPool.bits, mem.userPool.bits, v.bits
      ensures Valid() && live == old(live) - {ptr} && PageOf(ptr) in old(arenas)
      ensures old(arenas)[PageOf(ptr)].desc == -1 ==>
        arenas == old(arenas) - {PageOf(ptr)} && free == old(free)
        && PagesReturned(s, first, old(mem.Value()), old(v.View()), mem.Value(), v.View(), PageOf(ptr), old(arenas)[PageOf(ptr)].cnt)
      ensures old(arenas)[PageOf(ptr)].desc != -1 && old(OthersLive(State(), ptr)) ==>
        ToList(old(State()), State(), ptr) && mem.Value() == old(mem.Value()) && v.View() == old(v.View())
      ensures old(arenas)[PageOf(ptr)].desc != -1 && !old(OthersLive(State(), ptr)) ==>
        LastOfPage(old(State()), State(), ptr)
        && PagesReturned(s, first, old(mem.Value()), old(v.View()), mem.Value(), v.View(), PageOf(ptr), 1)
    {
      hide Sound, Mapped, OnItsPages, Bitmap.View, Kept, PageOf, IsBlock, BlocksPer, Filled, Block, OthersLive, PagesReturned, Beside;
      ghost var h := State();
      IsFilled(h);
      SevenLists(h);
      LiveAboveFirst(h, ptr);
      assert ptr >= first * PAGE_SIZE;
      LiveHasArena(h, ptr);
      var p := PageOf(ptr);
      if arenas[p].desc == -1 {
        FreeWhole(ptr, p);
      } else {
        SmallLive(h, ptr);
        PutBackOk(h, ptr);
        var k := arenas[p].desc;
        LastLive(h, ptr, k);
        free := free[k := free[k] + [ptr]];
        arenas := arenas[p := arenas[p].(cnt := arenas[p].cnt + 1)];
        live := live - {ptr};
        assert State() == PutBack(h, ptr);
        SameArenaPages(h, State(), base, mem.Value(), s);
        if arenas[p].cnt == BlocksPer(k) {
          NotBeside(h.free[k], ptr, p);
          DropPage(p, k);
        } else {
          NotFull(State(), p, k);
        }
      }
    }

    lemma NotFull(h: Heap, p: nat, k: nat)
      requires Filled(h) && InClass(h, p, k) && h.arenas[p].cnt != BlocksPer(k)
      ensures Kept(h, p)
    {
      hide ListOk, Covered, LiveOk, Block, BlocksPer;
      assert CountOk(h, p);
      UptoHas(BlocksPer(k));
      assert FreeIdx(h, p) <= Upto(BlocksPer(k));
      AllOf(FreeIdx(h, p), BlocksPer(k));
    }

    /** A live block of this heap is above its first page. */
    lemma LiveAboveFirst(h: Heap, b: nat)
      requires OnMemory() && h == State() && Filled(h) && b in h.live
      ensures b >= first * PAGE_SIZE
    {
      hide Sound, Filled, Bitmap.View;
      LiveHasArena(h, b);
      PagesPositive(h);
      assert HeapPage(h, PageOf(b));
      PagePresent(h, base, mem.Value(), s, PageOf(b));
    }

    /** A request of this size needs pages that malloc_page cannot give without stopping. */
    ghost predicate NoPagesFor(size: nat)
      requires mem.Valid() && v.Valid() && |free| == CLASSES
      reads this, mem, mem.kernelPool.bits, mem.userPool.bits, v.bits
    {
      if size > 1024 then PagesFor(size) >= 3840 || StopsFor(mem.Value(), s, first, v.View(), v.Guard(), PagesFor(size))
      else free[ClassOf(size)] == [] && StopsFor(mem.Value(), s, first, v.View(), v.Guard(), 1)
    }

    /** sys_malloc. A block it returns is new, and by the invariant large enough, disjoint from
        every other live block and clear of every header. A large request for which nothing fits comes back
        with a run past the bitmap exactly when its tail and the bit past it are clear and the frames
        are there; in a user space that bit is always clear (process.c:80-87), but the ASSERT on the
        kernel's page stops the machine. */
    method SysMalloc(size: nat) returns (r: Alloc)
      requires Valid()
      modifies this`arenas, this`free, this`live, mem`uses, mem.kernelPool.bits, mem.userPool.bits, v.bits
      ensures |old(free)| == CLASSES
      ensures r.Addr? ==> Valid() && r.a !in old(live) && live == old(live)[r.a := size]
      ensures r.Addr? && size > 1024 ==>
        OwnPages(old(State()), State(), PagesFor(size), size, r.a)
        && PagesTaken(s, first, old(mem.Value()), old(v.View()), old(v.Guard()), mem.Value(), v.View(), PageOf(r.a), PagesFor(size))
      ensures r.Addr? && size <= 1024 && old(free)[ClassOf(size)] != [] ==>
        FromList(old(State()), State(), ClassOf(size), size, r.a) && mem.Value() == old(mem.Value()) && v.View() == old(v.View())
      ensures r.Addr? && size <= 1024 && old(free)[ClassOf(size)] == [] ==>
        FromPage(old(State()), State(), ClassOf(size), size, r.a)
        && PagesTaken(s, first, old(mem.Value()), old(v.View()), old(v.Guard()), mem.Value(), v.View(), PageOf(r.a), 1)
      ensures r == NullPtr ==> Valid() && State() == old(State())
      ensures r == NullPtr <==> (size == 0 || size >= poolSize
        || (size > 1024 && PagesFor(size) < 3840 && !Full(old(v.View())) && NoRun(old(v.View()), PagesFor(size))
            && !RunsPast(old(v.View()), old(v.Guard()), PagesFor(size))))
      ensures r.RanPast? <==> (1024 < size < poolSize && PagesFor(size) < 3840
        && old(PastFor(mem.Value(), s, first, v.View(), v.Guard(), PagesFor(size))))
      ensures r.RanPast? ==> !Mapped(mem.Value(), s, first, v.View())
      ensures r == Stops <==> 0 < size < poolSize && old(NoPagesFor(size))
    {
      hide Sound, Filled, Mapped, OnItsPages, Bitmap.View, Bitmap.Guard, Full, NoRun, Kept, NewSmall, StopsFor, PastFor, RunsPast, PagesTaken;
      IsFilled(State());
      SevenLists(State());
      OneFits(v.View());
      if !(size > 0 && size < poolSize) {
        return NullPtr;
      }
      if size > 1024 {
        r := MallocLarge(size);
        return;
      }
      r := MallocSmall(size);
    }

    /** sys_malloc of at most 1024 bytes: the least class that fits; its list gives the block, after a
        new page has been cut for it if it was empty. */
    method MallocSmall(size: nat) returns (r: Alloc)
      requires Valid() && 0 < size <= 1024 && |free| == CLASSES
      modifies this`arenas, this`free, this`live, mem`uses, mem.kernelPool.bits, mem.userPool.bits, v.bits
      ensures r.Addr? || r == Stops
      ensures r.Addr? ==> Valid() && r.a !in old(live)
      ensures r.Addr? && old(free)[ClassOf(size)] != [] ==>
        FromList(old(State()), State(), ClassOf(size), size, r.a) && mem.Value() == old(mem.Value()) && v.View() == old(v.View())
      ensures r.Addr? && old(free)[ClassOf(size)] == [] ==>
        FromPage(old(State()), State(), ClassOf(size), size, r.a)
        && PagesTaken(s, first, old(mem.Value()), old(v.View()), old(v.Guard()), mem.Value(), v.View(), PageOf(r.a), 1)
      ensures r == Stops <==> old(free)[ClassOf(size)] == [] && old(StopsFor(mem.Value(), s, first, v.View(), v.Guard(), 1))
    {
      hide Sound, Filled, Mapped, OnItsPages, Bitmap.View, Bitmap.Guard, Full, NoRun, Kept, NewSmall, StopsFor, PagesTaken,
        FromPage;
      ghost var h := State();
      IsFilled(h);
      OneFits(v.View());
      var k := 0;
      while k < CLASSES && size > BlockSize(k)
        invariant k <= ClassOf(size)
      {
        k := k + 1;
      }
      var cut := free[k] == [];
      ghost var page: nat := 0;
      if cut {
        var got := CutPage(k);
        match got
        case Halted => return Stops;
        case Null => assert false;
        case Past(_) => assert false;
        case At(p) => page := p;
      }
      ghost var h1 := State();
      var a := TakeBlock(k, size);
      if cut { CutThenTaken(h, h1, State(), page, k, size, a); }
      r := Addr(a);
    }

    lemma CutThenTaken(h: Heap, h1: Heap, h2: Heap, p: nat, k: nat, size: nat, a: nat)
      requires |h.free| == CLASSES && k < CLASSES && h.free[k] == [] && p !in h.arenas && h1 == NewSmall(h, p, k)
      requires FromList(h1, h2, k, size, a) && p == PageOf(a)
      ensures FromPage(h, h2, k, size, a)
    {
      assert a == Block(p, k, 0);
      forall i | 0 <= i < |h2.free[k]| ensures h2.free[k][i] == a + (i + 1) * BlockSize(k) {
        assert h2.free[k][i] == AllBlocks(p, k)[i + 1] == Block(p, k, i + 1);
      }
    }
  }

  /** Another live block is in the same page. */
  ghost predicate OthersLive(h: Heap, b: nat) {
    exists c :: c in h.live && c != b && PageOf(c) == PageOf(b)
  }

  /** The count in the header tells whether the block is the page's last live one. */
  lemma LastLive(h: Heap, b: nat, k: nat)
    requires Filled(h) && b in h.live && InClass(h, PageOf(b), k)
    ensures h.arenas[PageOf(b)].cnt + 1 == BlocksPer(k) <==> !OthersLive(h, b)
  {
    hide Filled, Block, BlocksPer, IsBlock, IndexOf, PageOf, FreeIdx;
    var p := PageOf(b);
    LiveIsBlock(h, b, k);
    var i := IndexOf(b, k);
    FreeIdxIs(h, p, k);
    var free := FreeIdx(h, p);
    UptoHas(BlocksPer(k));
    assert free <= Upto(BlocksPer(k)) - {i};
    AllButOne(free, BlocksPer(k), i);
    if OthersLive(h, b) {
      var c :| c in h.live && c != b && PageOf(c) == p;
      LiveIsBlock(h, c, k);
      assert IndexOf(c, k) in Upto(BlocksPer(k)) - {i} && IndexOf(c, k) !in free;
    } else {
      forall j: nat | j < BlocksPer(k) && j != i ensures j in free {
        BlockInPage(p, k, j);
        PageCovered(h, p, k, j);
      }
      assert free == Upto(BlocksPer(k)) - {i};
    }
  }

  lemma LiveIsBlock(h: Heap, b: nat, k: nat)
    requires Filled(h) && b in h.live && InClass(h, PageOf(b), k)
    ensures |h.free| == CLASSES && 0 <= IndexOf(b, k) < BlocksPer(k) && Block(PageOf(b), k, IndexOf(b, k)) == b && b !in h.free[k]
  {
    hide ListOk, CountOk, Covered;
    assert LiveOk(h, b);
    IndexInRange(b, k);
  }

  lemma FreeIdxIs(h: Heap, p: nat, k: nat)
    requires Filled(h) && InClass(h, p, k)
    ensures |h.free| == CLASSES && h.arenas[p].cnt == |FreeIdx(h, p)|
    ensures forall i: nat :: i in FreeIdx(h, p) <==> i < BlocksPer(k) && Block(p, k, i) in h.free[k]
  {
    hide ListOk, Covered, LiveOk, Block, BlocksPer;
    assert CountOk(h, p);
  }

  lemma PageCovered(h: Heap, p: nat, k: nat, i: nat)
    requires Filled(h) && InClass(h, p, k) && i < BlocksPer(k)
    ensures |h.free| == CLASSES && (Block(p, k, i) in h.free[k] || Block(p, k, i) in h.live)
  {
    hide ListOk, CountOk, LiveOk, Block, BlocksPer;
    assert Covered(h, p);
  }

  lemma AllButOne(s: set<nat>, n: nat, i: nat)
    requires i < n && s <= Upto(n) - {i}
    ensures |s| + 1 == n <==> s == Upto(n) - {i}
  {
    hide Upto;
    UptoSize(n);
    UptoHas(n);
    SubsetSize(s, Upto(n) - {i});
    assert Upto(n) == Upto(n) - {i} + {i};
  }

  lemma {:induction false} NotBeside(l: seq<nat>, b: nat, p: nat)
    requires PageOf(b) == p
    ensures Beside(l + [b], p) == Beside(l, p)
  {
    if l == [] {
      assert [b][1..] == [];
    } else {
      assert (l + [b])[1..] == l[1..] + [b];
      NotBeside(l[1..], b, p);
    }
  }

  /** The least class whose blocks are large enough. */
  function ClassOf(size: nat): (k: nat)
    ensures k < CLASSES && (size <= 1024 ==> size <= BlockSize(k))
    ensures forall j: nat :: j < k ==> BlockSize(j) < size
  {
    if size <= 16 then 0 else if size <= 32 then 1 else if size <= 64 then 2 else if size <= 128 then 3
    else if size <= 256 then 4 else if size <= 512 then 5 else 6
  }

  /** In a bitmap that is not full a single page always fits. */
  lemma OneFits(bits: seq<bool>)
    ensures !Full(bits) ==> !NoRun(bits, 1)
  {
    if !Full(bits) {
      var i :| 0 <= i < |bits| && !bits[i];
      assert FreeRun(bits, i, 1);
    }
  }

  /** No fewer pages hold a large block and its header. */
  lemma PagesForLeast(size: nat)
    ensures size + HEADER <= PagesFor(size) * PAGE_SIZE < size + HEADER + PAGE_SIZE
  {
  }

  /** The whole pages that a large request takes. */
  function PagesFor(size: nat): nat {
    (size + HEADER + PAGE_SIZE - 1) / PAGE_SIZE
  }

  /** List l is list k of h without the first n blocks of page p. */
  ghost predicate OffList(h: Heap, p: nat, k: nat, n: nat, l: seq<nat>)
    requires |h.free| == CLASSES && k < CLASSES
  {
    NoDup(l) && forall b :: b in l <==> b in h.free[k] && !(PageOf(b) == p && IndexOf(b, k) < n)
  }

  lemma NothingOff(h: Heap, p: nat, k: nat)
    requires Filled(h) && k < CLASSES
    ensures OffList(h, p, k, 0, h.free[k])
  {
    hide CountOk, Covered, LiveOk, BlockSize;
    assert ListOk(h, k);
    forall b | b in h.free[k] ensures IndexOf(b, k) >= 0 {
      IndexInRange(b, k);
    }
  }

  lemma OneOff(h: Heap, p: nat, k: nat, i: nat, l: seq<nat>)
    requires Filled(h) && k < CLASSES && i < BlocksPer(k) && OffList(h, p, k, i, l) && Block(p, k, i) in h.free[k]
    ensures Block(p, k, i) in l && OffList(h, p, k, i + 1, Lists.Without(l, Block(p, k, i)))
  {
    hide Filled, Block, BlocksPer, IndexOf, PageOf;
    Seven(h);
    var b := Block(p, k, i);
    BlockInPage(p, k, i);
    WithoutOk(l, b);
    ListIs(h, k);
    forall c ensures c in Lists.Without(l, b) <==> c in h.free[k] && !(PageOf(c) == p && IndexOf(c, k) < i + 1) {
      if c in h.free[k] && PageOf(c) == p && IndexOf(c, k) == i {
        IndexInRange(c, k);
      }
    }
  }

  lemma ListIs(h: Heap, k: nat)
    requires Filled(h) && k < CLASSES
    ensures forall b :: b in h.free[k] ==> IsBlock(b, k) && InClass(h, PageOf(b), k)
  {
    hide CountOk, Covered, LiveOk;
    assert ListOk(h, k);
  }

  lemma AllOff(h: Heap, p: nat, k: nat, l: seq<nat>, h': Heap)
    requires Filled(h) && k < CLASSES && OffList(h, p, k, BlocksPer(k), l)
    requires h'.arenas == h.arenas - {p} && h'.live == h.live && h'.free == h.free[k := l]
    ensures Dropped(h, p, k, h')
  {
    hide Filled, BlocksPer, BlockSize;
    ListIs(h, k);
    Seven(h);
  }

  lemma Seven(h: Heap)
    requires Filled(h)
    ensures |h.free| == CLASSES
  {
  }
}
