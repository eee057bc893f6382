/** The heap of sys_malloc and sys_free (memory.c): pages cut into blocks of seven sizes, a free list
    for each size, and runs of whole pages for larger requests. Addresses are byte addresses. */
module HeapSpec {
  import opened Lists

  const PAGE_SIZE: nat := 4096
  const HEADER: nat := 12
  const CLASSES: nat := 7

  /** block_desc_init */
  function BlockSize(k: nat): (n: nat)
    requires k < CLASSES
  {
    if k == 0 then 16 else if k == 1 then 32 else if k == 2 then 64 else if k == 3 then 128
    else if k == 4 then 256 else if k == 5 then 512 else 1024
  }

  function BlocksPer(k: nat): nat
    requires k < CLASSES
  {
    (PAGE_SIZE - HEADER) / BlockSize(k)
  }

  /** struct arena: the size class, or -1 for a run of whole pages, and the number of free blocks,
      or of pages. */
  datatype Arena = Arena(desc: int, cnt: nat)

  /** The arenas by page, the free lists, and the live blocks with the sizes asked for. */
  datatype Heap = Heap(arenas: map<nat, Arena>, free: seq<seq<nat>>, live: map<nat, nat>)

  predicate Small(a: Arena) {
    a.desc != -1
  }

  function Pages(a: Arena): nat {
    if Small(a) then 1 else a.cnt
  }

  /** arena2block */
  function Block(p: nat, k: nat, i: nat): nat
    requires k < CLASSES
  {
    p * PAGE_SIZE + HEADER + i * BlockSize(k)
  }

  /** block2arena */
  function PageOf(b: nat): nat {
    b / PAGE_SIZE
  }

  function IndexOf(b: nat, k: nat): int
    requires k < CLASSES
  {
    (b % PAGE_SIZE - HEADER) / BlockSize(k)
  }

  /** b is one of the blocks of a page cut for class k. */
  predicate IsBlock(b: nat, k: nat) {
    k < CLASSES && b % PAGE_SIZE >= HEADER && IndexOf(b, k) < BlocksPer(k) && b == Block(PageOf(b), k, IndexOf(b, k))
  }

  /** Every block lies in its page, clear of the header, and its number is recovered from its
      address. */
  lemma BlockInPage(p: nat, k: nat, i: nat)
    requires k < CLASSES && i < BlocksPer(k)
    ensures p * PAGE_SIZE + HEADER <= Block(p, k, i) && Block(p, k, i) + BlockSize(k) <= (p + 1) * PAGE_SIZE
    ensures PageOf(Block(p, k, i)) == p && IndexOf(Block(p, k, i), k) == i && IsBlock(Block(p, k, i), k)
  {
    var n, b := BlockSize(k), Block(p, k, i);
    assert i * n + n == (i + 1) * n;
    assert (i + 1) * n <= BlocksPer(k) * n <= PAGE_SIZE - HEADER by { Mult(i + 1, BlocksPer(k), n); }
    assert b % PAGE_SIZE == HEADER + i * n by { InPage(b, p, HEADER + i * n); }
    assert i * n / n == i by { DivMul(i, k); }
  }

  lemma Mult(x: nat, y: nat, n: nat)
    requires x <= y
    ensures x * n <= y * n
  {
  }

  lemma InPage(b: nat, p: nat, off: nat)
    requires b == p * PAGE_SIZE + off && off < PAGE_SIZE
    ensures b % PAGE_SIZE == off && b / PAGE_SIZE == p
  {
  }

  lemma DivMul(i: nat, k: nat)
    requires k < CLASSES
    ensures i * BlockSize(k) / BlockSize(k) == i
  {
    match k
    case 0 => assert i * 16 / 16 == i;
    case 1 => assert i * 32 / 32 == i;
    case 2 => assert i * 64 / 64 == i;
    case 3 => assert i * 128 / 128 == i;
    case 4 => assert i * 256 / 256 == i;
    case 5 => assert i * 512 / 512 == i;
    case 6 => assert i * 1024 / 1024 == i;
  }

  /** Different blocks of one page do not overlap. */
  lemma BlocksApart(p: nat, k: nat, i: nat, j: nat)
    requires k < CLASSES && i < j
    ensures Block(p, k, i) + BlockSize(k) <= Block(p, k, j)
  {
    Mult(i + 1, j, BlockSize(k));
    assert (i + 1) * BlockSize(k) == i * BlockSize(k) + BlockSize(k);
  }

  // ------------------------------------------------------------------
  // The invariant
  // ------------------------------------------------------------------

  /** The numbers of the free blocks of page p. */
  ghost function FreeIdx(h: Heap, p: nat): set<nat>
    requires |h.free| == CLASSES && p in h.arenas && 0 <= h.arenas[p].desc < CLASSES
  {
    var k := h.arenas[p].desc;
    set i: nat | i < BlocksPer(k) && Block(p, k, i) in h.free[k]
  }

  ghost predicate InClass(h: Heap, p: nat, k: nat) {
    p in h.arenas && h.arenas[p].desc == k && k < CLASSES
  }

  /** A free list holds blocks of its class, each once. */
  ghost predicate ListOk(h: Heap, k: nat)
    requires |h.free| == CLASSES && k < CLASSES
  {
    NoDup(h.free[k]) && forall b :: b in h.free[k] ==> IsBlock(b, k) && InClass(h, PageOf(b), k)
  }

  /** The header counts the free blocks, or the pages. */
  ghost predicate CountOk(h: Heap, p: nat)
    requires |h.free| == CLASSES && p in h.arenas
  {
    var a := h.arenas[p];
    if Small(a) then 0 <= a.desc < CLASSES && a.cnt == |FreeIdx(h, p)| else a.cnt >= 1
  }

  /** A live block is of a size that fits, in an arena, and on no free list. */
  ghost predicate LiveOk(h: Heap, b: nat)
    requires |h.free| == CLASSES && b in h.live
  {
    PageOf(b) in h.arenas && var a := h.arenas[PageOf(b)];
    if Small(a) then
      0 <= a.desc < CLASSES && IsBlock(b, a.desc) && b !in h.free[a.desc] && 1 <= h.live[b] <= BlockSize(a.desc)
    else b == PageOf(b) * PAGE_SIZE + HEADER && 1024 < h.live[b] && h.live[b] + HEADER <= a.cnt * PAGE_SIZE
  }

  /** Every block is free or live. */
  ghost predicate Covered(h: Heap, p: nat)
    requires |h.free| == CLASSES && p in h.arenas
  {
    var a := h.arenas[p];
    if Small(a) then
      0 <= a.desc < CLASSES && forall i: nat :: i < BlocksPer(a.desc) ==>
        Block(p, a.desc, i) in h.free[a.desc] || Block(p, a.desc, i) in h.live
    else p * PAGE_SIZE + HEADER in h.live
  }

  /** The pages of different arenas do not overlap. */
  ghost predicate ArenasApart(h: Heap) {
    forall p, q :: p in h.arenas && q in h.arenas && p < q ==> p + Pages(h.arenas[p]) <= q
  }

  /** All but: not every block of a small arena is free. */
  ghost predicate Filled(h: Heap) {
    && |h.free| == CLASSES
    && (forall k :: 0 <= k < CLASSES ==> ListOk(h, k))
    && (forall p :: p in h.arenas ==> CountOk(h, p) && Covered(h, p))
    && (forall b :: b in h.live ==> LiveOk(h, b))
    && ArenasApart(h)
  }

  /** Page p is not kept for nothing. */
  ghost predicate Kept(h: Heap, p: nat)
    requires p in h.arenas
  {
    0 <= h.arenas[p].desc < CLASSES ==> h.arenas[p].cnt < BlocksPer(h.arenas[p].desc)
  }

  ghost predicate HeapOk(h: Heap) {
    Filled(h) && forall p :: p in h.arenas ==> Kept(h, p)
  }

  const EMPTY: Heap := Heap(map[], [[], [], [], [], [], [], []], map[])

  lemma EmptyOk()
    ensures HeapOk(EMPTY)
  {
  }

  // ------------------------------------------------------------------
  // What the invariant promises
  // ------------------------------------------------------------------

  /** Live blocks do not overlap. */
  lemma LiveApart(h: Heap, b: nat, c: nat)
    requires Filled(h) && b in h.live && c in h.live && b < c
    ensures b + h.live[b] <= c
  {
    hide ListOk, CountOk, Covered;
    var p: nat, q: nat := PageOf(b), PageOf(c);
    assert LiveOk(h, b) && LiveOk(h, c);
    LiveInPages(h, b);
    if p == q {
      if Small(h.arenas[p]) {
        var k := h.arenas[p].desc;
        if IndexOf(b, k) < IndexOf(c, k) {
          BlocksApart(p, k, IndexOf(b, k), IndexOf(c, k));
        }
      }
    } else {
      assert p < q;
      assert (p + Pages(h.arenas[p])) * PAGE_SIZE <= q * PAGE_SIZE;
    }
  }

  /** A live block lies within the pages of its arena, after the header. */
  lemma LiveInPages(h: Heap, b: nat)
    requires |h.free| == CLASSES && b in h.live && LiveOk(h, b)
    ensures var p := PageOf(b);
      p * PAGE_SIZE + HEADER <= b && b + h.live[b] <= (p + Pages(h.arenas[p])) * PAGE_SIZE
  {
    var p := PageOf(b);
    var a := h.arenas[p];
    if Small(a) {
      BlockInPage(p, a.desc, IndexOf(b, a.desc));
    }
  }

  /** No live block touches the header of any arena. */
  lemma LiveClearOfHeaders(h: Heap, b: nat, q: nat)
    requires Filled(h) && b in h.live && q in h.arenas
    ensures b + h.live[b] <= q * PAGE_SIZE || q * PAGE_SIZE + HEADER <= b
  {
    hide ListOk, CountOk, Covered, LiveOk;
    LiveInPages(h, b);
    LiveHasArena(h, b);
    var p := PageOf(b);
    if p < q {
      assert (p + Pages(h.arenas[p])) * PAGE_SIZE <= q * PAGE_SIZE;
    } else if q < p {
      assert q + 1 <= p;
    }
  }

  lemma LiveHasArena(h: Heap, b: nat)
    requires Filled(h) && b in h.live
    ensures PageOf(b) in h.arenas
  {
    assert LiveOk(h, b);
  }

  /** Once everything is freed nothing is left: no arena, and every free list empty. */
  lemma NothingLeft(h: Heap)
    requires HeapOk(h) && h.live == map[]
    ensures h.arenas == map[] && forall k :: 0 <= k < CLASSES ==> h.free[k] == []
  {
    hide ListOk, ArenasApart;
    if p :| p in h.arenas {
      assert CountOk(h, p) && Covered(h, p) && Kept(h, p);
      var a := h.arenas[p];
      assert Small(a);
      assert FreeIdx(h, p) == Upto(BlocksPer(a.desc));
      UptoSize(BlocksPer(a.desc));
      assert false;
    }
    forall k | 0 <= k < CLASSES ensures h.free[k] == [] {
      if h.free[k] != [] { NoArenaNoBlock(h, k); }
    }
  }

  lemma NoArenaNoBlock(h: Heap, k: nat)
    requires Filled(h) && h.arenas == map[] && k < CLASSES
    ensures h.free[k] == []
  {
    assert ListOk(h, k);
    FirstMember(h.free[k]);
  }

  lemma FirstMember(s: seq<nat>)
    ensures s != [] ==> s[0] in s
  {
  }

  function Upto(n: nat): (s: set<nat>)
    ensures forall i: nat :: i in s <==> i < n
  {
    if n == 0 then {} else Upto(n - 1) + {n - 1}
  }

  lemma {:induction false} UptoSize(n: nat)
    ensures |Upto(n)| == n
  {
    if n > 0 {
      UptoSize(n - 1);
    }
  }

  /** A set of block numbers of full size is all of them. */
  lemma AllOf(s: set<nat>, n: nat)
    requires s <= Upto(n)
    ensures |s| <= n && (|s| == n ==> s == Upto(n))
  {
    hide Upto;
    UptoSize(n);
    SubsetSize(s, Upto(n));
  }

  lemma {:induction false} SubsetSize(s: set<nat>, t: set<nat>)
    requires s <= t
    ensures |s| <= |t| && (|s| == |t| ==> s == t)
  {
    if x :| x in s {
      SubsetSize(s - {x}, t - {x});
      assert s == s - {x} + {x} && t == t - {x} + {x};
    } else if x :| x in t {
      assert |t| >= 1;
    }
  }

  // ------------------------------------------------------------------
  // sys_malloc
  // ------------------------------------------------------------------

  /** Pages p, ..., p + n - 1 belong to no arena. */
  ghost predicate PagesFree(h: Heap, p: nat, n: nat) {
    forall q :: q in h.arenas ==> q + Pages(h.arenas[q]) <= p || p + n <= q
  }

  function AllBlocks(p: nat, k: nat): (s: seq<nat>)
    requires k < CLASSES
    ensures |s| == BlocksPer(k) && forall i :: 0 <= i < |s| ==> s[i] == Block(p, k, i)
  {
    seq(BlocksPer(k), i requires 0 <= i < BlocksPer(k) => Block(p, k, i))
  }

  /** A new page cut into blocks, all of them free. */
  function NewSmall(h: Heap, p: nat, k: nat): Heap
    requires |h.free| == CLASSES && k < CLASSES
  {
    h.(arenas := h.arenas[p := Arena(k, BlocksPer(k))], free := h.free[k := AllBlocks(p, k)])
  }

  lemma NewSmallOk(h: Heap, p: nat, k: nat)
    requires HeapOk(h) && k < CLASSES && h.free[k] == [] && PagesFree(h, p, 1)
    ensures Filled(NewSmall(h, p, k)) && p !in h.arenas
    ensures forall b :: b in NewSmall(h, p, k).free[k] ==> PageOf(b) == p
    ensures forall q :: q in h.arenas ==> Kept(NewSmall(h, p, k), q)
  {
    hide ListOk, CountOk, Covered, LiveOk, Kept, ArenasApart;
    var h' := NewSmall(h, p, k);
    PagesPositive(h);
    NewArenaApart(h, p, Arena(k, BlocksPer(k)), h');
    NewList(h, p, k);
    forall j | 0 <= j < CLASSES ensures ListOk(h', j) {
      if j != k { OtherList(h, p, k, j); }
    }
    forall q | q in h'.arenas ensures CountOk(h', q) && Covered(h', q) && (q != p ==> Kept(h', q)) {
      if q == p { NewCount(h, p, k); } else { OtherArena(h, p, k, q); }
    }
    forall b | b in h'.live ensures LiveOk(h', b) {
      assert LiveOk(h, b);
      LiveElsewhere(h, p, k, b);
    }
  }

  lemma PagesPositive(h: Heap)
    requires Filled(h)
    ensures forall q :: q in h.arenas ==> Pages(h.arenas[q]) >= 1
  {
    hide Covered, LiveOk, ListOk;
    forall q | q in h.arenas ensures Pages(h.arenas[q]) >= 1 {
      assert CountOk(h, q);
    }
  }

  lemma NewArenaApart(h: Heap, p: nat, a: Arena, h': Heap)
    requires ArenasApart(h) && PagesFree(h, p, Pages(a)) && Pages(a) >= 1 && h'.arenas == h.arenas[p := a]
    requires forall q :: q in h.arenas ==> Pages(h.arenas[q]) >= 1
    ensures ArenasApart(h') && p !in h.arenas
  {
  }

  lemma NewList(h: Heap, p: nat, k: nat)
    requires |h.free| == CLASSES && k < CLASSES
    ensures ListOk(NewSmall(h, p, k), k)
    ensures forall b :: b in NewSmall(h, p, k).free[k] ==> PageOf(b) == p
  {
    var s := AllBlocks(p, k);
    forall b | b in s ensures IsBlock(b, k) && PageOf(b) == p {
      var i :| 0 <= i < |s| && s[i] == b;
      BlockInPage(p, k, i);
    }
    forall i, j | 0 <= i < j < |s| ensures s[i] != s[j] {
      BlocksApart(p, k, i, j);
    }
  }

  lemma OtherList(h: Heap, p: nat, k: nat, j: nat)
    requires |h.free| == CLASSES && k < CLASSES && j < CLASSES && j != k && p !in h.arenas && ListOk(h, j)
    ensures ListOk(NewSmall(h, p, k), j)
  {
  }

  lemma NewCount(h: Heap, p: nat, k: nat)
    requires |h.free| == CLASSES && k < CLASSES
    ensures CountOk(NewSmall(h, p, k), p) && Covered(NewSmall(h, p, k), p)
  {
    var h' := NewSmall(h, p, k);
    forall i: nat | i < BlocksPer(k) ensures Block(p, k, i) in h'.free[k] {
      assert AllBlocks(p, k)[i] == Block(p, k, i);
    }
    assert FreeIdx(h', p) == Upto(BlocksPer(k));
    UptoSize(BlocksPer(k));
  }

  lemma OtherArena(h: Heap, p: nat, k: nat, q: nat)
    requires |h.free| == CLASSES && k < CLASSES && q in h.arenas && p !in h.arenas && CountOk(h, q) && Covered(h, q) && Kept(h, q)
    requires h.free[k] == []
    ensures CountOk(NewSmall(h, p, k), q) && Covered(NewSmall(h, p, k), q) && Kept(NewSmall(h, p, k), q)
  {
    var h' := NewSmall(h, p, k);
    var a := h.arenas[q];
    if Small(a) {
      forall i: nat | i < BlocksPer(a.desc) ensures Block(q, a.desc, i) in h'.free[a.desc] <==> Block(q, a.desc, i) in h.free[a.desc] {
        BlockInPage(q, a.desc, i);
        NewList(h, p, k);
      }
      assert FreeIdx(h', q) == FreeIdx(h, q);
    }
  }

  lemma LiveElsewhere(h: Heap, p: nat, k: nat, b: nat)
    requires |h.free| == CLASSES && k < CLASSES && p !in h.arenas && b in h.live && LiveOk(h, b)
    ensures LiveOk(NewSmall(h, p, k), b)
  {
    NewList(h, p, k);
  }

  /** The first block of list k becomes live. */
  function TakeFirst(h: Heap, k: nat, size: nat): Heap
    requires |h.free| == CLASSES && k < CLASSES && h.free[k] != [] && PageOf(h.free[k][0]) in h.arenas
    requires h.arenas[PageOf(h.free[k][0])].cnt >= 1
  {
    var b := h.free[k][0];
    var a := h.arenas[PageOf(b)];
    Heap(h.arenas[PageOf(b) := a.(cnt := a.cnt - 1)], h.free[k := h.free[k][1..]], h.live[b := size])
  }

  lemma FirstOk(h: Heap, k: nat)
    requires Filled(h) && k < CLASSES && h.free[k] != []
    ensures var b := h.free[k][0];
      IsBlock(b, k) && InClass(h, PageOf(b), k) && b !in h.live && b !in h.free[k][1..]
      && h.arenas[PageOf(b)].cnt >= 1 && h.arenas[PageOf(b)].cnt <= BlocksPer(k)
  {
    hide CountOk, Covered, LiveOk;
    var b := h.free[k][0];
    assert ListOk(h, k) && b in h.free[k];
    var p := PageOf(b);
    assert b in h.live ==> LiveOk(h, b);
    CountsFirst(h, k, b);
    if b in h.live { NotBoth(h, k, b); }
  }

  lemma NotBoth(h: Heap, k: nat, b: nat)
    requires |h.free| == CLASSES && k < CLASSES && b in h.free[k] && InClass(h, PageOf(b), k)
    ensures b in h.live ==> !LiveOk(h, b)
  {
  }

  lemma CountsFirst(h: Heap, k: nat, b: nat)
    requires Filled(h) && k < CLASSES && b in h.free[k] && IsBlock(b, k) && InClass(h, PageOf(b), k)
    ensures 1 <= h.arenas[PageOf(b)].cnt <= BlocksPer(k)
  {
    hide Covered, LiveOk, ListOk;
    var p := PageOf(b);
    assert CountOk(h, p);
    assert IndexOf(b, k) in FreeIdx(h, p);
    AllOf(FreeIdx(h, p), BlocksPer(k));
    assert FreeIdx(h, p) != {};
  }

  lemma TakeFirstOk(h: Heap, k: nat, size: nat)
    requires Filled(h) && k < CLASSES && h.free[k] != [] && 1 <= size <= BlockSize(k)
    ensures PageOf(h.free[k][0]) in h.arenas && h.arenas[PageOf(h.free[k][0])].cnt >= 1
    ensures Filled(TakeFirst(h, k, size)) && Kept(TakeFirst(h, k, size), PageOf(h.free[k][0]))
    ensures forall q :: q in h.arenas && q != PageOf(h.free[k][0]) && Kept(h, q) ==> Kept(TakeFirst(h, k, size), q)
  {
    hide ListOk, CountOk, Covered, LiveOk;
    FirstOk(h, k);
    var h', b := TakeFirst(h, k, size), h.free[k][0];
    forall j | 0 <= j < CLASSES ensures ListOk(h', j) {
      ShorterList(h, k, size, j);
    }
    forall q | q in h'.arenas ensures CountOk(h', q) && Covered(h', q) {
      TakenArena(h, k, size, q);
    }
    forall c | c in h'.live ensures LiveOk(h', c) {
      TakenLive(h, k, size, c);
    }
  }

  lemma ShorterList(h: Heap, k: nat, size: nat, j: nat)
    requires Filled(h) && k < CLASSES && h.free[k] != [] && PageOf(h.free[k][0]) in h.arenas
    requires h.arenas[PageOf(h.free[k][0])].cnt >= 1 && j < CLASSES
    ensures ListOk(TakeFirst(h, k, size), j)
  {
    hide CountOk, Covered, LiveOk;
    assert ListOk(h, j);
    assert forall b :: b in h.free[k][1..] ==> b in h.free[k];
  }

  lemma TakenArena(h: Heap, k: nat, size: nat, q: nat)
    requires Filled(h) && k < CLASSES && h.free[k] != [] && q in h.arenas
    requires var b := h.free[k][0]; IsBlock(b, k) && InClass(h, PageOf(b), k) && b !in h.free[k][1..] && h.arenas[PageOf(b)].cnt >= 1
    ensures CountOk(TakeFirst(h, k, size), q) && Covered(TakeFirst(h, k, size), q)
  {
    hide ListOk, LiveOk, Block, BlockSize, BlocksPer, IsBlock, IndexOf, PageOf;
    assert CountOk(h, q) && Covered(h, q);
    var h', b, a := TakeFirst(h, k, size), h.free[k][0], h.arenas[q];
    if Small(a) {
      StillFree(h.free[k], b);
      if a.desc == k {
        TakenIdx(h, k, size, q);
      } else {
        assert h'.free[a.desc] == h.free[a.desc];
        assert FreeIdx(h', q) == FreeIdx(h, q);
      }
    }
  }

  lemma StillFree(list: seq<nat>, b: nat)
    requires list != [] && list[0] == b
    ensures forall c :: c in list <==> c == b || c in list[1..]
  {
    assert list == [b] + list[1..];
  }

  /** The free numbers of a page of class k when the first block of list k goes. */
  lemma TakenIdx(h: Heap, k: nat, size: nat, q: nat)
    requires |h.free| == CLASSES && k < CLASSES && h.free[k] != [] && InClass(h, q, k)
    requires var b := h.free[k][0]; IsBlock(b, k) && InClass(h, PageOf(b), k) && b !in h.free[k][1..] && h.arenas[PageOf(b)].cnt >= 1
    ensures var b, h' := h.free[k][0], TakeFirst(h, k, size);
      InClass(h', q, k) && |FreeIdx(h, q)| == |FreeIdx(h', q)| + if q == PageOf(b) then 1 else 0
  {
    hide BlockSize, Block, BlocksPer, IsBlock, IndexOf;
    var h', b := TakeFirst(h, k, size), h.free[k][0];
    StillFree(h.free[k], b);
    if q == PageOf(b) {
      OnlyIndex(q, k, b);
      IndexInRange(b, k);
      var i := IndexOf(b, k);
      assert FreeIdx(h, q) == FreeIdx(h', q) + {i};
      assert i !in FreeIdx(h', q);
    } else {
      NotThisPage(q, k, b);
      assert FreeIdx(h, q) == FreeIdx(h', q);
    }
  }

  lemma IndexInRange(b: nat, k: nat)
    requires IsBlock(b, k)
    ensures 0 <= IndexOf(b, k) < BlocksPer(k) && Block(PageOf(b), k, IndexOf(b, k)) == b
  {
  }

  lemma NotThisPage(q: nat, k: nat, b: nat)
    requires k < CLASSES && PageOf(b) != q
    ensures forall i: nat :: i < BlocksPer(k) ==> Block(q, k, i) != b
  {
    forall i: nat | i < BlocksPer(k) ensures Block(q, k, i) != b {
      BlockInPage(q, k, i);
    }
  }

  /** A block of a page has one number. */
  lemma OnlyIndex(q: nat, k: nat, b: nat)
    requires k < CLASSES && IsBlock(b, k) && PageOf(b) == q
    ensures forall i: nat :: i < BlocksPer(k) ==> (Block(q, k, i) == b <==> i == IndexOf(b, k))
  {
    forall i: nat | i < BlocksPer(k) ensures Block(q, k, i) == b <==> i == IndexOf(b, k) {
      BlockInPage(q, k, i);
    }
  }

  lemma TakenLive(h: Heap, k: nat, size: nat, c: nat)
    requires Filled(h) && k < CLASSES && h.free[k] != [] && 1 <= size <= BlockSize(k)
    requires var b := h.free[k][0]; IsBlock(b, k) && InClass(h, PageOf(b), k) && b !in h.free[k][1..] && h.arenas[PageOf(b)].cnt >= 1
    requires c in TakeFirst(h, k, size).live
    ensures LiveOk(TakeFirst(h, k, size), c)
  {
    hide ListOk, CountOk, Covered;
    var b := h.free[k][0];
    assert h.free[k] == [b] + h.free[k][1..];
    if c != b { assert LiveOk(h, c); }
  }

  /** A run of n whole pages for one large block. */
  function NewLarge(h: Heap, p: nat, n: nat, size: nat): Heap {
    h.(arenas := h.arenas[p := Arena(-1, n)], live := h.live[p * PAGE_SIZE + HEADER := size])
  }

  lemma NewLargeOk(h: Heap, p: nat, n: nat, size: nat)
    requires HeapOk(h) && n >= 1 && PagesFree(h, p, n) && 1024 < size && size + HEADER <= n * PAGE_SIZE
    ensures HeapOk(NewLarge(h, p, n, size)) && p !in h.arenas && p * PAGE_SIZE + HEADER !in h.live
  {
    hide ListOk, CountOk, Covered, LiveOk, ArenasApart, Kept;
    var h' := NewLarge(h, p, n, size);
    PagesPositive(h);
    NewArenaApart(h, p, Arena(-1, n), h');
    NewAddress(h, p);
    forall j | 0 <= j < CLASSES ensures ListOk(h', j) { LargeList(h, p, n, size, j); }
    forall q | q in h'.arenas ensures CountOk(h', q) && Covered(h', q) && Kept(h', q) {
      LargeArena(h, p, n, size, q);
      assert q != p ==> Kept(h, q);
      LargeKept(h, p, n, size, q);
    }
    forall b | b in h'.live ensures LiveOk(h', b) { LargeLive(h, p, n, size, b); }
  }

  lemma NewAddress(h: Heap, p: nat)
    requires Filled(h) && p !in h.arenas
    ensures p * PAGE_SIZE + HEADER !in h.live
  {
    hide ListOk, CountOk, Covered, LiveOk, ArenasApart;
    var c := p * PAGE_SIZE + HEADER;
    InPage(c, p, HEADER);
    if c in h.live { LiveHasArena(h, c); }
  }

  lemma LargeKept(h: Heap, p: nat, n: nat, size: nat, q: nat)
    requires q == p || (q in h.arenas && Kept(h, q))
    ensures Kept(NewLarge(h, p, n, size), q)
  {
  }

  lemma LargeList(h: Heap, p: nat, n: nat, size: nat, j: nat)
    requires |h.free| == CLASSES && p !in h.arenas && j < CLASSES && ListOk(h, j)
    ensures ListOk(NewLarge(h, p, n, size), j)
  {
  }

  lemma LargeArena(h: Heap, p: nat, n: nat, size: nat, q: nat)
    requires |h.free| == CLASSES && p !in h.arenas && n >= 1 && (q == p || (q in h.arenas && CountOk(h, q) && Covered(h, q)))
    ensures CountOk(NewLarge(h, p, n, size), q) && Covered(NewLarge(h, p, n, size), q)
  {
    var h' := NewLarge(h, p, n, size);
    if q != p && Small(h.arenas[q]) {
      assert FreeIdx(h', q) == FreeIdx(h, q);
    }
  }

  lemma LargeLive(h: Heap, p: nat, n: nat, size: nat, b: nat)
    requires |h.free| == CLASSES && p !in h.arenas && 1024 < size && size + HEADER <= n * PAGE_SIZE
    requires b == p * PAGE_SIZE + HEADER || (b in h.live && LiveOk(h, b))
    ensures LiveOk(NewLarge(h, p, n, size), b)
  {
    InPage(p * PAGE_SIZE + HEADER, p, HEADER);
  }

  // ------------------------------------------------------------------
  // sys_free
  // ------------------------------------------------------------------

  /** A small block goes to the end of its list. */
  function PutBack(h: Heap, b: nat): Heap
    requires |h.free| == CLASSES && PageOf(b) in h.arenas && 0 <= h.arenas[PageOf(b)].desc < CLASSES
  {
    var a := h.arenas[PageOf(b)];
    Heap(h.arenas[PageOf(b) := a.(cnt := a.cnt + 1)], h.free[a.desc := h.free[a.desc] + [b]], h.live - {b})
  }

  lemma SmallLive(h: Heap, b: nat)
    requires Filled(h) && b in h.live && PageOf(b) in h.arenas && Small(h.arenas[PageOf(b)])
    ensures var k := h.arenas[PageOf(b)].desc;
      0 <= k < CLASSES && IsBlock(b, k) && InClass(h, PageOf(b), k) && b !in h.free[k]
  {
    hide ListOk, CountOk, Covered;
    assert LiveOk(h, b);
  }

  lemma PutBackOk(h: Heap, b: nat)
    requires Filled(h) && b in h.live && PageOf(b) in h.arenas && Small(h.arenas[PageOf(b)])
    ensures 0 <= h.arenas[PageOf(b)].desc < CLASSES && Filled(PutBack(h, b))
    ensures forall q :: q in h.arenas && q != PageOf(b) && Kept(h, q) ==> Kept(PutBack(h, b), q)
  {
    hide ListOk, CountOk, Covered, LiveOk, IsBlock;
    SmallLive(h, b);
    var h' := PutBack(h, b);
    forall j | 0 <= j < CLASSES ensures ListOk(h', j) {
      LongerList(h, b, j);
    }
    forall q | q in h'.arenas ensures CountOk(h', q) && Covered(h', q) {
      ReturnedArena(h, b, q);
    }
    forall c | c in h'.live ensures LiveOk(h', c) {
      ReturnedLive(h, b, c);
    }
  }

  lemma LongerList(h: Heap, b: nat, j: nat)
    requires |h.free| == CLASSES && j < CLASSES && ListOk(h, j)
    requires PageOf(b) in h.arenas && var k := h.arenas[PageOf(b)].desc;
      0 <= k < CLASSES && IsBlock(b, k) && InClass(h, PageOf(b), k) && b !in h.free[k]
    ensures ListOk(PutBack(h, b), j)
  {
    hide IsBlock, PageOf;
    var k := h.arenas[PageOf(b)].desc;
    var l := h.free[k] + [b];
    if j == k {
      assert forall i :: 0 <= i < |l| ==> l[i] == if i < |h.free[k]| then h.free[k][i] else b;
      assert forall c :: c in l <==> c in h.free[k] || c == b;
    }
  }

  lemma ReturnedArena(h: Heap, b: nat, q: nat)
    requires |h.free| == CLASSES && q in h.arenas && CountOk(h, q) && Covered(h, q)
    requires PageOf(b) in h.arenas && var k := h.arenas[PageOf(b)].desc;
      0 <= k < CLASSES && IsBlock(b, k) && InClass(h, PageOf(b), k) && b !in h.free[k]
    ensures CountOk(PutBack(h, b), q) && Covered(PutBack(h, b), q)
  {
    hide Block, BlockSize, BlocksPer, IsBlock, IndexOf, PageOf;
    var h', a, k := PutBack(h, b), h.arenas[q], h.arenas[PageOf(b)].desc;
    if Small(a) {
      assert forall c :: c in h'.free[k] <==> c in h.free[k] || c == b;
      if a.desc == k {
        ReturnedIdx(h, b, q);
      } else {
        assert h'.free[a.desc] == h.free[a.desc];
        assert FreeIdx(h', q) == FreeIdx(h, q);
        OtherClass(q, a.desc, b, k);
      }
    } else {
      HeaderNoBlock(q, b, k);
    }
  }

  lemma OtherClass(q: nat, j: nat, b: nat, k: nat)
    requires j < CLASSES && IsBlock(b, k) && PageOf(b) != q
    ensures forall i: nat :: i < BlocksPer(j) ==> Block(q, j, i) != b
  {
    NotThisPage(q, j, b);
  }

  lemma HeaderNoBlock(q: nat, b: nat, k: nat)
    requires PageOf(b) != q
    ensures q * PAGE_SIZE + HEADER != b
  {
    InPage(q * PAGE_SIZE + HEADER, q, HEADER);
  }

  lemma ReturnedIdx(h: Heap, b: nat, q: nat)
    requires |h.free| == CLASSES && PageOf(b) in h.arenas && var k := h.arenas[PageOf(b)].desc;
      0 <= k < CLASSES && IsBlock(b, k) && InClass(h, PageOf(b), k) && b !in h.free[k] && InClass(h, q, k)
    ensures var h' := PutBack(h, b);
      0 <= h'.arenas[q].desc < CLASSES && |FreeIdx(h', q)| == |FreeIdx(h, q)| + if q == PageOf(b) then 1 else 0
  {
    hide BlockSize, Block, BlocksPer, IsBlock, IndexOf, PageOf;
    var h', k := PutBack(h, b), h.arenas[PageOf(b)].desc;
    assert forall c :: c in h'.free[k] <==> c in h.free[k] || c == b;
    if q == PageOf(b) {
      OnlyIndex(q, k, b);
      IndexInRange(b, k);
      var i := IndexOf(b, k);
      assert FreeIdx(h', q) == FreeIdx(h, q) + {i};
      assert i !in FreeIdx(h, q);
    } else {
      NotThisPage(q, k, b);
      assert FreeIdx(h', q) == FreeIdx(h, q);
    }
  }

  lemma ReturnedLive(h: Heap, b: nat, c: nat)
    requires Filled(h) && b in h.live && PageOf(b) in h.arenas && 0 <= h.arenas[PageOf(b)].desc < CLASSES
    requires c in h.live && c != b
    ensures LiveOk(PutBack(h, b), c)
  {
    hide ListOk, CountOk, Covered, IsBlock;
    assert LiveOk(h, c);
  }

  /** All blocks of page p are on its list. */
  lemma AllOnList(h: Heap, p: nat)
    requires Filled(h) && p in h.arenas && 0 <= h.arenas[p].desc < CLASSES && h.arenas[p].cnt == BlocksPer(h.arenas[p].desc)
    ensures forall i: nat :: i < BlocksPer(h.arenas[p].desc) ==> Block(p, h.arenas[p].desc, i) in h.free[h.arenas[p].desc]
    ensures forall b :: b in h.live ==> PageOf(b) != p
  {
    hide ListOk, Covered, LiveOk, ArenasApart, Block, BlocksPer, IsBlock, CountOk, FreeIdx;
    var k := h.arenas[p].desc;
    assert CountOk(h, p);
    FullPage(h, p);
    forall b | b in h.live ensures PageOf(b) != p {
      if PageOf(b) == p {
        SmallLive(h, b);
        IndexInRange(b, k);
        assert false;
      }
    }
  }

  lemma FullPage(h: Heap, p: nat)
    requires |h.free| == CLASSES && p in h.arenas && CountOk(h, p)
    requires 0 <= h.arenas[p].desc < CLASSES && h.arenas[p].cnt == BlocksPer(h.arenas[p].desc)
    ensures forall i: nat :: i < BlocksPer(h.arenas[p].desc) ==> Block(p, h.arenas[p].desc, i) in h.free[h.arenas[p].desc]
  {
    hide Block, BlocksPer, Upto;
    var k := h.arenas[p].desc;
    UptoHas(BlocksPer(k));
    assert FreeIdx(h, p) <= Upto(BlocksPer(k));
    AllOf(FreeIdx(h, p), BlocksPer(k));
    forall i: nat | i < BlocksPer(k) ensures Block(p, k, i) in h.free[k] {
      assert i in FreeIdx(h, p);
    }
  }

  lemma UptoHas(n: nat)
    ensures forall i: nat :: i in Upto(n) <==> i < n
  {
  }

  /** h' is h without page p and its blocks; the order of what stays on the list is free. */
  ghost predicate Dropped(h: Heap, p: nat, k: nat, h': Heap) {
    && |h.free| == CLASSES && k < CLASSES && h'.arenas == h.arenas - {p} && h'.live == h.live
    && |h'.free| == CLASSES && (forall j :: 0 <= j < CLASSES && j != k ==> h'.free[j] == h.free[j])
    && NoDup(h'.free[k]) && (forall b :: b in h'.free[k] <==> b in h.free[k] && PageOf(b) != p)
  }

  /** Giving up a page all of whose blocks are free. */
  lemma DropOk(h: Heap, p: nat, k: nat, h': Heap)
    requires Filled(h) && InClass(h, p, k) && h.arenas[p].cnt == BlocksPer(k) && Dropped(h, p, k, h')
    requires forall q :: q in h.arenas && q != p ==> Kept(h, q)
    ensures HeapOk(h')
  {
    AllOnList(h, p);
    hide ListOk, CountOk, Covered, LiveOk, Kept, Block, BlocksPer, Dropped;
    DropParts(h, p, k, h');
    forall j | 0 <= j < CLASSES ensures ListOk(h', j) {
      assert ListOk(h, j);
      DropList(h, p, k, h', j);
    }
    forall q | q in h'.arenas ensures CountOk(h', q) && Covered(h', q) && Kept(h', q) {
      assert CountOk(h, q) && Covered(h, q) && Kept(h, q);
      DropArena(h, p, k, h', q);
    }
    forall b | b in h'.live ensures LiveOk(h', b) {
      assert LiveOk(h, b);
      DropLive(h, p, k, h', b);
    }
  }

  lemma DropParts(h: Heap, p: nat, k: nat, h': Heap)
    requires Dropped(h, p, k, h')
    ensures h'.arenas == h.arenas - {p} && h'.live == h.live && |h'.free| == CLASSES
  {
  }

  lemma DropList(h: Heap, p: nat, k: nat, h': Heap, j: nat)
    requires Dropped(h, p, k, h') && j < CLASSES && ListOk(h, j) && InClass(h, p, k)
    ensures ListOk(h', j)
  {
    hide IsBlock;
    forall b | b in h'.free[j] ensures IsBlock(b, j) && InClass(h', PageOf(b), j) {
      assert b in h.free[j];
    }
  }

  lemma DropArena(h: Heap, p: nat, k: nat, h': Heap, q: nat)
    requires Dropped(h, p, k, h') && q in h.arenas && q != p && CountOk(h, q) && Covered(h, q) && Kept(h, q)
    ensures CountOk(h', q) && Covered(h', q) && Kept(h', q)
  {
    hide Block, BlockSize, BlocksPer, PageOf;
    var a := h.arenas[q];
    if Small(a) {
      forall i: nat | i < BlocksPer(a.desc) ensures Block(q, a.desc, i) in h'.free[a.desc] <==> Block(q, a.desc, i) in h.free[a.desc] {
        BlockInPage(q, a.desc, i);
      }
      assert FreeIdx(h', q) == FreeIdx(h, q);
    }
  }

  lemma DropLive(h: Heap, p: nat, k: nat, h': Heap, b: nat)
    requires Dropped(h, p, k, h') && b in h.live && LiveOk(h, b) && PageOf(b) != p
    ensures LiveOk(h', b)
  {
    hide IsBlock, PageOf;
  }

  /** A large block goes with its pages. */
  function FreeLarge(h: Heap, b: nat): Heap {
    h.(arenas := h.arenas - {PageOf(b)}, live := h.live - {b})
  }

  lemma FreeLargeOk(h: Heap, b: nat)
    requires HeapOk(h) && b in h.live && PageOf(b) in h.arenas && !Small(h.arenas[PageOf(b)])
    ensures b == PageOf(b) * PAGE_SIZE + HEADER && HeapOk(FreeLarge(h, b))
  {
    hide ListOk, CountOk, Covered, Kept, IsBlock, PageOf;
    var h', p := FreeLarge(h, b), PageOf(b);
    assert LiveOk(h, b);
    forall j | 0 <= j < CLASSES ensures ListOk(h', j) {
      assert ListOk(h, j);
      LargeGoneList(h, b, j);
    }
    forall q | q in h'.arenas ensures CountOk(h', q) && Covered(h', q) && Kept(h', q) {
      assert CountOk(h, q) && Covered(h, q) && Kept(h, q);
      LargeGoneArena(h, b, q);
    }
    forall c | c in h'.live ensures LiveOk(h', c) {
      assert LiveOk(h, c);
    }
  }

  lemma LargeGoneList(h: Heap, b: nat, j: nat)
    requires |h.free| == CLASSES && j < CLASSES && ListOk(h, j) && PageOf(b) in h.arenas && !Small(h.arenas[PageOf(b)])
    ensures ListOk(FreeLarge(h, b), j)
  {
    hide IsBlock, PageOf;
  }

  lemma LargeGoneArena(h: Heap, b: nat, q: nat)
    requires |h.free| == CLASSES && q in h.arenas && q != PageOf(b) && CountOk(h, q) && Covered(h, q) && Kept(h, q)
    ensures CountOk(FreeLarge(h, b), q) && Covered(FreeLarge(h, b), q) && Kept(FreeLarge(h, b), q)
  {
    hide Block, BlockSize, BlocksPer, PageOf;
    var h', a := FreeLarge(h, b), h.arenas[q];
    HeaderNoBlock(q, b, 0);
    if Small(a) {
      forall i: nat | i < BlocksPer(a.desc) ensures Block(q, a.desc, i) != b {
        BlockInPage(q, a.desc, i);
      }
      assert FreeIdx(h', q) == FreeIdx(h, q);
    }
  }
}
