/** The page allocator: malloc_page and mfree_page over the frame pools, the virtual bitmaps and the page
    tables (memory.c). */
module PageAlloc {
  import opened Bitmaps
  import opened Paging

  type Bytes4k = seq<int>

  /** The result of an allocation: a page, a run of pages whose last one lies past the virtual bitmap,
      NULL, or a failed ASSERT of a bitmap search. */
  datatype Got = At(page: nat) | Past(page: nat) | Null | Halted

  class Memory {
    const kfirst: nat
    const ufirst: nat
    const kernelPool: Bitmap
    const userPool: Bitmap
    var uses: map<Use, nat>
    var data: map<nat, Bytes4k>
    var active: nat

    constructor (kfirst: nat, kernelPool: Bitmap, ufirst: nat, userPool: Bitmap)
      requires kernelPool.Valid() && userPool.Valid() && kernelPool.bits != userPool.bits
      requires 258 <= kfirst && kfirst + 8 * kernelPool.bytesLen <= ufirst
      requires (forall b :: 0 <= b < |kernelPool.View()| ==> !kernelPool.View()[b])
      requires (forall b :: 0 <= b < |userPool.View()| ==> !userPool.View()[b])
      ensures Valid() && uses == map[] && this.kernelPool == kernelPool && this.userPool == userPool
    {
      this.kfirst, this.ufirst, this.kernelPool, this.userPool := kfirst, ufirst, kernelPool, userPool;
      uses, data, active := map[], map[], KERNEL;
    }

    ghost function Value(): Mem
      requires kernelPool.Valid() && userPool.Valid()
      reads this, kernelPool.bits, userPool.bits
    {
      Mem(kfirst, kernelPool.View(), ufirst, userPool.View(), uses)
    }

    ghost predicate Valid()
      reads this, kernelPool.bits, userPool.bits
    {
      kernelPool.Valid() && userPool.Valid() && kernelPool.bits != userPool.bits && Sound(Value())
    }

    function PoolOf(kernel: bool): Bitmap {
      if kernel then kernelPool else userPool
    }

    /** The number of the first frame of a pool. */
    function FirstFrame(kernel: bool): nat {
      if kernel then kfirst else ufirst
    }

    /** palloc: the first free frame of a pool. */
    method Palloc(kernel: bool) returns (halted: bool, f: nat)
      requires kernelPool.Valid() && userPool.Valid() && kernelPool.bits != userPool.bits
      modifies PoolOf(kernel).bits
      ensures !halted ==> InPool(old(Value()), kernel, f) && !Taken(old(Value()), kernel, f)
      ensures !halted ==> FirstFit(old(PoolOf(kernel).View()), 1, f - FirstFrame(kernel))
      ensures !halted ==> Value() == Mark(old(Value()), kernel, f, true)
      ensures halted <==> Free(old(Value()), kernel) == 0
      ensures halted ==> Value() == old(Value())
      ensures !halted ==> Free(Value(), kernel) == Free(old(Value()), kernel) - 1
      ensures !halted ==> Free(Value(), !kernel) == Free(old(Value()), !kernel)
    {
      hide Bitmap.View, FreeCount;
      ghost var m := Value();
      NoneFree(PoolOf(kernel).View());
      var pool := PoolOf(kernel);
      var b;
      halted, b := pool.Scan(1);
      f := 0;
      if halted { return; }
      assert !pool.View()[b];
      pool.Set(b, true);
      f := b + FirstFrame(kernel);
      MarkCounts(m, kernel, f);
    }

    /** palloc and page_table_add: page p of space s gets a frame, and a table when its directory
        entry has none. The page was not present, so the ASSERTs there never fail. */
    method AddPage(s: nat, p: nat) returns (halted: bool)
      requires Valid() && Page(s, p) !in uses
      modifies this`uses, kernelPool.bits, userPool.bits
      ensures halted <==> OutOfFrames(old(Value()), s, p)
      ensures !halted ==> Valid() && Paging.PageAdded(old(Value()), s, p, Value())
      ensures !halted ==> Charged(old(Value()), s, p, Value())
      ensures !halted ==> FirstFit(old(PoolOf(s == KERNEL).View()), 1, uses[Page(s, p)] - FirstFrame(s == KERNEL))
      ensures !halted && s != KERNEL && Table(s, p / ENTRIES) !in old(uses) ==>
        FirstFit(old(kernelPool.View()), 1, uses[Table(s, p / ENTRIES)] - kfirst)
      ensures halted ==> Free(Value(), false) == 0 || Free(Value(), true) == 0
    {
      hide Sound, Bitmap.View, Taken, Mark, InPool, FreeCount, FirstFit;
      ghost var m := Value();
      var f, t;
      halted, f := Palloc(s == KERNEL);
      if halted { return; }
      if s == KERNEL || Table(s, p / ENTRIES) in uses {
        assert Page(s, p) !in uses;
        PageStep(m, s, p, f);
        uses := uses[Page(s, p) := f];
      } else {
        OtherPool(m, s, f);
        halted, t := Palloc(true);
        if halted { return; }
        TableStep(m, s, p, f, t, Value());
        uses := uses[Table(s, p / ENTRIES) := t];
        assert Page(s, p) !in uses;
        uses := uses[Page(s, p) := f];
      }
    }

    /** malloc_page: the first fit in the virtual bitmap of the space, then a frame for each page. The
        search also looks at the bit past the end, whatever memory holds there, so the run may end
        past the bitmap. In a user space that page is the first of the kernel, which is mapped
        (loader.asm:262-280), and the ASSERT on it stops the machine; so does an address that reaches
        the last page below the kernel. */
    method MallocPage(s: nat, v: Bitmap, first: nat, cnt: nat) returns (r: Got, ghost at: nat)
      requires Valid() && v.Valid() && v.bits != kernelPool.bits && v.bits != userPool.bits
      requires 0 < cnt < 3840 && Mapped(Value(), s, first, v.View()) && BelowKernel(s, first, v.View())
      modifies this`uses, kernelPool.bits, userPool.bits, v.bits
      ensures r == Null <==>
        !Full(old(v.View())) && NoRun(old(v.View()), cnt) && !RunsPast(old(v.View()), old(v.Guard()), cnt)
      ensures r == Null ==> Valid() && v.View() == old(v.View()) && v.Guard() == old(v.Guard()) && Value() == old(Value())
      ensures Full(old(v.View())) ==> r == Halted
      ensures !Full(old(v.View())) && r != Null ==>
        FirstFit(Searched(old(v.View()), old(v.Guard()), cnt), cnt, at)
        && Allocated(old(Value()), s, first, at, cnt, |old(v.View())|, r)
      ensures r.At? ==> Valid() && Mapped(Value(), s, first, v.View()) && v.Guard() == old(v.Guard())
      ensures r.At? ==> at + cnt <= |old(v.View())| && v.View() == SetRun(old(v.View()), at, cnt, true)
      ensures r.At? ==> RangeAdded(old(Value()), s, r.page, r.page + cnt, Value())
      ensures r.Past? ==> Valid() && RunsPast(old(v.View()), old(v.Guard()), cnt) && at == |old(v.View())| - (cnt - 1)
      ensures r.Past? ==> v.View() == SetRun(old(v.View()), at, cnt - 1, true) && v.Guard()
      ensures r.Past? ==> RangeAdded(old(Value()), s, r.page, r.page + cnt, Value()) && !Mapped(Value(), s, first, v.View())
    {
      hide Sound, Bitmap.View, Bitmap.Guard, FreeCount, Mapped, SetRun, FitAnswer, FirstFit, Full, PageAdded, RangeAdded, Charged,
        TablesFor, OutOfFrames, NewTables, Allocated, NoRun, FreeRun, RunsPast, Searched;
      ghost var m, bits, guard := Value(), v.View(), v.Guard();
      at := 0;
      var halted, b := v.Scan(cnt);
      if halted { return Halted, at; }
      RunFound(bits, guard, cnt, b);
      if b == -1 { return Null, at; }
      at := b;
      v.SetAll(b, cnt, true);
      var start := first + b;
      if s != KERNEL && !(start < 0xc_0000 - 1) {
        AllocLimit(m, s, first, b, cnt, |bits|);
        return Halted, at;
      }
      var k := 0;
      NothingAdded(m, s, start);
      while k < cnt
        invariant k <= cnt && Valid()
        invariant RangeAdded(m, s, start, start + k, Value()) && TablesFor(m, s, start, start + k, Value())
        invariant Spent(m, s, start, start + k, Value())
        invariant s != KERNEL ==> start + k <= 0xc_0000
        modifies this`uses, kernelPool.bits, userPool.bits
      {
        ghost var m1 := Value();
        if s != KERNEL && start + k >= 0xc_0000 {
          AllocLimit(m, s, first, b, cnt, |bits|);
          return Halted, at;
        }
        PageFree(m, s, first, bits, guard, b, cnt, k, m1);
        halted := AddPage(s, start + k);
        if halted {
          NotEnough(m, s, first, b, cnt, k, m1, |bits|);
          return Halted, at;
        }
        AddedOne(m, s, start, k, m1, Value());
        k := k + 1;
      }
      if b + cnt <= |v.View()| {
        AllAdded(m, bits, s, first, b, cnt, Value());
      } else {
        PastAdded(m, bits, s, first, b, cnt, Value());
      }
      r := if start + cnt <= first + 8 * v.bytesLen then At(start) else Past(start);
    }

    /** pfree: the pool a frame goes back to is told by its address. */
    method Pfree(f: nat)
      requires kernelPool.Valid() && userPool.Valid() && kernelPool.bits != userPool.bits
      requires if f >= ufirst then InPool(Value(), false, f) else InPool(Value(), true, f)
      modifies kernelPool.bits, userPool.bits
      ensures Value() == Mark(old(Value()), f < ufirst, f, false)
    {
      hide Bitmap.View;
      if f >= ufirst {
        userPool.Set(f - ufirst, false);
      } else {
        kernelPool.Set(f - kfirst, false);
      }
    }

    /** pfree and page_table_pte_remove of one page. */
    method RemovePage(s: nat, p: nat)
      requires Valid() && Page(s, p) in uses
      modifies this`uses, kernelPool.bits, userPool.bits
      ensures Valid() && RangeRemoved(old(Value()), s, p, p + 1, Value())
    {
      hide Sound, Bitmap.View;
      ghost var m, u := Value(), Page(s, p);
      RightPool(m, u);
      UseEnds(m, u);
      Pfree(uses[Page(s, p)]);
      uses := uses - {Page(s, p)};
      assert Value() == Without(m, u);
    }

    /** mfree_page. All frames of the range come from the pool of its space, so its ASSERTs never
        fail. */
    method MfreePage(s: nat, v: Bitmap, first: nat, p: nat, cnt: nat)
      requires Valid() && v.Valid() && v.bits != kernelPool.bits && v.bits != userPool.bits
      requires cnt >= 1 && Mapped(Value(), s, first, v.View()) && forall q :: p <= q < p + cnt ==> Page(s, q) in uses
      modifies this`uses, kernelPool.bits, userPool.bits, v.bits
      ensures Valid() && RangeRemoved(old(Value()), s, p, p + cnt, Value())
      ensures first <= p && p + cnt <= first + |old(v.View())|
      ensures v.View() == SetRun(old(v.View()), p - first, cnt, false) && Mapped(Value(), s, first, v.View())
      ensures v.Guard() == old(v.Guard())
    {
      hide Sound, Bitmap.View, Mapped, RangeRemoved, SetRun;
      ghost var m, bits := Value(), v.View();
      RangeInBitmap(m, s, first, bits, p, cnt);
      RightPool(m, Page(s, p));
      assert uses[Page(s, p)] >= 258;
      NothingRemoved(m, s, p);
      FreeRange(s, p, cnt, uses[Page(s, p)] >= ufirst, m);
      v.SetAll(p - first, cnt, false);
      RangeUnmapped(m, s, first, bits, p, cnt, Value());
    }

    /** The loop of mfree_page, for either pool with its ASSERT. */
    method FreeRange(s: nat, p: nat, cnt: nat, user: bool, ghost m: Mem)
      requires (user <==> s != KERNEL) && Valid() && m == Value() && forall q :: p <= q < p + cnt ==> Page(s, q) in uses
      modifies this`uses, kernelPool.bits, userPool.bits
      ensures Valid() && RangeRemoved(m, s, p, p + cnt, Value())
    {
      hide Sound, Bitmap.View, RangeRemoved;
      NothingRemoved(m, s, p);
      var k := 0;
      while k < cnt
        invariant k <= cnt && Valid() && RangeRemoved(m, s, p, p + k, Value())
      {
        ghost var m1 := Value();
        StillThere(m, s, p, k, cnt, m1);
        RightPool(m1, Page(s, p + k));
        assert if user then uses[Page(s, p + k)] >= ufirst else kfirst <= uses[Page(s, p + k)] < ufirst;
        RemovePage(s, p + k);
        RemovedOne(m, s, p, k, m1, Value());
        k := k + 1;
      }
    }
  }

  /** Adding page p of space s needs a frame that its pool does not have. */
  ghost predicate OutOfFrames(m: Mem, s: nat, p: nat) {
    Free(m, s == KERNEL) == 0 || (!HasTable(m, s, p / ENTRIES) && Free(m, true) == 0)
  }

  /** One frame came from the pool of s, and one from the kernel's when a table was missing. */
  ghost predicate Charged(m: Mem, s: nat, p: nat, m': Mem) {
    var table := if HasTable(m, s, p / ENTRIES) then 0 else 1;
    && Free(m', true) == Free(m, true) - table - (if s == KERNEL then 1 else 0)
    && Free(m', false) == Free(m, false) - (if s == KERNEL then 0 else 1)
  }

  lemma PageStep(m: Mem, s: nat, p: nat, f: nat)
    requires Sound(m) && Page(s, p) !in m.uses && HasTable(m, s, p / ENTRIES)
    requires InPool(m, s == KERNEL, f) && !Taken(m, s == KERNEL, f)
    ensures var m' := Mark(m, s == KERNEL, f, true).(uses := m.uses[Page(s, p) := f]);
      Sound(m') && Paging.PageAdded(m, s, p, m')
  {
    hide Sound, Taken;
    UseAdded(m, Page(s, p), f);
  }

  /** Taking a user frame leaves the kernel pool as it was. */
  lemma OtherPool(m: Mem, s: nat, f: nat)
    requires s != KERNEL && InPool(m, false, f)
    ensures Mark(m, false, f, true).kbits == m.kbits && Mark(m, false, f, true).uses == m.uses
  {
  }

  lemma TableStep(m: Mem, s: nat, p: nat, f: nat, t: nat, m2: Mem)
    requires Sound(m) && Page(s, p) !in m.uses && s != KERNEL && !HasTable(m, s, p / ENTRIES)
    requires InPool(m, false, f) && !Taken(m, false, f)
    requires var m1 := Mark(m, false, f, true); InPool(m1, true, t) && !Taken(m1, true, t) && m2 == Mark(m1, true, t, true)
    ensures Table(s, p / ENTRIES) !in m.uses
    ensures var m' := m2.(uses := m.uses[Table(s, p / ENTRIES) := t][Page(s, p) := f]);
      Sound(m') && Paging.PageAdded(m, s, p, m')
  {
    hide Sound;
    var u := Table(s, p / ENTRIES);
    UseAdded(m, u, t);
    UseAdded(With(m, u, t), Page(s, p), f);
    assert m2.(uses := m.uses[u := t][Page(s, p) := f]) == With(With(m, u, t), Page(s, p), f);
  }

  /** No cnt consecutive bits are clear. */
  ghost predicate NoRun(v: seq<bool>, cnt: nat) {
    forall t :: !FreeRun(v, t, cnt)
  }

  /** The virtual pages of a user space end where the kernel's begin (process.c:80-87). */
  ghost predicate BelowKernel(s: nat, first: nat, v: seq<bool>) {
    s != KERNEL ==> first + |v| <= 0xc_0000
  }

  /** What the search for cnt bits goes over. */
  ghost function Searched(v: seq<bool>, guard: bool, cnt: nat): seq<bool> {
    if cnt == 1 then v else v + [guard]
  }

  /** The search answers with a run that ends past the bitmap: nothing fits, but the last cnt - 1 bits
      and the one past them are clear. */
  ghost predicate RunsPast(v: seq<bool>, guard: bool, cnt: nat) {
    cnt > 1 && !guard && NoRun(v, cnt) && FreeRun(v, |v| - (cnt - 1), cnt - 1)
  }

  /** What malloc_page comes to when the first fit is at bit b: it stops the machine exactly when the
      run reaches the last user page or the kernel, or the frames and the tables it needs are not
      free. */
  ghost predicate Allocated(m: Mem, s: nat, first: nat, b: nat, cnt: nat, n: nat, r: Got) {
    if Unavailable(m, s, first + b, cnt) then r == Halted
    else r == if b + cnt <= n then At(first + b) else Past(first + b)
  }

  ghost predicate Unavailable(m: Mem, s: nat, lo: nat, cnt: nat) {
    (s != KERNEL && (lo >= 0xc_0000 - 1 || lo + cnt > 0xc_0000)) || Short(m, s, lo, lo + cnt)
  }

  /** malloc_page for cnt pages stops the machine. */
  ghost predicate StopsFor(m: Mem, s: nat, first: nat, v: seq<bool>, guard: bool, cnt: nat) {
    Full(v) || exists b: nat :: FirstFit(Searched(v, guard, cnt), cnt, b) && Unavailable(m, s, first + b, cnt)
  }

  /** malloc_page for cnt pages comes back with a run that ends past the bitmap. */
  ghost predicate PastFor(m: Mem, s: nat, first: nat, v: seq<bool>, guard: bool, cnt: nat) {
    !Full(v) && RunsPast(v, guard, cnt) && !Unavailable(m, s, first + |v| - (cnt - 1), cnt)
  }

  lemma StopsWhen(m: Mem, s: nat, first: nat, v: seq<bool>, guard: bool, cnt: nat, r: Got, at: nat)
    requires cnt >= 1 && (Full(v) ==> r == Halted) && (r == Null <==> !Full(v) && NoRun(v, cnt) && !RunsPast(v, guard, cnt))
    requires !Full(v) && r != Null ==>
      FirstFit(Searched(v, guard, cnt), cnt, at) && Allocated(m, s, first, at, cnt, |v|, r)
    ensures r == Halted <==> StopsFor(m, s, first, v, guard, cnt)
    ensures r.Past? <==> PastFor(m, s, first, v, guard, cnt)
  {
    hide Full, Unavailable, RunsPast, NoRun, Searched;
    if !Full(v) && StopsFor(m, s, first, v, guard, cnt) {
      var b: nat :| FirstFit(Searched(v, guard, cnt), cnt, b) && Unavailable(m, s, first + b, cnt);
      PastWhen(v, guard, cnt, b);
      if r != Null { OneFirst(Searched(v, guard, cnt), cnt, at, b); }
    }
    if !Full(v) && r != Null { PastWhen(v, guard, cnt, at); }
    if RunsPast(v, guard, cnt) { PastPlace(v, guard, cnt); }
  }

  /** In a user space, whose bitmap ends at the kernel, the machine stops instead. */
  lemma UserNeverPast(m: Mem, s: nat, first: nat, v: seq<bool>, guard: bool, cnt: nat)
    requires s != KERNEL && first + |v| == 0xc_0000 && RunsPast(v, guard, cnt)
    ensures !PastFor(m, s, first, v, guard, cnt) && StopsFor(m, s, first, v, guard, cnt)
  {
    hide NoRun, Short;
    var e, b: nat := Searched(v, guard, cnt), |v| - (cnt - 1);
    assert FreeRun(e, b, cnt);
    forall t | 0 <= t < b ensures !FreeRun(e, t, cnt) {
      NoneEarlier(v, guard, cnt, t);
    }
    assert FirstFit(e, cnt, b) && Unavailable(m, s, first + b, cnt);
  }

  lemma NoneEarlier(v: seq<bool>, guard: bool, cnt: nat, t: nat)
    requires RunsPast(v, guard, cnt) && t + cnt <= |v|
    ensures !FreeRun(Searched(v, guard, cnt), t, cnt)
  {
    WithinBoth(v, guard, cnt, t, cnt);
  }

  lemma OneFirst(v: seq<bool>, cnt: nat, a: nat, b: nat)
    requires FirstFit(v, cnt, a) && FirstFit(v, cnt, b)
    ensures a == b
  {
    hide FreeRun;
  }

  /** The run found ends past the bitmap exactly when nothing fits, and then it is the tail. */
  lemma PastWhen(v: seq<bool>, guard: bool, cnt: nat, b: nat)
    requires cnt >= 1 && FirstFit(Searched(v, guard, cnt), cnt, b)
    ensures b + cnt > |v| <==> RunsPast(v, guard, cnt)
    ensures b + cnt > |v| ==> b == |v| - (cnt - 1)
    ensures b + cnt <= |v| ==> !NoRun(v, cnt)
  {
    var e := Searched(v, guard, cnt);
    assert FreeRun(e, b, cnt);
    if b + cnt <= |v| {
      WithinBoth(v, guard, cnt, b, cnt);
    } else {
      assert !e[|v|];
      WithinBoth(v, guard, cnt, b, cnt - 1);
      forall t ensures !FreeRun(v, t, cnt) {
        if FreeRun(v, t, cnt) {
          WithinBoth(v, guard, cnt, t, cnt);
        }
      }
    }
  }

  /** Within the bitmap both runs are the same. */
  lemma WithinBoth(v: seq<bool>, guard: bool, cnt: nat, t: nat, n: nat)
    requires t + n <= |v|
    ensures FreeRun(Searched(v, guard, cnt), t, n) <==> FreeRun(v, t, n)
  {
    var e := Searched(v, guard, cnt);
    assert forall j :: 0 <= j < |v| ==> e[j] == v[j];
  }

  lemma PastPlace(v: seq<bool>, guard: bool, cnt: nat)
    requires RunsPast(v, guard, cnt)
    ensures cnt - 1 <= |v| && !NoRun(Searched(v, guard, cnt), cnt)
  {
    assert FreeRun(v + [guard], |v| - (cnt - 1), cnt);
  }

  /** Eight free kernel pages and more free frames than that: a request for nine pages, one more than
      there are, comes back with nine. */
  lemma PastWitness()
    ensures var m := Mem(258, seq(16, _ => false), 300, seq(16, _ => false), map[]);
      var v := seq(8, _ => false);
      Sound(m) && Mapped(m, KERNEL, 0xc_0100, v) && PastFor(m, KERNEL, 0xc_0100, v, false, 9)
  {
    var v := seq(8, _ => false);
    assert !v[0];
    AllFree(seq(16, _ => false));
  }

  lemma {:induction false} AllFree(v: seq<bool>)
    requires forall b :: 0 <= b < |v| ==> !v[b]
    ensures FreeCount(v) == |v|
  {
    if v != [] { AllFree(v[..|v| - 1]); }
  }

  ghost predicate Short(m: Mem, s: nat, lo: nat, hi: nat)
    requires lo <= hi
  {
    if s == KERNEL then Free(m, true) < hi - lo
    else Free(m, false) < hi - lo || Free(m, true) < NewTables(m, s, lo, hi)
  }

  /** The frames spent on a range. */
  ghost predicate Spent(m: Mem, s: nat, lo: nat, hi: nat, m': Mem)
    requires lo <= hi
  {
    if s == KERNEL then Free(m', true) == Free(m, true) - (hi - lo)
    else Free(m', false) == Free(m, false) - (hi - lo) && Free(m', true) == Free(m, true) - NewTables(m, s, lo, hi)
  }

  lemma RunFound(bits: seq<bool>, guard: bool, cnt: nat, b: int)
    requires cnt >= 1
    requires if cnt == 1 then FirstFit(bits, 1, b) else FitAnswer(bits + [guard], cnt, b)
    ensures b == -1 <==> NoRun(bits, cnt) && !RunsPast(bits, guard, cnt)
    ensures b != -1 ==> b >= 0 && b + cnt <= |bits| + 1 && FirstFit(Searched(bits, guard, cnt), cnt, b)
    ensures b != -1 ==> (b + cnt > |bits| <==> RunsPast(bits, guard, cnt))
  {
    var e := Searched(bits, guard, cnt);
    if b != -1 {
      assert FreeRun(e, b, cnt);
      PastWhen(bits, guard, cnt, b);
    } else {
      assert NoRun(e, cnt);
      forall t ensures !FreeRun(bits, t, cnt) {
        if FreeRun(bits, t, cnt) { WithinBoth(bits, guard, cnt, t, cnt); }
      }
      if RunsPast(bits, guard, cnt) { PastPlace(bits, guard, cnt); }
    }
  }

  lemma AllocLimit(m: Mem, s: nat, first: nat, b: nat, cnt: nat, n: nat)
    requires s != KERNEL && (first + b >= 0xc_0000 - 1 || first + b + cnt > 0xc_0000)
    ensures Allocated(m, s, first, b, cnt, n, Halted)
  {
  }

  lemma NothingAdded(m: Mem, s: nat, lo: nat)
    ensures RangeAdded(m, s, lo, lo, m) && TablesFor(m, s, lo, lo, m) && Spent(m, s, lo, lo, m)
  {
  }

  /** The next page of the run is not present. */
  lemma PageFree(m: Mem, s: nat, first: nat, bits: seq<bool>, guard: bool, b: nat, cnt: nat, k: nat, m1: Mem)
    requires Mapped(m, s, first, bits) && FirstFit(Searched(bits, guard, cnt), cnt, b) && k < cnt
    requires RangeAdded(m, s, first + b, first + b + k, m1)
    ensures Page(s, first + b + k) !in m1.uses
  {
    var e := Searched(bits, guard, cnt);
    assert !e[b + k];
    assert b + k < |bits| ==> !bits[b + k];
  }

  lemma AddedOne(m: Mem, s: nat, lo: nat, k: nat, m1: Mem, m2: Mem)
    requires RangeAdded(m, s, lo, lo + k, m1) && TablesFor(m, s, lo, lo + k, m1) && Spent(m, s, lo, lo + k, m1)
    requires PageAdded(m1, s, lo + k, m2) && Charged(m1, s, lo + k, m2) && Page(s, lo + k) !in m1.uses
    ensures RangeAdded(m, s, lo, lo + k + 1, m2) && TablesFor(m, s, lo, lo + k + 1, m2) && Spent(m, s, lo, lo + k + 1, m2)
  {
    hide RangeAdded, TablesFor, PageAdded, Free, NeedsTable;
    RangeGrows(m, s, lo, lo + k, m1, m2);
    TablesGrow(m, s, lo, lo + k, m1, m2);
  }

  lemma {:induction false} TablesMore(m: Mem, s: nat, lo: nat, mid: nat, hi: nat)
    requires lo <= mid <= hi
    ensures NewTables(m, s, lo, mid) <= NewTables(m, s, lo, hi)
    decreases hi - mid
  {
    if mid < hi { TablesMore(m, s, lo, mid, hi - 1); }
  }

  lemma NotEnough(m: Mem, s: nat, first: nat, b: nat, cnt: nat, k: nat, m1: Mem, n: nat)
    requires k < cnt && TablesFor(m, s, first + b, first + b + k, m1) && Spent(m, s, first + b, first + b + k, m1)
    requires OutOfFrames(m1, s, first + b + k)
    ensures Allocated(m, s, first, b, cnt, n, Halted)
  {
    hide Free, HasTable;
    var lo := first + b;
    StillNeeds(m, s, lo, lo + k, m1);
    TablesMore(m, s, lo, lo + k + 1, lo + cnt);
  }

  lemma StillNeeds(m: Mem, s: nat, lo: nat, hi: nat, m1: Mem)
    requires lo <= hi && TablesFor(m, s, lo, hi, m1)
    ensures !HasTable(m1, s, hi / ENTRIES) <==> NeedsTable(m, s, lo, hi)
    ensures s == KERNEL ==> HasTable(m1, s, hi / ENTRIES)
  {
    assert lo < hi ==> hi / ENTRIES == (hi - 1) / ENTRIES || hi / ENTRIES == (hi - 1) / ENTRIES + 1;
    assert lo / ENTRIES <= hi / ENTRIES;
  }

  lemma AllAdded(m: Mem, bits: seq<bool>, s: nat, first: nat, b: nat, cnt: nat, m': Mem)
    requires Mapped(m, s, first, bits) && b + cnt <= |bits| && RangeAdded(m, s, first + b, first + b + cnt, m')
    requires Spent(m, s, first + b, first + b + cnt, m')
    requires s == KERNEL || (first + b < 0xc_0000 - 1 && first + b + cnt <= 0xc_0000)
    ensures Mapped(m', s, first, SetRun(bits, b, cnt, true))
    ensures Allocated(m, s, first, b, cnt, |bits|, At(first + b))
  {
    hide Free;
    forall p: nat ensures Page(s, p) in m'.uses <==> Page(s, p) in m.uses || first + b <= p < first + b + cnt {
    }
  }

  /** A run whose last page lies past the bitmap. */
  lemma PastAdded(m: Mem, bits: seq<bool>, s: nat, first: nat, b: nat, cnt: nat, m': Mem)
    requires b + cnt == |bits| + 1 && cnt > 0 && RangeAdded(m, s, first + b, first + b + cnt, m')
    requires Spent(m, s, first + b, first + b + cnt, m')
    requires s == KERNEL || (first + b < 0xc_0000 - 1 && first + b + cnt <= 0xc_0000)
    ensures forall v: seq<bool> :: |v| == |bits| ==> !Mapped(m', s, first, v)
    ensures Allocated(m, s, first, b, cnt, |bits|, Past(first + b))
  {
    hide Free;
    assert Page(s, first + |bits|) in m'.uses;
    forall v: seq<bool> | |v| == |bits| ensures !Mapped(m', s, first, v) {
    }
  }

  lemma NothingRemoved(m: Mem, s: nat, p: nat)
    ensures RangeRemoved(m, s, p, p, m)
  {
  }

  lemma StillThere(m: Mem, s: nat, p: nat, k: nat, cnt: nat, m1: Mem)
    requires k < cnt && RangeRemoved(m, s, p, p + k, m1) && forall q :: p <= q < p + cnt ==> Page(s, q) in m.uses
    ensures Page(s, p + k) in m1.uses
  {
  }

  lemma RemovedOne(m: Mem, s: nat, p: nat, k: nat, m1: Mem, m2: Mem)
    requires RangeRemoved(m, s, p, p + k, m1) && RangeRemoved(m1, s, p + k, p + k + 1, m2)
    ensures RangeRemoved(m, s, p, p + k + 1, m2)
  {
  }

  lemma RangeInBitmap(m: Mem, s: nat, first: nat, bits: seq<bool>, p: nat, cnt: nat)
    requires Mapped(m, s, first, bits) && cnt >= 1 && forall q :: p <= q < p + cnt ==> Page(s, q) in m.uses
    ensures first <= p && p + cnt <= first + |bits| && Page(s, p) in m.uses
  {
    assert Page(s, p) in m.uses && Page(s, p + cnt - 1) in m.uses;
  }

  lemma RangeUnmapped(m: Mem, s: nat, first: nat, bits: seq<bool>, p: nat, cnt: nat, m': Mem)
    requires Mapped(m, s, first, bits) && first <= p && p + cnt <= first + |bits| && RangeRemoved(m, s, p, p + cnt, m')
    ensures Mapped(m', s, first, SetRun(bits, p - first, cnt, false))
  {
    forall q: nat ensures Page(s, q) in m'.uses <==> Page(s, q) in m.uses && !(p <= q < p + cnt) {
    }
  }
}
