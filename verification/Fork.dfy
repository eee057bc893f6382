/** Copying the user part of an address space (fork.c): every page of the parent becomes a page of
    the child in a frame of its own. */
module Fork {
  import opened Bitmaps
  import opened Paging
  import opened PageAlloc

  type Contents = map<nat, Bytes4k>

  /** What a frame holds. */
  function Held(data: Contents, f: nat): Bytes4k {
    if f in data then data[f] else []
  }

  /** The child's page i is in a frame that was free, and holds what the parent's page i held. */
  ghost predicate Copy(m0: Mem, d0: Contents, parent: nat, child: nat, p: nat, m: Mem, d: Contents) {
    && Page(parent, p) in m0.uses && Page(child, p) in m.uses
    && !Taken(m0, false, m.uses[Page(child, p)])
    && Held(d, m.uses[Page(child, p)]) == Held(d0, m0.uses[Page(parent, p)])
  }

  /** The pages of the first k bits have been copied and nothing else was touched: every page that
      was present is still there, in the same frame and with the same content. */
  ghost predicate CopiedUpTo(m0: Mem, d0: Contents, parent: nat, child: nat, first: nat, bits: seq<bool>, k: nat,
                             m: Mem, d: Contents)
    requires k <= |bits|
  {
    && (forall u :: u in m0.uses ==> u in m.uses && m.uses[u] == m0.uses[u])
    && (forall u :: u in m.uses && u !in m0.uses ==> u.s == child && (u.Page? ==> first <= u.p < first + k && bits[u.p - first]))
    && (forall i :: 0 <= i < k && bits[i] ==> Copy(m0, d0, parent, child, first + i, m, d))
    && (forall f :: Taken(m0, false, f) ==> Held(d, f) == Held(d0, f))
  }

  /** One page copied: the child got page p, and its frame got what the parent's page holds. */
  lemma CopyOne(m0: Mem, d0: Contents, parent: nat, child: nat, first: nat, bits: seq<bool>, k: nat,
                m: Mem, d: Contents, m': Mem)
    requires k < |bits| && bits[k] && parent != child && parent != KERNEL && child != KERNEL
    requires Sound(m0) && Sound(m') && Mapped(m0, parent, first, bits)
    requires CopiedUpTo(m0, d0, parent, child, first, bits, k, m, d) && PageAdded(m, child, first + k, m')
    requires forall p: nat :: Page(child, p) !in m0.uses
    ensures Page(parent, first + k) in m.uses && Page(child, first + k) in m'.uses && Page(child, first + k) !in m.uses
    ensures var d' := d[m'.uses[Page(child, first + k)] := Held(d, m.uses[Page(parent, first + k)])];
      CopiedUpTo(m0, d0, parent, child, first, bits, k + 1, m', d')
  {
    hide Taken, Sound, Mapped;
    var p, f := first + k, m'.uses[Page(child, first + k)];
    ParentHas(m0, parent, first, bits, k);
    var d' := d[f := Held(d, m.uses[Page(parent, p)])];
    assert Page(child, p) !in m.uses;
    NewFrame(m0, m', Page(child, p));
    assert Taken(m0, false, m0.uses[Page(parent, p)]) by { PageTaken(m0, parent, p); }
    assert Held(d, m.uses[Page(parent, p)]) == Held(d0, m0.uses[Page(parent, p)]);
    forall i | 0 <= i < k + 1 && bits[i] ensures Copy(m0, d0, parent, child, first + i, m', d') {
      if i < k {
        assert Copy(m0, d0, parent, child, first + i, m, d);
        OtherFrame(m', child, first + i, p);
      }
    }
  }

  lemma ParentHas(m0: Mem, parent: nat, first: nat, bits: seq<bool>, k: nat)
    requires k < |bits| && bits[k] && Mapped(m0, parent, first, bits)
    ensures Page(parent, first + k) in m0.uses
  {
  }

  lemma PageTaken(m0: Mem, parent: nat, p: nat)
    requires Sound(m0) && Page(parent, p) in m0.uses && parent != KERNEL
    ensures Taken(m0, false, m0.uses[Page(parent, p)])
  {
    assert Taken(m0, ForKernel(Page(parent, p)), m0.uses[Page(parent, p)]);
  }

  /** A use that is new has a frame that was free. */
  lemma NewFrame(m0: Mem, m': Mem, u: Use)
    requires Sound(m0) && Sound(m') && u in m'.uses && u !in m0.uses
    requires forall w :: w in m0.uses ==> w in m'.uses && m'.uses[w] == m0.uses[w]
    ensures !Taken(m0, false, m'.uses[u])
  {
    hide Taken;
  }

  lemma OtherFrame(m': Mem, child: nat, p: nat, q: nat)
    requires Sound(m') && p != q && Page(child, p) in m'.uses && Page(child, q) in m'.uses
    ensures m'.uses[Page(child, p)] != m'.uses[Page(child, q)]
  {
    hide Taken;
  }

  lemma SkipOne(m0: Mem, d0: Contents, parent: nat, child: nat, first: nat, bits: seq<bool>, k: nat, m: Mem, d: Contents)
    requires k < |bits| && !bits[k] && CopiedUpTo(m0, d0, parent, child, first, bits, k, m, d)
    ensures CopiedUpTo(m0, d0, parent, child, first, bits, k + 1, m, d)
  {
    hide Taken, Copy;
  }

  lemma NothingCopied(m0: Mem, d0: Contents, parent: nat, child: nat, first: nat, bits: seq<bool>)
    ensures CopiedUpTo(m0, d0, parent, child, first, bits, 0, m0, d0)
  {
  }

  /** At the end the child has exactly the parent's pages. */
  lemma ChildMapped(m0: Mem, d0: Contents, parent: nat, child: nat, first: nat, bits: seq<bool>, m: Mem, d: Contents)
    requires CopiedUpTo(m0, d0, parent, child, first, bits, |bits|, m, d) && Mapped(m0, parent, first, bits)
    requires forall p: nat :: Page(child, p) !in m0.uses
    ensures Mapped(m, child, first, bits) && (parent != child ==> Mapped(m, parent, first, bits))
  {
    hide Taken;
    forall p: nat ensures Page(child, p) in m.uses <==> first <= p < first + |bits| && bits[p - first] {
      if first <= p < first + |bits| && bits[p - first] {
        assert Copy(m0, d0, parent, child, first + (p - first), m, d);
      }
    }
  }

  // ------------------------------------------------------------------
  // The frames a copy takes
  // ------------------------------------------------------------------

  /** The pages among the first k bits. */
  ghost function PagesIn(bits: seq<bool>, k: nat): nat
    requires k <= |bits|
  {
    if k == 0 then 0 else PagesIn(bits, k - 1) + if bits[k - 1] then 1 else 0
  }

  /** The page of bit j is the first one that needs its table. */
  ghost predicate FirstInTable(m0: Mem, child: nat, first: nat, bits: seq<bool>, j: nat)
    requires j < |bits|
  {
    && bits[j] && !HasTable(m0, child, (first + j) / ENTRIES)
    && forall i :: 0 <= i < j && bits[i] ==> (first + i) / ENTRIES != (first + j) / ENTRIES
  }

  /** The tables that the pages among the first k bits are missing. */
  ghost function TablesIn(m0: Mem, child: nat, first: nat, bits: seq<bool>, k: nat): nat
    requires k <= |bits|
  {
    if k == 0 then 0
    else TablesIn(m0, child, first, bits, k - 1) + if FirstInTable(m0, child, first, bits, k - 1) then 1 else 0
  }

  /** There are not enough user frames for the pages, or not enough kernel frames for the tables. */
  ghost predicate CannotCopy(m0: Mem, child: nat, first: nat, bits: seq<bool>) {
    Free(m0, false) < PagesIn(bits, |bits|) || Free(m0, true) < TablesIn(m0, child, first, bits, |bits|)
  }

  /** The child's tables, and the frames taken, once the first k bits are done. */
  ghost predicate Paid(m0: Mem, child: nat, first: nat, bits: seq<bool>, k: nat, m: Mem)
    requires k <= |bits|
  {
    && Free(m, false) == Free(m0, false) - PagesIn(bits, k)
    && Free(m, true) == Free(m0, true) - TablesIn(m0, child, first, bits, k)
    && forall d: nat :: HasTable(m, child, d) <==> HasTable(m0, child, d) || UsesTable(first, bits, k, d)
  }

  ghost predicate UsesTable(first: nat, bits: seq<bool>, k: nat, d: nat)
    requires k <= |bits|
  {
    exists i :: 0 <= i < k && bits[i] && (first + i) / ENTRIES == d
  }

  lemma PaidStep(m0: Mem, child: nat, first: nat, bits: seq<bool>, k: nat, m: Mem, m': Mem)
    requires k < |bits| && bits[k] && child != KERNEL && Paid(m0, child, first, bits, k, m)
    requires PageAdded(m, child, first + k, m') && Charged(m, child, first + k, m')
    ensures Paid(m0, child, first, bits, k + 1, m')
  {
    hide Free;
    var e := (first + k) / ENTRIES;
    assert HasTable(m, child, e) <==> !FirstInTable(m0, child, first, bits, k);
    forall d: nat ensures HasTable(m', child, d) <==> HasTable(m0, child, d) || UsesTable(first, bits, k + 1, d) {
      assert HasTable(m', child, d) <==> HasTable(m, child, d) || d == e;
      assert UsesTable(first, bits, k + 1, d) <==> UsesTable(first, bits, k, d) || d == e;
    }
  }

  lemma PaidSkip(m0: Mem, child: nat, first: nat, bits: seq<bool>, k: nat, m: Mem)
    requires k < |bits| && !bits[k] && Paid(m0, child, first, bits, k, m)
    ensures Paid(m0, child, first, bits, k + 1, m)
  {
    hide Free, HasTable;
    forall d: nat ensures UsesTable(first, bits, k + 1, d) <==> UsesTable(first, bits, k, d) {
    }
  }

  lemma CannotPay(m0: Mem, child: nat, first: nat, bits: seq<bool>, k: nat, m: Mem)
    requires k < |bits| && bits[k] && child != KERNEL && Paid(m0, child, first, bits, k, m)
    requires OutOfFrames(m, child, first + k)
    ensures CannotCopy(m0, child, first, bits)
  {
    hide Free;
    var e := (first + k) / ENTRIES;
    assert HasTable(m, child, e) <==> !FirstInTable(m0, child, first, bits, k);
    CountsRise(m0, child, first, bits, k + 1);
  }

  lemma {:induction false} CountsRise(m0: Mem, child: nat, first: nat, bits: seq<bool>, k: nat)
    requires k <= |bits|
    ensures PagesIn(bits, k) <= PagesIn(bits, |bits|)
    ensures TablesIn(m0, child, first, bits, k) <= TablesIn(m0, child, first, bits, |bits|)
    decreases |bits| - k
  {
    hide FirstInTable;
    if k < |bits| {
      CountsRise(m0, child, first, bits, k + 1);
    }
  }

  /** The body of the loop of copy_body_stack3: the page goes through a kernel buffer, with the
      child's directory active while its page is made and filled. */
  method CopyPage(mem: Memory, parent: nat, child: nat, p: nat) returns (halted: bool)
    requires mem.Valid() && mem.active == parent && Page(parent, p) in mem.uses && Page(child, p) !in mem.uses && parent != child
    modifies mem`uses, mem`data, mem`active, mem.kernelPool.bits, mem.userPool.bits
    ensures halted <==> OutOfFrames(old(mem.Value()), child, p)
    ensures !halted ==> mem.Valid() && mem.active == parent && PageAdded(old(mem.Value()), child, p, mem.Value())
    ensures !halted ==> Charged(old(mem.Value()), child, p, mem.Value())
    ensures !halted ==>
      mem.data == old(mem.data)[mem.uses[Page(child, p)] := Held(old(mem.data), old(mem.uses)[Page(parent, p)])]
  {
    hide Sound, Bitmap.View;
    var buf := Held(mem.data, mem.uses[Page(mem.active, p)]);
    mem.active := child;
    halted := mem.AddPage(mem.active, p);
    if halted { return; }
    mem.data := mem.data[mem.uses[Page(mem.active, p)] := buf];
    mem.active := parent;
  }

  lemma BitOf(v: Bitmap, b: nat, j: nat)
    requires v.Valid() && b < v.bytesLen && j < 8
    ensures v.View()[8 * b + j] == TestBit(v.bits[b], j)
  {
    assert (8 * b + j) / 8 == b && (8 * b + j) % 8 == j;
    assert v.View()[8 * b + j] == BitAt(v.bits[..v.bytesLen], 8 * b + j);
  }

  lemma EmptyByte(m0: Mem, d0: Contents, parent: nat, child: nat, first: nat, v: Bitmap, b: nat, m: Mem, d: Contents)
    requires v.Valid() && b < v.bytesLen && v.bits[b] == 0
    requires CopiedUpTo(m0, d0, parent, child, first, v.View(), 8 * b, m, d) && Paid(m0, child, first, v.View(), 8 * b, m)
    ensures CopiedUpTo(m0, d0, parent, child, first, v.View(), 8 * (b + 1), m, d)
    ensures Paid(m0, child, first, v.View(), 8 * (b + 1), m)
  {
    hide CopiedUpTo, Paid;
    ghost var bits := v.View();
    var j := 0;
    while j < 8
      invariant j <= 8 && CopiedUpTo(m0, d0, parent, child, first, bits, 8 * b + j, m, d)
      invariant Paid(m0, child, first, bits, 8 * b + j, m)
    {
      BitOf(v, b, j);
      PaidSkip(m0, child, first, bits, 8 * b + j, m);
      SkipOne(m0, d0, parent, child, first, bits, 8 * b + j, m, d);
      j := j + 1;
    }
  }

  /** The inner loop of copy_body_stack3, over the bits of one byte. */
  method CopyByte(mem: Memory, parent: nat, child: nat, v: Bitmap, first: nat, b: nat,
                  ghost m0: Mem, ghost d0: Contents, ghost bits: seq<bool>) returns (halted: bool)
    requires mem.Valid() && mem.active == parent && parent != child && parent != KERNEL && child != KERNEL
    requires v.Valid() && v.bits != mem.kernelPool.bits && v.bits != mem.userPool.bits && bits == v.View() && b < v.bytesLen
    requires Sound(m0) && Mapped(m0, parent, first, bits) && (forall p: nat :: Page(child, p) !in m0.uses)
    requires CopiedUpTo(m0, d0, parent, child, first, bits, 8 * b, mem.Value(), mem.data)
    requires Paid(m0, child, first, bits, 8 * b, mem.Value())
    modifies mem`uses, mem`data, mem`active, mem.kernelPool.bits, mem.userPool.bits
    ensures halted ==> CannotCopy(m0, child, first, bits)
    ensures !halted ==> mem.Valid() && mem.active == parent && v.View() == bits
    ensures !halted ==> CopiedUpTo(m0, d0, parent, child, first, bits, 8 * (b + 1), mem.Value(), mem.data)
    ensures !halted ==> Paid(m0, child, first, bits, 8 * (b + 1), mem.Value())
  {
    hide Sound, Bitmap.View, CopiedUpTo, Mapped, OutOfFrames, PageAdded, Free, Paid, Charged, CannotCopy;
    halted := false;
    var idxBit := 0;
    while idxBit < 8
      invariant idxBit <= 8 && !halted && mem.Valid() && mem.active == parent && v.View() == bits
      invariant CopiedUpTo(m0, d0, parent, child, first, bits, 8 * b + idxBit, mem.Value(), mem.data)
      invariant Paid(m0, child, first, bits, 8 * b + idxBit, mem.Value())
    {
      ghost var k, m, d := 8 * b + idxBit, mem.Value(), mem.data;
      BitOf(v, b, idxBit);
      if TestBit(v.bits[b], idxBit) {
        var p := 8 * b + idxBit + first;
        NotYet(m0, d0, parent, child, first, bits, k, m, d);
        halted := CopyPage(mem, parent, child, p);
        if halted {
          CannotPay(m0, child, first, bits, k, m);
          return;
        }
        PaidStep(m0, child, first, bits, k, m, mem.Value());
        CopyOne(m0, d0, parent, child, first, bits, k, m, d, mem.Value());
      } else {
        PaidSkip(m0, child, first, bits, k, m);
        SkipOne(m0, d0, parent, child, first, bits, k, m, d);
      }
      idxBit := idxBit + 1;
    }
  }

  /** The parent has the page, the child not yet. */
  lemma NotYet(m0: Mem, d0: Contents, parent: nat, child: nat, first: nat, bits: seq<bool>, k: nat, m: Mem, d: Contents)
    requires k < |bits| && bits[k] && Mapped(m0, parent, first, bits) && (forall p: nat :: Page(child, p) !in m0.uses)
    requires CopiedUpTo(m0, d0, parent, child, first, bits, k, m, d)
    ensures Page(parent, first + k) in m.uses && Page(child, first + k) !in m.uses
  {
    hide Taken;
    ParentHas(m0, parent, first, bits, k);
  }

  /** copy_body_stack3. It stops the machine exactly when the frames for the pages, or those for the
      child's page tables, are not free; otherwise the child ends up
      with exactly the parent's pages, each in a frame that was free and with the same content,
      every page that was there before is as it was, and the parent's directory is active. */
  method CopyBody(mem: Memory, parent: nat, child: nat, v: Bitmap, first: nat) returns (halted: bool)
    requires mem.Valid() && mem.active == parent && parent != child && parent != KERNEL && child != KERNEL
    requires v.Valid() && v.bits != mem.kernelPool.bits && v.bits != mem.userPool.bits
    requires Mapped(mem.Value(), parent, first, v.View()) && forall p: nat :: Page(child, p) !in mem.uses
    modifies mem`uses, mem`data, mem`active, mem.kernelPool.bits, mem.userPool.bits
    ensures halted <==> CannotCopy(old(mem.Value()), child, first, old(v.View()))
    ensures !halted ==> mem.Valid() && mem.active == parent
    ensures !halted ==> Mapped(mem.Value(), child, first, v.View()) && Mapped(mem.Value(), parent, first, v.View())
    ensures !halted ==> CopiedUpTo(old(mem.Value()), old(mem.data), parent, child, first, v.View(), |v.View()|, mem.Value(), mem.data)
  {
    hide Sound, Bitmap.View, CopiedUpTo, Mapped, OutOfFrames, PageAdded, Free, Paid, CannotCopy;
    ghost var m0, d0, bits := mem.Value(), mem.data, v.View();
    NothingCopied(m0, d0, parent, child, first, bits);
    NothingPaid(m0, child, first, bits);
    halted := false;
    var idxByte := 0;
    while idxByte < v.bytesLen
      invariant idxByte <= v.bytesLen && !halted
      invariant mem.Valid() && mem.active == parent && v.View() == bits
      invariant CopiedUpTo(m0, d0, parent, child, first, bits, 8 * idxByte, mem.Value(), mem.data)
      invariant Paid(m0, child, first, bits, 8 * idxByte, mem.Value())
    {
      if v.bits[idxByte] != 0 {
        halted := CopyByte(mem, parent, child, v, first, idxByte, m0, d0, bits);
        if halted { return; }
      } else {
        EmptyByte(m0, d0, parent, child, first, v, idxByte, mem.Value(), mem.data);
      }
      idxByte := idxByte + 1;
    }
    ChildMapped(m0, d0, parent, child, first, bits, mem.Value(), mem.data);
    AllPaid(m0, child, first, bits, mem.Value());
  }

  lemma NothingPaid(m0: Mem, child: nat, first: nat, bits: seq<bool>)
    ensures Paid(m0, child, first, bits, 0, m0)
  {
    hide Free, HasTable;
  }

  lemma AllPaid(m0: Mem, child: nat, first: nat, bits: seq<bool>, m: Mem)
    requires Paid(m0, child, first, bits, |bits|, m)
    ensures !CannotCopy(m0, child, first, bits)
  {
    hide Free, HasTable, PagesIn, TablesIn;
  }
}
