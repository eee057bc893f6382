/** The bitmaps of bitmap.c: first-fit run search and single-bit update over a byte buffer. */
module Bitmaps {

  // ------------------------------------------------------------------
  // One byte
  // ------------------------------------------------------------------

  /** The byte with only bit k set. */
  function Mask(k: nat): bv8
    requires k < 8
  {
    if k == 0 then 1 else if k == 1 then 2 else if k == 2 then 4 else if k == 3 then 8
    else if k == 4 then 16 else if k == 5 then 32 else if k == 6 then 64 else 128
  }

  predicate TestBit(b: bv8, k: nat)
    requires k < 8
  {
    b & Mask(k) != 0
  }

  /** The byte with one bit set or cleared, as bitmap_set computes it. */
  method WithBit(b: bv8, k: nat, value: bool) returns (r: bv8)
    requires k < 8
    ensures forall j :: 0 <= j < 8 ==> TestBit(r, j) == if j == k then value else TestBit(b, j)
  {
    if value {
      r := b | Mask(k);
      forall j | 0 <= j < 8 ensures TestBit(r, j) == (j == k || TestBit(b, j)) { ByteOr(b, k, j); }
    } else {
      r := b & !Mask(k);
      forall j | 0 <= j < 8 ensures TestBit(r, j) == (j != k && TestBit(b, j)) { ByteAndNot(b, k, j); }
    }
  }

  lemma ByteOr(b: bv8, k: nat, j: nat)
    requires k < 8 && j < 8
    ensures TestBit(b | Mask(k), j) == (j == k || TestBit(b, j))
  {
    var m, n := Mask(k), Mask(j);
    assert (b | m) & n == (b & n) | (m & n);
  }

  lemma ByteAndNot(b: bv8, k: nat, j: nat)
    requires k < 8 && j < 8
    ensures TestBit(b & !Mask(k), j) == (j != k && TestBit(b, j))
  {
    var m, n := Mask(k), Mask(j);
    assert (b & !m) & n == (b & n) & !m;
  }

  /** A byte differs from 0xff exactly when one of its bits is clear. */
  lemma FullByte(b: bv8)
    ensures b == 0xff <==> forall k :: 0 <= k < 8 ==> TestBit(b, k)
  {
    if forall k :: 0 <= k < 8 ==> TestBit(b, k) {
      assert TestBit(b, 0) && TestBit(b, 1) && TestBit(b, 2) && TestBit(b, 3);
      assert TestBit(b, 4) && TestBit(b, 5) && TestBit(b, 6) && TestBit(b, 7);
    }
  }

  // ------------------------------------------------------------------
  // Runs of clear bits
  // ------------------------------------------------------------------

  /** Bits s, ..., s + cnt - 1 exist and are all clear. */
  ghost predicate FreeRun(v: seq<bool>, s: int, cnt: nat) {
    0 <= s && s + cnt <= |v| && forall j :: s <= j < s + cnt ==> !v[j]
  }

  /** s is the least start of cnt consecutive clear bits. */
  ghost predicate FirstFit(v: seq<bool>, cnt: nat, s: int) {
    FreeRun(v, s, cnt) && forall t :: 0 <= t < s ==> !FreeRun(v, t, cnt)
  }

  /** What a first-fit search must answer: the first fit, or -1 when nothing fits. */
  ghost predicate FitAnswer(v: seq<bool>, cnt: nat, r: int) {
    if r == -1 then forall t :: !FreeRun(v, t, cnt) else FirstFit(v, cnt, r)
  }

  ghost predicate Full(v: seq<bool>) {
    forall i :: 0 <= i < |v| ==> v[i]
  }

  /** The bits with the cnt bits from s on set to value. */
  function SetRun(v: seq<bool>, s: nat, cnt: nat, value: bool): (r: seq<bool>)
    requires s + cnt <= |v|
    ensures |r| == |v|
    ensures forall i :: 0 <= i < |v| ==> r[i] == if s <= i < s + cnt then value else v[i]
  {
    seq(|v|, i requires 0 <= i < |v| => if s <= i < s + cnt then value else v[i])
  }

  /** The search looks one bit past the end. If that bit reads as set the answer is the right
      one. If it reads as clear, the answer is wrong exactly when no run fits the bitmap while
      the last cnt - 1 bits are clear: it then returns a run that ends past the bitmap. */
  lemma GuardBit(v: seq<bool>, guard: bool, cnt: nat, r: int)
    requires cnt >= 1 && FitAnswer(v + [guard], cnt, r)
    ensures FitAnswer(v, cnt, r) <==>
      (guard || !FreeRun(v, |v| - (cnt - 1), cnt - 1) || exists t :: FreeRun(v, t, cnt))
  {
    var e := v + [guard];
    forall t ensures FreeRun(v, t, cnt) <==> FreeRun(e, t, cnt) && t + cnt <= |v| {
      assert forall j :: 0 <= j < |v| ==> e[j] == v[j];
    }
    var last := |v| - (cnt - 1);
    assert forall j :: 0 <= j < |v| ==> e[j] == v[j];
    assert e[|v|] == guard;
    if FreeRun(v, last, cnt - 1) && !guard {
      assert forall j :: last <= j < last + cnt ==> !e[j];
    }
    assert FreeRun(e, last, cnt) <==> !guard && FreeRun(v, last, cnt - 1);
    if r != -1 && r + cnt > |v| {
      assert r == last;
    }
  }

  /** A bitmap on which the search is wrong: two clear bits at the end, a clear bit past them, and three
      asked for. It answers 6, a run that ends past the bitmap. */
  lemma GuardBitFails()
    ensures var v := [true, true, true, true, true, true, false, false];
      FitAnswer(v + [false], 3, 6) && !FitAnswer(v, 3, 6) && FitAnswer(v, 3, -1)
  {
    var v := [true, true, true, true, true, true, false, false];
    var e := v + [false];
    assert FreeRun(e, 6, 3);
    forall t | 0 <= t < 6 ensures !FreeRun(e, t, 3) {
      assert e[t];
    }
    forall t ensures !FreeRun(v, t, 3) {
      assert 0 <= t <= 5 ==> v[t];
    }
  }

  /** The number of clear bits. */
  ghost function FreeCount(bits: seq<bool>): nat {
    if bits == [] then 0 else FreeCount(bits[..|bits| - 1]) + if bits[|bits| - 1] then 0 else 1
  }

  lemma {:induction false} TakeOne(bits: seq<bool>, b: nat)
    requires b < |bits| && !bits[b]
    ensures FreeCount(bits) >= 1 && FreeCount(bits[b := true]) == FreeCount(bits) - 1
  {
    var last := |bits| - 1;
    if b < last {
      TakeOne(bits[..last], b);
      assert bits[b := true][..last] == bits[..last][b := true];
    } else {
      assert bits[b := true][..last] == bits[..last];
    }
  }

  lemma {:induction false} NoneFree(bits: seq<bool>)
    ensures FreeCount(bits) == 0 <==> forall b :: 0 <= b < |bits| ==> bits[b]
  {
    if bits != [] {
      NoneFree(bits[..|bits| - 1]);
    }
  }

  // ------------------------------------------------------------------
  // Bits of a byte buffer
  // ------------------------------------------------------------------

  predicate BitAt(bytes: seq<bv8>, i: nat)
    requires i < 8 * |bytes|
  {
    TestBit(bytes[i / 8], i % 8)
  }

  function BitsOf(bytes: seq<bv8>): (v: seq<bool>)
    ensures |v| == 8 * |bytes|
    ensures forall i :: 0 <= i < |v| ==> v[i] == BitAt(bytes, i)
  {
    seq(8 * |bytes|, i requires 0 <= i < 8 * |bytes| => BitAt(bytes, i))
  }

  /** Changing one bit of one byte changes exactly one bit of the buffer. */
  lemma ByteWrite(bytes: seq<bv8>, idx: nat, value: bool, b: bv8)
    requires idx < 8 * |bytes|
    requires forall j :: 0 <= j < 8 ==>
      TestBit(b, j) == if j == idx % 8 then value else TestBit(bytes[idx / 8], j)
    ensures BitsOf(bytes[idx / 8 := b]) == BitsOf(bytes)[idx := value]
  {
    var after := bytes[idx / 8 := b];
    forall j | 0 <= j < 8 * |bytes| ensures BitAt(after, j) == if j == idx then value else BitAt(bytes, j) {
    }
  }

  /** A byte of the buffer is 0xff exactly when the eight bits it holds are set. */
  lemma FullByteAt(bytes: seq<bv8>, k: nat)
    requires k < |bytes|
    ensures bytes[k] == 0xff <==> forall i :: 8 * k <= i < 8 * k + 8 ==> BitAt(bytes, i)
  {
    FullByte(bytes[k]);
    if bytes[k] == 0xff {
      forall i | 8 * k <= i < 8 * k + 8 ensures BitAt(bytes, i) {
        assert i / 8 == k && TestBit(bytes[k], i % 8);
      }
    } else if forall i :: 8 * k <= i < 8 * k + 8 ==> BitAt(bytes, i) {
      forall j | 0 <= j < 8 ensures TestBit(bytes[k], j) {
        assert BitAt(bytes, 8 * k + j);
      }
    }
  }

  // ------------------------------------------------------------------
  // The bitmap object
  // ------------------------------------------------------------------

  /** struct bitmap: a byte count and a buffer. The search reads the byte just past the counted
      ones, so the buffer has at least one byte more. */
  class Bitmap {
    const bytesLen: nat
    const bits: array<bv8>

    ghost predicate Valid() {
      bytesLen < bits.Length
    }

    /** The counted bits. */
    ghost function View(): (v: seq<bool>)
      requires Valid()
      reads bits
      ensures |v| == 8 * bytesLen
    {
      BitsOf(bits[..bytesLen])
    }

    /** The bit just past the counted ones. */
    ghost function Guard(): bool
      requires Valid()
      reads bits
    {
      TestBit(bits[bytesLen], 0)
    }

    /** What the run search reads: the counted bits and the one past them. */
    ghost function Extended(): (v: seq<bool>)
      requires Valid()
      reads bits
      ensures |v| == 8 * bytesLen + 1
    {
      View() + [Guard()]
    }

    constructor (n: nat)
      ensures Valid() && fresh(bits) && bytesLen == n
      ensures forall i :: 0 <= i < 8 * n ==> !View()[i]
    {
      bytesLen := n;
      bits := new bv8[n + 1](_ => 0);
    }

    /** A bitmap over bytes read from disk; the byte past them is whatever memory holds. */
    constructor Loaded(data: seq<bv8>, past: bv8)
      ensures Valid() && fresh(bits) && bytesLen == |data| && View() == BitsOf(data)
    {
      bytesLen := |data|;
      bits := new bv8[|data| + 1](i requires 0 <= i <= |data| => if i < |data| then data[i] else past);
      new;
      assert bits[..bytesLen] == data;
    }

    /** bitmap_scan_test */
    method Test(idx: nat) returns (r: bool)
      requires Valid() && idx <= 8 * bytesLen
      ensures r == Extended()[idx]
    {
      r := bits[idx / 8] & Mask(idx % 8) != 0;
    }

    /** bitmap_set, which can also reach the bit just past the counted ones. */
    method Set(idx: nat, value: bool)
      requires Valid() && idx <= 8 * bytesLen
      modifies bits
      ensures idx < 8 * bytesLen ==> View() == old(View())[idx := value] && Guard() == old(Guard())
      ensures idx == 8 * bytesLen ==> View() == old(View()) && Guard() == value
    {
      ghost var before := bits[..bytesLen];
      var b := WithBit(bits[idx / 8], idx % 8, value);
      bits[idx / 8] := b;
      if idx < 8 * bytesLen {
        ByteWrite(before, idx, value, b);
        assert bits[..bytesLen] == before[idx / 8 := b];
      } else {
        assert bits[..bytesLen] == before;
      }
    }

    /** bitmap_set in a loop, as vaddr_get and vaddr_remove do. */
    method SetAll(s: nat, cnt: nat, value: bool)
      requires Valid() && s + cnt <= 8 * bytesLen + 1
      modifies bits
      ensures s + cnt <= 8 * bytesLen ==> View() == SetRun(old(View()), s, cnt, value) && Guard() == old(Guard())
      ensures s + cnt == 8 * bytesLen + 1 && cnt > 0 ==>
        View() == SetRun(old(View()), s, cnt - 1, value) && Guard() == value
    {
      ghost var before, guard := View(), Guard();
      assert SetRun(before, if s <= |before| then s else 0, 0, value) == before;
      var k := 0;
      while k < cnt
        invariant k <= cnt
        invariant s + k <= 8 * bytesLen ==> View() == SetRun(before, s, k, value) && Guard() == guard
        invariant s + k == 8 * bytesLen + 1 && k > 0 ==> View() == SetRun(before, s, k - 1, value) && Guard() == value
      {
        Set(s + k, value);
        k := k + 1;
      }
    }

    /** The skipping of 0xff bytes; halted is the ASSERT that follows it. */
    method FirstFreeByte() returns (halted: bool, k: nat)
      requires Valid()
      ensures halted <==> Full(View())
      ensures !halted ==> k < bytesLen && bits[k] != 0xff
      ensures !halted ==> forall i :: 0 <= i < 8 * k ==> View()[i]
    {
      k := 0;
      while bits[k] == 0xff && k < bytesLen
        invariant k <= bytesLen
        invariant forall i :: 0 <= i < 8 * k ==> View()[i]
      {
        FullByteAt(bits[..bytesLen], k);
        k := k + 1;
      }
      halted := !(k < bytesLen);
      if !halted {
        FullByteAt(bits[..bytesLen], k);
      }
    }

    /** bitmap_scan up to the first free bit. */
    method FirstFreeBit() returns (halted: bool, r: nat)
      requires Valid()
      ensures halted <==> Full(View())
      ensures !halted ==> r < 8 * bytesLen && FirstClear(View(), r)
    {
      var k;
      halted, k := FirstFreeByte();
      r := 0;
      if halted { return; }
      var j := FreeBitIn(bits[k]);
      r := 8 * k + j;
      assert forall i :: 8 * k <= i < r ==> i / 8 == k;
      assert !BitAt(bits[..bytesLen], r);
    }

    /** bitmap_scan. halted is the ASSERT on a full bitmap. */
    method Scan(cnt: nat) returns (halted: bool, r: int)
      requires Valid() && cnt >= 1
      ensures halted <==> Full(View())
      ensures !halted && cnt == 1 ==> FirstFit(View(), 1, r)
      ensures !halted && cnt > 1 ==> FitAnswer(Extended(), cnt, r)
    {
      var first;
      halted, first := FirstFreeBit();
      r := first;
      if halted { return; }
      NothingBefore(View(), first);
      if cnt > 1 {
        assert FirstClear(Extended(), first);
        r := ScanFrom(first, cnt, Extended());
      }
    }

    /** The part of bitmap_scan that looks for a run of more than one bit. */
    method ScanFrom(first: nat, cnt: nat, ghost e: seq<bool>) returns (r: int)
      requires Valid() && cnt > 1 && first < 8 * bytesLen && e == Extended() && FirstClear(e, first)
      ensures FitAnswer(e, cnt, r)
    {
      var left := 8 * bytesLen - first;
      var next := first + 1;
      var count := 1;
      hide Scanned, FitAnswer;
      r := -1;
      ScanStarts(e, first, cnt);
      while left > 0
        invariant 0 <= left && next + left == |e|
        invariant Scanned(e, next, count, cnt)
        decreases left
      {
        left := left - 1;
        ScanStep(e, next, count, cnt);
        var taken := Test(next);
        if !taken {
          count := count + 1;
        } else {
          count := 0;
        }
        if count == cnt {
          r := next - cnt + 1;
          return;
        }
        next := next + 1;
      }
      ScanEnds(e, count, cnt);
    }
  }

  /** The first zero bit of a byte that has one. */
  method FreeBitIn(b: bv8) returns (j: nat)
    requires b != 0xff
    ensures j < 8 && !TestBit(b, j) && forall i :: 0 <= i < j ==> TestBit(b, i)
  {
    FullByte(b);
    j := 0;
    while b & Mask(j) != 0
      invariant j < 8 && forall i :: 0 <= i < j ==> TestBit(b, i)
      decreases 8 - j
    {
      assert TestBit(b, j);
      j := j + 1;
    }
  }

  ghost predicate FirstClear(v: seq<bool>, r: nat) {
    r < |v| && !v[r] && forall i :: 0 <= i < r ==> v[i]
  }

  lemma NothingBefore(v: seq<bool>, first: nat)
    requires FirstClear(v, first)
    ensures FirstFit(v, 1, first)
  {
    forall t | 0 <= t < first ensures !FreeRun(v, t, 1) {
      assert v[t];
    }
  }

  /** The state of the run search before bit next is looked at: the last count bits are clear,
      the one before them is not, and no run of cnt bits ends before next. */
  ghost predicate Scanned(e: seq<bool>, next: nat, count: nat, cnt: nat) {
    && count <= next <= |e| && count < cnt
    && (forall i :: next - count <= i < next ==> !e[i])
    && (next == count || e[next - count - 1])
    && (forall t :: t + cnt <= next ==> !FreeRun(e, t, cnt))
  }

  lemma ScanStarts(e: seq<bool>, first: nat, cnt: nat)
    requires cnt > 1 && FirstClear(e, first)
    ensures Scanned(e, first + 1, 1, cnt)
  {
    forall t | t + cnt <= first + 1 ensures !FreeRun(e, t, cnt) {
      if 0 <= t { assert e[t]; }
    }
  }

  lemma ScanEnds(e: seq<bool>, count: nat, cnt: nat)
    requires Scanned(e, |e|, count, cnt)
    ensures FitAnswer(e, cnt, -1)
  {
    forall t ensures !FreeRun(e, t, cnt) {
    }
  }

  /** Looking at bit next: either a run of cnt bits ends there, and it is the first, or the
      search goes on. */
  lemma ScanStep(e: seq<bool>, next: nat, before: nat, cnt: nat)
    requires next < |e| && Scanned(e, next, before, cnt)
    ensures var count := if e[next] then 0 else before + 1;
            if count == cnt then FitAnswer(e, cnt, next - cnt + 1) else Scanned(e, next + 1, count, cnt)
  {
    if e[next] {
      forall t | t + cnt <= next + 1 ensures !FreeRun(e, t, cnt) {
        if t + cnt == next + 1 && FreeRun(e, t, cnt) {
          assert false;
        }
      }
    } else if before + 1 == cnt {
      assert FreeRun(e, next - cnt + 1, cnt);
    } else {
      forall t | t + cnt <= next + 1 ensures !FreeRun(e, t, cnt) {
        if t + cnt == next + 1 && 0 <= t {
          assert t <= next - before - 1 < t + cnt;
        }
      }
    }
  }
}
