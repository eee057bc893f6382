/** Directory entries as they lie in a sector (dir.h): 24 bytes each, 21 to a sector, never across
    two sectors. Names are compared as C strings. */
module DirEntries {
  import opened Sectors

  const ENTRY_SIZE: nat := 24
  const PER_SECTOR: nat := 21
  const NAME_LEN: nat := 16

  const FT_UNKNOWN: nat := 0
  const FT_REGULAR: nat := 1
  const FT_DIRECTORY: nat := 2

  type Name = seq<Byte>

  datatype DirEntry = DirEntry(name: Name, ino: nat, ftype: nat)

  const BLANK: DirEntry := DirEntry([], 0, 0)

  /** The C string that starts at the beginning of b: everything before the first zero. */
  function CString(b: Bytes): (s: Name)
    ensures |s| <= |b| && s == b[..|s|] && (|s| < |b| ==> b[|s|] == 0)
    ensures forall i :: 0 <= i < |s| ==> s[i] != 0
  {
    if b == [] || b[0] == 0 then [] else [b[0]] + CString(b[1..])
  }

  lemma {:induction false} CStringOf(s: Name, rest: Bytes)
    requires forall i :: 0 <= i < |s| ==> s[i] != 0
    ensures CString(s + rest) == s + CString(rest)
  {
    if s == [] {
      assert s + rest == rest;
    } else {
      assert (s + rest)[1..] == s[1..] + rest;
      CStringOf(s[1..], rest);
    }
  }

  ghost predicate NoZero(s: Name) {
    forall i :: 0 <= i < |s| ==> s[i] != 0
  }

  function Le32(w: nat): (b: Bytes)
    requires w < U32
    ensures |b| == 4
  {
    [ByteOf(w, 0), ByteOf(w, 1), ByteOf(w, 2), ByteOf(w, 3)]
  }

  function ToWord(b: Bytes): nat
    requires |b| == 4
  {
    var b0: int, b1: int, b2: int, b3: int := b[0], b[1], b[2], b[3];
    b0 + 0x100 * b1 + 0x1_0000 * b2 + 0x100_0000 * b3
  }

  lemma WordRoundTrip(w: nat)
    requires w < U32
    ensures ToWord(Le32(w)) == w
  {
    WordBytes(w);
  }

  function ZeroBytes(n: nat): (b: Bytes)
    ensures |b| == n && forall i :: 0 <= i < n ==> b[i] == 0
  {
    seq<Byte>(n, _ => 0)
  }

  /** An entry create_dir_entry can make: names of up to 16 bytes (its ASSERT), a small inode
      number and a real type. */
  ghost predicate Creatable(e: DirEntry) {
    1 <= |e.name| <= NAME_LEN && NoZero(e.name) && e.ino < U32 && 1 <= e.ftype <= 2
  }

  /** The 24 bytes of an entry. */
  function Encode(e: DirEntry): (b: Bytes)
    requires |e.name| <= NAME_LEN && e.ino < U32 && e.ftype < U32
    ensures |b| == ENTRY_SIZE
  {
    e.name + ZeroBytes(NAME_LEN - |e.name|) + Le32(e.ino) + Le32(e.ftype)
  }

  /** struct dir_entry byte by byte (dir.h:20-25). */
  lemma EntryBytes(e: DirEntry, i: nat)
    requires |e.name| <= NAME_LEN && e.ino < U32 && e.ftype < U32 && i < ENTRY_SIZE
    ensures var b := Encode(e)[i];
      if i < |e.name| then b == e.name[i]
      else if i < 16 then b == 0
      else if i < 20 then b == ByteOf(e.ino, i - 16)
      else b == ByteOf(e.ftype, i - 20)
  {
  }

  /** What the kernel sees in 24 bytes. */
  function Decode(b: Bytes): DirEntry
    requires |b| == ENTRY_SIZE
  {
    DirEntry(CString(b), ToWord(b[16..20]), ToWord(b[20..24]))
  }

  /** A stored entry is seen as it was made exactly when its name leaves room for the terminating
      zero or the low byte of its inode number happens to be one. */
  lemma StoredName(e: DirEntry)
    requires Creatable(e)
    ensures Decode(Encode(e)) == e <==> |e.name| <= 15 || e.ino % 256 == 0
  {
    var b := Encode(e);
    assert b[16..20] == Le32(e.ino) && b[20..24] == Le32(e.ftype);
    WordRoundTrip(e.ino);
    WordRoundTrip(e.ftype);
    var rest := ZeroBytes(NAME_LEN - |e.name|) + Le32(e.ino) + Le32(e.ftype);
    assert b == e.name + rest;
    CStringOf(e.name, rest);
    assert rest[0] == if |e.name| <= 15 then 0 else ByteOf(e.ino, 0);
    assert CString(rest) == [] <==> rest[0] == 0;
  }

  /** A name of 16 characters that is lost: the bytes of the inode number follow it. */
  lemma LongNameLost()
    ensures exists e: DirEntry :: Creatable(e) && |e.name| == 16 && Decode(Encode(e)) != e
  {
    var name: Name := seq<Byte>(16, _ => 97);
    var e := DirEntry(name, 1, FT_REGULAR);
    StoredName(e);
    assert Creatable(e);
  }

  // ------------------------------------------------------------------
  // A sector of entries
  // ------------------------------------------------------------------

  /** Entry k of a sector. */
  function EntryAt(x: Sector, k: nat): DirEntry
    requires k < PER_SECTOR
  {
    Decode(x[ENTRY_SIZE * k..ENTRY_SIZE * k + ENTRY_SIZE])
  }

  /** The sector with the bytes of entry k replaced. */
  function PutBytes(x: Sector, k: nat, b: Bytes): (y: Sector)
    requires k < PER_SECTOR && |b| == ENTRY_SIZE
  {
    var z: Bytes := x;
    z[..ENTRY_SIZE * k] + b + z[ENTRY_SIZE * k + ENTRY_SIZE..]
  }

  /** All entries of a sector. */
  function Raw(x: Sector): (es: seq<DirEntry>)
    ensures |es| == PER_SECTOR
    ensures forall k :: 0 <= k < PER_SECTOR ==> es[k] == EntryAt(x, k)
  {
    seq(PER_SECTOR, k requires 0 <= k < PER_SECTOR => EntryAt(x, k))
  }

  /** Replacing the bytes of one entry replaces that entry and no other. */
  lemma PutRaw(x: Sector, k: nat, b: Bytes)
    requires k < PER_SECTOR && |b| == ENTRY_SIZE
    ensures Raw(PutBytes(x, k, b)) == Raw(x)[k := Decode(b)]
  {
    var y := PutBytes(x, k, b);
    forall j | 0 <= j < PER_SECTOR ensures EntryAt(y, j) == if j == k then Decode(b) else EntryAt(x, j) {
      PutSlice(x, k, b, j);
    }
  }

  lemma PutSlice(x: Sector, k: nat, b: Bytes, j: nat)
    requires k < PER_SECTOR && |b| == ENTRY_SIZE && j < PER_SECTOR
    ensures PutBytes(x, k, b)[ENTRY_SIZE * j..ENTRY_SIZE * j + ENTRY_SIZE] ==
      if j == k then b else x[ENTRY_SIZE * j..ENTRY_SIZE * j + ENTRY_SIZE]
  {
    var y := PutBytes(x, k, b);
    var lo := ENTRY_SIZE * j;
    assert forall i :: 0 <= i < SECTOR_SIZE ==>
      y[i] == if ENTRY_SIZE * k <= i < ENTRY_SIZE * k + ENTRY_SIZE then b[i - ENTRY_SIZE * k] else x[i];
  }

  lemma BlankBytes()
    ensures Decode(ZeroBytes(ENTRY_SIZE)) == BLANK
  {
    var b := ZeroBytes(ENTRY_SIZE);
    assert ToWord(b[16..20]) == 0 && ToWord(b[20..24]) == 0;
  }

  lemma BlankSector(x: Sector)
    requires forall i :: 0 <= i < SECTOR_SIZE ==> x[i] == 0
    ensures forall k :: 0 <= k < PER_SECTOR ==> Raw(x)[k] == BLANK
  {
    forall k | 0 <= k < PER_SECTOR ensures EntryAt(x, k) == BLANK {
      var z: Bytes := x;
      assert z[ENTRY_SIZE * k..ENTRY_SIZE * k + ENTRY_SIZE] == ZeroBytes(ENTRY_SIZE);
      BlankBytes();
    }
  }

  // ------------------------------------------------------------------
  // The entries in use
  // ------------------------------------------------------------------

  /** The entries of a known type, in order. */
  function Live(es: seq<DirEntry>): seq<DirEntry> {
    if es == [] then [] else (if es[0].ftype == FT_UNKNOWN then [] else [es[0]]) + Live(es[1..])
  }

  lemma {:induction false} LiveConcat(a: seq<DirEntry>, b: seq<DirEntry>)
    ensures Live(a + b) == Live(a) + Live(b)
  {
    if a == [] {
      assert a + b == b;
    } else {
      assert (a + b)[1..] == a[1..] + b;
      LiveConcat(a[1..], b);
    }
  }

  /** Splitting the entries in use at position k. */
  lemma LiveAt(es: seq<DirEntry>, k: nat)
    requires k < |es|
    ensures Live(es) == Live(es[..k]) + (if es[k].ftype == FT_UNKNOWN then [] else [es[k]]) + Live(es[k + 1..])
  {
    hide Live;
    Around(es, k);
    LiveConcat(es[..k] + [es[k]], es[k + 1..]);
    LiveConcat(es[..k], [es[k]]);
    LiveOne(es[k]);
  }

  lemma Around(es: seq<DirEntry>, k: nat)
    requires k < |es|
    ensures es == es[..k] + [es[k]] + es[k + 1..]
  {
  }

  lemma LiveOne(e: DirEntry)
    ensures Live([e]) == if e.ftype == FT_UNKNOWN then [] else [e]
  {
  }

  lemma {:induction false} LiveMember(es: seq<DirEntry>, e: DirEntry)
    ensures e in Live(es) <==> e in es && e.ftype != FT_UNKNOWN
  {
    if es != [] {
      LiveMember(es[1..], e);
      assert e in es <==> e == es[0] || e in es[1..];
    }
  }

  /** l' is l with e put in at position p. */
  ghost predicate PutIn(l: seq<DirEntry>, l': seq<DirEntry>, p: nat, e: DirEntry) {
    p <= |l| && l' == l[..p] + [e] + l[p..]
  }

  /** Filling an unused entry puts it in among the entries in use; clearing a used one takes it
      out. */
  lemma LiveUpdate(es: seq<DirEntry>, k: nat, e: DirEntry)
    requires k < |es| && es[k].ftype == FT_UNKNOWN && e.ftype != FT_UNKNOWN
    ensures PutIn(Live(es), Live(es[k := e]), |Live(es[..k])|, e)
  {
    LiveAt(es, k);
    LiveAt(es[k := e], k);
    assert es[k := e][..k] == es[..k] && es[k := e][k + 1..] == es[k + 1..];
  }
}
