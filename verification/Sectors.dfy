/** 512-byte disk sectors, and the little-endian 32-bit words stored in them. */
module Sectors {

  const SECTOR_SIZE: nat := 512
  const WORDS: nat := 128
  const U32: nat := 0x1_0000_0000

  type Byte = b: int | 0 <= b < 256
  type Sector = s: seq<Byte> | |s| == 512 witness seq(512, _ => 0)

  type Bytes = seq<Byte>

  /** Two sectors read into one buffer. */
  function Joined(x: Sector, y: Sector): (b: Bytes)
    ensures |b| == 2 * SECTOR_SIZE
    ensures forall j :: 0 <= j < SECTOR_SIZE ==> b[j] == x[j]
    ensures forall j :: SECTOR_SIZE <= j < 2 * SECTOR_SIZE ==> b[j] == y[j - SECTOR_SIZE]
  {
    var first: Bytes := x;
    first + y
  }

  function Zeros(n: nat): (z: seq<nat>)
    ensures |z| == n && forall k :: 0 <= k < n ==> z[k] == 0
  {
    seq(n, _ => 0)
  }

  /** Word k of a sector. */
  function WordAt(s: Sector, k: nat): nat
    requires k < WORDS
  {
    var b0: int, b1: int, b2: int, b3: int := s[4 * k], s[4 * k + 1], s[4 * k + 2], s[4 * k + 3];
    b0 + 0x100 * b1 + 0x1_0000 * b2 + 0x100_0000 * b3
  }

  /** A sector read as a table of 128 words. */
  function Words(s: Sector): (w: seq<nat>)
    ensures |w| == WORDS
    ensures forall k :: 0 <= k < WORDS ==> w[k] == WordAt(s, k)
  {
    seq(WORDS, k requires 0 <= k < WORDS => WordAt(s, k))
  }

  /** Byte j of a 32-bit word. */
  function ByteOf(w: nat, j: nat): Byte
    requires w < U32 && j < 4
  {
    if j == 0 then w % 0x100 else if j == 1 then w / 0x100 % 0x100
    else if j == 2 then w / 0x1_0000 % 0x100 else w / 0x100_0000
  }

  /** The sector holding a table of 128 words. */
  function FromWords(w: seq<nat>): (s: Sector)
    requires |w| == WORDS && forall k :: 0 <= k < WORDS ==> w[k] < U32
  {
    seq(512, i requires 0 <= i < 512 => ByteOf(w[i / 4], i % 4))
  }

  lemma WordBytes(w: nat)
    requires w < U32
    ensures ByteOf(w, 0) as int + 0x100 * (ByteOf(w, 1) as int)
            + 0x1_0000 * (ByteOf(w, 2) as int) + 0x100_0000 * (ByteOf(w, 3) as int) == w
  {
  }

  /** Writing a table and reading it back gives the same words. */
  lemma WordsRoundTrip(w: seq<nat>)
    requires |w| == WORDS && forall k :: 0 <= k < WORDS ==> w[k] < U32
    ensures Words(FromWords(w)) == w
  {
    var s := FromWords(w);
    forall k | 0 <= k < WORDS ensures WordAt(s, k) == w[k] {
      WordBytes(w[k]);
      assert (4 * k + 1) / 4 == k && (4 * k + 2) / 4 == k && (4 * k + 3) / 4 == k;
    }
  }

  /** A table and the words of the sector holding it determine each other, in range. */
  lemma WordsInRange(s: Sector, k: nat)
    requires k < WORDS
    ensures Words(s)[k] < U32
  {
  }
}
