/** Moving the position of an open file (fs.c:472-508), and what was appended read back. */
module FileCalls {
  import opened Sectors
  import opened BlockMap
  import opened Bitmaps
  import opened FileSystem
  import opened InodeStore
  import InodeTable

  const SEEK_SET: nat := 1
  const SEEK_CUR: nat := 2
  const SEEK_END: nat := 3

  /** Wrap-around of int32_t. */
  function Wrap(x: int): int {
    var w := x % U32;
    if w < 0x8000_0000 then w else w - U32
  }

  lemma Wraps(x: int)
    requires -0x8000_0001 <= x < 0x1_0000_0000
    ensures Wrap(x) == if x < -0x8000_0000 then x + U32 else if x < 0x8000_0000 then x else x - U32
  {
  }

  /** The position asked for: relative to the start, to the position, or to the end. */
  function Target(pos: int, size: nat, offset: int, whence: nat): int
    requires whence in {SEEK_SET, SEEK_CUR, SEEK_END}
  {
    if whence == SEEK_SET then offset else if whence == SEEK_CUR then pos + offset else size + offset
  }

  /** sys_lseek. A target outside of the file is refused, even when computing it overflows; the
      position after a write of nothing to an empty file counts as -1. */
  method Lseek(file: File, offset: int, whence: nat) returns (r: Outcome)
    requires -0x8000_0000 <= offset < 0x8000_0000 && file.fdInode.iSize < MAX_SIZE
    requires file.fdPos <= file.fdInode.iSize || file.fdPos == U32 - 1
    modifies file`fdPos
    ensures r == Halted <==> whence !in {SEEK_SET, SEEK_CUR, SEEK_END}
    ensures r == Halted ==> file.fdPos == old(file.fdPos)
    ensures r != Halted ==>
      var pos := if old(file.fdPos) == U32 - 1 then -1 else old(file.fdPos);
      var p := Target(pos, file.fdInode.iSize, offset, whence);
      if 0 <= p < file.fdInode.iSize then r == Returned(p) && file.fdPos == p
      else r == Returned(-1) && file.fdPos == old(file.fdPos)
  {
    hide Wrap;
    if !(whence > 0 && whence < 4) { return Halted; }
    Wraps(file.fdInode.iSize);
    Wraps(file.fdPos);
    Wraps(Wrap(file.fdPos) + offset);
    Wraps(file.fdInode.iSize + offset);
    var newPos, fileSize := 0, Wrap(file.fdInode.iSize);
    if whence == 1 {
      newPos := offset;
    } else if whence == 2 {
      newPos := Wrap(Wrap(file.fdPos) + offset);
    } else {
      newPos := Wrap(fileSize + offset);
    }
    if newPos < 0 || newPos > fileSize - 1 { return Returned(-1); }
    file.fdPos := newPos;
    return Returned(file.fdPos);
  }

  /** What is appended is read back from where it begins, wherever that lies among the direct and the
      indirect blocks, and exactly when file_read allows its last block. */
  method AppendAndReadBack(fs: FileSystem, file: File, buf: seq<Byte>) returns (w: Outcome, r: Outcome, out: seq<Byte>)
    requires fs.Valid() && file.fdInode.iNo in fs.files && fs.inodes[file.fdInode.iNo] == file.fdInode
    requires 0 < |buf| && file.fdInode.iSize + |buf| < MAX_SIZE
    modifies fs`disk, fs.blockBitmap.bits, file, file.fdInode
    ensures w == Halted <==>
      FreeCount(old(fs.blockBitmap.View())) < BlocksNeeded(old(file.fdInode.Snapshot()), |buf|)
    ensures w != Halted ==> w == Returned(|buf|) && fs.Valid()
    ensures w != Halted ==> if old(file.fdInode.iSize) + |buf| >= 139 * 512 then r == Halted else r == Returned(|buf|) && out == buf
    ensures w != Halted ==>
      fs.Contents() == old(fs.Contents())[file.fdInode.iNo := old(fs.Contents())[file.fdInode.iNo] + buf]
    ensures w != Halted && old(fs.Stored()) ==> (fs.Stored() <==> file.fdInode.iNo < 256)
  {
    hide FileSystem.Valid, BlocksNeeded, FreeCount, Bitmap.View, ReadResult, OthersSame, InodeTable.LoadsAs, RecordOf,
      InodeTable.TableOf, OnDisk, FileSystem.Stored;
    SizeOf(fs, file.fdInode.iNo);
    ghost var c := fs.Contents()[file.fdInode.iNo];
    var start := file.fdInode.iSize;
    r, out := Halted, [];
    w := fs.FileWrite(file, buf);
    if w == Halted { return; }
    SizeOf(fs, file.fdInode.iNo);
    var at := Lseek(file, start, SEEK_SET);
    assert at == Returned(start);
    r, out := fs.FileRead(file, |buf|);
    ReadBack(c, buf, r, out, file.fdPos);
  }

  lemma ReadBack(c: seq<Byte>, buf: seq<Byte>, r: Outcome, out: seq<Byte>, p: nat)
    requires buf != [] && ReadResult(c + buf, |c|, |buf|, r, out, p)
    ensures if |c| + |buf| >= 139 * 512 then r == Halted else r == Returned(|buf|) && out == buf
  {
    assert (c + buf)[|c|..|c| + |buf|] == buf;
  }

  /** The size of a file is the length of its content. */
  lemma SizeOf(fs: FileSystem, no: nat)
    requires fs.Valid() && no in fs.files
    ensures no in fs.inodes && |fs.Contents()[no]| == fs.inodes[no].iSize < MAX_SIZE
  {
    hide Owned, Bitmap.View, Filled;
    assert fs.Nodes()[no] == fs.inodes[no].Snapshot();
  }
}
