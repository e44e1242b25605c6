/** How the superblock, the table and the directory are packed into sectors, and read back. */
module DiskImage {
  import opened Layout

  // ---- little-endian words ----

  function Le32(v: u32): (s: seq<byte>)
    ensures |s| == 4
  {
    [v % 256, v / 256 % 256, v / 65536 % 256, v / 16777216]
  }

  function FromLe32(s: seq<byte>, at: nat): u32
    requires at + 4 <= |s|
  {
    var b0: int, b1: int, b2: int, b3: int := s[at], s[at + 1], s[at + 2], s[at + 3];
    b0 + 256 * b1 + 65536 * b2 + 16777216 * b3
  }

  lemma WordRoundTrip(s: seq<byte>, at: nat, v: u32)
    requires at + 4 <= |s|
    requires forall r :: 0 <= r < 4 ==> s[at + r] == Le32(v)[r]
    ensures FromLe32(s, at) == v
  {
    assert s[at + 0] == Le32(v)[0];
    assert s[at + 1] == Le32(v)[1];
    assert s[at + 2] == Le32(v)[2];
    assert s[at + 3] == Le32(v)[3];
    assert v == v % 256 + 256 * (v / 256);
    assert v / 256 == v / 256 % 256 + 256 * (v / 65536);
    assert v / 65536 == v / 65536 % 256 + 256 * (v / 16777216);
  }

  // ---- superblock: six words at the front of sector 0 ----

  function SbWord(sb: Superblock, j: nat): u32 {
    if j == 0 then sb.magic
    else if j == 1 then sb.totalBlocks
    else if j == 2 then sb.fatStart
    else if j == 3 then sb.dirStart
    else if j == 4 then sb.dataStart
    else if j == 5 then sb.freeBlocks
    else 0
  }

  function SbSector(sb: Superblock): Sector {
    seq(512, q requires 0 <= q < 512 => Le32(SbWord(sb, q / 4))[q % 4])
  }

  function SbOf(s: Sector): Superblock {
    Superblock(FromLe32(s, 0), FromLe32(s, 4), FromLe32(s, 8), FromLe32(s, 12), FromLe32(s, 16), FromLe32(s, 20))
  }

  lemma SbRoundTrip(sb: Superblock)
    ensures SbOf(SbSector(sb)) == sb
  {
    var s := SbSector(sb);
    WordRoundTrip(s, 0, sb.magic);
    WordRoundTrip(s, 4, sb.totalBlocks);
    WordRoundTrip(s, 8, sb.fatStart);
    WordRoundTrip(s, 12, sb.dirStart);
    WordRoundTrip(s, 16, sb.dataStart);
    WordRoundTrip(s, 20, sb.freeBlocks);
  }

  // ---- table: 128 words per sector ----

  function FatWord(fat: Fat, idx: nat): u32 { if idx < 1024 then fat[idx] else 0 }

  function FatSector(fat: Fat, i: nat): Sector {
    seq(512, q requires 0 <= q < 512 => Le32(FatWord(fat, i * 128 + q / 4))[q % 4])
  }

  lemma FatRoundTrip(fat: Fat, i: nat, j: nat)
    requires j < 128 && i * 128 + j < 1024
    ensures FromLe32(FatSector(fat, i), 4 * j) == fat[i * 128 + j]
  {
    var s := FatSector(fat, i);
    var at, v := 4 * j, fat[i * 128 + j];
    forall r | 0 <= r < 4 ensures s[at + r] == Le32(v)[r] {
      assert (at + r) / 4 == j && (at + r) % 4 == r;
    }
    WordRoundTrip(s, at, v);
  }

  // ---- directory: 9 records of 52 bytes per sector ----

  /** The C record: 32 name bytes, two words, two flag bytes, two of alignment, a word, two of padding, two of tail. */
  function DirentBytes(d: Dirent): (s: seq<byte>)
    ensures |s| == 52
  {
    d.name + Le32(d.firstBlock) + Le32(d.size) + [d.isDirectory, d.used, 0, 0] + Le32(d.parentInode) + [0, 0, 0, 0]
  }

  function DirentOf(s: seq<byte>, at: nat): Dirent
    requires at + 52 <= |s|
  {
    Dirent(s[at..at + 32], FromLe32(s, at + 32), FromLe32(s, at + 36), s[at + 40], s[at + 41], FromLe32(s, at + 44))
  }

  function Record(dir: Directory, idx: nat): (s: seq<byte>)
    ensures |s| == 52
  {
    if idx < 256 then DirentBytes(dir[idx]) else seq(52, _ => 0)
  }

  function DirSector(dir: Directory, i: nat): Sector {
    seq(512, q requires 0 <= q < 512 => if q < 468 then Record(dir, i * 9 + q / 52)[q % 52] else 0)
  }

  lemma DirentRoundTrip(s: seq<byte>, at: nat, d: Dirent)
    requires at + 52 <= |s|
    requires s[at..at + 52] == DirentBytes(d)
    ensures DirentOf(s, at) == d
  {
    var e := DirentBytes(d);
    forall r | 0 <= r < 52 ensures s[at + r] == e[r] {
      assert s[at + r] == s[at..at + 52][r];
    }
    assert forall r :: 0 <= r < 32 ==> e[r] == d.name[r];
    assert s[at..at + 32] == d.name;
    forall r | 0 <= r < 4
      ensures s[at + 32 + r] == Le32(d.firstBlock)[r]
      ensures s[at + 36 + r] == Le32(d.size)[r]
      ensures s[at + 44 + r] == Le32(d.parentInode)[r]
    {
      assert e[32 + r] == Le32(d.firstBlock)[r];
      assert e[36 + r] == Le32(d.size)[r];
      assert e[44 + r] == Le32(d.parentInode)[r];
      assert s[at + (32 + r)] == e[32 + r];
      assert s[at + (36 + r)] == e[36 + r];
      assert s[at + (44 + r)] == e[44 + r];
    }
    WordRoundTrip(s, at + 32, d.firstBlock);
    WordRoundTrip(s, at + 36, d.size);
    WordRoundTrip(s, at + 44, d.parentInode);
    assert s[at + 40] == e[40] && s[at + 41] == e[41];
  }

  lemma DirRoundTrip(dir: Directory, i: nat, j: nat)
    requires j < 9 && i * 9 + j < 256
    ensures DirentOf(DirSector(dir, i), 52 * j) == dir[i * 9 + j]
  {
    var s := DirSector(dir, i);
    var e := DirentBytes(dir[i * 9 + j]);
    forall r | 0 <= r < 52 ensures s[52 * j + r] == e[r] {
      assert (52 * j + r) / 52 == j && (52 * j + r) % 52 == r;
    }
    assert s[52 * j..52 * j + 52] == e;
    DirentRoundTrip(s, 52 * j, dir[i * 9 + j]);
  }

  // ---- the whole image ----

  type Sectors = s: seq<Sector> | |s| >= 1024 witness seq<Sector>(1024, _ => ZeroSector())

  predicate SbOnDisk(disk: Sectors, sb: Superblock) { disk[0] == SbSector(sb) }

  predicate FatOnDisk(disk: Sectors, fat: Fat) {
    forall i :: 0 <= i < 10 ==> disk[1 + i] == FatSector(fat, i)
  }

  predicate DirOnDisk(disk: Sectors, dir: Directory) {
    forall i :: 0 <= i < 90 ==> disk[11 + i] == DirSector(dir, i)
  }

  predicate OnDisk(disk: Sectors, sb: Superblock, fat: Fat, dir: Directory) {
    SbOnDisk(disk, sb) && FatOnDisk(disk, fat) && DirOnDisk(disk, dir)
  }

  /** What mount reads: the table words, sector by sector. */
  function FatOf(disk: Sectors): Fat {
    seq(1024, x requires 0 <= x < 1024 => FromLe32(disk[1 + x / 128], 4 * (x % 128)))
  }

  /** What mount reads: the directory records, sector by sector. */
  function DirOf(disk: Sectors): Directory {
    seq(256, x requires 0 <= x < 256 => DirentOf(disk[11 + x / 9], 52 * (x % 9)))
  }

  /** An image holds one superblock, table and directory, and reading it gives them back. */
  lemma ImageRoundTrip(disk: Sectors, sb: Superblock, fat: Fat, dir: Directory)
    requires OnDisk(disk, sb, fat, dir)
    ensures SbOf(disk[0]) == sb && FatOf(disk) == fat && DirOf(disk) == dir
  {
    SbRoundTrip(sb);
    forall x | 0 <= x < 1024 ensures FatOf(disk)[x] == fat[x] {
      FatEntryRead(disk, fat, x);
    }
    forall x | 0 <= x < 256 ensures DirOf(disk)[x] == dir[x] {
      DirEntryRead(disk, dir, x);
    }
  }

  lemma FatEntryRead(disk: Sectors, fat: Fat, x: nat)
    requires FatOnDisk(disk, fat) && x < 1024
    ensures FromLe32(disk[1 + x / 128], 4 * (x % 128)) == fat[x]
  {
    FatRoundTrip(fat, x / 128, x % 128);
    assert disk[1 + x / 128] == FatSector(fat, x / 128);
  }

  lemma DirEntryRead(disk: Sectors, dir: Directory, x: nat)
    requires DirOnDisk(disk, dir) && x < 256
    ensures DirentOf(disk[11 + x / 9], 52 * (x % 9)) == dir[x]
  {
    DirRoundTrip(dir, x / 9, x % 9);
    assert disk[11 + x / 9] == DirSector(dir, x / 9);
  }
}
