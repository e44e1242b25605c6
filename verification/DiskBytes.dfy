/** The bytes of an image at their absolute places: what lies in which sector at which offset. */
module DiskBytes {
  import opened Basics
  import opened Layout
  import opened DiskImage
  import opened FsSpec

  /** The number in `n` bytes from `at` on, the lowest byte first. */
  function Number(s: seq<byte>, at: nat, n: nat): nat
    requires at + n <= |s|
  {
    if n == 0 then 0 else
      var b: int := s[at + n - 1];
      Number(s, at, n - 1) + b * Pow256(n - 1)
  }

  lemma NumberIs(s: seq<byte>, at: nat)
    requires at + 4 <= |s|
    ensures FromLe32(s, at) == Number(s, at, 4)
  {
    assert Pow256(1) == 256 && Pow256(2) == 0x1_0000 && Pow256(3) == 0x100_0000;
    var b0: int, b1: int, b2: int, b3: int := s[at], s[at + 1], s[at + 2], s[at + 3];
    assert Number(s, at, 1) == b0;
    assert Number(s, at, 2) == b0 + 256 * b1;
    assert Number(s, at, 3) == b0 + 256 * b1 + 0x1_0000 * b2;
  }

  /** The superblock: six words at the front of sector 0, and nothing behind them. */
  lemma SuperblockBytes(disk: Sectors, sb: Superblock)
    requires SbOnDisk(disk, sb)
    ensures Number(disk[0], 0, 4) == sb.magic && Number(disk[0], 4, 4) == sb.totalBlocks
    ensures Number(disk[0], 8, 4) == sb.fatStart && Number(disk[0], 12, 4) == sb.dirStart
    ensures Number(disk[0], 16, 4) == sb.dataStart && Number(disk[0], 20, 4) == sb.freeBlocks
    ensures forall q :: 24 <= q < 512 ==> disk[0][q] == 0
  {
    SbRoundTrip(sb);
    var s := disk[0];
    NumberIs(s, 0);
    NumberIs(s, 4);
    NumberIs(s, 8);
    NumberIs(s, 12);
    NumberIs(s, 16);
    NumberIs(s, 20);
    forall q | 24 <= q < 512 ensures s[q] == 0 { assert q / 4 >= 6; }
    hide FromLe32, Number, SbSector;
  }

  /** Table entry `b`: the word at offset 4 (b mod 128) of sector 1 + b / 128. */
  lemma FatBytes(disk: Sectors, fat: Fat, b: nat)
    requires FatOnDisk(disk, fat) && b < 1024
    ensures Number(disk[1 + b / 128], 4 * (b % 128), 4) == fat[b]
  {
    hide FatSector, FromLe32, Number;
    FatEntryRead(disk, fat, b);
    NumberIs(disk[1 + b / 128], 4 * (b % 128));
  }

  /** Directory entry `i`: 52 bytes at offset 52 (i mod 9) of sector 11 + i / 9. */
  lemma DirectoryBytes(disk: Sectors, dir: Directory, i: nat)
    requires DirOnDisk(disk, dir) && i < 256
    ensures var s, at := disk[11 + i / 9], 52 * (i % 9);
            && s[at..at + 32] == dir[i].name && Number(s, at + 32, 4) == dir[i].firstBlock && Number(s, at + 36, 4) == dir[i].size
            && s[at + 40] == dir[i].isDirectory && s[at + 41] == dir[i].used && Number(s, at + 44, 4) == dir[i].parentInode
  {
    hide DirSector, FromLe32, Number;
    DirEntryRead(disk, dir, i);
    var s, at := disk[11 + i / 9], 52 * (i % 9);
    NumberIs(s, at + 32);
    NumberIs(s, at + 36);
    NumberIs(s, at + 44);
  }

  lemma FormatWords()
    ensures Le32(MAGIC) == [0x59, 0x4E, 0x49, 0x54] && Le32(1024) == [0x00, 0x04, 0x00, 0x00] && Le32(1) == [0x01, 0x00, 0x00, 0x00]
    ensures Le32(11) == [0x0B, 0x00, 0x00, 0x00] && Le32(101) == [0x65, 0x00, 0x00, 0x00] && Le32(923) == [0x9B, 0x03, 0x00, 0x00]
  { }

  /** A formatted disk: the bytes of its superblock. */
  lemma FormattedBytes(disk: Sectors)
    requires OnDisk(disk, SB0, Fat0(), Dir0())
    ensures disk[0][..24] == [0x59, 0x4E, 0x49, 0x54, 0x00, 0x04, 0x00, 0x00, 0x01, 0x00, 0x00, 0x00,
                              0x0B, 0x00, 0x00, 0x00, 0x65, 0x00, 0x00, 0x00, 0x9B, 0x03, 0x00, 0x00]
  {
    var s := SbSector(SB0);
    FormatWords();
    assert s[..24] == Le32(MAGIC) + Le32(1024) + Le32(1) + Le32(11) + Le32(101) + Le32(923);
  }

  /** The rest of a formatted disk up to the data: end marks for the reserved blocks, zeros for the others and for the directory. */
  lemma FormattedTables(disk: Sectors)
    requires OnDisk(disk, SB0, Fat0(), Dir0())
    ensures forall b :: 0 <= b < 1024 ==> Number(disk[1 + b / 128], 4 * (b % 128), 4) == if b < 101 then 0xFF_FFFF else 0
    ensures forall i :: 11 <= i < 101 ==> disk[i] == ZeroSector()
  {
    forall b | 0 <= b < 1024 ensures Number(disk[1 + b / 128], 4 * (b % 128), 4) == if b < 101 then 0xFF_FFFF else 0 {
      hide Number;
      FatBytes(disk, Fat0(), b);
    }
    forall i | 11 <= i < 101 ensures disk[i] == ZeroSector() {
      assert disk[11 + (i - 11)] == DirSector(Dir0(), i - 11);
      EmptySector(i - 11);
    }
  }

  lemma EmptySector(i: nat)
    ensures DirSector(Dir0(), i) == ZeroSector()
  {
    EmptyBytes();
    hide DirentBytes;
  }

  lemma EmptyBytes()
    ensures DirentBytes(EmptyDirent()) == seq(52, _ => 0)
  { }
}
