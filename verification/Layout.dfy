/** On-disk and in-memory data of TinyFS (includes/tinyfs.h), with the geometry that format writes. */
module Layout {
  type byte = x: int | 0 <= x < 256
  type u32 = x: int | 0 <= x < 0x1_0000_0000

  const MAGIC := 0x54494E59

  /** The end-of-chain mark: the source defines EOF as the colour constant WHITE. */
  const EOF: u32 := 0xFFFFFF

  type Sector = s: seq<byte> | |s| == 512 witness seq(512, _ => 0)

  /** A dirent's name field: 32 raw bytes, of which the part before the first NUL is the name. */
  type NameField = s: seq<byte> | |s| == 32 witness seq(32, _ => 0)

  datatype Superblock = Superblock(
    magic: u32, totalBlocks: u32, fatStart: u32, dirStart: u32, dataStart: u32, freeBlocks: u32)

  datatype Dirent = Dirent(
    name: NameField, firstBlock: u32, size: u32, isDirectory: byte, used: byte, parentInode: u32)

  type Fat = f: seq<u32> | |f| == 1024 witness seq(1024, _ => 0)
  type Directory = d: seq<Dirent> | |d| == 256 witness seq(256, _ => EmptyDirent())

  function ZeroSector(): Sector { seq(512, _ => 0) }

  function ZeroName(): NameField { seq(32, _ => 0) }

  function EmptyDirent(): Dirent { Dirent(ZeroName(), 0, 0, 0, 0, 0) }
}
