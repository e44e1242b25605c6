/** What each TinyFS operation does to the filesystem as a whole, as relations between states. */
module FsSpec {
  import opened Basics
  import opened Layout
  import opened DiskImage
  import opened FatChains
  import opened FileBytes

  // ---- names ----

  /** The C string in a buffer: everything before the first NUL. */
  function CStr(s: seq<byte>): (r: seq<byte>)
    ensures |r| <= |s| && r == s[..|r|]
    ensures forall k :: 0 <= k < |r| ==> r[k] != 0
    ensures |r| < |s| ==> s[|r|] == 0
  {
    if s == [] || s[0] == 0 then [] else [s[0]] + CStr(s[1..])
  }

  /** strcpy_safe into a 32-byte name field: at most 31 characters, then NUL; bytes after it stay. */
  function CopyName(field: NameField, src: seq<byte>): NameField {
    var n := if |src| < 31 then |src| else 31;
    src[..n] + [0] + field[n + 1..]
  }

  function Truncated(name: seq<byte>): seq<byte> { if |name| < 31 then name else name[..31] }

  ghost predicate IsCString(name: seq<byte>) { forall k :: 0 <= k < |name| ==> name[k] != 0 }

  lemma CStrUnique(s: seq<byte>, n: nat)
    requires n < |s| && s[n] == 0 && forall k :: 0 <= k < n ==> s[k] != 0
    ensures CStr(s) == s[..n]
  {
    var r := CStr(s);
  }

  lemma CopyNameReads(field: NameField, src: seq<byte>)
    requires IsCString(src)
    ensures CStr(CopyName(field, src)) == Truncated(src)
  {
    var n := |Truncated(src)|;
    CStrUnique(CopyName(field, src), n);
    assert CopyName(field, src)[..n] == Truncated(src);
  }

  // ---- invariants of the object ----

  ghost predicate Geometry(sb: Superblock) {
    sb.magic == MAGIC && sb.totalBlocks == 1024 && sb.fatStart == 1 && sb.dirStart == 11 && sb.dataStart == 101
  }

  ghost predicate Names(dir: Directory) {
    forall i :: 0 <= i < 256 ==> dir[i].name[31] == 0
  }

  /** The mounted data, the disk under it, and the chains that the table threads. */
  datatype State = State(
    sb: Superblock, fat: Fat, dir: Directory, sectors: Sectors, chains: Chains, owner: Owners)

  ghost predicate Consistent(sb: Superblock, fat: Fat, dir: Directory, chains: Chains, owner: Owners) {
    && Geometry(sb)
    && Shape(fat, dir, chains, owner)
    && sb.freeBlocks == FreeCount(fat)
    && Names(dir)
    && dir[0].used == 0
  }

  ghost predicate Sound(s: State) { Consistent(s.sb, s.fat, s.dir, s.chains, s.owner) }

  ghost predicate Synced(s: State) { OnDisk(s.sectors, s.sb, s.fat, s.dir) }

  /** The other chains are the same, and chain `i` has only been extended. */
  ghost predicate Grown(chains: Chains, chains': Chains, i: nat) {
    && i < 256
    && (forall j :: 0 <= j < 256 && j != i ==> chains'[j] == chains[j])
    && chains[i] <= chains'[i]
  }

  /** Only entries of blocks on `c` differ. */
  ghost predicate FatKept(fat: Fat, fat': Fat, c: seq<int>) {
    forall b :: 0 <= b < 1024 && b !in c ==> fat'[b] == fat[b]
  }

  lemma FatKeptRefl(fat: Fat, c: seq<int>)
    ensures FatKept(fat, fat, c)
  {
  }

  lemma FatKeptTrans(f0: Fat, f1: Fat, f2: Fat, c: seq<int>, c': seq<int>)
    requires FatKept(f0, f1, c) && FatKept(f1, f2, c') && c <= c'
    ensures FatKept(f0, f2, c')
  {
    forall b | 0 <= b < 1024 && b !in c' ensures f2[b] == f0[b] {
      assert forall k :: 0 <= k < |c| ==> c[k] == c'[k];
    }
  }

  lemma GrownTrans(c0: Chains, c1: Chains, c2: Chains, i: nat)
    requires Grown(c0, c1, i) && Grown(c1, c2, i)
    ensures Grown(c0, c2, i)
  {
  }

  lemma GrownRefl(c: Chains, i: nat)
    requires i < 256
    ensures Grown(c, c, i)
  {
  }

  lemma GrownPrefix(c0: Chains, c1: Chains, i: nat)
    requires Grown(c0, c1, i)
    ensures i < 256 && c0[i] <= c1[i] && |c0[i]| <= |c1[i]|
  {
  }

  lemma ChainFacts(s: State, i: nat)
    requires Sound(s) && i < 256
    ensures Linked(s.fat, s.chains[i]) && InData(s.chains[i]) && Distinct(s.chains[i])
    ensures s.dir[i].firstBlock == First(s.chains[i]) && s.dir[i].size <= 512 * |s.chains[i]|
    ensures |s.chains[i]| + s.sb.freeBlocks <= 923
  {
    var c := s.chains[i];
    forall k, l | 0 <= k < |c| && 0 <= l < |c| && c[k] == c[l] ensures k == l {
      assert s.owner[c[k]] == At(i, k) && s.owner[c[l]] == At(i, l);
    }
    BlocksAtLeast(s.chains, |s.chains|, i);
  }

  lemma GeometryOf(s: State)
    requires Sound(s)
    ensures Geometry(s.sb) && s.dir[0].used == 0
  {
  }

  /** Blocks of different entries never coincide. */
  lemma ChainsApart(s: State, i: nat, j: nat)
    requires Sound(s) && i < 256 && j < 256 && i != j
    ensures forall k :: 0 <= k < |s.chains[j]| ==> s.chains[j][k] !in s.chains[i]
  {
    forall k | 0 <= k < |s.chains[j]| ensures s.chains[j][k] !in s.chains[i] {
      assert s.owner[s.chains[j][k]] == At(j, k);
    }
  }

  lemma {:induction false} BlocksAtLeast(chains: Chains, n: nat, i: nat)
    requires i < n <= 256
    ensures Blocks(chains, n) >= |chains[i]|
  {
    if i < n - 1 { BlocksAtLeast(chains, n - 1, i); }
  }

  function Min(a: int, b: int): int { if a < b then a else b }
  function Max(a: int, b: int): int { if a < b then b else a }

  // ---- how far a write gets ----

  /** Return value of a write of `size` bytes at `off`, for a file of `blocks` blocks with `free` left on the disk. */
  function WriteResult(blocks: nat, free: nat, off: nat, size: nat): int {
    if blocks + free == 0 then -1
    else if !Reaches(blocks, free, off) then 0
    else Min(size, 512 * (blocks + free) - off)
  }

  /** The block holding `off` exists or can be allocated. */
  predicate Reaches(blocks: nat, free: nat, off: nat) { off / 512 < blocks + free }

  /** Index of the last block a write touches. */
  function LastBlock(off: nat, n: nat): nat { if n == 0 then off / 512 else (off + n - 1) / 512 }

  lemma LastBlockIs(off: nat, n: nat, p: nat)
    requires 512 * p <= off + n <= 512 * p + 512 && (n > 0 ==> 512 * p < off + n) && (n == 0 ==> off < 512 * p + 512)
    ensures LastBlock(off, n) == p
  {
  }

  /** Chain length after the write. */
  function WriteBlocks(blocks: nat, free: nat, off: nat, size: nat): nat {
    if blocks + free == 0 then 0
    else if !Reaches(blocks, free, off) then blocks + free
    else Max(blocks, LastBlock(off, WriteResult(blocks, free, off, size)) + 1)
  }

  lemma ResizeEntry(sb: Superblock, fat: Fat, dir: Directory, chains: Chains, owner: Owners, i: nat, size: u32)
    requires Consistent(sb, fat, dir, chains, owner)
    requires 0 < i < 256 && size <= 512 * |chains[i]|
    ensures Consistent(sb, fat, dir[i := dir[i].(size := size)], chains, owner)
  {
  }

  lemma AppendKept(fat: Fat, c: seq<int>, b: nat)
    requires b < 1024 && (c != [] ==> 0 <= c[|c| - 1] < 1024)
    ensures FatKept(fat, if c == [] then fat[b := EOF] else fat[b := EOF][c[|c| - 1] := b], c + [b])
  {
    if c != [] { assert c[|c| - 1] in c; }
  }

  // ---- the steps ----

  /** The data region changes by exactly `bytes` laid over chain `c` at `off`. */
  ghost predicate OverlaidData(d0: Sectors, d1: Sectors, c: seq<int>, off: nat, bytes: seq<byte>) {
    && InData(c)
    && |d0| == |d1|
    && off + |bytes| <= 512 * |c|
    && ChainBytes(d1, c) == Splice(ChainBytes(d0, c), off, bytes)
    && (forall b :: 101 <= b < |d0| && b !in c ==> d1[b] == d0[b])
  }

  ghost predicate WriteStep(s: State, s': State, i: nat, data: seq<byte>, off: u32, r: int) {
    && i < 256
    && var (blocks, free) := (|s.chains[i]|, s.sb.freeBlocks);
    && r == WriteResult(blocks, free, off, |data|)
    && |s'.chains[i]| == WriteBlocks(blocks, free, off, |data|)
    && Grown(s.chains, s'.chains, i)
    && FatKept(s.fat, s'.fat, s'.chains[i])
    && s'.sb == s.sb.(freeBlocks := s'.sb.freeBlocks)
    && |s'.chains[i]| + s'.sb.freeBlocks == blocks + free
    && s'.dir == s.dir[i := s.dir[i].(firstBlock := s'.dir[i].firstBlock, size := s'.dir[i].size)]
    && s'.dir[i].size == (if Reaches(blocks, free, off) then Max(s.dir[i].size, off + r) else s.dir[i].size)
    && (if Reaches(blocks, free, off)
        then Synced(s') && OverlaidData(s.sectors, s'.sectors, s'.chains[i], off, data[..r])
        else s'.sectors == s.sectors)
  }

  lemma WriteStepStopped(s: State, s': State, i: nat, data: seq<byte>, off: u32, r: int)
    requires i < 256 && Grown(s.chains, s'.chains, i) && FatKept(s.fat, s'.fat, s'.chains[i]) && s'.sectors == s.sectors
    requires s'.sb == s.sb.(freeBlocks := s'.sb.freeBlocks)
    requires s'.dir == s.dir[i := s.dir[i].(firstBlock := s'.dir[i].firstBlock)]
    requires var room := |s.chains[i]| + s.sb.freeBlocks;
             && |s'.chains[i]| + s'.sb.freeBlocks == room
             && s'.sb.freeBlocks == 0
             && off / 512 >= room
             && r == if room == 0 then -1 else 0
    ensures WriteStep(s, s', i, data, off, r)
  {
  }

  lemma WriteStepDone(s: State, s': State, i: nat, data: seq<byte>, off: u32, r: int)
    requires i < 256 && Grown(s.chains, s'.chains, i) && FatKept(s.fat, s'.fat, s'.chains[i]) && Synced(s')
    requires s'.sb == s.sb.(freeBlocks := s'.sb.freeBlocks)
    requires s'.dir == s.dir[i := s.dir[i].(firstBlock := s'.dir[i].firstBlock, size := s'.dir[i].size)]
    requires var (blocks, room) := (|s.chains[i]|, |s.chains[i]| + s.sb.freeBlocks);
             && |s'.chains[i]| + s'.sb.freeBlocks == room
             && off / 512 < room
             && r == Min(|data|, 512 * room - off)
             && s'.dir[i].size == Max(s.dir[i].size, off + r)
             && |s'.chains[i]| == Max(Max(Max(1, blocks), off / 512 + 1), LastBlock(off, r) + 1)
    requires OverlaidData(s.sectors, s'.sectors, s'.chains[i], off, data[..r])
    ensures WriteStep(s, s', i, data, off, r)
  {
    hide OverlaidData, OnDisk, Grown, FatKept;
    assert off / 512 <= LastBlock(off, r);
  }

  lemma OverlaidFlushed(d0: Sectors, d1: Sectors, d2: Sectors, c: seq<int>, off: nat, bytes: seq<byte>)
    requires Overlaid(d0, d1, c, off, bytes)
    requires |d2| == |d1| && forall b :: 101 <= b < |d1| ==> d2[b] == d1[b]
    ensures OverlaidData(d0, d2, c, off, bytes)
  {
    ChainBytesFrame(d1, d2, c);
  }

  // ---- read ----

  /** Bytes a read of `n` at `off` delivers, for a file of `size` bytes on blocks of `capacity` bytes; the sum of
      offset and length is a 32-bit sum. */
  function ReadCount(size: nat, capacity: nat, off: nat, n: nat): nat
    requires size <= capacity
  {
    if off >= size then 0
    else Min(if (off + n) % 0x1_0000_0000 > size then size - off else n, capacity - off)
  }

  ghost predicate ReadStep(s: State, i: nat, n: u32, off: u32, buffer: seq<byte>, r: nat) {
    && i < 256
    && s.dir[i].size <= 512 * |s.chains[i]|
    && r == ReadCount(s.dir[i].size, 512 * |s.chains[i]|, off, n)
    && r <= |buffer|
    && InData(s.chains[i])
    && (r > 0 ==> buffer[..r] == ChainBytes(s.sectors, s.chains[i])[off..off + r])
  }

  // ---- directory searches ----

  predicate Matches(d: Dirent, parent: u32, name: seq<byte>) {
    d.used != 0 && d.parentInode == parent && CStr(d.name) == name
  }

  predicate Named(d: Dirent, name: seq<byte>) { d.used != 0 && CStr(d.name) == name }

  /** `i` is the first entry from `from` on with property `p`, or -1 when there is none. */
  ghost predicate FirstSuch(dir: Directory, p: Dirent -> bool, from: nat, i: int) {
    && (i == -1 || (from <= i < 256 && p(dir[i])))
    && (forall j :: from <= j < (if i == -1 then 256 else i) ==> !p(dir[j]))
  }

  // ---- create and unlink ----

  function NewDirent(old_: Dirent, parent: u32, name: seq<byte>, isDirectory: bool): Dirent {
    Dirent(CopyName(old_.name, name), 0, 0, if isDirectory then 1 else 0, 1, parent)
  }

  function Removed(d: Dirent): Dirent { d.(used := 0, name := d.name[0 := 0], firstBlock := 0, size := 0) }

  /** Create: refused under a non-directory, on a duplicate, or without a free entry; else the first free entry. */
  ghost predicate CreateStep(s: State, s': State, parent: u32, parentIsDir: bool, name: seq<byte>, isDirectory: bool,
                             i: int, r: int) {
    var refused := !parentIsDir || exists j :: 0 <= j < 256 && Matches(s.dir[j], parent, name);
    && (r == 0 || r == -1)
    && (!refused ==> FirstSuch(s.dir, (d: Dirent) => d.used == 0, 1, i))
    && (r == 0 <==> !refused && i != -1)
    && (r == -1 ==> s' == s)
    && (r == 0 ==>
          && s' == s.(dir := s.dir[i := NewDirent(s.dir[i], parent, name, isDirectory)], sectors := s'.sectors)
          && |s'.sectors| == |s.sectors|
          && DirOnDisk(s'.sectors, s'.dir)
          && (forall b :: 0 <= b < |s.sectors| && !(11 <= b < 101) ==> s'.sectors[b] == s.sectors[b]))
  }

  /** Entry `i` loses its blocks and its record, and the result is flushed. */
  ghost predicate RemoveStep(s: State, s': State, i: nat) {
    && i < 256
    && s'.chains == s.chains[i := []]
    && Zeroed(s.fat, s'.fat, s.chains[i])
    && s'.dir == s.dir[i := Removed(s.dir[i])]
    && s'.sb == s.sb.(freeBlocks := s'.sb.freeBlocks)
    && s'.sb.freeBlocks == s.sb.freeBlocks + |s.chains[i]|
    && Synced(s')
    && |s'.sectors| == |s.sectors|
    && (forall b :: 101 <= b < |s.sectors| ==> s'.sectors[b] == s.sectors[b])
  }

  /** Unlink: the first used entry with that name, in whatever directory, is removed. */
  ghost predicate UnlinkStep(s: State, s': State, parentIsDir: bool, name: seq<byte>, i: int, r: int) {
    && (r == 0 || r == -1)
    && (parentIsDir ==> FirstSuch(s.dir, (d: Dirent) => Named(d, name), 0, i))
    && (r == 0 <==> parentIsDir && i != -1)
    && (r == -1 ==> s' == s)
    && (r == 0 ==> RemoveStep(s, s', i))
  }

  lemma AddEntry(sb: Superblock, fat: Fat, dir: Directory, chains: Chains, owner: Owners, i: nat,
                 parent: u32, name: seq<byte>, isDirectory: bool)
    requires Consistent(sb, fat, dir, chains, owner)
    requires 0 < i < 256 && dir[i].used == 0
    ensures Consistent(sb, fat, dir[i := NewDirent(dir[i], parent, name, isDirectory)], chains, owner)
  {
  }

  function Disowned(owner: Owners, c: seq<int>): Owners {
    seq(1024, b requires 0 <= b < 1024 => if b in c then Unowned else owner[b])
  }

  lemma DropEntry(sb: Superblock, fat: Fat, dir: Directory, chains: Chains, owner: Owners, i: nat, fat': Fat, free: u32)
    requires Consistent(sb, fat, dir, chains, owner)
    requires 0 < i < 256 && free == sb.freeBlocks + |chains[i]|
    requires Zeroed(fat, fat', chains[i])
    requires FreeCount(fat') == FreeCount(fat) + |chains[i]|
    ensures Consistent(sb.(freeBlocks := free), fat', dir[i := Removed(dir[i])], chains[i := []], Disowned(owner, chains[i]))
  {
    DropChain(fat, dir, chains, owner, i, fat', dir[i := Removed(dir[i])], Disowned(owner, chains[i]));
  }

  // ---- format ----

  const SB0 := Superblock(MAGIC, 1024, 1, 11, 101, 923)

  function Fat0(): Fat { seq(1024, x => if x < 101 then EOF else 0) }
  function Dir0(): Directory { seq(256, _ => EmptyDirent()) }

  lemma FreshConsistent()
    ensures Consistent(SB0, Fat0(), Dir0(), seq(256, _ => []), seq(1024, _ => Unowned))
  {
    var f := Fat0();
    FreshFree(|f|);
    FreshBlocks(256);
  }

  lemma {:induction false} FreshFree(n: nat)
    requires n <= 1024
    ensures FreeBelow(Fat0(), n) == if n <= 101 then 0 else n - 101
  {
    if n > 101 { FreshFree(n - 1); }
  }

  lemma {:induction false} FreshBlocks(n: nat)
    requires n <= 256
    ensures Blocks(seq(256, _ => []), n) == 0
  {
    if n > 0 { FreshBlocks(n - 1); }
  }

  /** The image can be mounted: it holds a consistent filesystem for some chains. */
  ghost predicate Mountable(disk: Sectors) {
    exists chains: Chains, owner: Owners :: Consistent(SbOf(disk[0]), FatOf(disk), DirOf(disk), chains, owner)
  }

  lemma SyncedMountable(s: State)
    requires Sound(s) && Synced(s)
    ensures Mountable(s.sectors)
  {
    ImageRoundTrip(s.sectors, s.sb, s.fat, s.dir);
  }
}
