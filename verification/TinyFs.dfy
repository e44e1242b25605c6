/** The mounted filesystem object (src/kernel/VFS/tinyfs.c) over an ideal disk. */
module TinyFsModule {
  import opened Basics
  import opened Layout
  import opened DiskImage
  import opened FatChains
  import opened FileBytes
  import opened FsSpec

  /** A disk of 512-byte sectors; transfers inside it always succeed. */
  class Disk {
    var sectors: Sectors

    constructor (initial: Sectors)
      ensures sectors == initial
    {
      sectors := initial;
    }

    method Read(lba: nat, buffer: array<byte>) returns (ok: bool)
      requires buffer.Length == 512
      modifies buffer
      ensures ok <==> lba < |sectors|
      ensures ok ==> buffer[..] == sectors[lba]
    {
      ok := lba < |sectors|;
      if ok {
        var s := sectors[lba];
        for k := 0 to 512
          invariant sectors == old(sectors)
          invariant forall r :: 0 <= r < k ==> buffer[r] == s[r]
        {
          buffer[k] := s[k];
        }
        assert buffer[..] == s;
      }
    }

    method Write(lba: nat, buffer: array<byte>) returns (ok: bool)
      requires buffer.Length == 512
      modifies this
      ensures ok <==> lba < |old(sectors)|
      ensures sectors == if ok then old(sectors)[lba := buffer[..]] else old(sectors)
    {
      ok := lba < |sectors|;
      if ok {
        sectors := sectors[lba := buffer[..]];
      }
    }
  }

  class TinyFs {
    const disk: Disk
    var sb: Superblock
    const fat: array<u32>
    const dirents: array<Dirent>

    /** The block chain of each directory entry, and the position each block is at. */
    ghost var chains: Chains
    ghost var owner: Owners

    constructor (d: Disk)
      ensures disk == d && fresh(fat) && fresh(dirents) && Wired()
    {
      disk := d;
      sb := Superblock(0, 0, 0, 0, 0, 0);
      fat := new u32[1024](_ => 0);
      dirents := new Dirent[256](_ => EmptyDirent());
      chains := seq(256, _ => []);
      owner := seq(1024, _ => Unowned);
    }

    ghost predicate Wired() {
      fat.Length == 1024 && dirents.Length == 256 && fat as object != dirents as object
    }

    ghost predicate Valid()
      reads this, fat, dirents
    {
      Wired() && Consistent(sb, fat[..], dirents[..], chains, owner)
    }

    ghost function Snap(): State
      requires Wired()
      reads this, fat, dirents, disk
    {
      State(sb, fat[..], dirents[..], disk.sectors, chains, owner)
    }

    // ---- allocation ----

    /** First fit over the data region. */
    method AllocateBlock() returns (r: int)
      requires Wired() && Geometry(sb) && sb.freeBlocks == FreeCount(fat[..])
      modifies this`sb, fat
      ensures r == -1 <==> old(sb.freeBlocks) == 0
      ensures r == -1 ==> sb == old(sb) && fat[..] == old(fat[..])
      ensures r != -1 ==>
                && 101 <= r < 1024
                && old(fat[r]) == 0
                && (forall b :: 101 <= b < r ==> old(fat[b]) != 0)
                && fat[..] == old(fat[..])[r := EOF]
                && sb == old(sb).(freeBlocks := old(sb).freeBlocks - 1)
    {
      ghost var f: Fat := fat[..];
      for i := sb.dataStart to sb.totalBlocks
        invariant sb == old(sb) && fat[..] == f
        invariant forall b :: 101 <= b < i ==> f[b] != 0
      {
        if fat[i] == 0 {
          FreeBelowNone(f, |f|);
          assert f[i] == 0;
          fat[i] := EOF;
          assert fat[..] == f[i := EOF];
          sb := sb.(freeBlocks := sb.freeBlocks - 1);
          return i;
        }
      }
      FreeBelowNone(f, |f|);
      r := -1;
    }

    /** Gives entry `i` its first block if it has none. */
    method EnsureFirstBlock(i: nat) returns (ok: bool)
      requires Valid() && i < 256 && dirents[i].used != 0
      modifies this`sb, this`chains, this`owner, fat, dirents
      ensures Valid()
      ensures ok <==> old(|chains[i]| + sb.freeBlocks) > 0
      ensures !ok || old(chains[i]) != [] ==>
                sb == old(sb) && chains == old(chains) && fat[..] == old(fat[..]) && dirents[..] == old(dirents[..])
      ensures ok ==> |chains[i]| > 0 && |chains[i]| == Max(1, old(|chains[i]|))
      ensures Grown(old(chains), chains, i)
      ensures |chains[i]| + sb.freeBlocks == old(|chains[i]| + sb.freeBlocks)
      ensures dirents[..] == old(dirents[..])[i := old(dirents[i]).(firstBlock := First(chains[i]))]
      ensures FatKept(old(fat[..]), fat[..], chains[i])
    {
      hide Shape, FreeCount;
      ChainFacts(Snap(), i);
      ok := true;
      if dirents[i].firstBlock == 0 {
        ghost var f: Fat, d: Directory := fat[..], dirents[..];
        var block := AllocateBlock();
        if block < 0 { ok := false; assert d == d[i := d[i].(firstBlock := First(chains[i]))]; return; }
        dirents[i] := dirents[i].(firstBlock := block);
        assert dirents[..] == d[i := d[i].(firstBlock := block)];
        AppendBlock(f, d, chains, owner, i, block, fat[..], dirents[..]);
        owner := owner[block := At(i, |chains[i]|)];
        chains := chains[i := chains[i] + [block]];
      } else {
        assert dirents[..] == dirents[..][i := dirents[i].(firstBlock := First(chains[i]))];
      }
    }

    /** One step along chain `i` from position `k`, extending the chain when it ends there. */
    method NextBlock(ghost i: nat, ghost k: nat, current: nat) returns (ok: bool, next: nat)
      requires Valid() && i < 256 && dirents[i].used != 0
      requires k < |chains[i]| && current == chains[i][k]
      modifies this`sb, this`chains, this`owner, fat
      ensures Valid()
      ensures ok <==> k + 1 < |old(chains[i])| || old(sb.freeBlocks) > 0
      ensures !ok || k + 1 < |old(chains[i])| ==>
                sb == old(sb) && chains == old(chains) && owner == old(owner) && fat[..] == old(fat[..])
      ensures ok ==> k + 1 < |chains[i]| && next == chains[i][k + 1] && |chains[i]| == Max(k + 2, old(|chains[i]|))
      ensures Grown(old(chains), chains, i)
      ensures |chains[i]| + sb.freeBlocks == old(|chains[i]| + sb.freeBlocks)
      ensures FatKept(old(fat[..]), fat[..], chains[i])
    {
      hide Consistent, Linked, Distinct, Grown, FatKept;
      ChainFacts(Snap(), i);
      BlockInData(chains[i], k);
      AtEnd(fat[..], chains[i], k);
      GrownRefl(chains, i);
      FatKeptRefl(fat[..], chains[i]);
      ok, next := true, 0;
      if fat[current] == EOF {
        ok := ExtendChain(i, current);
        if !ok { return; }
        GrownPrefix(old(chains), chains, i);
        ChainFacts(Snap(), i);
        AtEnd(fat[..], chains[i], k);
      }
      next := fat[current];
    }

    /** Allocates a block and links it behind the last one. */
    method ExtendChain(ghost i: nat, current: nat) returns (ok: bool)
      requires Valid() && i < 256 && dirents[i].used != 0
      requires chains[i] != [] && current == chains[i][|chains[i]| - 1]
      modifies this`sb, this`chains, this`owner, fat
      ensures Valid()
      ensures ok <==> old(sb.freeBlocks) > 0
      ensures !ok ==> sb == old(sb) && chains == old(chains) && owner == old(owner) && fat[..] == old(fat[..])
      ensures ok ==> |chains[i]| == |old(chains[i])| + 1 && sb.freeBlocks == old(sb.freeBlocks) - 1
      ensures Grown(old(chains), chains, i)
      ensures FatKept(old(fat[..]), fat[..], chains[i])
    {
      hide Shape, FreeCount, Linked, Distinct, FatKept;
      ChainFacts(Snap(), i);
      BlockInData(chains[i], |chains[i]| - 1);
      ghost var f: Fat, c := fat[..], chains[i];
      FatKeptRefl(f, c);
      var block := AllocateBlock();
      ok := block >= 0;
      if ok {
        var newBlock: u32 := block;
        fat[current] := newBlock;
        assert fat[..] == f[newBlock := EOF][current := newBlock];
        AppendBlock(f, dirents[..], chains, owner, i, block, fat[..], dirents[..]);
        AppendKept(f, c, block);
        owner := owner[block := At(i, |c|)];
        chains := chains[i := c + [block]];
      }
    }

    // ---- write ----

    /** The walk to block number `n` of entry `i`, extending the chain as it goes. */
    method SeekBlock(ghost i: nat, first: nat, n: nat) returns (ok: bool, current: nat)
      requires Valid() && i < 256 && dirents[i].used != 0
      requires |chains[i]| > 0 && first == chains[i][0]
      modifies this`sb, this`chains, this`owner, fat
      ensures Valid()
      ensures ok <==> n < old(|chains[i]| + sb.freeBlocks)
      ensures ok ==> n < |chains[i]| && current == chains[i][n] && |chains[i]| == Max(old(|chains[i]|), n + 1)
      ensures !ok ==> sb.freeBlocks == 0
      ensures Grown(old(chains), chains, i)
      ensures |chains[i]| + sb.freeBlocks == old(|chains[i]| + sb.freeBlocks)
      ensures FatKept(old(fat[..]), fat[..], chains[i])
    {
      hide Consistent;
      current := first;
      for t := 0 to n
        invariant Valid()
        invariant Grown(old(chains), chains, i)
        invariant |chains[i]| == Max(old(|chains[i]|), t + 1) && current == chains[i][t]
        invariant |chains[i]| + sb.freeBlocks == old(|chains[i]| + sb.freeBlocks)
        invariant FatKept(old(fat[..]), fat[..], chains[i])
      {
        var next;
        ghost var f, c := fat[..], chains[i];
        ok, next := NextBlock(i, t, current);
        FatKeptTrans(old(fat[..]), f, fat[..], c, chains[i]);
        if !ok { return; }
        current := next;
      }
      ok := true;
    }

    /** One block of the data loop; the block is read first unless it is overwritten whole. */
    method WriteInBlock(buffer: array<byte>, current: nat, at: nat, data: seq<byte>, n: nat) returns (toWrite: nat)
      requires buffer.Length == 512 && at < 512 && n < |data| && current < |disk.sectors|
      modifies buffer, disk
      ensures toWrite == Min(512 - at, |data| - n)
      ensures disk.sectors == old(disk.sectors)[current := Splice(old(disk.sectors)[current], at, data[n..n + toWrite])]
    {
      if at > 0 || |data| - n < 512 {
        var _ := disk.Read(current, buffer);
      }
      toWrite := 512 - at;
      if toWrite > |data| - n {
        toWrite := |data| - n;
      }
      StoreBytes(buffer, at, data[n..n + toWrite]);
      assert buffer[..] == Splice(disk.sectors[current], at, data[n..n + toWrite]);
      var _ := disk.Write(current, buffer);
    }

    /** The step to the next block inside the data loop, which started with chains `cs0`, table `f0` and disk `d0`. */
    method NextDataBlock(ghost i: nat, ghost p: nat, current: nat, ghost cs0: Chains, ghost f0: Fat, ghost d0: Sectors,
                         ghost off: nat, ghost bytes: seq<byte>) returns (ok: bool, next: nat)
      requires Valid() && i < 256 && dirents[i].used != 0
      requires p < |chains[i]| && current == chains[i][p]
      requires Grown(cs0, chains, i) && FatKept(f0, fat[..], chains[i]) && Overlaid(d0, disk.sectors, chains[i], off, bytes)
      modifies this`sb, this`chains, this`owner, fat
      ensures Valid()
      ensures ok <==> p + 1 < |old(chains[i])| || old(sb.freeBlocks) > 0
      ensures |chains[i]| == if ok then Max(p + 2, old(|chains[i]|)) else old(|chains[i]|)
      ensures ok ==> next == chains[i][p + 1]
      ensures |chains[i]| + sb.freeBlocks == old(|chains[i]| + sb.freeBlocks)
      ensures Grown(cs0, chains, i) && FatKept(f0, fat[..], chains[i]) && Overlaid(d0, disk.sectors, chains[i], off, bytes)
    {
      hide Consistent, Overlaid, Linked, InData, Distinct, Grown, FatKept;
      ghost var cs, f := chains, fat[..];
      ok, next := NextBlock(i, p, current);
      GrownTrans(cs0, cs, chains, i);
      GrownPrefix(cs, chains, i);
      FatKeptTrans(f0, f, fat[..], cs[i], chains[i]);
      ChainFacts(Snap(), i);
      OverlaidGrown(d0, disk.sectors, cs[i], chains[i], off, bytes);
    }

    /** One more part of the data goes over the chain `c`, into its block `p`. */
    method WriteChunk(buffer: array<byte>, current: nat, byteOffset: nat, data: seq<byte>, n: nat,
                      ghost d0: Sectors, ghost c: seq<int>, ghost off: nat, ghost p: nat) returns (toWrite: nat)
      requires buffer.Length == 512 && n < |data| && byteOffset < 512
      requires InData(c) && Distinct(c) && p < |c| && current == c[p] && off + n == 512 * p + byteOffset
      requires Overlaid(d0, disk.sectors, c, off, data[..n])
      modifies buffer, disk
      ensures toWrite == Min(512 - byteOffset, |data| - n)
      ensures Overlaid(d0, disk.sectors, c, off, data[..n + toWrite])
    {
      hide Overlaid, InData, Distinct, ChainBytes, Splice;
      BlockInData(c, p);
      ghost var d1 := disk.sectors;
      toWrite := WriteInBlock(buffer, current, byteOffset, data, n);
      OverlaidStep(d0, d1, disk.sectors, c, off, data[..n], p, byteOffset, data[n..n + toWrite]);
      assert data[..n + toWrite] == data[..n] + data[n..n + toWrite];
    }

    /** The data loop: block by block from byte `at` of block number `p0`. */
    method WriteData(ghost i: nat, start: nat, data: seq<byte>, ghost off: nat, ghost p0: nat, at: nat) returns (n: nat)
      requires Valid() && i < 256 && dirents[i].used != 0
      requires p0 < |chains[i]| && start == chains[i][p0] && at < 512 && off == 512 * p0 + at
      modifies this`sb, this`chains, this`owner, fat, disk
      ensures Valid()
      ensures n == Min(|data|, 512 * old(|chains[i]| + sb.freeBlocks) - off)
      ensures |chains[i]| == Max(old(|chains[i]|), LastBlock(off, n) + 1)
      ensures Grown(old(chains), chains, i)
      ensures |chains[i]| + sb.freeBlocks == old(|chains[i]| + sb.freeBlocks)
      ensures FatKept(old(fat[..]), fat[..], chains[i])
      ensures Overlaid(old(disk.sectors), disk.sectors, chains[i], off, data[..n])
    {
      hide Consistent, Overlaid, Linked, InData, Distinct, ChainBytes, Splice, Grown, LastBlock, FatKept;
      ghost var d0, room := disk.sectors, |chains[i]| + sb.freeBlocks;
      ghost var p: nat := p0;
      var current: nat, byteOffset: nat := start, at;
      var buffer := new byte[512];
      n := 0;
      ChainFacts(Snap(), i);
      OverlaidStart(d0, chains[i], off, data[..0]);
      GrownRefl(chains, i);
      FatKeptRefl(fat[..], chains[i]);
      LastBlockIs(off, 0, p);
      while n < |data|
        invariant Valid()
        invariant Grown(old(chains), chains, i)
        invariant |chains[i]| + sb.freeBlocks == room
        invariant FatKept(old(fat[..]), fat[..], chains[i])
        invariant p < |chains[i]| && current == chains[i][p] && |chains[i]| == Max(old(|chains[i]|), p + 1)
        invariant n <= |data|
        invariant n < |data| ==> byteOffset < 512 && off + n == 512 * p + byteOffset
        invariant n == |data| ==> p == LastBlock(off, n)
        invariant Overlaid(d0, disk.sectors, chains[i], off, data[..n])
      {
        ChainFacts(Snap(), i);
        var toWrite := WriteChunk(buffer, current, byteOffset, data, n, d0, chains[i], off, p);
        n := n + toWrite;
        byteOffset := 0;
        LastBlockIs(off, n, p);
        if n < |data| {
          var ok, next := NextDataBlock(i, p, current, old(chains), old(fat[..]), d0, off, data[..n]);
          if !ok { break; }
          current, p := next, p + 1;
        }
      }
      OverlaidFits(d0, disk.sectors, chains[i], off, data[..n]);
    }

    /** tinyfs_write through the node of entry `dirent`; -1 stands for the root node, which has no entry. */
    method Write(dirent: int, data: seq<byte>, off: u32) returns (r: int)
      requires Valid() && -1 <= dirent < 256 && (dirent >= 0 ==> dirents[dirent].used != 0)
      requires |data| < 0x1_0000_0000
      modifies this`sb, this`chains, this`owner, fat, dirents, disk
      ensures Valid()
      ensures dirent == -1 ==> r == -1 && Snap() == old(Snap())
      ensures dirent >= 0 ==> WriteStep(old(Snap()), Snap(), dirent, data, off, r)
    {
      hide Consistent, Overlaid, OverlaidData, OnDisk, InData, Linked, Distinct, WriteStep, Grown, LastBlock, FatKept;
      if dirent < 0 { return -1; }
      ghost var s := Snap();
      GeometryOf(s);
      var ok := EnsureFirstBlock(dirent);
      GeometryOf(Snap());
      if !ok {
        WriteStepStopped(s, Snap(), dirent, data, off, -1);
        return -1;
      }
      ghost var cs, f := chains, fat[..];
      ChainFacts(Snap(), dirent);
      var current;
      ok, current := SeekBlock(dirent, dirents[dirent].firstBlock, off / 512);
      GrownPrefix(cs, chains, dirent);
      GrownTrans(s.chains, cs, chains, dirent);
      FatKeptTrans(s.fat, f, fat[..], cs[dirent], chains[dirent]);
      GeometryOf(Snap());
      if !ok {
        WriteStepStopped(s, Snap(), dirent, data, off, 0);
        return 0;
      }
      cs, f := chains, fat[..];
      r := WriteData(dirent, current, data, off, off / 512, off % 512);
      GrownPrefix(cs, chains, dirent);
      GrownTrans(s.chains, cs, chains, dirent);
      FatKeptTrans(s.fat, f, fat[..], cs[dirent], chains[dirent]);
      ghost var d1 := disk.sectors;
      GeometryOf(Snap());
      ChainFacts(Snap(), dirent);
      OverlaidFits(s.sectors, d1, chains[dirent], off, data[..r]);
      FinishWrite(dirent, off, r);
      OverlaidFlushed(s.sectors, d1, disk.sectors, chains[dirent], off, data[..r]);
      WriteStepDone(s, Snap(), dirent, data, off, r);
    }

    /** Size update and flush. */
    method FinishWrite(i: nat, off: nat, n: nat)
      requires Valid() && 0 < i < 256 && off + n <= 512 * |chains[i]| <= 512 * 923
      modifies dirents, disk
      ensures Valid()
      ensures dirents[..] == old(dirents[..])[i := old(dirents[i]).(size := Max(old(dirents[i].size), off + n))]
      ensures Synced(Snap())
      ensures |disk.sectors| == |old(disk.sectors)|
      ensures forall b :: 101 <= b < |disk.sectors| ==> disk.sectors[b] == old(disk.sectors)[b]
    {
      hide Consistent;
      assert Geometry(sb) by { GeometryOf(Snap()); }
      if off + n > dirents[i].size {
        ghost var d: Directory := dirents[..];
        ResizeEntry(sb, fat[..], d, chains, owner, i, off + n);
        dirents[i] := dirents[i].(size := off + n);
        assert dirents[..] == d[i := d[i].(size := off + n)];
      } else {
        assert dirents[..] == dirents[..][i := dirents[i].(size := Max(dirents[i].size, off + n))];
      }
      Flush();
    }

    // ---- read ----

    /** The read-only walk to block number `n` of a chain that has one. */
    method WalkTo(ghost c: seq<int>, first: nat, n: nat) returns (current: nat)
      requires Wired() && Linked(fat[..], c) && n < |c| && first == c[0]
      ensures current == c[n]
    {
      current := first;
      var i := 0;
      while i < n && current != EOF
        invariant i <= n && current == c[i]
      {
        AtEnd(fat[..], c, i);
        current := fat[current];
        i := i + 1;
      }
    }

    /** One block of the copy loop. */
    method ReadInBlock(buffer: array<byte>, r: nat, block: array<byte>, current: nat, at: nat, left: nat)
      returns (toCopy: nat)
      requires block.Length == 512 && at < 512 && current < |disk.sectors| && buffer != block && r + left <= buffer.Length
      modifies buffer, block
      ensures toCopy == Min(512 - at, left)
      ensures buffer[..] == Splice(old(buffer[..]), r, disk.sectors[current][at..at + toCopy])
    {
      var _ := disk.Read(current, block);
      toCopy := 512 - at;
      if toCopy > left {
        toCopy := left;
      }
      CopyOut(buffer, r, block, at, toCopy);
      assert block[at..at + toCopy] == disk.sectors[current][at..at + toCopy];
    }

    /** The copy loop of a read: up to `want` bytes from byte `off` of the chain `c`, into the front of `buffer`. */
    method ReadBlocks(ghost c: seq<int>, start: nat, buffer: array<byte>, want: nat, ghost off: nat, ghost p0: nat, at: nat)
      returns (r: nat)
      requires Wired() && Linked(fat[..], c) && InData(c)
      requires p0 < |c| && start == c[p0] && at < 512 && off == 512 * p0 + at
      requires want <= buffer.Length && buffer as object != fat
      modifies buffer
      ensures r == Min(want, 512 * |c| - off)
      ensures Copied(disk.sectors, c, off, r, old(buffer[..]), buffer[..])
    {
      hide Linked, InData, Splice, Copied;
      var block := new byte[512];
      var current: nat, byteOffset: nat := start, at;
      ghost var d := disk.sectors;
      ghost var p: nat := p0;
      ghost var f, b0 := fat[..], buffer[..];
      r := 0;
      CopiedStart(d, c, off, b0);
      while r < want && current != EOF
        invariant fat[..] == f && disk.sectors == d
        invariant r <= want && off + r <= 512 * |c|
        invariant p0 <= p <= |c| && current == (if p < |c| then c[p] else EOF)
        invariant byteOffset < 512
        invariant r < want ==> off + r == 512 * p + byteOffset
        invariant p < |c| || byteOffset == 0
        invariant Copied(d, c, off, r, b0, buffer[..])
        decreases want - r
      {
        BlockInData(c, p);
        ghost var b1 := buffer[..];
        var toCopy := ReadInBlock(buffer, r, block, current, byteOffset, want - r);
        CopiedStep(d, c, p, byteOffset, toCopy, off, r, b0, b1, buffer[..]);
        AtEnd(f, c, p);
        r := r + toCopy;
        byteOffset := 0;
        current := fat[current];
        p := p + 1;
      }
      if p < |c| { BlockInData(c, p); }
    }

    /** tinyfs_read; -1 stands for the root node, which has no entry. */
    method Read(dirent: int, buffer: array<byte>, n: u32, off: u32) returns (r: nat)
      requires Valid() && -1 <= dirent < 256
      requires n <= buffer.Length && buffer as object != fat && buffer as object != dirents
      modifies buffer
      ensures dirent == -1 ==> r == 0
      ensures dirent >= 0 ==> ReadStep(Snap(), dirent, n, off, buffer[..], r)
      ensures r <= buffer.Length && buffer[r..] == old(buffer[r..])
    {
      hide Consistent, Distinct, Linked, InData, ChainBytes, Copied;
      r := 0;
      if dirent < 0 { return; }
      ChainFacts(Snap(), dirent);
      ghost var c := chains[dirent];
      var size: nat := dirents[dirent].size;
      if off >= size { return; }
      var want: nat := n;
      if (off + n) % 0x1_0000_0000 > size {
        want := size - off;
      }
      var start := WalkTo(c, dirents[dirent].firstBlock, off / 512);
      ghost var b0 := buffer[..];
      r := ReadBlocks(c, start, buffer, want, off, off / 512, off % 512);
      CopiedResult(disk.sectors, c, off, r, b0, buffer[..]);
    }

    // ---- directory ----

    /** tinyfs_finddir: the first used entry with that parent and that name. */
    method FindDir(parent: u32, name: seq<byte>) returns (i: int)
      requires Wired()
      ensures FirstSuch(dirents[..], (d: Dirent) => Matches(d, parent, name), 0, i)
    {
      for k := 0 to 256
        invariant forall j :: 0 <= j < k ==> !Matches(dirents[..][j], parent, name)
      {
        if Matches(dirents[k], parent, name) { return k; }
      }
      return -1;
    }

    method FindFreeDirent() returns (i: int)
      requires Wired()
      ensures FirstSuch(dirents[..], (d: Dirent) => d.used == 0, 1, i)
    {
      for k := 1 to 256
        invariant forall j :: 1 <= j < k ==> dirents[..][j].used != 0
      {
        if dirents[k].used == 0 { return k; }
      }
      return -1;
    }

    /** tinyfs_create_node under the node with inode `parent`. */
    method Create(parent: u32, parentIsDir: bool, name: seq<byte>, isDirectory: bool) returns (ghost i: int, r: int)
      requires Valid() && IsCString(name)
      modifies dirents, disk
      ensures Valid()
      ensures CreateStep(old(Snap()), Snap(), parent, parentIsDir, name, isDirectory, i, r)
    {
      hide Consistent, CStr, DirSector;
      GeometryOf(Snap());
      i, r := -1, -1;
      if !parentIsDir { return; }
      ghost var s := Snap();
      var dup := FindDir(parent, name);
      if dup >= 0 { assert Matches(s.dir[dup], parent, name); return; }
      var free := FindFreeDirent();
      i := free;
      if free < 0 { return; }
      var fresh_ := NewDirent(dirents[free], parent, name, isDirectory);
      AddEntry(sb, fat[..], dirents[..], chains, owner, free, parent, name, isDirectory);
      dirents[free] := fresh_;
      assert dirents[..] == s.dir[free := fresh_];
      WriteDirectory();
      r := 0;
    }

    /** free_block_chain. */
    method FreeBlockChain(first: nat, ghost c: seq<int>)
      requires Wired() && Linked(fat[..], c) && InData(c) && Distinct(c) && first == First(c)
      requires sb.freeBlocks + |c| <= 923
      modifies this`sb, fat
      ensures Zeroed(old(fat[..]), fat[..], c)
      ensures FreeCount(fat[..]) == FreeCount(old(fat[..])) + |c|
      ensures sb == old(sb).(freeBlocks := old(sb).freeBlocks + |c|)
    {
      hide Linked, InData, Distinct, FreeCount;
      ghost var f: Fat, n: nat := fat[..], 0;
      var current := first;
      assert Zeroed(f, f, c[..0]);
      while current != EOF && current != 0
        invariant n <= |c| && current == (if n < |c| then c[n] else if c == [] then 0 else EOF)
        invariant Zeroed(f, fat[..], c[..n])
        invariant FreeCount(fat[..]) == FreeCount(f) + n
        invariant sb == old(sb).(freeBlocks := old(sb).freeBlocks + n)
        decreases |c| - n
      {
        AtEnd(f, c, n);
        BlockInData(c, n);
        ghost var g: Fat := fat[..];
        ZeroNext(f, g, c, n);
        var next := fat[current];
        fat[current] := 0;
        assert fat[..] == g[current := 0];
        sb := sb.(freeBlocks := sb.freeBlocks + 1);
        current := next;
        n := n + 1;
      }
      if n < |c| { BlockInData(c, n); }
      assert c[..n] == c;
    }

    /** tinyfs_unlink called on a directory node: the name alone selects the entry. */
    method Unlink(parentIsDir: bool, name: seq<byte>) returns (ghost e: int, r: int)
      requires Valid()
      modifies this`sb, this`chains, this`owner, fat, dirents, disk
      ensures Valid()
      ensures UnlinkStep(old(Snap()), Snap(), parentIsDir, name, e, r)
    {
      hide Consistent, RemoveStep, CStr;
      GeometryOf(Snap());
      e, r := -1, -1;
      if !parentIsDir { return; }
      for i := 0 to 256
        invariant Valid() && Snap() == old(Snap())
        invariant forall j :: 0 <= j < i ==> !Named(old(Snap()).dir[j], name)
      {
        if Named(dirents[i], name) {
          e, r := i, 0;
          RemoveEntry(i);
          return;
        }
      }
    }

    method RemoveEntry(i: nat)
      requires Valid() && 0 < i < 256
      modifies this`sb, this`chains, this`owner, fat, dirents, disk
      ensures Valid()
      ensures RemoveStep(old(Snap()), Snap(), i)
    {
      hide Consistent, OnDisk;
      ghost var s := Snap();
      ghost var c := chains[i];
      ChainFacts(s, i);
      GeometryOf(s);
      if dirents[i].firstBlock != 0 {
        FreeBlockChain(dirents[i].firstBlock, c);
      }
      DropEntry(s.sb, s.fat, s.dir, s.chains, s.owner, i, fat[..], sb.freeBlocks);
      chains, owner := chains[i := []], Disowned(owner, c);
      dirents[i] := Removed(dirents[i]);
      assert dirents[..] == s.dir[i := Removed(s.dir[i])];
      FlushAfterUnlink();
    }

    // ---- mount ----

    method LoadFatSector(i: nat, buffer: array<byte>)
      requires Wired() && i < 10 && buffer.Length == 512 && buffer as object != fat
      modifies fat
      ensures forall x :: 0 <= x < 1024 ==>
                fat[x] == if x / 128 == i then FromLe32(buffer[..], 4 * (x % 128)) else old(fat[x])
    {
      for j := 0 to 128
        invariant forall x :: 0 <= x < 1024 ==>
                    fat[x] == if x / 128 == i && x % 128 < j then FromLe32(buffer[..], 4 * (x % 128)) else old(fat[x])
      {
        var idx := i * 128 + j;
        if idx < 1024 {
          fat[idx] := FromLe32(buffer[..], 4 * j);
        }
      }
    }

    method LoadDirSector(i: nat, buffer: array<byte>)
      requires Wired() && i < 90 && buffer.Length == 512 && buffer as object != dirents
      modifies dirents
      ensures forall x :: 0 <= x < 256 ==>
                dirents[x] == if x / 9 == i then DirentOf(buffer[..], 52 * (x % 9)) else old(dirents[x])
    {
      for j := 0 to 9
        invariant forall x :: 0 <= x < 256 ==>
                    dirents[x] == if x / 9 == i && x % 9 < j then DirentOf(buffer[..], 52 * (x % 9)) else old(dirents[x])
      {
        var idx := i * 9 + j;
        if idx < 256 {
          dirents[idx] := DirentOf(buffer[..], 52 * j);
        }
      }
    }

    method LoadFat(buffer: array<byte>) returns (ok: bool)
      requires Wired() && buffer.Length == 512 && buffer as object != fat
      modifies fat, buffer
      ensures sb.fatStart == 1 ==> ok && fat[..] == FatOf(disk.sectors)
    {
      ok := true;
      for i := 0 to 10
        invariant sb.fatStart == 1 ==> forall x :: 0 <= x < 128 * i && x < 1024 ==> fat[x] == FatOf(disk.sectors)[x]
      {
        ok := disk.Read((sb.fatStart + i) % 0x1_0000_0000, buffer);
        if !ok { return; }
        LoadFatSector(i, buffer);
      }
    }

    method LoadDirectory(buffer: array<byte>) returns (ok: bool)
      requires Wired() && buffer.Length == 512 && buffer as object != dirents
      modifies dirents, buffer
      ensures sb.dirStart == 11 ==> ok && dirents[..] == DirOf(disk.sectors)
    {
      ok := true;
      for i := 0 to 90
        invariant sb.dirStart == 11 ==> forall x :: 0 <= x < 9 * i && x < 256 ==> dirents[x] == DirOf(disk.sectors)[x]
      {
        ok := disk.Read((sb.dirStart + i) % 0x1_0000_0000, buffer);
        if !ok { return; }
        LoadDirSector(i, buffer);
      }
    }

    /** tinyfs_mount: rebuilds the superblock, the table and the directory from the disk. */
    method Mount() returns (r: int)
      requires Wired()
      modifies this`sb, this`chains, this`owner, fat, dirents
      ensures r == 0 || r == -1
      ensures SbOf(disk.sectors[0]).magic != MAGIC ==> r == -1
      ensures Geometry(SbOf(disk.sectors[0])) ==>
                r == 0 && sb == SbOf(disk.sectors[0]) && fat[..] == FatOf(disk.sectors) && dirents[..] == DirOf(disk.sectors)
      ensures Mountable(disk.sectors) ==> r == 0 && Valid()
    {
      hide Shape, FreeCount, FatOf, DirOf, SbOf;
      var buffer := new byte[512];
      var _ := disk.Read(0, buffer);
      var onDisk := SbOf(buffer[..]);
      if onDisk.magic != MAGIC { return -1; }
      sb := onDisk;
      var ok := LoadFat(buffer);
      if !ok { return -1; }
      ok := LoadDirectory(buffer);
      if !ok { return -1; }
      if Mountable(disk.sectors) {
        ghost var d := disk.sectors;
        ghost var cs: Chains, os: Owners :| Consistent(SbOf(d[0]), FatOf(d), DirOf(d), cs, os);
        chains, owner := cs, os;
      }
      r := 0;
    }

    // ---- flushing ----

    method WriteSuperblock()
      modifies disk
      ensures disk.sectors == old(disk.sectors)[0 := SbSector(sb)]
    {
      var buffer := new byte[512];
      PackSuperblock(sb, buffer);
      var _ := disk.Write(0, buffer);
    }

    method PackFatSector(i: nat, buffer: array<byte>)
      requires Wired() && i < 10 && buffer.Length == 512 && buffer as object != fat
      modifies buffer
      ensures buffer[..] == FatSector(fat[..], i)
    {
      ghost var want := FatSector(fat[..], i);
      for k := 0 to 512
        invariant forall q :: 0 <= q < k ==> buffer[q] == 0
      {
        buffer[k] := 0;
      }
      for j := 0 to 128
        invariant forall q :: 0 <= q < 4 * j ==> buffer[q] == want[q]
        invariant forall q :: 4 * j <= q < 512 ==> buffer[q] == 0
      {
        var idx := i * 128 + j;
        if idx < 1024 {
          StoreWord(buffer, j, fat[idx]);
        }
        forall q | 4 * j <= q < 4 * j + 4 ensures buffer[q] == want[q] {
          assert q / 4 == j && q % 4 == q - 4 * j;
        }
      }
      assert buffer[..] == want;
    }

    method WriteFat()
      requires Wired() && sb.fatStart == 1
      modifies disk
      ensures |disk.sectors| == |old(disk.sectors)|
      ensures FatOnDisk(disk.sectors, fat[..])
      ensures forall b :: 0 <= b < |disk.sectors| && !(1 <= b < 11) ==> disk.sectors[b] == old(disk.sectors)[b]
    {
      ghost var f: Fat := fat[..];
      var buffer := new byte[512];
      for i := 0 to 10
        invariant fat[..] == f
        invariant |disk.sectors| == |old(disk.sectors)|
        invariant forall s :: 0 <= s < i ==> disk.sectors[1 + s] == FatSector(f, s)
        invariant forall b :: 0 <= b < |disk.sectors| && !(1 <= b < 1 + i) ==> disk.sectors[b] == old(disk.sectors)[b]
      {
        PackFatSector(i, buffer);
        var _ := disk.Write(sb.fatStart + i, buffer);
      }
    }

    method PackDirSector(i: nat, buffer: array<byte>)
      requires Wired() && i < 90 && buffer.Length == 512 && buffer as object != dirents
      modifies buffer
      ensures buffer[..] == DirSector(dirents[..], i)
    {
      ghost var want := DirSector(dirents[..], i);
      for k := 0 to 512
        invariant forall q :: 0 <= q < k ==> buffer[q] == 0
      {
        buffer[k] := 0;
      }
      for j := 0 to 9
        invariant forall q :: 0 <= q < 52 * j ==> buffer[q] == want[q]
        invariant forall q :: 52 * j <= q < 512 ==> buffer[q] == 0
      {
        var idx := i * 9 + j;
        if idx < 256 {
          StoreBytes(buffer, 52 * j, DirentBytes(dirents[idx]));
        }
        forall q | 52 * j <= q < 52 * j + 52 ensures buffer[q] == want[q] {
          assert q / 52 == j && q % 52 == q - 52 * j;
        }
      }
      assert buffer[..] == want;
    }

    method WriteDirectory()
      requires Wired() && sb.dirStart == 11
      modifies disk
      ensures |disk.sectors| == |old(disk.sectors)|
      ensures DirOnDisk(disk.sectors, dirents[..])
      ensures forall b :: 0 <= b < |disk.sectors| && !(11 <= b < 101) ==> disk.sectors[b] == old(disk.sectors)[b]
    {
      ghost var d: Directory := dirents[..];
      var buffer := new byte[512];
      for i := 0 to 90
        invariant dirents[..] == d
        invariant |disk.sectors| == |old(disk.sectors)|
        invariant forall s :: 0 <= s < i ==> disk.sectors[11 + s] == DirSector(d, s)
        invariant forall b :: 0 <= b < |disk.sectors| && !(11 <= b < 11 + i) ==> disk.sectors[b] == old(disk.sectors)[b]
      {
        PackDirSector(i, buffer);
        var _ := disk.Write(sb.dirStart + i, buffer);
      }
    }

    /** The three flushes that end a write. */
    method Flush()
      requires Wired() && Geometry(sb)
      modifies disk
      ensures Synced(Snap())
      ensures |disk.sectors| == |old(disk.sectors)|
      ensures forall b :: 101 <= b < |disk.sectors| ==> disk.sectors[b] == old(disk.sectors)[b]
    {
      hide FatSector, DirSector, SbSector;
      WriteDirectory();
      WriteFat();
      WriteSuperblock();
    }

    /** The three flushes that end an unlink, table first. */
    method FlushAfterUnlink()
      requires Wired() && Geometry(sb)
      modifies disk
      ensures Synced(Snap())
      ensures |disk.sectors| == |old(disk.sectors)|
      ensures forall b :: 101 <= b < |disk.sectors| ==> disk.sectors[b] == old(disk.sectors)[b]
    {
      hide FatSector, DirSector, SbSector;
      WriteFat();
      WriteDirectory();
      WriteSuperblock();
    }
  }

  // ---- format ----

  /** tinyfs_format. */
  method Format(disk: Disk)
    modifies disk
    ensures OnDisk(disk.sectors, SB0, Fat0(), Dir0())
    ensures |disk.sectors| == |old(disk.sectors)|
    ensures forall b :: 101 <= b < |disk.sectors| ==> disk.sectors[b] == old(disk.sectors)[b]
  {
    hide FatSector, DirSector, SbSector;
    var buffer := new byte[512](_ => 0);
    PackSuperblock(SB0, buffer);
    var _ := disk.Write(0, buffer);
    ghost var s1 := disk.sectors;
    FormatFat(disk, buffer);
    ghost var s2 := disk.sectors;
    FormatDirectory(disk, buffer);
  }

  /** Format followed by mount: an empty filesystem in memory and on disk. */
  method FormatAndMount(disk: Disk) returns (fs: TinyFs)
    modifies disk
    ensures fresh(fs) && fresh(fs.fat) && fresh(fs.dirents) && fs.disk == disk && fs.Valid() && Synced(fs.Snap())
    ensures fs.sb == SB0 && fs.fat[..] == Fat0() && fs.dirents[..] == Dir0()
  {
    hide Consistent, SbOf, FatOf, DirOf, OnDisk;
    Format(disk);
    ImageRoundTrip(disk.sectors, SB0, Fat0(), Dir0());
    FreshConsistent();
    fs := new TinyFs(disk);
    var _ := fs.Mount();
  }

  method FormatFat(disk: Disk, buffer: array<byte>)
    requires buffer.Length == 512
    modifies disk, buffer
    ensures |disk.sectors| == |old(disk.sectors)|
    ensures FatOnDisk(disk.sectors, Fat0())
    ensures forall b :: 0 <= b < |disk.sectors| && !(1 <= b < 11) ==> disk.sectors[b] == old(disk.sectors)[b]
  {
    hide FatSector;
    for i := 1 to 11
      invariant |disk.sectors| == |old(disk.sectors)|
      invariant forall s :: 0 <= s < i - 1 ==> disk.sectors[1 + s] == FatSector(Fat0(), s)
      invariant forall b :: 0 <= b < |disk.sectors| && !(1 <= b < i) ==> disk.sectors[b] == old(disk.sectors)[b]
    {
      PackFreshFatSector(i - 1, buffer);
      var _ := disk.Write(i, buffer);
    }
  }

  method PackFreshFatSector(i: nat, buffer: array<byte>)
    requires buffer.Length == 512 && i < 10
    modifies buffer
    ensures buffer[..] == FatSector(Fat0(), i)
  {
    ghost var want := FatSector(Fat0(), i);
    for k := 0 to 512
      invariant forall q :: 0 <= q < k ==> buffer[q] == 0
    {
      buffer[k] := 0;
    }
    for j := 0 to 128
      invariant forall q :: 0 <= q < 4 * j ==> buffer[q] == want[q]
      invariant forall q :: 4 * j <= q < 512 ==> buffer[q] == 0
    {
      var blockNum := i * 128 + j;
      if blockNum < 1024 {
        if blockNum < 101 {
          StoreWord(buffer, j, EOF);
        } else {
          StoreWord(buffer, j, 0);
        }
      }
      forall q | 4 * j <= q < 4 * j + 4 ensures buffer[q] == want[q] {
        assert q / 4 == j && q % 4 == q - 4 * j;
      }
    }
    assert buffer[..] == want;
  }

  method FormatDirectory(disk: Disk, buffer: array<byte>)
    requires buffer.Length == 512
    modifies disk, buffer
    ensures |disk.sectors| == |old(disk.sectors)|
    ensures DirOnDisk(disk.sectors, Dir0())
    ensures forall b :: 0 <= b < |disk.sectors| && !(11 <= b < 101) ==> disk.sectors[b] == old(disk.sectors)[b]
  {
    hide DirSector;
    for k := 0 to 512
      invariant disk.sectors == old(disk.sectors)
      invariant forall q :: 0 <= q < k ==> buffer[q] == 0
    {
      buffer[k] := 0;
    }
    assert buffer[..] == ZeroSector();
    for i := 11 to 101
      invariant buffer[..] == ZeroSector()
      invariant |disk.sectors| == |old(disk.sectors)|
      invariant forall s :: 0 <= s < i - 11 ==> disk.sectors[11 + s] == DirSector(Dir0(), s)
      invariant forall b :: 0 <= b < |disk.sectors| && !(11 <= b < i) ==> disk.sectors[b] == old(disk.sectors)[b]
    {
      FreshDirSector(i - 11);
      var _ := disk.Write(i, buffer);
    }
  }

  lemma FreshDirSector(i: nat)
    ensures DirSector(Dir0(), i) == ZeroSector()
  {
    var s := DirSector(Dir0(), i);
    var e := DirentBytes(EmptyDirent());
    assert forall r :: 0 <= r < 52 ==> e[r] == 0;
    forall q | 0 <= q < 512 ensures s[q] == 0 {
      if q < 468 {
        assert s[q] == Record(Dir0(), i * 9 + q / 52)[q % 52];
      }
    }
  }

  // ---- storing into a sector buffer ----

  method StoreBytes(buffer: array<byte>, at: nat, bytes: seq<byte>)
    requires at + |bytes| <= buffer.Length
    modifies buffer
    ensures forall q :: 0 <= q < buffer.Length ==>
              buffer[q] == if at <= q < at + |bytes| then bytes[q - at] else old(buffer[q])
  {
    for r := 0 to |bytes|
      invariant forall q :: 0 <= q < buffer.Length ==>
                  buffer[q] == if at <= q < at + r then bytes[q - at] else old(buffer[q])
    {
      buffer[at + r] := bytes[r];
    }
  }

  method CopyOut(buffer: array<byte>, at: nat, block: array<byte>, from: nat, n: nat)
    requires at + n <= buffer.Length && from + n <= block.Length && buffer != block
    modifies buffer
    ensures buffer[..] == Splice(old(buffer[..]), at, block[from..from + n])
  {
    for k := 0 to n
      invariant buffer[..] == Splice(old(buffer[..]), at, block[from..from + k])
    {
      buffer[at + k] := block[from + k];
    }
  }

  method PackSuperblock(sb: Superblock, buffer: array<byte>)
    requires buffer.Length == 512
    modifies buffer
    ensures buffer[..] == SbSector(sb)
  {
    ghost var want := SbSector(sb);
    for k := 0 to 512
      invariant forall q :: 0 <= q < k ==> buffer[q] == 0
    {
      buffer[k] := 0;
    }
    for j := 0 to 6
      invariant forall q :: 0 <= q < 4 * j ==> buffer[q] == want[q]
      invariant forall q :: 4 * j <= q < 512 ==> buffer[q] == 0
    {
      StoreWord(buffer, j, SbWord(sb, j));
    }
    assert buffer[..] == want;
  }

  method StoreWord(buffer: array<byte>, j: nat, v: u32)
    requires 4 * j + 4 <= buffer.Length
    modifies buffer
    ensures forall q :: 0 <= q < buffer.Length ==>
              buffer[q] == if 4 * j <= q < 4 * j + 4 then Le32(v)[q - 4 * j] else old(buffer[q])
  {
    StoreBytes(buffer, 4 * j, Le32(v));
  }
}
