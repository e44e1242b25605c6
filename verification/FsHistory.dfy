/** Persistence across mounts, and what whole runs of operations leave behind. */
module FsHistory {
  import opened Basics
  import opened Layout
  import opened DiskImage
  import opened FatChains
  import opened FileBytes
  import opened FsSpec
  import opened FsTheorems

  // ---- persistence ----

  /** What mount loads from the current disk. */
  ghost predicate MountStep(s: State, m: State) {
    && m.sectors == s.sectors
    && m.sb == SbOf(s.sectors[0]) && m.fat == FatOf(s.sectors) && m.dir == DirOf(s.sectors)
  }

  /** Mounting a synced image rebuilds the superblock, the table, the directory, every chain and every file. */
  lemma MountRebuilds(s: State, m: State)
    requires Sound(s) && Synced(s) && Sound(m) && MountStep(s, m)
    ensures m.sb == s.sb && m.fat == s.fat && m.dir == s.dir && m.chains == s.chains
    ensures forall i :: 0 <= i < 256 ==> Bytes(m, i) == Bytes(s, i)
  {
    hide Consistent;
    ImageRoundTrip(s.sectors, s.sb, s.fat, s.dir);
    forall i | 0 <= i < 256 ensures m.chains[i] == s.chains[i] && Bytes(m, i) == Bytes(s, i) {
      ChainFacts(s, i);
      ChainFacts(m, i);
      ChainUnique(s.fat, s.chains[i], m.chains[i]);
    }
  }

  /** The image is that of a consistent state `b` with the same files as `s`, whose chains are beginnings of those of `s`. */
  ghost predicate Recoverable(s: State, b: State) {
    && Sound(b) && Synced(b) && b.sectors == s.sectors
    && forall j :: 0 <= j < 256 ==> b.dir[j] == s.dir[j].(firstBlock := b.dir[j].firstBlock) && b.chains[j] <= s.chains[j]
  }

  /** The image may be behind, but it holds the same files. */
  ghost predicate Backed(s: State) { exists b: State :: Recoverable(s, b) }

  lemma SyncedBacked(s: State)
    requires Sound(s) && Synced(s)
    ensures Recoverable(s, s) && Backed(s)
  {
    hide Consistent, OnDisk;
  }

  /** Mounting such an image gives an exact state with the names and the bytes of every file. */
  lemma MountRecovers(s: State, m: State)
    requires Sound(s) && Backed(s) && Sound(m) && MountStep(s, m)
    ensures Synced(m)
    ensures forall j :: 0 <= j < 256 ==> m.dir[j] == s.dir[j].(firstBlock := m.dir[j].firstBlock) && Bytes(m, j) == Bytes(s, j)
  {
    hide Consistent, OnDisk, ChainBytes;
    var b: State :| Recoverable(s, b);
    MountRebuilds(b, m);
    ImageRoundTrip(b.sectors, b.sb, b.fat, b.dir);
    forall j | 0 <= j < 256 ensures m.dir[j] == s.dir[j].(firstBlock := m.dir[j].firstBlock) && Bytes(m, j) == Bytes(s, j) {
      ChainFacts(b, j);
      ChainFacts(s, j);
      ChainBytesPrefix(s.sectors, b.chains[j], s.chains[j]);
      PrefixOfPrefix(ChainBytes(s.sectors, b.chains[j]), ChainBytes(s.sectors, s.chains[j]), s.dir[j].size);
    }
  }

  lemma PrefixOfPrefix(x: seq<byte>, y: seq<byte>, n: nat)
    requires x <= y && n <= |x|
    ensures x[..n] == y[..n]
  { }

  /** A write that stops in the walk leaves the image recoverable, and also the directory unless the file had no block. */
  lemma StoppedBacked(s: State, s': State, b: State, i: nat, data: seq<byte>, off: u32, r: int)
    requires Sound(s) && Sound(s') && Recoverable(s, b) && WriteStep(s, s', i, data, off, r)
    requires !Reaches(|s.chains[i]|, s.sb.freeBlocks, off)
    ensures Recoverable(s', b)
    ensures b.dir == s.dir && (s.chains[i] != [] || s.sb.freeBlocks == 0) ==> b.dir == s'.dir
  {
    hide Consistent, OnDisk, OverlaidData, FatKept;
    assert forall j :: 0 <= j < 256 ==> s.chains[j] <= s'.chains[j];
    if s.chains[i] != [] {
      SameFirst(s, s', i);
      assert s'.dir[i] == s.dir[i];
      assert s'.dir == s.dir;
    } else if s.sb.freeBlocks == 0 {
      ChainFacts(s, i);
      ChainFacts(s', i);
      assert s'.dir[i] == s.dir[i];
      assert s'.dir == s.dir;
    }
  }

  /** A create keeps the image recoverable if its directory was exact. */
  lemma CreateBacked(s: State, s': State, b: State, parent: u32, parentIsDir: bool, name: seq<byte>, isDirectory: bool, i: int)
    requires Sound(s) && Recoverable(s, b) && b.dir == s.dir
    requires CreateStep(s, s', parent, parentIsDir, name, isDirectory, i, 0)
    ensures Recoverable(s', b.(dir := s'.dir, sectors := s'.sectors))
  {
    hide Consistent, SbSector, FatSector, DirSector;
    GeometryOf(s);
    AddEntry(b.sb, b.fat, b.dir, b.chains, b.owner, i, parent, name, isDirectory);
    assert FatOnDisk(s'.sectors, b.fat) == FatOnDisk(s.sectors, b.fat);
  }

  /** Create flushes only the directory, so the image is exact afterwards iff superblock and table were already. */
  lemma CreateSync(s: State, s': State, parent: u32, parentIsDir: bool, name: seq<byte>, isDirectory: bool, i: int)
    requires CreateStep(s, s', parent, parentIsDir, name, isDirectory, i, 0)
    ensures Synced(s') <==> SbOnDisk(s.sectors, s.sb) && FatOnDisk(s.sectors, s.fat)
  {
    hide SbSector, FatSector, DirSector;
    assert FatOnDisk(s'.sectors, s.fat) == FatOnDisk(s.sectors, s.fat);
  }

  /** The out-of-space return inside the offset walk leaves the disk alone: a mount gives back the state before the
      call, and the image is exact iff the call allocated nothing, that is, iff no block was free. */
  lemma StoppedWriteSync(s: State, s': State, i: nat, data: seq<byte>, off: u32, r: int)
    requires Sound(s) && Sound(s') && Synced(s) && WriteStep(s, s', i, data, off, r)
    requires !Reaches(|s.chains[i]|, s.sb.freeBlocks, off)
    ensures SbOf(s'.sectors[0]) == s.sb && FatOf(s'.sectors) == s.fat && DirOf(s'.sectors) == s.dir
    ensures Synced(s') <==> s.sb.freeBlocks == 0
  {
    hide Consistent, SbSector, FatSector, DirSector;
    ImageRoundTrip(s.sectors, s.sb, s.fat, s.dir);
    if Synced(s') {
      ImageRoundTrip(s'.sectors, s'.sb, s'.fat, s'.dir);
    }
    if s.sb.freeBlocks == 0 {
      assert s'.chains[i] == s.chains[i];
      ChainFacts(s, i);
      ChainFacts(s', i);
      assert s'.dir == s.dir;
      forall b | 0 <= b < 1024 ensures s'.fat[b] == s.fat[b] {
        if b in s.chains[i] {
          var k :| 0 <= k < |s.chains[i]| && s.chains[i][k] == b;
          AtEnd(s.fat, s.chains[i], k);
          AtEnd(s'.fat, s.chains[i], k);
        }
      }
      assert s'.fat == s.fat;
      assert s'.sb == s.sb;
    }
  }

  /** Such a stopped write followed by a create: if the file had no block yet, the directory written points into blocks
      that the table on disk still calls free, and the image cannot be mounted any more; if it had one, it still can. */
  lemma CreateAfterStoppedWrite(s: State, s': State, s'': State, i: nat, data: seq<byte>, off: u32, r: int,
                                parent: u32, parentIsDir: bool, name: seq<byte>, isDirectory: bool, e: int)
    requires Sound(s) && Sound(s') && Synced(s) && WriteStep(s, s', i, data, off, r)
    requires !Reaches(|s.chains[i]|, s.sb.freeBlocks, off) && s.sb.freeBlocks > 0
    requires s.dir[i].used != 0
    requires CreateStep(s', s'', parent, parentIsDir, name, isDirectory, e, 0)
    ensures !Synced(s'') && (Mountable(s''.sectors) <==> s.chains[i] != [])
  {
    hide Consistent, SbSector, FatSector, DirSector, Linked, Grown, Mountable;
    StoppedWriteSync(s, s', i, data, off, r);
    ImageRoundTrip(s.sectors, s.sb, s.fat, s.dir);
    assert FatOnDisk(s''.sectors, s.fat) == FatOnDisk(s.sectors, s.fat);
    ImageRoundTrip(s''.sectors, s.sb, s.fat, s''.dir);
    assert !Synced(s'') by {
      if Synced(s'') { ImageRoundTrip(s''.sectors, s''.sb, s''.fat, s''.dir); }
    }
    if s.chains[i] == [] {
      StoppedFirstBlock(s, s', i, off, data, r);
      assert e != i;
      forall cs: Chains, os: Owners ensures !Consistent(s.sb, s.fat, s''.dir, cs, os) {
        if Consistent(s.sb, s.fat, s''.dir, cs, os) { DanglingFirst(s.sb, s.fat, s''.dir, cs, os, i); }
      }
      NotMountable(s''.sectors, s.sb, s.fat, s''.dir);
    } else {
      SameFirst(s, s', i);
      assert s'.dir[i] == s.dir[i];
      assert s'.dir == s.dir;
      GeometryOf(s);
      AddEntry(s.sb, s.fat, s.dir, s.chains, s.owner, e, parent, name, isDirectory);
      MountableWith(s''.sectors, s.sb, s.fat, s''.dir, s.chains, s.owner);
    }
  }

  lemma NotMountable(disk: Sectors, sb: Superblock, fat: Fat, dir: Directory)
    requires SbOf(disk[0]) == sb && FatOf(disk) == fat && DirOf(disk) == dir
    requires forall cs: Chains, os: Owners :: !Consistent(sb, fat, dir, cs, os)
    ensures !Mountable(disk)
  {
    hide Consistent;
  }

  lemma MountableWith(disk: Sectors, sb: Superblock, fat: Fat, dir: Directory, chains: Chains, owner: Owners)
    requires SbOf(disk[0]) == sb && FatOf(disk) == fat && DirOf(disk) == dir && Consistent(sb, fat, dir, chains, owner)
    ensures Mountable(disk)
  {
    hide Consistent;
  }

  /** A chain that only grew has kept its first block. */
  lemma SameFirst(s: State, s': State, i: nat)
    requires Sound(s) && Sound(s') && i < 256 && Grown(s.chains, s'.chains, i) && s.chains[i] != []
    ensures s'.dir[i].firstBlock == s.dir[i].firstBlock
  {
    hide Consistent, Linked, InData, Distinct;
    ChainFacts(s, i);
    ChainFacts(s', i);
    assert s'.chains[i][0] == s.chains[i][0];
  }

  /** A stopped first write has taken a block that was free before. */
  lemma StoppedFirstBlock(s: State, s': State, i: nat, off: u32, data: seq<byte>, r: int)
    requires Sound(s) && Sound(s') && WriteStep(s, s', i, data, off, r)
    requires !Reaches(|s.chains[i]|, s.sb.freeBlocks, off) && s.sb.freeBlocks > 0 && s.chains[i] == []
    ensures 101 <= s'.dir[i].firstBlock < 1024 && s.fat[s'.dir[i].firstBlock] == 0
  {
    hide Consistent, Linked, InData, Distinct, OnDisk, OverlaidData;
    ChainFacts(s', i);
    FreshBlockWasFree(s, s', i);
  }

  lemma DanglingFirst(sb: Superblock, fat: Fat, dir: Directory, chains: Chains, owner: Owners, i: nat)
    requires Consistent(sb, fat, dir, chains, owner) && i < 256 && dir[i].firstBlock != 0
    ensures dir[i].firstBlock < 1024 && fat[dir[i].firstBlock] != 0
  {
    assert Linked(fat, chains[i]);
    AtEnd(fat, chains[i], 0);
  }

  /** The first block of a chain that was empty before was free before. */
  lemma FreshBlockWasFree(s: State, s': State, i: nat)
    requires Sound(s) && Sound(s') && i < 256 && Grown(s.chains, s'.chains, i)
    requires s.chains[i] == [] && s'.chains[i] != []
    ensures 101 <= s'.chains[i][0] < 1024 && s.fat[s'.chains[i][0]] == 0
  {
    var b := s'.chains[i][0];
    assert s'.owner[b] == At(i, 0);
  }

  // ---- names ----

  ghost predicate SameName(d: Dirent, e: Dirent) {
    d.used != 0 && e.used != 0 && d.parentInode == e.parentInode && CStr(d.name) == CStr(e.name)
  }

  /** At most one used entry per parent and name. */
  ghost predicate UniqueNames(dir: Directory) {
    forall i, j :: 0 <= i < 256 && 0 <= j < 256 && SameName(dir[i], dir[j]) ==> i == j
  }

  /** Create keeps names unique iff the name as it will be stored, cut to 31 characters, is not taken already; for names
      of at most 31 characters the duplicate test guarantees it. */
  lemma CreateUnique(s: State, s': State, parent: u32, parentIsDir: bool, name: seq<byte>, isDirectory: bool, i: int)
    requires UniqueNames(s.dir) && IsCString(name)
    requires CreateStep(s, s', parent, parentIsDir, name, isDirectory, i, 0)
    ensures UniqueNames(s'.dir) <==> forall j :: 0 <= j < 256 ==> !Matches(s.dir[j], parent, Truncated(name))
    ensures |name| <= 31 ==> UniqueNames(s'.dir)
  {
    hide CStr, DirOnDisk;
    CopyNameReads(s.dir[i].name, name);
    if |name| <= 31 { assert Truncated(name) == name; }
    if j :| 0 <= j < 256 && Matches(s.dir[j], parent, Truncated(name)) {
      assert s'.dir[j] == s.dir[j];
      assert Matches(s'.dir[i], parent, Truncated(name));
      assert !UniqueNames(s'.dir);
    } else {
      assert forall j :: 0 <= j < 256 && j != i ==> s'.dir[j] == s.dir[j];
      assert UniqueNames(s'.dir);
    }
  }

  // ---- runs ----

  datatype Op =
    | WriteOp(i: nat, data: seq<byte>, off: u32, r: int)
    | CreateOp(parent: u32, parentIsDir: bool, name: seq<byte>, isDirectory: bool, e: int, cr: int)
    | UnlinkOp(uParentIsDir: bool, uName: seq<byte>, e: int, ur: int)
    | RemountOp

  /** One completed operation; writes go to a used entry, and a remount finds an image with the same files. */
  ghost predicate Step(s: State, s': State, op: Op) {
    && Sound(s')
    && match op
       case WriteOp(i, data, off, r) => WriteStep(s, s', i, data, off, r) && s.dir[i].used != 0
       case CreateOp(parent, parentIsDir, name, isDirectory, e, r) =>
         IsCString(name) && CreateStep(s, s', parent, parentIsDir, name, isDirectory, e, r)
       case UnlinkOp(parentIsDir, name, e, r) => UnlinkStep(s, s', parentIsDir, name, e, r)
       case RemountOp => Backed(s) && MountStep(s, s')
  }

  ghost predicate Run(states: seq<State>, ops: seq<Op>) {
    && |states| == |ops| + 1
    && Sound(states[0])
    && (forall n :: 0 <= n < |ops| ==> Step(states[n], states[n + 1], ops[n]))
  }

  predicate Removes(op: Op, i: nat) { op.UnlinkOp? && op.ur == 0 && op.e == i }

  predicate Covers(op: Op, i: nat, k: nat) { op.WriteOp? && op.i == i && op.off <= k < op.off + op.r }

  /** Index of the last operation that wrote byte `k` of entry `i`, or -1. */
  ghost function LastWriter(ops: seq<Op>, i: nat, k: nat): (n: int)
    ensures -1 <= n < |ops|
    ensures n >= 0 ==> Covers(ops[n], i, k)
    ensures forall m :: n < m < |ops| ==> !Covers(ops[m], i, k)
  {
    if ops == [] then -1
    else if Covers(ops[|ops| - 1], i, k) then |ops| - 1
    else LastWriter(ops[..|ops| - 1], i, k)
  }

  /** Byte `k` of `b` is the one the last writer put there, or else the one of `b0`. */
  ghost predicate ByteOf(b0: seq<byte>, b: seq<byte>, ops: seq<Op>, i: nat, k: nat) {
    var w := LastWriter(ops, i, k);
    if w >= 0 then k < |b| && k - ops[w].off < |ops[w].data| && b[k] == ops[w].data[k - ops[w].off]
    else k < |b0| ==> k < |b| && b[k] == b0[k]
  }

  lemma RunPrefix(states: seq<State>, ops: seq<Op>)
    requires Run(states, ops) && ops != []
    ensures Run(states[..|ops|], ops[..|ops| - 1])
    ensures Sound(states[|ops| - 1]) && Step(states[|ops| - 1], states[|ops|], ops[|ops| - 1])
    ensures Sound(states[|ops|])
  {
    hide Consistent, WriteStep, CreateStep, UnlinkStep, MountStep;
    var s', o' := states[..|ops|], ops[..|ops| - 1];
    forall n | 0 <= n < |o'| ensures Step(s'[n], s'[n + 1], o'[n]) {
      assert Step(states[n], states[n + 1], ops[n]);
    }
    if |ops| >= 2 { assert Step(states[|ops| - 2], states[|ops| - 1], ops[|ops| - 2]); }
  }

  /** A write that takes the last free blocks and still stops short of its offset. */
  predicate StopsShort(s: State, op: Op) {
    op.WriteOp? && op.i < 256 && s.sb.freeBlocks > 0 && !Reaches(|s.chains[op.i]|, s.sb.freeBlocks, op.off)
  }

  /** An exact image stays exact in every step except such a write. */
  lemma SyncedStep(s: State, s': State, op: Op)
    requires Sound(s) && Synced(s) && Step(s, s', op)
    ensures Synced(s') <==> !StopsShort(s, op)
  {
    hide Consistent, SbSector, FatSector, DirSector, CStr, OverlaidData, RemoveStep;
    match op
    case WriteOp(i, data, off, r) =>
      if !Reaches(|s.chains[i]|, s.sb.freeBlocks, off) { StoppedWriteSync(s, s', i, data, off, r); }
    case CreateOp(parent, parentIsDir, name, isDirectory, e, r) =>
      if r == 0 { CreateSync(s, s', parent, parentIsDir, name, isDirectory, e); }
    case UnlinkOp(parentIsDir, name, e, r) =>
      if r == 0 { RemoveSyncs(s, s', e); }
    case RemountOp => ImageRoundTrip(s.sectors, s.sb, s.fat, s.dir);
  }

  lemma RemoveSyncs(s: State, s': State, e: nat)
    requires RemoveStep(s, s', e)
    ensures Synced(s')
  { }

  /** Write-through persistence over whole runs: if the image is exact at the start and no write stops short, then at every
      point of the run the image holds exactly the superblock, table and directory in memory. */
  lemma {:induction false} SyncedRun(states: seq<State>, ops: seq<Op>)
    requires Run(states, ops) && Synced(states[0])
    requires forall n :: 0 <= n < |ops| ==> !StopsShort(states[n], ops[n])
    ensures forall n :: 0 <= n < |states| ==>
              && Synced(states[n])
              && SbOf(states[n].sectors[0]) == states[n].sb
              && FatOf(states[n].sectors) == states[n].fat && DirOf(states[n].sectors) == states[n].dir
    decreases |ops|
  {
    hide Consistent, Step, Synced, StopsShort;
    var last := states[|ops|];
    if ops != [] {
      RunPrefix(states, ops);
      var rest := states[..|ops|];
      assert forall n :: 0 <= n < |ops| - 1 ==> rest[n] == states[n] && ops[..|ops| - 1][n] == ops[n];
      SyncedRun(rest, ops[..|ops| - 1]);
      assert forall n :: 0 <= n < |ops| ==> rest[n] == states[n];
      SyncedStep(states[|ops| - 1], last, ops[|ops| - 1]);
    }
    SyncedImage(last);
  }

  lemma SyncedImage(s: State)
    requires Synced(s)
    ensures SbOf(s.sectors[0]) == s.sb && FatOf(s.sectors) == s.fat && DirOf(s.sectors) == s.dir
  {
    ImageRoundTrip(s.sectors, s.sb, s.fat, s.dir);
  }

  /** A successful create stores a name that is not taken; names of at most 31 characters always qualify. */
  ghost predicate StoresFreshName(s: State, op: Op) {
    op.CreateOp? && op.cr == 0 ==>
      |op.name| <= 31 || forall j :: 0 <= j < 256 ==> !Matches(s.dir[j], op.parent, Truncated(op.name))
  }

  lemma UniqueStep(s: State, s': State, op: Op)
    requires Sound(s) && UniqueNames(s.dir) && Step(s, s', op)
    ensures UniqueNames(s'.dir) <==> StoresFreshName(s, op)
  {
    hide Consistent, SbSector, FatSector, DirSector, CStr, OverlaidData, Synced, DirOnDisk;
    match op
    case WriteOp(i, data, off, r) =>
      assert forall j :: 0 <= j < 256 ==>
        s'.dir[j].used == s.dir[j].used && s'.dir[j].parentInode == s.dir[j].parentInode && s'.dir[j].name == s.dir[j].name;
    case CreateOp(parent, parentIsDir, name, isDirectory, e, r) =>
      if r == 0 { CreateUnique(s, s', parent, parentIsDir, name, isDirectory, e); }
    case UnlinkOp(parentIsDir, name, e, r) =>
      assert forall j :: 0 <= j < 256 && s'.dir[j].used != 0 ==> s'.dir[j] == s.dir[j];
    case RemountOp => MountRecovers(s, s');
  }

  /** Over every run whose created names are stored fresh, (parent, name) stays unique. */
  lemma {:induction false} UniqueRun(states: seq<State>, ops: seq<Op>)
    requires Run(states, ops) && UniqueNames(states[0].dir)
    requires forall n :: 0 <= n < |ops| ==> StoresFreshName(states[n], ops[n])
    ensures UniqueNames(states[|ops|].dir)
    decreases |ops|
  {
    hide Consistent, Step, StoresFreshName, UniqueNames;
    if ops != [] {
      RunPrefix(states, ops);
      var rest := states[..|ops|];
      assert forall n :: 0 <= n < |ops| - 1 ==> rest[n] == states[n] && ops[..|ops| - 1][n] == ops[n];
      UniqueRun(rest, ops[..|ops| - 1]);
      UniqueStep(states[|ops| - 1], states[|ops|], ops[|ops| - 1]);
    }
  }

  /** One step: what happens to byte `k` of a file that stays linked. */
  lemma StepByte(s: State, s': State, op: Op, i: nat, k: nat)
    requires Sound(s) && Step(s, s', op) && i < 256 && s.dir[i].used != 0 && !Removes(op, i)
    ensures s'.dir[i].used != 0 && |Bytes(s, i)| <= |Bytes(s', i)|
    ensures Covers(op, i, k) ==> k < |Bytes(s', i)| && k - op.off < |op.data| && Bytes(s', i)[k] == op.data[k - op.off]
    ensures !Covers(op, i, k) && k < |Bytes(s, i)| ==> Bytes(s', i)[k] == Bytes(s, i)[k]
  {
    hide Consistent, Synced, CStr, OverlaidData;
    match op
    case WriteOp(j, data, off, r) =>
      if j == i {
        WriteRefines(s, s', i, data, off, r);
      } else {
        WriteFrame(s, s', j, data, off, r, i);
      }
    case CreateOp(parent, parentIsDir, name, isDirectory, e, r) =>
      CreateRefines(s, s', parent, parentIsDir, name, isDirectory, e, r);
    case UnlinkOp(parentIsDir, name, e, r) =>
      UnlinkRefines(s, s', parentIsDir, name, e, r);
    case RemountOp =>
      MountRecovers(s, s');
  }

  /** Over every run in which entry `i` is never unlinked: each of its bytes is the byte of the last write that covered
      it, or the initial byte if none did, whatever the writes, creates, unlinks and remounts in between. */
  lemma {:induction false} LastWriterWins(states: seq<State>, ops: seq<Op>, i: nat, k: nat)
    requires Run(states, ops) && i < 256 && states[0].dir[i].used != 0
    requires forall n :: 0 <= n < |ops| ==> !Removes(ops[n], i)
    ensures Sound(states[|ops|]) && states[|ops|].dir[i].used != 0
    ensures ByteOf(Bytes(states[0], i), Bytes(states[|ops|], i), ops, i, k)
    decreases |ops|
  {
    hide Consistent, Step, Bytes;
    if ops != [] {
      RunPrefix(states, ops);
      var s, s', op, rest := states[|ops| - 1], states[|ops|], ops[|ops| - 1], ops[..|ops| - 1];
      LastWriterWins(states[..|ops|], rest, i, k);
      StepByte(s, s', op, i, k);
      ByteOfStep(Bytes(states[0], i), Bytes(s, i), Bytes(s', i), rest, op, i, k);
      assert ops == rest + [op];
    }
  }

  lemma ByteOfStep(b0: seq<byte>, b: seq<byte>, b': seq<byte>, ops: seq<Op>, op: Op, i: nat, k: nat)
    requires ByteOf(b0, b, ops, i, k) && |b| <= |b'|
    requires Covers(op, i, k) ==> k < |b'| && k - op.off < |op.data| && b'[k] == op.data[k - op.off]
    requires !Covers(op, i, k) && k < |b| ==> b'[k] == b[k]
    ensures ByteOf(b0, b', ops + [op], i, k)
  {
    LastWriterAppend(ops, op, i, k);
    hide LastWriter, Covers;
    var w := LastWriter(ops, i, k);
    assert w >= 0 ==> (ops + [op])[w] == ops[w];
    assert (ops + [op])[|ops|] == op;
  }

  lemma LastWriterAppend(ops: seq<Op>, op: Op, i: nat, k: nat)
    ensures LastWriter(ops + [op], i, k) == if Covers(op, i, k) then |ops| else LastWriter(ops, i, k)
  {
    hide Covers;
    var all := ops + [op];
    assert all[|all| - 1] == op && all[..|all| - 1] == ops;
  }
}
