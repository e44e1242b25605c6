/** Executions of the filesystem: whatever commands are given, the states passed through form a run. */
module FsRuns {
  import opened Layout
  import opened DiskImage
  import opened FsSpec
  import opened FsHistory
  import opened TinyFsModule

  datatype Command =
    | WriteCmd(i: nat, data: seq<byte>, off: u32)
    | CreateCmd(parent: u32, parentIsDir: bool, name: seq<byte>, isDirectory: bool)
    | UnlinkCmd(parentIsDir: bool, name: seq<byte>)
    | RemountCmd

  ghost predicate Proper(c: Command) {
    match c
    case WriteCmd(i, data, off) => i < 256 && |data| < 0x1_0000_0000
    case CreateCmd(parent, parentIsDir, name, isDirectory) => IsCString(name)
    case UnlinkCmd(parentIsDir, name) => true
    case RemountCmd => true
  }

  lemma RunStart(s: State)
    requires Sound(s)
    ensures Run([s], [])
  { }

  lemma RunStep(states: seq<State>, ops: seq<Op>, s: State, op: Op)
    requires Run(states, ops) && Step(states[|ops|], s, op)
    ensures Run(states + [s], ops + [op])
  {
    hide Step, Sound;
    var states', ops' := states + [s], ops + [op];
    forall n | 0 <= n < |ops'| ensures Step(states'[n], states'[n + 1], ops'[n]) {
      if n < |ops| { assert Step(states[n], states[n + 1], ops[n]); }
    }
  }

  /** Every part of a run is a run. */
  lemma RunPart(states: seq<State>, ops: seq<Op>, from: nat, to: nat)
    requires Run(states, ops) && from <= to <= |ops|
    ensures Run(states[from..to + 1], ops[from..to])
  {
    hide Consistent, WriteStep, CreateStep, UnlinkStep, MountStep;
    var states', ops' := states[from..to + 1], ops[from..to];
    forall n | 0 <= n < |ops'| ensures Step(states'[n], states'[n + 1], ops'[n]) {
      assert Step(states[from + n], states[from + n + 1], ops[from + n]);
    }
    if from > 0 { assert Step(states[from - 1], states[from], ops[from - 1]); }
  }

  // ---- how far the image may be behind ----

  /** What is known of the image: it is exact; or it holds the same files and the directory in memory; or it holds the same
      files; or nothing is known. */
  datatype Image = Exact | Firm | Behind | Unknown

  ghost predicate Known(image: Image, s: State) {
    match image
    case Exact => Synced(s)
    case Firm => exists b: State :: Recoverable(s, b) && b.dir == s.dir
    case Behind => Backed(s)
    case Unknown => true
  }

  lemma KnownWeaker(image: Image, s: State)
    requires Sound(s) && Known(image, s)
    ensures image.Exact? ==> Known(Firm, s)
    ensures image.Exact? || image.Firm? ==> Known(Behind, s)
  {
    hide Consistent, Recoverable, OnDisk;
    if image.Exact? { SyncedBacked(s); }
  }

  /** What is known after a write that stopped in the walk; `block` is whether the file had one before. */
  function AfterStop(image: Image, block: bool): Image {
    match image
    case Exact => if block then Firm else Behind
    case Firm => if block then Firm else Behind
    case Behind => Behind
    case Unknown => Unknown
  }

  function AfterCreate(image: Image): Image {
    match image
    case Exact => Exact
    case Firm => Firm
    case Behind => Unknown
    case Unknown => Unknown
  }

  lemma KnownAfterStop(image: Image, s: State, s': State, i: nat, data: seq<byte>, off: u32, r: int)
    requires Sound(s) && Sound(s') && Known(image, s) && WriteStep(s, s', i, data, off, r)
    requires !Reaches(|s.chains[i]|, s.sb.freeBlocks, off)
    ensures Known(AfterStop(image, s.chains[i] != []), s')
    ensures s.sb.freeBlocks == 0 ==> Known(image, s')
  {
    hide Consistent, Recoverable, OnDisk, WriteStep, Reaches;
    KnownWeaker(image, s);
    if image.Exact? || image.Firm? {
      var b: State :| Recoverable(s, b) && b.dir == s.dir;
      StoppedBacked(s, s', b, i, data, off, r);
    } else if image.Behind? {
      var b: State :| Recoverable(s, b);
      StoppedBacked(s, s', b, i, data, off, r);
    }
    if image.Exact? && s.sb.freeBlocks == 0 { StoppedWriteSync(s, s', i, data, off, r); }
  }

  lemma KnownAfterCreate(image: Image, s: State, s': State, parent: u32, parentIsDir: bool, name: seq<byte>, isDirectory: bool, i: int)
    requires Sound(s) && Sound(s') && Known(image, s) && IsCString(name)
    requires CreateStep(s, s', parent, parentIsDir, name, isDirectory, i, 0)
    ensures Known(AfterCreate(image), s')
  {
    hide Consistent, Recoverable, OnDisk, CreateStep, CStr;
    if image.Exact? {
      SyncedStep(s, s', CreateOp(parent, parentIsDir, name, isDirectory, i, 0));
    } else if image.Firm? {
      var b: State :| Recoverable(s, b) && b.dir == s.dir;
      CreateBacked(s, s', b, parent, parentIsDir, name, isDirectory, i);
    }
  }

  /** A new mount of the disk behind `fs`, whose image holds the same files. */
  method Remount(fs: TinyFs) returns (m: TinyFs)
    requires fs.Valid() && Backed(fs.Snap())
    ensures fresh(m) && fresh(m.fat) && fresh(m.dirents) && m.disk == fs.disk && m.disk.sectors == fs.disk.sectors
    ensures m.Valid() && Step(fs.Snap(), m.Snap(), RemountOp) && Synced(m.Snap())
  {
    hide Consistent, OnDisk;
    ghost var b: State :| Recoverable(fs.Snap(), b);
    SyncedMountable(b);
    ImageRoundTrip(fs.disk.sectors, b.sb, b.fat, b.dir);
    GeometryOf(b);
    m := new TinyFs(fs.disk);
    var _ := m.Mount();
    MountRecovers(fs.Snap(), m.Snap());
  }

  /** What was done is what was asked for. */
  ghost predicate Carries(op: Op, c: Command) {
    match c
    case WriteCmd(i, data, off) => op.WriteOp? && op.i == i && op.data == data && op.off == off
    case CreateCmd(parent, parentIsDir, name, isDirectory) =>
      op.CreateOp? && op.parent == parent && op.parentIsDir == parentIsDir && op.name == name && op.isDirectory == isDirectory
    case UnlinkCmd(parentIsDir, name) => op.UnlinkOp? && op.uParentIsDir == parentIsDir && op.uName == name
    case RemountCmd => op.RemountOp?
  }

  /** A write that stops short in a file without a block: the directory on disk does not know the block it has now. */
  ghost predicate StopsEmpty(s: State, op: Op) { StopsShort(s, op) && s.chains[op.i] == [] }

  ghost predicate Creates(op: Op) { op.CreateOp? && op.cr == 0 }

  /** One command on a mounted filesystem. A write to an entry not in use is not carried out, nor is a remount of an image of
      which nothing is known. Knowledge of the image is lost only by a write that stops short in a file without a block and
      a create after it. */
  method Perform(fs: TinyFs, c: Command, image: Image) returns (m: TinyFs, done: bool, ghost op: Op, image': Image)
    requires fs.Valid() && Proper(c) && Known(image, fs.Snap())
    modifies fs`sb, fs`chains, fs`owner, fs.fat, fs.dirents, fs.disk
    ensures m.disk == fs.disk && (m == fs || (fresh(m) && fresh(m.fat) && fresh(m.dirents)))
    ensures m.Valid() && Known(image', m.Snap())
    ensures done ==> Step(old(fs.Snap()), m.Snap(), op) && Carries(op, c)
    ensures !done ==> m.Snap() == old(fs.Snap()) && image' == image
    ensures !done ==> (c.WriteCmd? && c.i < 256 && old(fs.dirents[c.i].used) == 0) || (c.RemountCmd? && image.Unknown?)
    ensures done && image.Exact? && !StopsShort(old(fs.Snap()), op) ==> image'.Exact?
    ensures done && image'.Behind? && !image.Behind? ==> StopsEmpty(old(fs.Snap()), op)
    ensures done && image'.Unknown? && !image.Unknown? ==> image.Behind? && Creates(op)
  {
    hide Consistent, OnDisk, CStr, Recoverable;
    ghost var s := fs.Snap();
    m, done, op, image' := fs, true, RemountOp, image;
    match c
    case WriteCmd(i, data, off) =>
      if fs.dirents[i].used == 0 { return fs, false, RemountOp, image; }
      ghost var r;
      r, image' := PerformWrite(fs, i, data, off, image);
      op := WriteOp(i, data, off, r);
    case CreateCmd(parent, parentIsDir, name, isDirectory) =>
      ghost var e;
      var r;
      e, r := fs.Create(parent, parentIsDir, name, isDirectory);
      op := CreateOp(parent, parentIsDir, name, isDirectory, e, r);
      if r == 0 {
        KnownAfterCreate(image, s, fs.Snap(), parent, parentIsDir, name, isDirectory, e);
        image' := AfterCreate(image);
      }
    case UnlinkCmd(parentIsDir, name) =>
      ghost var e;
      var r;
      e, r := fs.Unlink(parentIsDir, name);
      op := UnlinkOp(parentIsDir, name, e, r);
      if r == 0 { image' := Exact; }
    case RemountCmd =>
      if image.Unknown? { return fs, false, RemountOp, image; }
      KnownWeaker(image, s);
      m := Remount(fs);
      image' := Exact;
  }

  method PerformWrite(fs: TinyFs, i: nat, data: seq<byte>, off: u32, image: Image) returns (ghost r: int, image': Image)
    requires fs.Valid() && i < 256 && |data| < 0x1_0000_0000 && Known(image, fs.Snap()) && fs.dirents[i].used != 0
    modifies fs`sb, fs`chains, fs`owner, fs.fat, fs.dirents, fs.disk
    ensures fs.Valid() && WriteStep(old(fs.Snap()), fs.Snap(), i, data, off, r) && Known(image', fs.Snap())
    ensures image.Exact? && !StopsShort(old(fs.Snap()), WriteOp(i, data, off, r)) ==> image'.Exact?
    ensures image'.Behind? && !image.Behind? ==> StopsEmpty(old(fs.Snap()), WriteOp(i, data, off, r))
    ensures image'.Unknown? ==> image.Unknown?
  {
    hide Consistent, OnDisk, WriteStep, Known;
    ghost var s := fs.Snap();
    var free, size, block := fs.sb.freeBlocks, fs.dirents[i].size, fs.dirents[i].firstBlock != 0;
    FirstIsBlock(s, i);
    var n := fs.Write(i, data, off);
    r := n;
    StopTest(s, fs.Snap(), i, data, off, n);
    image' := image;
    if free > 0 && off > size && fs.dirents[i].size == size {
      KnownAfterStop(image, s, fs.Snap(), i, data, off, n);
      image' := AfterStop(image, block);
    } else if n > 0 {
      KnownExact(fs.Snap());
      image' := Exact;
    } else {
      KnownKept(image, s, fs.Snap(), i, data, off, n);
    }
  }

  lemma KnownExact(s: State)
    requires Synced(s)
    ensures Known(Exact, s)
  { }

  lemma FirstIsBlock(s: State, i: nat)
    requires Sound(s) && i < 256
    ensures s.dir[i].firstBlock != 0 <==> s.chains[i] != []
  {
    ChainFacts(s, i);
    if s.chains[i] != [] { assert 101 <= s.chains[i][0]; }
  }

  /** A write that does not stop short keeps what is known of the image. */
  lemma KnownKept(image: Image, s: State, s': State, i: nat, data: seq<byte>, off: u32, r: int)
    requires Sound(s) && Sound(s') && Known(image, s) && WriteStep(s, s', i, data, off, r)
    requires !StopsShort(s, WriteOp(i, data, off, r))
    ensures Known(image, s')
  {
    hide Consistent, OnDisk, OverlaidData, Recoverable, Known;
    if Reaches(|s.chains[i]|, s.sb.freeBlocks, off) {
      KnownExact(s');
      SyncedKnown(image, s');
    } else {
      KnownAfterStop(image, s, s', i, data, off, r);
    }
  }

  lemma SyncedKnown(image: Image, s: State)
    requires Sound(s) && Synced(s)
    ensures Known(image, s)
  {
    hide Consistent, OnDisk, Recoverable;
    SyncedBacked(s);
  }

  /** How a write that stops short shows: the offset lies beyond the old size and the size has not changed. */
  lemma StopTest(s: State, s': State, i: nat, data: seq<byte>, off: u32, r: int)
    requires Sound(s) && Sound(s') && WriteStep(s, s', i, data, off, r)
    ensures StopsShort(s, WriteOp(i, data, off, r)) <==>
            s.sb.freeBlocks > 0 && off > s.dir[i].size && s'.dir[i].size == s.dir[i].size
    ensures r > 0 ==> Synced(s')
  {
    hide Consistent, OnDisk, OverlaidData;
    ChainFacts(s, i);
  }

  // ---- executions ----

  /** How many of the commands were carried out. */
  function Count(done: seq<bool>): nat {
    if done == [] then 0 else Count(done[..|done| - 1]) + if done[|done| - 1] then 1 else 0
  }

  /** Among the first `n` operations a write stopped short in a file without a block, and later an entry was created. */
  ghost predicate Endangered(states: seq<State>, ops: seq<Op>, n: nat) {
    n <= |ops| && n <= |states| && exists k, l :: 0 <= k < l < n && StopsEmpty(states[k], ops[k]) && Creates(ops[l])
  }

  /** The reason why a command was not carried out after the first `at` operations of a run: a write to an entry not in use,
      or a remount after a create that followed a write that stopped short in a file without a block (or from an image not
      known to be exact at the start). */
  ghost predicate Dropped(c: Command, states: seq<State>, ops: seq<Op>, at: nat, exact: bool) {
    && at < |states| && at <= |ops|
    && ((c.WriteCmd? && c.i < 256 && states[at].dir[c.i].used == 0)
        || (c.RemountCmd? && (!exact || Endangered(states, ops, at))))
  }

  /** Command `n` is operation number `Count(done[..n])` of the run, or was dropped there. */
  ghost predicate Accounted(commands: seq<Command>, done: seq<bool>, states: seq<State>, ops: seq<Op>, clean: bool) {
    && |done| <= |commands|
    && forall n :: 0 <= n < |done| ==>
         var at := Count(done[..n]);
         if done[n] then at < |ops| && Carries(ops[at], commands[n]) else Dropped(commands[n], states, ops, at, clean)
  }

  lemma AccountedNext(commands: seq<Command>, done: seq<bool>, states: seq<State>, ops: seq<Op>, clean: bool,
                      d: bool, states': seq<State>, ops': seq<Op>)
    requires Accounted(commands, done, states, ops, clean) && |done| < |commands|
    requires Count(done) == |ops| && states <= states' && ops <= ops'
    requires if d then |ops| < |ops'| && Carries(ops'[|ops|], commands[|done|])
             else Dropped(commands[|done|], states', ops', |ops|, clean)
    ensures Accounted(commands, done + [d], states', ops', clean) && Count(done + [d]) == Count(done) + if d then 1 else 0
  {
    hide Carries, Endangered, Count;
    var all := done + [d];
    forall n | 0 <= n < |all|
      ensures var at := Count(all[..n]);
              if all[n] then at < |ops'| && Carries(ops'[at], commands[n]) else Dropped(commands[n], states', ops', at, clean)
    {
      if n < |done| {
        assert all[..n] == done[..n];
        if !done[n] { DroppedLater(commands[n], states, ops, states', ops', Count(done[..n]), clean); }
      } else {
        assert all[..n] == done;
      }
    }
    CountNext(done, d);
  }

  lemma CountNext(done: seq<bool>, d: bool)
    ensures Count(done + [d]) == Count(done) + if d then 1 else 0
  {
    var all := done + [d];
    assert all[..|all| - 1] == done;
  }

  lemma DroppedLater(c: Command, states: seq<State>, ops: seq<Op>, states': seq<State>, ops': seq<Op>, at: nat, clean: bool)
    requires Dropped(c, states, ops, at, clean) && states <= states' && ops <= ops'
    ensures Dropped(c, states', ops', at, clean)
  {
    hide StopsEmpty, Creates;
    assert states'[at] == states[at];
    if c.RemountCmd? && clean { EndangeredLater(states, ops, states', ops', at); }
  }

  lemma EndangeredLater(states: seq<State>, ops: seq<Op>, states': seq<State>, ops': seq<Op>, n: nat)
    requires Endangered(states, ops, n) && states <= states' && ops <= ops'
    ensures forall n' :: n <= n' <= |ops'| && n' <= |states'| ==> Endangered(states', ops', n')
  {
    hide StopsEmpty, Creates;
    var k, l :| 0 <= k < l < n && StopsEmpty(states[k], ops[k]) && Creates(ops[l]);
    assert StopsEmpty(states'[k], ops'[k]) && Creates(ops'[l]);
  }

  /** Some write of the run stopped short. */
  ghost predicate Stopped(states: seq<State>, ops: seq<Op>) {
    |ops| <= |states| && exists k :: 0 <= k < |ops| && StopsShort(states[k], ops[k])
  }

  /** Some write of the run stopped short in a file without a block. */
  ghost predicate StoppedEmpty(states: seq<State>, ops: seq<Op>) {
    |ops| <= |states| && exists k :: 0 <= k < |ops| && StopsEmpty(states[k], ops[k])
  }

  /** What was known of an image that was exact at the start was lost for a reason. */
  ghost predicate Explained(image: Image, states: seq<State>, ops: seq<Op>) {
    && (!image.Exact? ==> Stopped(states, ops))
    && (image.Behind? ==> StoppedEmpty(states, ops))
    && (image.Unknown? ==> Endangered(states, ops, |ops|))
  }

  lemma ExplainedNext(image: Image, image': Image, states: seq<State>, ops: seq<Op>, s: State, op: Op)
    requires |states| == |ops| + 1 && Explained(image, states, ops)
    requires image.Exact? && !StopsShort(states[|ops|], op) ==> image'.Exact?
    requires image'.Behind? && !image.Behind? ==> StopsEmpty(states[|ops|], op)
    requires image'.Unknown? && !image.Unknown? ==> image.Behind? && Creates(op)
    ensures Explained(image', states + [s], ops + [op])
  {
    hide StopsShort, Creates;
    var states', ops' := states + [s], ops + [op];
    assert forall k :: 0 <= k < |ops| ==> states'[k] == states[k] && ops'[k] == ops[k];
    assert states'[|ops|] == states[|ops|] && ops'[|ops|] == op;
    if !image'.Exact? && Stopped(states, ops) {
      var k :| 0 <= k < |ops| && StopsShort(states[k], ops[k]);
      assert StopsShort(states'[k], ops'[k]);
    }
    if !image'.Exact? && StopsShort(states[|ops|], op) { assert StopsShort(states'[|ops|], ops'[|ops|]); }
    if image'.Behind? {
      if image.Behind? {
        var k :| 0 <= k < |ops| && StopsEmpty(states[k], ops[k]);
        assert StopsEmpty(states'[k], ops'[k]);
      } else {
        assert StopsEmpty(states'[|ops|], ops'[|ops|]);
      }
    }
    if image'.Unknown? {
      if image.Unknown? {
        EndangeredLater(states, ops, states', ops', |ops|);
      } else {
        var k :| 0 <= k < |ops| && StopsEmpty(states[k], ops[k]);
        assert StopsEmpty(states'[k], ops'[k]) && Creates(ops'[|ops|]);
      }
    }
  }

  /** Whatever commands are given to a consistent filesystem, it passes through the states of a run and ends consistent.
      Every command is carried out in turn and nothing else is, except writes to entries not in use and, where the image
      was exact at the start, remounts after a create that followed a write that stopped short in a file without a block. */
  method Execute(fs0: TinyFs, commands: seq<Command>, exact: bool)
    returns (fs: TinyFs, ghost states: seq<State>, ghost ops: seq<Op>, done: seq<bool>)
    requires fs0.Valid() && (forall c <- commands :: Proper(c)) && (exact ==> Synced(fs0.Snap()))
    modifies fs0`sb, fs0`chains, fs0`owner, fs0.fat, fs0.dirents, fs0.disk
    ensures fs.Valid() && fs.disk == fs0.disk
    ensures Run(states, ops) && states[0] == old(fs0.Snap()) && states[|ops|] == fs.Snap()
    ensures |done| == |commands| && Count(done) == |ops| && Accounted(commands, done, states, ops, exact)
  {
    hide Consistent, OnDisk, Step, Proper, Run, Accounted, Dropped, Carries, StopsShort, StopsEmpty, Creates, Explained, Count;
    fs, states, ops, done := fs0, [fs0.Snap()], [], [];
    RunStart(fs0.Snap());
    var image := if exact then Exact else Unknown;
    NothingYet(commands, states, exact);
    for n := 0 to |commands|
      invariant fs.disk == fs0.disk && (fs == fs0 || (fresh(fs) && fresh(fs.fat) && fresh(fs.dirents)))
      invariant fs.Valid() && Known(image, fs.Snap())
      invariant |states| == |ops| + 1 && Run(states, ops)
      invariant states[0] == old(fs0.Snap()) && states[|ops|] == fs.Snap()
      invariant |done| == n && Count(done) == |ops| && Accounted(commands, done, states, ops, exact)
      invariant exact ==> Explained(image, states, ops)
    {
      var m, d, image';
      ghost var op;
      m, d, op, image' := Perform(fs, commands[n], image);
      if d {
        RunStep(states, ops, m.Snap(), op);
        if exact { ExplainedNext(image, image', states, ops, m.Snap(), op); }
        AccountedNext(commands, done, states, ops, exact, true, states + [m.Snap()], ops + [op]);
        states, ops := states + [m.Snap()], ops + [op];
      } else {
        DroppedHere(commands[n], states, ops, exact, image);
        AccountedNext(commands, done, states, ops, exact, false, states, ops);
      }
      done := done + [d];
      fs, image := m, image';
    }
  }

  lemma NothingYet(commands: seq<Command>, states: seq<State>, exact: bool)
    ensures Count([]) == 0 && Accounted(commands, [], states, [], exact) && Explained(Exact, states, [])
  { }

  lemma DroppedHere(c: Command, states: seq<State>, ops: seq<Op>, exact: bool, image: Image)
    requires |states| == |ops| + 1 && (exact ==> Explained(image, states, ops))
    requires (c.WriteCmd? && c.i < 256 && states[|ops|].dir[c.i].used == 0) || (c.RemountCmd? && image.Unknown?)
    ensures Dropped(c, states, ops, |ops|, exact)
  {
    hide Endangered;
  }

  /** From an unformatted disk: format, mount, any commands. As long as no write stops short, the image is exact at every
      point; and every remount is carried out unless an entry was created after a write stopped short in a file without a
      block. */
  method FormatAndExecute(disk: Disk, commands: seq<Command>)
    returns (fs: TinyFs, ghost states: seq<State>, ghost ops: seq<Op>, done: seq<bool>)
    requires forall c <- commands :: Proper(c)
    modifies disk
    ensures fs.Valid() && Run(states, ops) && states[|ops|] == fs.Snap()
    ensures states[0].sb == SB0 && states[0].fat == Fat0() && states[0].dir == Dir0()
    ensures |done| == |commands| && Count(done) == |ops| && Accounted(commands, done, states, ops, true)
    ensures !Stopped(states, ops) ==> forall n :: 0 <= n < |states| ==> Synced(states[n])
    ensures !Endangered(states, ops, |ops|) ==> forall n :: 0 <= n < |commands| && commands[n].RemountCmd? ==> done[n]
  {
    hide Consistent, OnDisk, Step, Proper, Accounted, StopsShort, Endangered;
    var fresh_ := FormatAndMount(disk);
    fs, states, ops, done := Execute(fresh_, commands, true);
    if !Stopped(states, ops) { SyncedRun(states, ops); }
    if !Endangered(states, ops, |ops|) { NoneDropped(commands, done, states, ops); }
  }

  lemma NoneDropped(commands: seq<Command>, done: seq<bool>, states: seq<State>, ops: seq<Op>)
    requires |done| == |commands| && |states| == |ops| + 1 && Accounted(commands, done, states, ops, true)
    requires !Endangered(states, ops, |ops|)
    ensures forall n :: 0 <= n < |commands| && commands[n].RemountCmd? ==> done[n]
  {
    hide Carries, Count, Endangered;
    forall n | 0 <= n < |commands| && commands[n].RemountCmd? ensures done[n] {
      if !done[n] {
        var at := Count(done[..n]);
        assert Dropped(commands[n], states, ops, at, true);
        EndangeredLater(states, ops, states, ops, at);
        assert false;
      }
    }
  }
}
