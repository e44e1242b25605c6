/** Whole uses of descriptors: chunks written through one, read back through another. */
module VfsRuns {
  import opened Layout
  import opened DiskImage
  import opened FsSpec
  import opened FsTheorems
  import opened FsHistory
  import opened Paths
  import opened VfsModule

  /** The chunks one behind the other. */
  function Flatten(chunks: seq<seq<byte>>): seq<byte> {
    if chunks == [] then [] else Flatten(chunks[..|chunks| - 1]) + chunks[|chunks| - 1]
  }

  function Total(sizes: seq<u32>): nat { if sizes == [] then 0 else Total(sizes[..|sizes| - 1]) + sizes[|sizes| - 1] }

  lemma FlattenNext(chunks: seq<seq<byte>>, n: nat)
    requires n < |chunks|
    ensures Flatten(chunks[..n + 1]) == Flatten(chunks[..n]) + chunks[n]
  {
    assert chunks[..n + 1][..n] == chunks[..n];
  }

  lemma TotalNext(sizes: seq<u32>, n: nat)
    requires n < |sizes|
    ensures Total(sizes[..n + 1]) == Total(sizes[..n]) + sizes[n]
  {
    assert sizes[..n + 1][..n] == sizes[..n];
  }

  lemma {:induction false} FlattenGrows(chunks: seq<seq<byte>>, n: nat)
    requires n <= |chunks|
    ensures |Flatten(chunks[..n])| <= |Flatten(chunks)|
    decreases |chunks| - n
  {
    if n < |chunks| {
      FlattenNext(chunks, n);
      FlattenGrows(chunks, n + 1);
    } else {
      assert chunks[..n] == chunks;
    }
  }

  // ---- runs of steps ----

  /** The operations of a run on entry `i` are writes, each at the end of the one before and fully successful. */
  ghost predicate Sequential(ops: seq<Op>, i: nat) {
    forall n :: 0 <= n < |ops| ==>
      && !Removes(ops[n], i)
      && (ops[n].WriteOp? && ops[n].i == i ==> ops[n].off == |Appended(ops[..n], i)| && ops[n].r == |ops[n].data|)
  }

  /** All the data written to entry `i`, in order. */
  ghost function Appended(ops: seq<Op>, i: nat): seq<byte> {
    if ops == [] then []
    else
      var last := ops[|ops| - 1];
      Appended(ops[..|ops| - 1], i) + if last.WriteOp? && last.i == i then last.data else []
  }

  /** Writes to an empty file, each at the end of the one before, build the concatenation of the data, whatever else happens
      to other files meanwhile. */
  lemma {:induction false} SequentialWrites(states: seq<State>, ops: seq<Op>, i: nat)
    requires Run(states, ops) && i < 256 && states[0].dir[i].used != 0 && Bytes(states[0], i) == []
    requires Sequential(ops, i)
    ensures Sound(states[|ops|]) && states[|ops|].dir[i].used != 0
    ensures Bytes(states[|ops|], i) == Appended(ops, i)
    decreases |ops|
  {
    hide Consistent, Step, Bytes;
    if ops != [] {
      var m := |ops| - 1;
      RunPrefix(states, ops);
      SequentialPrefix(ops, i);
      SequentialWrites(states[..|ops|], ops[..m], i);
      SequentialStep(states[m], states[m + 1], ops[m], i, Appended(ops[..m], i));
    }
  }

  lemma SequentialPrefix(ops: seq<Op>, i: nat)
    requires Sequential(ops, i) && ops != []
    ensures Sequential(ops[..|ops| - 1], i)
  {
    var rest := ops[..|ops| - 1];
    forall n | 0 <= n < |rest|
      ensures !Removes(rest[n], i)
      ensures rest[n].WriteOp? && rest[n].i == i ==> rest[n].off == |Appended(rest[..n], i)| && rest[n].r == |rest[n].data|
    {
      assert rest[n] == ops[n] && rest[..n] == ops[..n];
    }
  }

  lemma SequentialStep(s: State, s': State, op: Op, i: nat, b: seq<byte>)
    requires Sound(s) && Step(s, s', op) && i < 256 && s.dir[i].used != 0 && Bytes(s, i) == b
    requires !Removes(op, i) && (op.WriteOp? && op.i == i ==> op.off == |b| && op.r == |op.data|)
    ensures s'.dir[i].used != 0
    ensures Bytes(s', i) == b + if op.WriteOp? && op.i == i then op.data else []
  {
    hide Consistent, Synced, CStr, OverlaidData;
    match op
    case WriteOp(j, data, off, r) =>
      if j == i {
        WriteRefines(s, s', i, data, off, r);
        if !Reaches(|s.chains[i]|, s.sb.freeBlocks, off) { assert data == []; }
        assert Bytes(s', i) == b + data;
      } else {
        WriteFrame(s, s', j, data, off, r, i);
      }
    case CreateOp(parent, parentIsDir, name, isDirectory, e, r) =>
      CreateRefines(s, s', parent, parentIsDir, name, isDirectory, e, r);
    case UnlinkOp(parentIsDir, name, e, r) =>
      UnlinkRefines(s, s', parentIsDir, name, e, r);
    case RemountOp =>
      MountRecovers(s, s');
  }

  // ---- reads ----

  /** Successive reads of sizes `sizes` from position `p`: `out` holds what each delivered, and each starts where the one
      before ended. */
  ghost predicate ReadRun(s: State, i: nat, p: nat, sizes: seq<u32>, out: seq<seq<byte>>) {
    && |out| == |sizes|
    && forall n :: 0 <= n < |sizes| ==> ReadAt(s, i, p, sizes, out, n)
  }

  ghost predicate ReadAt(s: State, i: nat, p: nat, sizes: seq<u32>, out: seq<seq<byte>>, n: nat)
    requires n < |sizes| && n < |out|
  {
    var q := p + |Flatten(out[..n])|;
    q < 0x1_0000_0000 && ReadStep(s, i, sizes[n], q, out[n], |out[n]|)
  }

  /** Where read `n` starts if all before it delivered what they should. */
  function Position(size: nat, p: nat, sizes: seq<u32>, n: nat): nat
    requires n <= |sizes|
  {
    Min(p + Total(sizes[..n]), size)
  }

  /** What read `n` should deliver. */
  function SliceAt(b: seq<byte>, p: nat, sizes: seq<u32>, n: nat): seq<byte>
    requires n < |sizes|
  {
    var q := Position(|b|, p, sizes, n);
    b[q..Min(q + sizes[n], |b|)]
  }

  /** The reads deliver consecutive slices, and nothing once the end is reached. */
  ghost predicate Sliced(b: seq<byte>, p: nat, sizes: seq<u32>, out: seq<seq<byte>>, n: nat) {
    n <= |sizes| == |out| && forall k :: 0 <= k < n ==> out[k] == SliceAt(b, p, sizes, k)
  }

  /** Read `n` does not meet the wrap of offset plus length. */
  predicate ExactAt(size: nat, capacity: nat, p: nat, sizes: seq<u32>, n: nat)
    requires n < |sizes|
  {
    var q := Position(size, p, sizes, n);
    q >= size || q + sizes[n] < 0x1_0000_0000 || size == capacity
  }

  ghost predicate AllExact(size: nat, capacity: nat, p: nat, sizes: seq<u32>, n: nat) {
    n <= |sizes| && forall k :: 0 <= k < n ==> ExactAt(size, capacity, p, sizes, k)
  }

  /** Consecutive slices add up to the part of the file that was asked for. */
  lemma {:induction false} SlicedTogether(b: seq<byte>, p: nat, sizes: seq<u32>, out: seq<seq<byte>>, n: nat)
    requires p <= |b| && Sliced(b, p, sizes, out, n)
    ensures Flatten(out[..n]) == b[p..Position(|b|, p, sizes, n)]
    decreases n
  {
    hide Flatten, Total;
    if n == 0 {
      FlattenNone();
      TotalNone();
      assert out[..0] == [] && sizes[..0] == [];
    } else {
      SlicedTogether(b, p, sizes, out, n - 1);
      FlattenNext(out, n - 1);
      TotalNext(sizes, n - 1);
      var q, r := Position(|b|, p, sizes, n - 1), Position(|b|, p, sizes, n);
      assert out[n - 1] == b[q..r];
      assert b[p..r] == b[p..q] + b[q..r];
    }
  }

  lemma NextRead(s: State, i: nat, p: nat, sizes: seq<u32>, out: seq<seq<byte>>, n: nat)
    requires Sound(s) && i < 256 && ReadRun(s, i, p, sizes, out) && n < |sizes|
    requires p <= |Bytes(s, i)| && Sliced(Bytes(s, i), p, sizes, out, n)
    ensures out[n] == SliceAt(Bytes(s, i), p, sizes, n)
            <==> ExactAt(|Bytes(s, i)|, 512 * |s.chains[i]|, p, sizes, n)
  {
    hide Consistent, Bytes, ReadStep, Flatten, Total;
    var b := Bytes(s, i);
    SlicedTogether(b, p, sizes, out, n);
    assert ReadAt(s, i, p, sizes, out, n);
    OneRead(s, i, Position(|b|, p, sizes, n), sizes[n], out[n]);
  }

  lemma OneRead(s: State, i: nat, p: u32, n: u32, out: seq<byte>)
    requires Sound(s) && i < 256 && ReadStep(s, i, n, p, out, |out|) && p <= |Bytes(s, i)|
    ensures out == Bytes(s, i)[p..Min(p + n, |Bytes(s, i)|)]
            <==> p >= |Bytes(s, i)| || p + n < 0x1_0000_0000 || |Bytes(s, i)| == 512 * |s.chains[i]|
  {
    hide Consistent, ReadStep;
    ReadRefines(s, i, n, p, out, |out|);
    assert out[..|out|] == out;
  }

  /** Reading on through a descriptor delivers consecutive slices of the file, and nothing at its end, exactly when no read
      meets the wrap of offset plus length. */
  lemma SequentialReads(s: State, i: nat, p: nat, sizes: seq<u32>, out: seq<seq<byte>>)
    requires Sound(s) && i < 256 && ReadRun(s, i, p, sizes, out) && p <= |Bytes(s, i)|
    ensures Sliced(Bytes(s, i), p, sizes, out, |sizes|)
            <==> AllExact(|Bytes(s, i)|, 512 * |s.chains[i]|, p, sizes, |sizes|)
    ensures Sliced(Bytes(s, i), p, sizes, out, |sizes|) ==>
              Flatten(out) == Bytes(s, i)[p..Min(p + Total(sizes), |Bytes(s, i)|)]
  {
    hide Consistent, Bytes, ReadRun, ExactAt, SliceAt, Flatten, Total;
    var b := Bytes(s, i);
    if Sliced(b, p, sizes, out, |sizes|) {
      forall n | 0 <= n < |sizes| ensures ExactAt(|b|, 512 * |s.chains[i]|, p, sizes, n) {
        NextRead(s, i, p, sizes, out, n);
      }
      SlicedTogether(b, p, sizes, out, |sizes|);
      assert out[..|sizes|] == out && sizes[..|sizes|] == sizes;
    }
    if AllExact(|b|, 512 * |s.chains[i]|, p, sizes, |sizes|) {
      ReadRunLength(s, i, p, sizes, out);
      ExactReads(s, i, p, sizes, out, |sizes|);
    }
  }

  lemma ReadRunLength(s: State, i: nat, p: nat, sizes: seq<u32>, out: seq<seq<byte>>)
    requires ReadRun(s, i, p, sizes, out)
    ensures |out| == |sizes|
  { }

  lemma {:induction false} ExactReads(s: State, i: nat, p: nat, sizes: seq<u32>, out: seq<seq<byte>>, n: nat)
    requires Sound(s) && i < 256 && ReadRun(s, i, p, sizes, out) && p <= |Bytes(s, i)| && n <= |sizes|
    requires AllExact(|Bytes(s, i)|, 512 * |s.chains[i]|, p, sizes, |sizes|)
    ensures Sliced(Bytes(s, i), p, sizes, out, n)
    decreases n
  {
    hide Consistent, Bytes, ExactAt, SliceAt, Flatten, Total, ReadAt;
    if n > 0 {
      ExactReads(s, i, p, sizes, out, n - 1);
      NextRead(s, i, p, sizes, out, n - 1);
    }
  }

  /** Reads of sizes that added to the file's stay below 2^32, in any number, meet no wrap. */
  lemma ModestReads(size: nat, capacity: nat, p: nat, sizes: seq<u32>)
    requires forall n :: 0 <= n < |sizes| ==> size + sizes[n] < 0x1_0000_0000
    ensures AllExact(size, capacity, p, sizes, |sizes|)
  {
    hide Total;
  }

  // ---- descriptors in use ----

  /** Descriptor `fd` is open on entry `e` at position `p`. */
  ghost predicate OpenAt(v: Vfs, fd: int, e: int, p: nat)
    requires v.fds.Length == 256
    reads v, v.fds
  {
    v.Usable(fd) && v.fds[fd].node.value.entry == e && v.fds[fd].position == p
  }

  /** Room for a file: the bytes of its blocks and of all free ones. */
  function RoomFor(s: State, i: nat): nat
    requires i < 256
  {
    512 * (|s.chains[i]| + s.sb.freeBlocks)
  }

  /** File `i` is these bytes. */
  ghost predicate Contains(s: State, i: nat, b: seq<byte>) { Sound(s) && i < 256 && Bytes(s, i) == b }

  /** Whether writes of the chunks, starting in a file without bytes, are all full; an empty write to a file without a
      block fails on a full disk. */
  ghost predicate FitsIn(chunks: seq<seq<byte>>, room: nat) { chunks == [] || (room > 0 && |Flatten(chunks)| <= room) }

  /** Consecutive slices of `b` were delivered, exactly when no read meets the wrap of offset plus length. */
  ghost predicate Delivered(b: seq<byte>, capacity: nat, p: nat, sizes: seq<u32>, out: seq<seq<byte>>) {
    && |out| == |sizes| && p <= |b|
    && (Sliced(b, p, sizes, out, |sizes|) <==> AllExact(|b|, capacity, p, sizes, |sizes|))
    && (Sliced(b, p, sizes, out, |sizes|) ==> Flatten(out) == b[p..Min(p + Total(sizes), |b|)])
  }

  /** All other files are as they were. */
  ghost predicate OthersKept(s: State, s': State, i: nat) {
    Sound(s) && Sound(s') && forall j :: 0 <= j < 256 && j != i ==> s'.dir[j] == s.dir[j] && Bytes(s', j) == Bytes(s, j)
  }

  /** A write at the end of a file appends, or is cut off exactly when the room is used up. */
  lemma AppendStep(s: State, s': State, i: nat, data: seq<byte>, r: int)
    requires Sound(s) && Sound(s') && i < 256 && s.dir[i].size < 0x1_0000_0000
    requires WriteStep(s, s', i, data, s.dir[i].size, r) && s.dir[i].used != 0
    ensures s'.dir[i].used != 0 && RoomFor(s', i) == RoomFor(s, i) && OthersKept(s, s', i)
    ensures r == |data| <==> RoomFor(s, i) > 0 && |Bytes(s, i)| + |data| <= RoomFor(s, i)
    ensures r == |data| ==> Bytes(s', i) == Bytes(s, i) + data
  {
    hide Consistent, OnDisk, OverlaidData, FatKept, Grown;
    ChainFacts(s, i);
    WriteRefines(s, s', i, data, s.dir[i].size, r);
    forall j | 0 <= j < 256 && j != i ensures s'.dir[j] == s.dir[j] && Bytes(s', j) == Bytes(s, j) {
      WriteFrame(s, s', i, data, s.dir[i].size, r, j);
    }
    if r == |data| { Appends(Bytes(s, i), Bytes(s', i), data, Reaches(|s.chains[i]|, s.sb.freeBlocks, s.dir[i].size)); }
  }

  lemma Appends(b: seq<byte>, b': seq<byte>, data: seq<byte>, reaches: bool)
    requires if reaches then
               && |b'| == Max(|b|, |b| + |data|)
               && (forall k :: |b| <= k < |b| + |data| ==> b'[k] == data[k - |b|])
               && (forall k :: 0 <= k < |b| && !(|b| <= k < |b| + |data|) ==> b'[k] == b[k])
             else data == [] && b' == b
    ensures b' == b + data
  { }

  lemma OthersKeptTrans(s0: State, s1: State, s2: State, i: nat)
    requires OthersKept(s0, s1, i) && OthersKept(s1, s2, i)
    ensures OthersKept(s0, s2, i)
  {
    hide Consistent, Bytes;
  }

  lemma OthersKeptRefl(s: State, i: nat)
    requires Sound(s)
    ensures OthersKept(s, s, i)
  { }

  /** Successive vfs_write calls through a descriptor at the start of an empty file, up to the first that is cut off: all
      are full exactly when the chunks together fit the room, and then the file is their concatenation. */
  method WriteAll(v: Vfs, fd: int, ghost e: nat, chunks: seq<seq<byte>>) returns (full: bool)
    requires v.Valid() && e < 256 && OpenAt(v, fd, e, 0) && v.fs.dirents[e].used != 0 && Contains(v.fs.Snap(), e, [])
    requires forall c <- chunks :: |c| < 0x1_0000_0000
    modifies v.fs`sb, v.fs`chains, v.fs`owner, v.fs.fat, v.fs.dirents, v.fs.disk, v.fds
    ensures v.Valid() && v.fs.dirents[e].used != 0 && OthersKept(old(v.fs.Snap()), v.fs.Snap(), e)
    ensures full <==> FitsIn(chunks, RoomFor(old(v.fs.Snap()), e))
    ensures full ==> Contains(v.fs.Snap(), e, Flatten(chunks)) && OpenAt(v, fd, e, |Flatten(chunks)|)
    ensures forall k :: 0 <= k < 256 && k != fd ==> v.fds[k] == old(v.fds[k])
  {
    hide Consistent, WriteStep, Bytes, OthersKept, Flatten;
    ghost var s0 := v.fs.Snap();
    OthersKeptRefl(s0, e);
    FlattenNone();
    assert chunks[..0] == [];
    for n := 0 to |chunks|
      invariant v.Valid() && v.fs.dirents[e].used != 0 && OthersKept(s0, v.fs.Snap(), e)
      invariant RoomFor(v.fs.Snap(), e) == RoomFor(s0, e) && (n > 0 ==> RoomFor(s0, e) > 0)
      invariant Bytes(v.fs.Snap(), e) == Flatten(chunks[..n]) && OpenAt(v, fd, e, |Flatten(chunks[..n])|)
      invariant n > 0 ==> |Flatten(chunks[..n])| <= RoomFor(s0, e)
      invariant forall k :: 0 <= k < 256 && k != fd ==> v.fds[k] == old(v.fds[k])
    {
      ghost var s := v.fs.Snap();
      var r := v.Write(fd, chunks[n]);
      AppendStep(s, v.fs.Snap(), e, chunks[n], r);
      OthersKeptTrans(s0, s, v.fs.Snap(), e);
      FlattenNext(chunks, n);
      FlattenGrows(chunks, n + 1);
      if r != |chunks[n]| { return false; }
    }
    assert chunks[..|chunks|] == chunks;
    return true;
  }

  lemma FlattenNone()
    ensures Flatten([]) == []
  { }

  lemma TotalNone()
    ensures Total([]) == 0
  { }

  /** Successive vfs_read calls through a descriptor: no file changes, and what they deliver are consecutive slices from its
      position on, then nothing, exactly when no read meets the wrap of offset plus length. */
  method ReadAll(v: Vfs, fd: int, ghost e: nat, ghost p: nat, sizes: seq<u32>) returns (out: seq<seq<byte>>)
    requires v.Valid() && e < 256 && OpenAt(v, fd, e, p) && p <= |Bytes(v.fs.Snap(), e)|
    modifies v.fds
    ensures v.Valid() && Delivered(Bytes(v.fs.Snap(), e), 512 * |v.fs.chains[e]|, p, sizes, out)
    ensures forall k :: 0 <= k < 256 && k != fd ==> v.fds[k] == old(v.fds[k])
  {
    hide Consistent, ReadStep, Bytes, Flatten, Total, Sliced, AllExact;
    ghost var s := v.fs.Snap();
    out := [];
    FlattenNone();
    for n := 0 to |sizes|
      invariant v.Valid() && v.fs.Snap() == s && |out| == n
      invariant OpenAt(v, fd, e, p + |Flatten(out)|)
      invariant forall k :: 0 <= k < n ==> ReadAt(s, e, p, sizes, out, k)
      invariant forall k :: 0 <= k < 256 && k != fd ==> v.fds[k] == old(v.fds[k])
    {
      var buffer := new byte[sizes[n]];
      var r := v.Read(fd, buffer, sizes[n]);
      var got := buffer[..r];
      ReadStepCut(s, e, sizes[n], p + |Flatten(out)|, buffer[..], r);
      ReadAtNext(s, e, p, sizes, out, got);
      out := out + [got];
    }
    SequentialReads(s, e, p, sizes, out);
  }

  lemma ReadAtNext(s: State, i: nat, p: nat, sizes: seq<u32>, out: seq<seq<byte>>, got: seq<byte>)
    requires |out| < |sizes| && forall k :: 0 <= k < |out| ==> ReadAt(s, i, p, sizes, out, k)
    requires p + |Flatten(out)| < 0x1_0000_0000 && ReadStep(s, i, sizes[|out|], p + |Flatten(out)|, got, |got|)
    ensures Flatten(out + [got]) == Flatten(out) + got
    ensures forall k :: 0 <= k <= |out| ==> ReadAt(s, i, p, sizes, out + [got], k)
  {
    hide ReadStep, Flatten, ReadAt;
    var all := out + [got];
    FlattenNext(all, |out|);
    assert all[..|out|] == out && all[..|all|] == all;
    forall k | 0 <= k <= |out| ensures ReadAt(s, i, p, sizes, all, k) {
      ReadAtKept(s, i, p, sizes, out, got, k);
    }
  }

  lemma ReadAtKept(s: State, i: nat, p: nat, sizes: seq<u32>, out: seq<seq<byte>>, got: seq<byte>, k: nat)
    requires |out| < |sizes| && k <= |out|
    requires k < |out| ==> ReadAt(s, i, p, sizes, out, k)
    requires p + |Flatten(out)| < 0x1_0000_0000 && ReadStep(s, i, sizes[|out|], p + |Flatten(out)|, got, |got|)
    ensures ReadAt(s, i, p, sizes, out + [got], k)
  {
    hide ReadStep, Flatten;
    assert (out + [got])[..k] == out[..k] && out[..|out|] == out;
  }

  lemma ReadStepCut(s: State, i: nat, n: u32, off: u32, buffer: seq<byte>, r: nat)
    requires ReadStep(s, i, n, off, buffer, r)
    ensures ReadStep(s, i, n, off, buffer[..r], r)
  {
    assert buffer[..r][..r] == buffer[..r];
  }

  /** A path that resolves to an entry resolves to one in use. */
  lemma ResolvedUsed(s: State, mounted: bool, path: seq<byte>)
    requires Sound(s) && Resolve(s.dir, mounted, path).Some? && Resolve(s.dir, mounted, path).value.entry >= 0
    ensures var e := Resolve(s.dir, mounted, path).value.entry; 0 < e < 256 && s.dir[e].used != 0
  {
    hide Consistent, CStr, Walk, Components;
    GeometryOf(s);
    RootWalk(s.dir);
    LastStep(s.dir, Components(path));
  }

  /** Two descriptors are free. */
  ghost predicate TwoFree(fds: seq<Fd>) {
    |fds| == 256 && exists a, b :: 3 <= a < b < 256 && !fds[a].used && !fds[b].used
  }

  /** Two descriptors on the same file, both at its start. */
  method OpenTwice(v: Vfs, path: seq<byte>, ghost e: nat) returns (both: bool, a: int, b: int)
    requires v.Valid() && |Components(path)| <= 32 && e < 256
    requires Resolve(v.fs.dirents[..], v.mounted, path).Some? && Resolve(v.fs.dirents[..], v.mounted, path).value.entry == e
    modifies v.fds
    ensures v.Valid() && (both <==> TwoFree(old(v.fds[..])))
    ensures both ==> a != b && OpenAt(v, a, e, 0) && OpenAt(v, b, e, 0)
  {
    hide Consistent, Resolve, Components;
    ghost var f := v.fds[..];
    a := v.Open(path, 0);
    if a < 0 {
      assert forall k :: 3 <= k < 256 ==> f[k].used;
      return false, -1, -1;
    }
    ghost var g := v.fds[..];
    assert forall k :: 3 <= k < 256 && k != a ==> g[k] == f[k];
    b := v.Open(path, 0);
    if b < 0 {
      assert forall k :: 3 <= k < 256 && k != a ==> f[k].used;
      return false, -1, -1;
    }
    assert 3 <= a < b < 256 && !f[a].used && !f[b].used;
    return true, a, b;
  }

  /** Opens an empty file twice, writes all chunks through one descriptor and reads through the other. Both opens succeed
      exactly when two descriptors are free; the writes are full exactly when the chunks fit; and then the reads deliver
      consecutive slices of the concatenated chunks, and nothing at their end, exactly when none meets the wrap. */
  method WriteAndReadBack(v: Vfs, path: seq<byte>, ghost e: nat, chunks: seq<seq<byte>>, sizes: seq<u32>)
    returns (both: bool, full: bool, out: seq<seq<byte>>)
    requires v.Valid() && |Components(path)| <= 32 && (forall c <- chunks :: |c| < 0x1_0000_0000)
    requires e < 256 && Contains(v.fs.Snap(), e, [])
    requires Resolve(v.fs.dirents[..], v.mounted, path).Some? && Resolve(v.fs.dirents[..], v.mounted, path).value.entry == e
    modifies v.fs`sb, v.fs`chains, v.fs`owner, v.fs.fat, v.fs.dirents, v.fs.disk, v.fds
    ensures v.Valid() && OthersKept(old(v.fs.Snap()), v.fs.Snap(), e)
    ensures both <==> TwoFree(old(v.fds[..]))
    ensures both ==> (full <==> FitsIn(chunks, RoomFor(old(v.fs.Snap()), e)))
    ensures both && full ==> Contains(v.fs.Snap(), e, Flatten(chunks))
    ensures both && full ==> Delivered(Flatten(chunks), 512 * |v.fs.chains[e]|, 0, sizes, out)
  {
    hide Consistent, Bytes, Flatten, OthersKept, Resolve, Components, TwoFree, Delivered, FitsIn;
    ResolvedUsed(v.fs.Snap(), v.mounted, path);
    OthersKeptRefl(v.fs.Snap(), e);
    full, out := false, [];
    var writer, reader;
    both, writer, reader := OpenTwice(v, path, e);
    if !both { return; }
    full := WriteAll(v, writer, e, chunks);
    if !full { return; }
    out := ReadAll(v, reader, e, 0, sizes);
  }

  /** The same for a file just created: a successful vfs_create of a path whose last component has 1 to 31 characters leaves
      an empty file there. */
  method CreateWriteRead(v: Vfs, path: seq<byte>, chunks: seq<seq<byte>>, sizes: seq<u32>)
    returns (r: int, ghost e: int, both: bool, full: bool, out: seq<seq<byte>>)
    requires v.Valid() && v.mounted && |path| <= 255 && IsCString(path) && 1 <= |FileName(path)| <= 31
    requires |Components(path)| <= 32 && (forall c <- chunks :: |c| < 0x1_0000_0000)
    modifies v.fs`sb, v.fs`chains, v.fs`owner, v.fs.fat, v.fs.dirents, v.fs.disk, v.fds
    ensures v.Valid()
    ensures r != 0 ==> v.fs.Snap() == old(v.fs.Snap()) && v.fds[..] == old(v.fds[..])
    ensures r == 0 ==>
              && 0 < e < 256 && old(v.fs.dirents[e].used) == 0
              && (both <==> TwoFree(old(v.fds[..])))
              && (both ==> (full <==> FitsIn(chunks, 512 * old(v.fs.sb.freeBlocks))))
    ensures r == 0 && both && full ==>
              && Contains(v.fs.Snap(), e, Flatten(chunks))
              && Delivered(Flatten(chunks), 512 * |v.fs.chains[e]|, 0, sizes, out)
  {
    hide Consistent, Bytes, Flatten, OthersKept, Resolve, Components, CreateStep, FileName, Delivered, FitsIn, TwoFree;
    ghost var s := v.fs.Snap();
    ShorterParent(path);
    e, r := v.Create(path, false);
    both, full, out := false, false, [];
    if r != 0 {
      CreateFailed(s, v.fs.Snap(), path, e, r);
      return;
    }
    VfsCreateResolves(s, v.fs.Snap(), path, e);
    CreatedRoom(s, v.fs.Snap(), path, e);
    both, full, out := WriteAndReadBack(v, path, e, chunks, sizes);
  }

  lemma ShorterParent(path: seq<byte>)
    requires |path| <= 255 && FileName(path) != [] && |Components(path)| <= 32
    ensures path != [] && path[0] == SLASH ==> |Components(ParentPath(path))| <= 32
  {
    hide Components, FileName;
    if path != [] && path[0] == SLASH { PathComponents(path); }
  }

  lemma CreateFailed(s: State, s': State, path: seq<byte>, e: int, r: int)
    requires VfsCreateStep(s, s', true, path, false, e, r) && r != 0
    ensures s' == s
  { }

  /** Creating a file takes no blocks, and the new file has none. */
  lemma CreatedRoom(s: State, s': State, path: seq<byte>, e: int)
    requires Sound(s) && VfsCreateStep(s, s', true, path, false, e, 0) && 0 < e < 256 && s.dir[e].used == 0
    ensures RoomFor(s', e) == 512 * s.sb.freeBlocks
  {
    hide CStr;
  }
}
