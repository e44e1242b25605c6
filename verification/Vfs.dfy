/** The VFS layer (src/kernel/VFS/VFS.c): resolution, creation by path, and the descriptor table. */
module VfsModule {
  import opened Basics
  import opened Layout
  import opened DiskImage
  import opened FatChains
  import opened FileBytes
  import opened FsSpec
  import opened FsTheorems
  import opened FsHistory
  import opened TinyFsModule
  import opened Paths

  // ---- parent path and file name ----

  /** Index of the last slash of a path, or -1. */
  function LastSlash(path: seq<byte>): (k: int)
    ensures -1 <= k < |path|
    ensures k >= 0 ==> path[k] == SLASH
    ensures forall j :: k < j < |path| ==> path[j] != SLASH
  {
    if path == [] then -1
    else if path[|path| - 1] == SLASH then |path| - 1
    else LastSlash(path[..|path| - 1])
  }

  function ParentPath(path: seq<byte>): seq<byte>
    requires LastSlash(path) >= 0
  {
    if LastSlash(path) == 0 then [SLASH] else path[..LastSlash(path)]
  }

  function FileName(path: seq<byte>): seq<byte> { Cut(path[LastSlash(path) + 1..]) }

  function Resolve(dir: Directory, mounted: bool, path: seq<byte>): Option<Node> {
    if !mounted || path == [] || path[0] != SLASH then None else Walk(dir, ROOT, Components(path))
  }

  /** A path with a non-empty last component has its parent's components and that one. */
  lemma PathComponents(path: seq<byte>)
    requires path != [] && path[0] == SLASH && |path| <= 255 && FileName(path) != []
    ensures LastSlash(path) >= 0
    ensures Components(path) == Components(ParentPath(path)) + [FileName(path)]
  {
    hide LastSlash, Components;
    CutAtLastSlash(path);
    var k := LastSlash(path);
    LastComponent(path[..k], path[k + 1..]);
    RootComponents();
    assert k == 0 ==> path[..k] == [];
  }

  lemma CutAtLastSlash(path: seq<byte>)
    requires path != [] && path[0] == SLASH
    ensures LastSlash(path) >= 0
    ensures var k := LastSlash(path); path == path[..k] + [SLASH] + path[k + 1..] && SlashFree(path[k + 1..])
  {
    hide LastSlash;
  }

  lemma RootComponents()
    ensures Components([SLASH]) == [] && Components([]) == []
  {
    SplitAtSlash([], [], []);
    assert [] + [SLASH] + [] == [SLASH];
  }

  /** The scan for the last slash that creation and removal share. */
  method FindLastSlash(path: seq<byte>) returns (lastSlash: int)
    ensures lastSlash == LastSlash(path)
  {
    lastSlash := -1;
    for i := 0 to |path|
      invariant lastSlash == LastSlash(path[..i])
    {
      assert path[..i + 1][..i] == path[..i];
      if path[i] == SLASH { lastSlash := i; }
    }
    assert path[..|path|] == path;
  }

  datatype Fd = Fd(used: bool, node: Option<Node>, position: u32, flags: u32)

  class Vfs {
    const fs: TinyFs
    const fds: array<Fd>
    var mounted: bool

    constructor (fs: TinyFs)
      requires fs.Wired()
      ensures this.fs == fs && fresh(fds) && fds.Length == 256 && !mounted
      ensures forall k :: 0 <= k < 256 ==> fds[k] == Fd(false, None, 0, 0)
    {
      this.fs := fs;
      mounted := false;
      fds := new Fd[256](_ => Fd(false, None, 0, 0));
    }

    ghost predicate Valid()
      reads this, fs, fs.fat, fs.dirents
    {
      fs.Valid() && fds.Length == 256 && fds as object != fs.fat && fds as object != fs.dirents
    }

    ghost predicate Wired()
      reads this
    {
      fs.Wired() && fds.Length == 256 && fds as object != fs.fat && fds as object != fs.dirents
    }

    /** vfs_mount at the root: mounts the filesystem and, if that works, makes its root the root. */
    method MountRoot() returns (r: int)
      requires Wired()
      modifies this`mounted, fs`sb, fs`chains, fs`owner, fs.fat, fs.dirents
      ensures r == 0 || r == -1
      ensures mounted == (r == 0 || old(mounted))
      ensures SbOf(fs.disk.sectors[0]).magic != MAGIC ==> r == -1
      ensures Mountable(fs.disk.sectors) ==>
                && r == 0 && Valid()
                && fs.sb == SbOf(fs.disk.sectors[0]) && fs.fat[..] == FatOf(fs.disk.sectors) && fs.dirents[..] == DirOf(fs.disk.sectors)
    {
      hide Shape, FreeCount, FatOf, DirOf, SbOf, Names;
      r := fs.Mount();
      if r != 0 { return -1; }
      mounted := true;
    }

    /** vfs_resolve_path. */
    method ResolvePath(path: seq<byte>) returns (node: Option<Node>)
      requires Valid() && |Components(path)| <= 32
      ensures node == Resolve(fs.dirents[..], mounted, path)
    {
      hide Consistent, CStr, Split;
      if !mounted { return None; }
      if path == [SLASH] {
        RootComponents();
        return Some(ROOT);
      }
      if path == [] || path[0] != SLASH { return None; }
      var tokens := Tokenize(path);
      var current := ROOT;
      ghost var dir := fs.dirents[..];
      for i := 0 to |tokens|
        invariant Walk(dir, ROOT, tokens) == Walk(dir, current, tokens[i..])
      {
        assert tokens[i..][0] == tokens[i] && tokens[i..][1..] == tokens[i + 1..];
        if !current.isDirectory { return None; }
        var e := fs.FindDir(current.inode, tokens[i]);
        FirstIsLookup(dir, current.inode, tokens[i], e);
        if e < 0 { return None; }
        current := NodeOf(fs.dirents[..], e);
      }
      assert tokens[|tokens|..] == [];
      return Some(current);
    }

    /** vfs_create and vfs_mkdir. */
    method Create(path: seq<byte>, isDirectory: bool) returns (ghost e: int, r: int)
      requires Valid() && |path| <= 255 && IsCString(path)
      requires path != [] && path[0] == SLASH ==> |Components(ParentPath(path))| <= 32
      modifies fs.dirents, fs.disk
      ensures Valid()
      ensures VfsCreateStep(old(fs.Snap()), fs.Snap(), mounted, path, isDirectory, e, r)
    {
      hide Consistent, CreateStep;
      e, r := -1, -1;
      if path == [] || path[0] != SLASH { return; }
      var lastSlash := FindLastSlash(path);
      assert lastSlash >= 0;
      var parentPath := if lastSlash == 0 then [SLASH] else path[..lastSlash];
      var name := Cut(path[lastSlash + 1..]);
      var parent := ResolvePath(parentPath);
      if parent.None? { return; }
      if !parent.value.isDirectory { CreateRefused(fs.Snap(), parent.value.inode, name, isDirectory); return; }
      e, r := fs.Create(parent.value.inode, true, name, isDirectory);
    }

    /** vfs_unlink. */
    method Unlink(path: seq<byte>) returns (ghost e: int, r: int)
      requires Valid() && |path| <= 255 && IsCString(path)
      requires path != [] && path[0] == SLASH ==> |Components(ParentPath(path))| <= 32
      modifies fs`sb, fs`chains, fs`owner, fs.fat, fs.dirents, fs.disk
      ensures Valid()
      ensures var parent := if path == [] || path[0] != SLASH then None
                            else Resolve(old(fs.Snap()).dir, mounted, ParentPath(path));
              if parent.None? then r == -1 && fs.Snap() == old(fs.Snap())
              else UnlinkStep(old(fs.Snap()), fs.Snap(), parent.value.isDirectory, FileName(path), e, r)
    {
      hide Consistent, RemoveStep;
      e, r := -1, -1;
      if path == [] || path[0] != SLASH { return; }
      var lastSlash := FindLastSlash(path);
      assert lastSlash >= 0;
      var parentPath := if lastSlash == 0 then [SLASH] else path[..lastSlash];
      var parent := ResolvePath(parentPath);
      if parent.None? { return; }
      if !parent.value.isDirectory { return; }
      e, r := fs.Unlink(true, Cut(path[lastSlash + 1..]));
    }

    // ---- descriptors ----

    /** allocate_fd: the first free descriptor from 3 on. */
    method AllocateFd() returns (fd: int)
      requires fds.Length == 256
      modifies fds
      ensures fd == -1 || 3 <= fd < 256
      ensures fd == -1 <==> forall k :: 3 <= k < 256 ==> old(fds[k].used)
      ensures fd == -1 ==> fds[..] == old(fds[..])
      ensures fd != -1 ==> !old(fds[fd].used) && forall k :: 3 <= k < fd ==> old(fds[k].used)
      ensures fd != -1 ==> fds[..] == old(fds[..])[fd := old(fds[fd]).(used := true)]
    {
      for i := 3 to 256
        invariant fds[..] == old(fds[..])
        invariant forall k :: 3 <= k < i ==> fds[k].used
      {
        if !fds[i].used {
          fds[i] := fds[i].(used := true);
          return i;
        }
      }
      return -1;
    }

    method Open(path: seq<byte>, flags: u32) returns (fd: int)
      requires Valid() && |Components(path)| <= 32
      modifies fds
      ensures Valid()
      ensures fd == -1 ==> fds[..] == old(fds[..])
      ensures fd == -1 <==>
                Resolve(fs.dirents[..], mounted, path).None? || forall k :: 3 <= k < 256 ==> old(fds[k].used)
      ensures fd != -1 ==>
                && 3 <= fd < 256 && !old(fds[fd].used) && (forall k :: 3 <= k < fd ==> old(fds[k].used))
                && fds[..] == old(fds[..])[fd := Fd(true, Resolve(fs.dirents[..], mounted, path), 0, flags)]
    {
      hide Consistent;
      var node := ResolvePath(path);
      if node.None? { return -1; }
      fd := AllocateFd();
      if fd < 0 { return -1; }
      fds[fd] := Fd(true, node, 0, flags);
    }

    method Close(fd: int) returns (r: int)
      requires fds.Length == 256
      modifies fds
      ensures r == 0 <==> 0 <= fd < 256 && old(fds[fd].used)
      ensures r == 0 || (r == -1 && fds[..] == old(fds[..]))
      ensures r == 0 ==> fds[..] == old(fds[..])[fd := Fd(false, None, 0, old(fds[fd].flags))]
    {
      if fd < 0 || fd >= 256 || !fds[fd].used { return -1; }
      fds[fd] := fds[fd].(used := false, node := None, position := 0);
      return 0;
    }

    predicate Usable(fd: int)
      requires fds.Length == 256
      reads fds
    {
      0 <= fd < 256 && fds[fd].used && fds[fd].node.Some? && -1 <= fds[fd].node.value.entry < 256
    }

    method Read(fd: int, buffer: array<byte>, n: u32) returns (r: int)
      requires Valid() && n <= buffer.Length
      requires buffer as object != fs.fat && buffer as object != fs.dirents && buffer as object != fds
      modifies buffer, fds
      ensures Valid()
      ensures !old(Usable(fd)) ==> r == -1 && fds[..] == old(fds[..])
      ensures old(Usable(fd)) ==>
                var (e, p) := (old(fds[fd]).node.value.entry, old(fds[fd]).position);
                && 0 <= r <= buffer.Length
                && (e == -1 ==> r == 0)
                && (e >= 0 ==> ReadStep(fs.Snap(), e, n, p, buffer[..], r))
                && p + r < 0x1_0000_0000
                && fds[..] == old(fds[..])[fd := old(fds[fd]).(position := p + r)]
    {
      hide Consistent, InData, ChainBytes;
      if !Usable(fd) { return -1; }
      var node := fds[fd].node.value;
      ghost var f0 := fds[..];
      r := fs.Read(node.entry, buffer, n, fds[fd].position);
      if node.entry >= 0 { ReadFits(fs.Snap(), node.entry, n, fds[fd].position, buffer[..], r); }
      if r > 0 {
        fds[fd] := fds[fd].(position := fds[fd].position + r);
      }
      assert fds[..] == f0[fd := f0[fd].(position := f0[fd].position + r)];
    }

    /** vfs_write, through a descriptor whose entry has not been unlinked since. */
    method Write(fd: int, data: seq<byte>) returns (r: int)
      requires Valid() && |data| < 0x1_0000_0000
      requires Usable(fd) && fds[fd].node.value.entry >= 0 ==> fs.dirents[fds[fd].node.value.entry].used != 0
      modifies fs`sb, fs`chains, fs`owner, fs.fat, fs.dirents, fs.disk, fds
      ensures Valid()
      ensures !old(Usable(fd)) ==> r == -1 && fds[..] == old(fds[..]) && fs.Snap() == old(fs.Snap())
      ensures old(Usable(fd)) ==>
                var (e, p) := (old(fds[fd]).node.value.entry, old(fds[fd]).position);
                && (e == -1 ==> r == -1 && fs.Snap() == old(fs.Snap()))
                && (e >= 0 ==> WriteStep(old(fs.Snap()), fs.Snap(), e, data, p, r))
                && p + Max(r, 0) < 0x1_0000_0000
                && fds[..] == old(fds[..])[fd := old(fds[fd]).(position := p + Max(r, 0))]
    {
      hide Consistent, WriteStep;
      if !Usable(fd) { return -1; }
      var node := fds[fd].node.value;
      ghost var f0, s := fds[..], fs.Snap();
      r := fs.Write(node.entry, data, fds[fd].position);
      if node.entry >= 0 { WriteFits(s, fs.Snap(), node.entry, data, fds[fd].position, r); }
      if r > 0 {
        fds[fd] := fds[fd].(position := fds[fd].position + r);
      }
      assert fds[..] == f0[fd := f0[fd].(position := f0[fd].position + Max(r, 0))];
    }
  }

  // ---- creation by path ----

  ghost predicate VfsCreateStep(s: State, s': State, mounted: bool, path: seq<byte>, isDirectory: bool, e: int, r: int) {
    var parent := if path == [] || path[0] != SLASH then None else Resolve(s.dir, mounted, ParentPath(path));
    if parent.None? then r == -1 && s' == s
    else CreateStep(s, s', parent.value.inode, parent.value.isDirectory, FileName(path), isDirectory, e, r)
  }

  lemma CreateRefused(s: State, parent: u32, name: seq<byte>, isDirectory: bool)
    ensures CreateStep(s, s, parent, false, name, isDirectory, -1, -1)
  {
  }

  lemma FirstIsLookup(dir: Directory, parent: u32, name: seq<byte>, e: int)
    requires FirstSuch(dir, (d: Dirent) => Matches(d, parent, name), 0, e)
    ensures e == Lookup(dir, parent, name)
  {
    hide CStr;
  }

  lemma WriteFits(s: State, s': State, i: nat, data: seq<byte>, off: u32, r: int)
    requires Sound(s) && Sound(s') && WriteStep(s, s', i, data, off, r)
    ensures r > 0 ==> off + r < 0x1_0000_0000
  {
    hide Consistent, OnDisk;
    ChainFacts(s, i);
  }

  lemma ReadFits(s: State, i: nat, n: u32, off: u32, buffer: seq<byte>, r: nat)
    requires Sound(s) && ReadStep(s, i, n, off, buffer, r)
    ensures r > 0 ==> off + r < 0x1_0000_0000
  {
    hide Consistent;
    ChainFacts(s, i);
  }

  /** After a successful vfs_create of a path whose last component has 1 to 31 characters, that path resolves to a new
      empty regular file and every other path resolves as it did. */
  lemma VfsCreateResolves(s: State, s': State, path: seq<byte>, e: int)
    requires Sound(s) && Sound(s') && VfsCreateStep(s, s', true, path, false, e, 0)
    requires |path| <= 255 && IsCString(path) && 0 < |FileName(path)| <= 31
    ensures 0 < e < 256 && s.dir[e].used == 0 && s'.dir[e].used != 0 && Bytes(s', e) == []
    ensures Resolve(s'.dir, true, path) == Some(Node(e, false, e))
    ensures forall other :: Components(other) != Components(path) ==> Resolve(s'.dir, true, other) == Resolve(s.dir, true, other)
    ensures forall j :: 0 <= j < 256 && j != e ==> s'.dir[j] == s.dir[j] && Bytes(s', j) == Bytes(s, j)
  {
    hide Consistent, DirOnDisk, CStr, Components, Walk;
    var parent, name := Resolve(s.dir, true, ParentPath(path)).value, FileName(path);
    CreateRefines(s, s', parent.inode, true, name, false, e, 0);
    assert Truncated(name) == name;
    GeometryOf(s);
    PathComponents(path);
    CreateResolves(s.dir, s'.dir, e, parent, name, Components(ParentPath(path)));
  }

  /** A longer last component is stored cut to 31 characters, so the path just created does not resolve to the new file. */
  lemma LongNameLost(s: State, s': State, path: seq<byte>, isDirectory: bool, e: int)
    requires Sound(s) && Sound(s') && VfsCreateStep(s, s', true, path, isDirectory, e, 0)
    requires |path| <= 255 && IsCString(path) && |FileName(path)| > 31
    ensures Resolve(s'.dir, true, path) == None
  {
    hide Consistent, CStr, Components, Walk;
    PathComponents(path);
    LongWalk(s', Components(ParentPath(path)), FileName(path));
  }

  /** A path that ends in a slash has its parent's components. */
  lemma EmptyNameComponents(path: seq<byte>)
    requires path != [] && path[0] == SLASH && FileName(path) == []
    ensures LastSlash(path) >= 0 && Components(path) == Components(ParentPath(path))
  {
    hide LastSlash, Split;
    CutAtLastSlash(path);
    var k := LastSlash(path);
    assert path[k + 1..] == [];
    SplitAtSlash(path[..k], [], []);
    RootComponents();
    assert Components(path[..k]) + [] == Components(path[..k]);
    assert k == 0 ==> path[..k] == [];
  }

  /** With an empty last component a nameless entry is stored that no path leads to: the path just created resolves to
      the parent directory, and every path resolves as it did. */
  lemma EmptyNameLost(s: State, s': State, path: seq<byte>, isDirectory: bool, e: int)
    requires Sound(s) && Sound(s') && VfsCreateStep(s, s', true, path, isDirectory, e, 0)
    requires |path| <= 255 && IsCString(path) && FileName(path) == []
    ensures 0 < e < 256 && s.dir[e].used == 0 && s'.dir[e].used != 0
    ensures Resolve(s'.dir, true, path) == Resolve(s.dir, true, ParentPath(path)) && Resolve(s'.dir, true, path).Some?
    ensures Resolve(s'.dir, true, path).value.isDirectory && Resolve(s'.dir, true, path).value.inode != e
    ensures forall other :: Resolve(s'.dir, true, other) == Resolve(s.dir, true, other)
  {
    hide Consistent, DirOnDisk, CStr, Components, Walk;
    var parent := Resolve(s.dir, true, ParentPath(path)).value;
    CreateRefines(s, s', parent.inode, true, [], isDirectory, e, 0);
    GeometryOf(s);
    EmptyNameComponents(path);
    forall other ensures Resolve(s'.dir, true, other) == Resolve(s.dir, true, other) {
      NamelessWalk(s.dir, s'.dir, e, parent.inode, other);
    }
    WalkAdded(s.dir, s'.dir, e, parent.inode, [], Components(path));
  }

  lemma NamelessWalk(dir: Directory, dir': Directory, e: nat, parent: u32, path: seq<byte>)
    requires Added(dir, dir', e, parent, [])
    ensures Walk(dir', ROOT, Components(path)) == Walk(dir, ROOT, Components(path))
  {
    hide CStr, Walk, Split;
    WalkAdded(dir, dir', e, parent, [], Components(path));
    SplitProper(path, []);
  }

  /** After a successful vfs_mkdir of a path whose last component has 1 to 31 characters, that path resolves to the new
      directory; every other path resolves as it did exactly when no entries are left behind under its index. */
  lemma VfsMkdirResolves(s: State, s': State, path: seq<byte>, e: int)
    requires Sound(s) && Sound(s') && VfsCreateStep(s, s', true, path, true, e, 0)
    requires |path| <= 255 && IsCString(path) && 0 < |FileName(path)| <= 31
    ensures 0 < e < 256 && s.dir[e].used == 0 && s'.dir[e].used != 0
    ensures Resolve(s'.dir, true, path) == Some(Node(e, true, e))
    ensures (forall tokens :: Paths.Proper(tokens) && tokens != Components(path) ==> Walk(s'.dir, ROOT, tokens) == Walk(s.dir, ROOT, tokens))
            <==> (forall j :: 0 <= j < 256 ==> !Orphan(s.dir, e, j))
    ensures forall j :: 0 <= j < 256 && j != e ==> s'.dir[j] == s.dir[j] && Bytes(s', j) == Bytes(s, j)
  {
    hide Consistent, DirOnDisk, CStr, Components, Walk, Orphan;
    var parent, name := Resolve(s.dir, true, ParentPath(path)).value, FileName(path);
    CreateRefines(s, s', parent.inode, true, name, true, e, 0);
    assert Truncated(name) == name;
    GeometryOf(s);
    PathComponents(path);
    ComponentsProper(ParentPath(path));
    MkdirResolves(s.dir, s'.dir, e, parent, name, Components(ParentPath(path)));
  }

  lemma ComponentsProper(path: seq<byte>)
    ensures Paths.Proper(Components(path))
  {
    SplitProper(path, []);
  }

  /** After every successful vfs_create or vfs_mkdir of at most 255 characters, the path resolves to the new entry exactly
      when its last component has 1 to 31 characters. */
  lemma CreatedResolvesIff(s: State, s': State, path: seq<byte>, isDirectory: bool, e: int)
    requires Sound(s) && Sound(s') && VfsCreateStep(s, s', true, path, isDirectory, e, 0)
    requires |path| <= 255 && IsCString(path)
    ensures Resolve(s'.dir, true, path) == Some(Node(e, isDirectory, e)) <==> 1 <= |FileName(path)| <= 31
  {
    hide Consistent, VfsCreateStep, Resolve, FileName, Walk, Components;
    if FileName(path) == [] {
      EmptyNameLost(s, s', path, isDirectory, e);
    } else if |FileName(path)| > 31 {
      LongNameLost(s, s', path, isDirectory, e);
    } else if isDirectory {
      VfsMkdirResolves(s, s', path, e);
    } else {
      VfsCreateResolves(s, s', path, e);
    }
  }

  /** No entry carries a name of more than 31 characters, so no walk ends with one. */
  lemma LongWalk(s: State, front: seq<seq<byte>>, name: seq<byte>)
    requires Sound(s) && |name| > 31
    ensures Walk(s.dir, ROOT, front + [name]) == None
  {
    hide Shape, CStr, Walk;
    WalkAppend(s.dir, ROOT, front, name);
    match Walk(s.dir, ROOT, front)
    case None =>
    case Some(n) => LongNames(s, n.inode, name);
  }

  lemma LongNames(s: State, parent: u32, name: seq<byte>)
    requires Sound(s) && |name| > 31
    ensures Lookup(s.dir, parent, name) == -1
  {
    hide Shape;
    forall j | 0 <= j < 256 ensures !Matches(s.dir[j], parent, name) {
      ShortName(s.dir[j].name);
    }
  }

  lemma ShortName(field: NameField)
    requires field[31] == 0
    ensures |CStr(field)| <= 31
  {
  }

  // ---- removal by path ----

  /** The walk along `tokens` comes through entry `e`. */
  ghost predicate PassesThrough(dir: Directory, tokens: seq<seq<byte>>, e: nat)
    requires e < 256
  {
    exists n :: 0 < n <= |tokens| && Walk(dir, ROOT, tokens[..n]) == Some(NodeOf(dir, e))
  }

  /** Entry `e` was in use and now is not; all others are as before. */
  ghost predicate Dropped(dir: Directory, dir': Directory, e: nat) {
    && 0 < e < 256 && dir[0].used == 0 && dir[e].used != 0 && dir'[e].used == 0
    && dir' == dir[e := dir'[e]]
  }

  lemma LookupDropped(dir: Directory, dir': Directory, e: nat, parent: u32, name: seq<byte>)
    requires Dropped(dir, dir', e) && UniqueNames(dir)
    ensures Lookup(dir', parent, name) == if Lookup(dir, parent, name) == e then -1 else Lookup(dir, parent, name)
  {
    hide CStr;
    assert forall j :: 0 <= j < 256 && j != e ==> dir'[j] == dir[j];
    var k, k' := Lookup(dir, parent, name), Lookup(dir', parent, name);
  }

  /** Removing an entry ends every walk that came through it and leaves every other walk as it was. */
  lemma {:induction false} WalkDropped(dir: Directory, dir': Directory, e: nat, tokens: seq<seq<byte>>)
    requires Dropped(dir, dir', e) && UniqueNames(dir)
    ensures Walk(dir', ROOT, tokens) == if PassesThrough(dir, tokens, e) then None else Walk(dir, ROOT, tokens)
    decreases |tokens|
  {
    hide CStr, Lookup, Walk, UniqueNames;
    if tokens == [] {
      RootWalk(dir);
      RootWalk(dir');
    } else {
      var n := |tokens| - 1;
      var front, t := tokens[..n], tokens[n];
      assert tokens == front + [t] && tokens[..|tokens|] == tokens;
      WalkDropped(dir, dir', e, front);
      WalkAppend(dir, ROOT, front, t);
      WalkAppend(dir', ROOT, front, t);
      PassesNext(dir, tokens, e);
      match Walk(dir, ROOT, front)
      case None =>
      case Some(p) =>
        LookupDropped(dir, dir', e, p.inode, t);
        var i := Lookup(dir, p.inode, t);
        assert i != -1 && i != e ==> dir'[i] == dir[i];
    }
  }

  lemma PassesNext(dir: Directory, tokens: seq<seq<byte>>, e: nat)
    requires e < 256 && tokens != []
    ensures PassesThrough(dir, tokens, e) <==>
            PassesThrough(dir, tokens[..|tokens| - 1], e) || Walk(dir, ROOT, tokens) == Some(NodeOf(dir, e))
  {
    hide Walk;
    var front := tokens[..|tokens| - 1];
    assert tokens[..|tokens|] == tokens;
    assert forall n :: 0 <= n <= |front| ==> front[..n] == tokens[..n];
  }

  /** After a successful unlink under unique names, exactly the paths through the removed entry stop resolving. */
  lemma VfsUnlinkResolves(s: State, s': State, parentIsDir: bool, name: seq<byte>, e: int)
    requires Sound(s) && Sound(s') && UniqueNames(s.dir) && UnlinkStep(s, s', parentIsDir, name, e, 0)
    ensures 0 < e < 256
    ensures forall path :: Resolve(s'.dir, true, path) ==
              if path != [] && path[0] == SLASH && PassesThrough(s.dir, Components(path), e) then None else Resolve(s.dir, true, path)
  {
    hide Consistent, CStr, Components, Walk, UniqueNames, OnDisk;
    GeometryOf(s);
    GeometryOf(s');
    assert Dropped(s.dir, s'.dir, e);
    forall path ensures Resolve(s'.dir, true, path) ==
              if path != [] && path[0] == SLASH && PassesThrough(s.dir, Components(path), e) then None else Resolve(s.dir, true, path)
    {
      WalkDropped(s.dir, s'.dir, e, Components(path));
    }
  }

  /** The entry an unlink removes is the one its path leads to exactly when no entry in use with a lower index has the name,
      in whatever directory. */
  lemma UnlinksOwn(s: State, s': State, path: seq<byte>, own: nat, e: int, r: int)
    requires Sound(s) && |path| <= 255 && FileName(path) != [] && own < 256
    requires Resolve(s.dir, true, path).Some? && Resolve(s.dir, true, path).value.entry == own
    requires UnlinkStep(s, s', true, FileName(path), e, r)
    ensures r == 0 && e <= own
    ensures e == own <==> forall j :: 0 <= j < own ==> !Named(s.dir[j], FileName(path))
  {
    hide Consistent, CStr, Components, Walk, RemoveStep, FileName;
    GeometryOf(s);
    PathComponents(path);
    LastStep(s.dir, Components(path));
    assert Named(s.dir[own], FileName(path));
  }
}
