/** Saving and loading an editor's text through the VFS (src/kernel/Anthropic/Anthropic.c). */
module EditorFiles {
  import opened Basics
  import opened Layout
  import opened DiskImage
  import opened FsSpec
  import opened FsTheorems
  import opened FsHistory
  import opened Paths
  import opened VfsModule
  import opened VfsRuns
  import EditText
  import AnthropicModule

  // ---- characters and bytes ----

  predicate Narrow(s: string) { forall k :: 0 <= k < |s| ==> s[k] as int < 256 }

  function ToBytes(s: string): (b: seq<byte>)
    requires Narrow(s)
    ensures |b| == |s|
  {
    seq(|s|, k requires 0 <= k < |s| => s[k] as int)
  }

  function ToText(b: seq<byte>): (s: string)
    ensures |s| == |b|
  {
    seq(|b|, k requires 0 <= k < |b| => b[k] as char)
  }

  lemma TextBytes(s: string, n: nat)
    requires Narrow(s) && n <= |s|
    ensures ToText(ToBytes(s)[..n]) == s[..n]
  { }

  // ---- resolution sees only names ----

  ghost predicate SameTree(dir: Directory, dir': Directory) {
    forall j :: 0 <= j < 256 ==>
      && dir'[j].used == dir[j].used && dir'[j].parentInode == dir[j].parentInode
      && dir'[j].name == dir[j].name && dir'[j].isDirectory == dir[j].isDirectory
  }

  lemma {:induction false} WalkSame(dir: Directory, dir': Directory, node: Node, tokens: seq<seq<byte>>)
    requires SameTree(dir, dir')
    ensures Walk(dir', node, tokens) == Walk(dir, node, tokens)
    decreases |tokens|
  {
    hide CStr;
    if tokens != [] && node.isDirectory {
      LookupSame(dir, dir', node.inode, tokens[0]);
      var i := Lookup(dir, node.inode, tokens[0]);
      if i != -1 { WalkSame(dir, dir', NodeOf(dir, i), tokens[1..]); }
    }
  }

  lemma LookupSame(dir: Directory, dir': Directory, parent: u32, name: seq<byte>)
    requires SameTree(dir, dir')
    ensures Lookup(dir', parent, name) == Lookup(dir, parent, name)
  {
    hide CStr;
    assert forall j :: 0 <= j < 256 ==> Matches(dir'[j], parent, name) == Matches(dir[j], parent, name);
  }

  // ---- replacing a file ----

  /** vfs_create of this path succeeds. */
  ghost predicate CanCreate(s: State, path: seq<byte>)
    requires path != [] && path[0] == SLASH
  {
    var parent := Resolve(s.dir, true, ParentPath(path));
    && parent.Some? && parent.value.isDirectory
    && (forall j :: 0 <= j < 256 ==> !Matches(s.dir[j], parent.value.inode, FileName(path)))
    && exists i :: 1 <= i < 256 && s.dir[i].used == 0
  }

  lemma CreateSucceeds(s: State, s': State, path: seq<byte>, e: int, r: int)
    requires path != [] && path[0] == SLASH && VfsCreateStep(s, s', true, path, false, e, r)
    ensures r == 0 <==> CanCreate(s, path)
  {
    hide CStr, DirOnDisk;
  }

  /** Under unique names, an unlink of a path that leads to a file makes room for its new version exactly when no entry in
      use with a lower index has the name: otherwise another file is gone, and the old version or no parent is in the way. */
  lemma UnlinkMakesRoom(s: State, s': State, path: seq<byte>, own: nat, e: int, r: int)
    requires Sound(s) && Sound(s') && UniqueNames(s.dir) && |path| <= 255 && FileName(path) != [] && own < 256
    requires Resolve(s.dir, true, path).Some? && Resolve(s.dir, true, path).value.entry == own
    requires UnlinkStep(s, s', true, FileName(path), e, r)
    ensures path != [] && path[0] == SLASH
    ensures CanCreate(s', path) <==> forall j :: 0 <= j < own ==> !Named(s.dir[j], FileName(path))
  {
    hide Consistent, CStr, Components, Walk, UniqueNames, FileName;
    GeometryOf(s);
    GeometryOf(s');
    UnlinksOwn(s, s', path, own, e, r);
    PathComponents(path);
    var front, name := Components(ParentPath(path)), FileName(path);
    LastStep(s.dir, front + [name]);
    assert (front + [name])[..|front|] == front;
    assert Dropped(s.dir, s'.dir, e);
    WalkDropped(s.dir, s'.dir, e, front);
    if e == own {
      NotThroughItself(s.dir, front, name, own);
      OnlyMatch(s.dir, s'.dir, own, Walk(s.dir, ROOT, front).value.inode, name);
      assert s'.dir[own].used == 0;
    } else {
      assert s'.dir[own] == s.dir[own];
    }
  }

  lemma NotThroughItself(dir: Directory, front: seq<seq<byte>>, name: seq<byte>, own: nat)
    requires dir[0].used == 0 && own < 256 && Walk(dir, ROOT, front + [name]).Some? && Walk(dir, ROOT, front + [name]).value.inode == own
    ensures !PassesThrough(dir, front, own)
  {
    hide CStr, Walk;
    if PassesThrough(dir, front, own) {
      var n :| 0 < n <= |front| && Walk(dir, ROOT, front[..n]) == Some(NodeOf(dir, own));
      WalkInjective(dir, front[..n], front + [name]);
      assert false;
    }
  }

  lemma OnlyMatch(dir: Directory, dir': Directory, own: nat, parent: u32, name: seq<byte>)
    requires UniqueNames(dir) && own < 256 && Matches(dir[own], parent, name) && dir'[own].used == 0 && dir' == dir[own := dir'[own]]
    ensures forall j :: 0 <= j < 256 ==> !Matches(dir'[j], parent, name)
  {
    hide CStr;
    forall j | 0 <= j < 256 ensures !Matches(dir'[j], parent, name) {
      assert dir'[j] == dir[j] || j == own;
      assert SameName(dir[j], dir[own]) || !Matches(dir[j], parent, name);
    }
  }

  // ---- save and load ----

  ghost predicate FdFree(fds: seq<Fd>) { |fds| == 256 && exists k :: 3 <= k < 256 && !fds[k].used }

  /** What the unlink at the start of a save does: entry `u` is removed, if `ur` is 0. */
  ghost predicate Unlinked(s: State, s': State, path: seq<byte>, u: int, ur: int)
    requires path != [] && path[0] == SLASH
  {
    var parent := Resolve(s.dir, true, ParentPath(path));
    if parent.None? then s' == s else UnlinkStep(s, s', parent.value.isDirectory, FileName(path), u, ur)
  }

  /** The path leads to a regular file with these bytes. */
  ghost predicate FileIs(s: State, path: seq<byte>, e: int, b: seq<byte>) {
    0 < e < 256 && Resolve(s.dir, true, path) == Some(Node(e, false, e)) && s.dir[e].used != 0 && Contains(s, e, b)
  }

  /** The unlink and the create of a save. If the create succeeds the path leads to an empty file. */
  method Recreate(v: Vfs, path: seq<byte>) returns (ghost s1: State, ghost u: int, ghost ur: int, ghost e: int)
    requires v.Valid() && v.mounted && |path| <= 255 && IsCString(path) && path != [] && path[0] == SLASH
    requires 1 <= |FileName(path)| <= 31 && |Components(path)| <= 32
    modifies v.fs`sb, v.fs`chains, v.fs`owner, v.fs.fat, v.fs.dirents, v.fs.disk
    ensures v.Valid() && Unlinked(old(v.fs.Snap()), s1, path, u, ur)
    ensures CanCreate(s1, path) ==> FileIs(v.fs.Snap(), path, e, []) && RoomFor(v.fs.Snap(), e) == 512 * s1.sb.freeBlocks
  {
    hide Consistent, CanCreate, Resolve, Components, FileName, UnlinkStep, VfsCreateStep, Bytes;
    ShorterParent(path);
    var n;
    u, n := v.Unlink(path);
    ur := n;
    s1 := v.fs.Snap();
    e, n := v.Create(path, false);
    CreateSucceeds(s1, v.fs.Snap(), path, e, n);
    if n == 0 {
      VfsCreateResolves(s1, v.fs.Snap(), path, e);
      CreatedRoom(s1, v.fs.Snap(), path, e);
    }
  }

  /** The open, write and close of a save. */
  method WriteFile(v: Vfs, path: seq<byte>, data: seq<byte>, ghost e: int) returns (r: int)
    requires v.Valid() && v.mounted && |Components(path)| <= 32 && |data| < 0x1_0000_0000
    modifies v.fs`sb, v.fs`chains, v.fs`owner, v.fs.fat, v.fs.dirents, v.fs.disk, v.fds
    ensures v.Valid() && (r == 0 || r == -1)
    ensures old(FileIs(v.fs.Snap(), path, e, [])) ==>
              && (r == 0 <==> FdFree(old(v.fds[..])) && FitsIn([data], RoomFor(old(v.fs.Snap()), e)))
              && (r == 0 ==> FileIs(v.fs.Snap(), path, e, data))
    ensures forall k :: 0 <= k < 256 ==> v.fds[k].used == old(v.fds[k].used)
  {
    hide Consistent, Resolve, Components, Bytes, FitsIn, WriteStep, Contains;
    ghost var s := v.fs.Snap();
    var fd := v.Open(path, 2);
    if fd < 0 { return -1; }
    OpenedUsed(s, path);
    var written := v.Write(fd, data);
    if FileIs(s, path, e, []) { NewWritten(s, v.fs.Snap(), path, e, data, written); }
    var _ := v.Close(fd);
    r := if written == |data| then 0 else -1;
  }

  /** editor_save_file: unlink, create, open, write, close. If the file could be created anew, the save succeeds exactly when
      a descriptor is free and the data fits the disk after the unlink, and then the path leads to the data. */
  method SaveFile(v: Vfs, path: seq<byte>, data: seq<byte>) returns (ghost s1: State, ghost u: int, ghost ur: int, ghost e: int, r: int)
    requires v.Valid() && v.mounted && |path| <= 255 && IsCString(path) && path != [] && path[0] == SLASH
    requires 1 <= |FileName(path)| <= 31 && |Components(path)| <= 32 && |data| < 0x1_0000_0000
    modifies v.fs`sb, v.fs`chains, v.fs`owner, v.fs.fat, v.fs.dirents, v.fs.disk, v.fds
    ensures v.Valid() && (r == 0 || r == -1) && Unlinked(old(v.fs.Snap()), s1, path, u, ur)
    ensures CanCreate(s1, path) ==> (r == 0 <==> FdFree(old(v.fds[..])) && FitsIn([data], 512 * s1.sb.freeBlocks))
    ensures CanCreate(s1, path) && r == 0 ==> FileIs(v.fs.Snap(), path, e, data)
    ensures forall k :: 0 <= k < 256 ==> v.fds[k].used == old(v.fds[k].used)
  {
    hide Consistent, CanCreate, Components, FileName, FitsIn, Unlinked, FdFree, Contains, Resolve;
    s1, u, ur, e := Recreate(v, path);
    r := WriteFile(v, path, data, e);
  }

  lemma OpenedUsed(s: State, path: seq<byte>)
    requires Sound(s) && Resolve(s.dir, true, path).Some?
    ensures var e := Resolve(s.dir, true, path).value.entry; -1 <= e < 256 && (e >= 0 ==> s.dir[e].used != 0)
  {
    hide Consistent, Walk, Components, CStr;
    if Components(path) != [] {
      GeometryOf(s);
      LastStep(s.dir, Components(path));
    } else {
      RootWalk(s.dir);
    }
  }

  lemma NewWritten(s: State, s': State, path: seq<byte>, e: nat, data: seq<byte>, r: int)
    requires Sound(s) && Sound(s') && e < 256 && FileIs(s, path, e, []) && WriteStep(s, s', e, data, 0, r)
    ensures r == |data| <==> FitsIn([data], RoomFor(s, e))
    ensures r == |data| ==> FileIs(s', path, e, data)
  {
    hide Consistent, Bytes, OthersKept, Walk, Components, OnDisk, OverlaidData;
    assert s.dir[e].size == |Bytes(s, e)| == 0;
    AppendStep(s, s', e, data, r);
    assert [data][..0] == [] && [data][0] == data;
    FlattenNone();
    FlattenNext([data], 0);
    assert [data][..1] == [data];
    assert [] + data == data;
    assert SameTree(s.dir, s'.dir);
    WalkSame(s.dir, s'.dir, ROOT, Components(path));
  }

  /** editor_load_file up to the line split: open, read at most 2047 bytes, close. What a path leads to is read up to there. */
  method LoadFile(v: Vfs, path: seq<byte>, ghost e: int, ghost b: seq<byte>) returns (fd: int, data: seq<byte>)
    requires v.Valid() && v.mounted && |Components(path)| <= 32
    modifies v.fds
    ensures v.Valid()
    ensures FileIs(v.fs.Snap(), path, e, b) ==> (fd >= 0 <==> FdFree(old(v.fds[..])))
    ensures FileIs(v.fs.Snap(), path, e, b) && fd >= 0 ==> data == b[..Min(AnthropicModule.READ_LIMIT, |b|)]
    ensures forall k :: 0 <= k < 256 ==> v.fds[k].used == old(v.fds[k].used)
  {
    hide Consistent, Resolve, Components, Bytes, ReadStep;
    data := [];
    fd := v.Open(path, 1);
    if fd < 0 { return; }
    OpenedUsed(v.fs.Snap(), path);
    var buffer := new byte[2047];
    var n := v.Read(fd, buffer, 2047);
    data := buffer[..n];
    if FileIs(v.fs.Snap(), path, e, b) {
      ReadStepCut(v.fs.Snap(), e, 2047, 0, buffer[..], n);
      OneRead(v.fs.Snap(), e, 0, 2047, data);
    }
    var _ := v.Close(fd);
  }

  /** What was loaded of the bytes of a text. */
  lemma LoadedSame(text: string, data: seq<byte>)
    requires Narrow(text) && data == ToBytes(text)[..Min(AnthropicModule.READ_LIMIT, |text|)]
    ensures AnthropicModule.LoadFrom(ToText(data), [], "") == AnthropicModule.Loaded(text)
  {
    hide AnthropicModule.LoadFrom;
    TextBytes(text, Min(AnthropicModule.READ_LIMIT, |text|));
    assert text[..|text|] == text;
  }

  lemma {:induction false} FlatLength(lines: seq<string>)
    requires AnthropicModule.Clean(lines)
    ensures |EditText.Flat(lines)| <= 80 * |lines|
    decreases |lines|
  {
    assert AnthropicModule.CleanLine(lines[0]);
    if |lines| > 1 { FlatLength(lines[1..]); }
  }

  /** Saving lines and loading them again. If the file could be created anew and a descriptor is free, the save succeeds
      exactly when the text fits the disk, and then the same lines are loaded exactly when the text has at most 2047
      characters and its last line is not empty, or its only one. */
  method SaveAndReload(v: Vfs, path: seq<byte>, lines: seq<string>) returns (ghost s1: State, ghost u: int, ghost ur: int, r: int, loaded: seq<string>)
    requires v.Valid() && v.mounted && |path| <= 255 && IsCString(path) && path != [] && path[0] == SLASH
    requires 1 <= |FileName(path)| <= 31 && |Components(path)| <= 32
    requires AnthropicModule.Clean(lines) && Narrow(EditText.Flat(lines))
    modifies v.fs`sb, v.fs`chains, v.fs`owner, v.fs.fat, v.fs.dirents, v.fs.disk, v.fds
    ensures v.Valid() && Unlinked(old(v.fs.Snap()), s1, path, u, ur)
    ensures CanCreate(s1, path) && FdFree(old(v.fds[..])) ==>
              && (r == 0 <==> FitsIn([ToBytes(EditText.Flat(lines))], 512 * s1.sb.freeBlocks))
              && (r == 0 ==> (loaded == lines <==>
                    |EditText.Flat(lines)| <= AnthropicModule.READ_LIMIT && (lines[|lines| - 1] != "" || |lines| == 1)))
  {
    hide Consistent, CanCreate, Resolve, Components, FileName, Unlinked, FileIs, FitsIn, AnthropicModule.CleanLine, AnthropicModule.LoadFrom, EditText.Flat;
    var text := EditText.Flat(lines);
    FlatLength(lines);
    ghost var e;
    s1, u, ur, e, r := SaveFile(v, path, ToBytes(text));
    loaded := [];
    if r != 0 { return; }
    var fd, data := LoadFile(v, path, e, ToBytes(text));
    if fd < 0 { return; }
    loaded := AnthropicModule.LoadFrom(ToText(data), [], "");
    if CanCreate(s1, path) {
      AnthropicModule.SaveLoad(lines);
      LoadedSame(text, data);
    }
  }
}
