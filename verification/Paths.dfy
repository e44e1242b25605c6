/** Path components and path resolution (src/kernel/VFS/VFS.c). */
module Paths {
  import opened Basics
  import opened Layout
  import opened FsSpec

  const SLASH: byte := 47

  // ---- components ----

  function Cut(s: seq<byte>): seq<byte> { if |s| <= 255 then s else s[..255] }

  /** A finished component; empty ones are skipped. */
  function Emit(s: seq<byte>): seq<seq<byte>> { if s == [] then [] else [s] }

  /** The components of `path`, each cut to 255 bytes, when `open` has been read of the current one. */
  function Split(path: seq<byte>, open: seq<byte>): seq<seq<byte>>
    decreases |path|
  {
    if path == [] then Emit(open)
    else if path[0] == SLASH then Emit(open) + Split(path[1..], [])
    else Split(path[1..], Cut(open + [path[0]]))
  }

  function Components(path: seq<byte>): seq<seq<byte>> { Split(path, []) }

  predicate SlashFree(s: seq<byte>) { forall k :: 0 <= k < |s| ==> s[k] != SLASH }

  predicate Proper(tokens: seq<seq<byte>>) { forall k :: 0 <= k < |tokens| ==> tokens[k] != [] }

  /** tokenize_path. */
  method Tokenize(path: seq<byte>) returns (tokens: seq<seq<byte>>)
    ensures tokens == Components(path)
  {
    tokens := [];
    var open: seq<byte> := [];
    var i := if |path| > 0 && path[0] == SLASH then 1 else 0;
    assert Components(path) == Split(path[i..], []) by {
      if i == 0 { assert path[0..] == path; } else { assert Emit([]) + Split(path[1..], []) == Split(path[1..], []); }
    }
    while i < |path|
      invariant i <= |path| && |open| <= 255
      invariant Components(path) == tokens + Split(path[i..], open)
    {
      assert path[i..][1..] == path[i + 1..];
      if path[i] == SLASH {
        if |open| > 0 {
          tokens := tokens + [open];
          open := [];
        } else {
          assert Emit(open) + Split(path[i + 1..], []) == Split(path[i + 1..], []);
        }
      } else {
        if |open| < 255 {
          open := open + [path[i]];
        } else {
          assert Cut(open + [path[i]]) == open;
        }
      }
      i := i + 1;
    }
    if |open| > 0 {
      tokens := tokens + [open];
    }
  }

  lemma {:induction false} SplitProper(path: seq<byte>, open: seq<byte>)
    ensures Proper(Split(path, open))
    decreases |path|
  {
    if path != [] {
      if path[0] == SLASH { SplitProper(path[1..], []); } else { SplitProper(path[1..], Cut(open + [path[0]])); }
    }
  }

  /** A slash-free run only lengthens the current component. */
  lemma {:induction false} SplitRun(run: seq<byte>, rest: seq<byte>, open: seq<byte>)
    requires SlashFree(run) && |open| + |run| <= 255
    ensures Split(run + rest, open) == Split(rest, open + run)
    decreases |run|
  {
    if run == [] {
      assert run + rest == rest && open + run == open;
    } else {
      assert (run + rest)[1..] == run[1..] + rest;
      assert open + [run[0]] + run[1..] == open + run;
      SplitRun(run[1..], rest, open + [run[0]]);
    }
  }

  /** A slash cuts a path in two independent parts. */
  lemma {:induction false} SplitAtSlash(front: seq<byte>, back: seq<byte>, open: seq<byte>)
    ensures Split(front + [SLASH] + back, open) == Split(front, open) + Split(back, [])
    decreases |front|
  {
    var path := front + [SLASH] + back;
    if front == [] {
      assert path[0] == SLASH && path[1..] == back;
    } else {
      assert path[1..] == front[1..] + [SLASH] + back;
      if front[0] == SLASH {
        SplitAtSlash(front[1..], back, []);
        assert Emit(open) + (Split(front[1..], []) + Split(back, [])) == Emit(open) + Split(front[1..], []) + Split(back, []);
      } else {
        SplitAtSlash(front[1..], back, Cut(open + [front[0]]));
      }
    }
  }

  /** The last component of a path, split off at its last slash. */
  lemma LastComponent(parent: seq<byte>, name: seq<byte>)
    requires SlashFree(name) && 0 < |name| <= 255
    ensures Components(parent + [SLASH] + name) == Components(parent) + [name]
  {
    SplitAtSlash(parent, name, []);
    SplitRun(name, [], []);
    assert name + [] == name && [] + name == name;
  }

  /** The path with these components. */
  function Join(tokens: seq<seq<byte>>): seq<byte> {
    if tokens == [] then [] else Join(tokens[..|tokens| - 1]) + [SLASH] + tokens[|tokens| - 1]
  }

  /** Tokenizing inverts joining. */
  lemma {:induction false} JoinComponents(tokens: seq<seq<byte>>)
    requires forall k :: 0 <= k < |tokens| ==> 0 < |tokens[k]| <= 255 && SlashFree(tokens[k])
    ensures Components(Join(tokens)) == tokens
    decreases |tokens|
  {
    if tokens != [] {
      var n := |tokens| - 1;
      JoinComponents(tokens[..n]);
      LastComponent(Join(tokens[..n]), tokens[n]);
      assert tokens == tokens[..n] + [tokens[n]];
    }
  }

  lemma {:induction false} SplitLongRun(run: seq<byte>, rest: seq<byte>, open: seq<byte>)
    requires SlashFree(run)
    ensures Split(run + rest, Cut(open)) == Split(rest, Cut(open + run))
    decreases |run|
  {
    if run == [] {
      assert run + rest == rest && open + run == open;
    } else {
      assert (run + rest)[1..] == run[1..] + rest;
      assert open + [run[0]] + run[1..] == open + run;
      assert Cut(Cut(open) + [run[0]]) == Cut(open + [run[0]]);
      SplitLongRun(run[1..], rest, open + [run[0]]);
    }
  }

  /** What a path keeps of the pieces between its slashes: the empty ones are dropped, the others cut to 255 bytes. */
  function KeptPieces(pieces: seq<seq<byte>>): seq<seq<byte>> {
    if pieces == [] then []
    else
      var last := pieces[|pieces| - 1];
      KeptPieces(pieces[..|pieces| - 1]) + if last == [] then [] else if |last| < 256 then [last] else [last[..255]]
  }

  /** Tokenizing a path of any pieces, empty and overlong ones included. */
  lemma {:induction false} PiecesComponents(pieces: seq<seq<byte>>)
    requires forall k :: 0 <= k < |pieces| ==> SlashFree(pieces[k])
    ensures Components(Join(pieces)) == KeptPieces(pieces)
    decreases |pieces|
  {
    if pieces != [] {
      var n := |pieces| - 1;
      var last := pieces[n];
      PiecesComponents(pieces[..n]);
      SplitAtSlash(Join(pieces[..n]), last, []);
      SplitLongRun(last, [], []);
      assert last + [] == last && [] + last == last;
    }
  }

  // ---- lookup ----

  /** The first used entry from `k` on with that parent and name, or -1. */
  function LookupFrom(dir: Directory, parent: u32, name: seq<byte>, k: nat): (i: int)
    requires k <= 256
    ensures i == -1 || (k <= i < 256 && Matches(dir[i], parent, name))
    ensures forall j :: k <= j < (if i == -1 then 256 else i) ==> !Matches(dir[j], parent, name)
    decreases 256 - k
  {
    if k == 256 then -1 else if Matches(dir[k], parent, name) then k else LookupFrom(dir, parent, name, k + 1)
  }

  function Lookup(dir: Directory, parent: u32, name: seq<byte>): (i: int)
    ensures i == -1 || (0 <= i < 256 && Matches(dir[i], parent, name))
    ensures forall j :: 0 <= j < (if i == -1 then 256 else i) ==> !Matches(dir[j], parent, name)
  {
    LookupFrom(dir, parent, name, 0)
  }

  /** A node as handed out by the filesystem; the root node has inode 0 and no entry. */
  datatype Node = Node(inode: u32, isDirectory: bool, entry: int)

  const ROOT := Node(0, true, -1)

  function NodeOf(dir: Directory, i: nat): Node
    requires i < 256
  {
    Node(i, dir[i].isDirectory != 0, i)
  }

  /** Following `tokens` from `node`. */
  function Walk(dir: Directory, node: Node, tokens: seq<seq<byte>>): Option<Node>
    decreases |tokens|
  {
    if tokens == [] then Some(node)
    else if !node.isDirectory then None
    else
      var i := Lookup(dir, node.inode, tokens[0]);
      if i == -1 then None else Walk(dir, NodeOf(dir, i), tokens[1..])
  }

  /** A walk can be taken in two stages. */
  lemma {:induction false} WalkConcat(dir: Directory, node: Node, a: seq<seq<byte>>, b: seq<seq<byte>>)
    ensures Walk(dir, node, a + b) ==
            match Walk(dir, node, a)
            case None => None
            case Some(n) => Walk(dir, n, b)
    decreases |a|
  {
    hide CStr, Lookup;
    if a == [] {
      assert a + b == b;
    } else {
      assert (a + b)[1..] == a[1..] + b;
      if node.isDirectory && Lookup(dir, node.inode, a[0]) != -1 {
        WalkConcat(dir, NodeOf(dir, Lookup(dir, node.inode, a[0])), a[1..], b);
      }
    }
  }

  lemma WalkAppend(dir: Directory, node: Node, tokens: seq<seq<byte>>, t: seq<byte>)
    ensures Walk(dir, node, tokens + [t]) ==
            match Walk(dir, node, tokens)
            case None => None
            case Some(n) =>
              if !n.isDirectory || Lookup(dir, n.inode, t) == -1 then None
              else Some(NodeOf(dir, Lookup(dir, n.inode, t)))
  {
    hide CStr, Lookup;
    WalkConcat(dir, node, tokens, [t]);
    assert [t][1..] == [];
  }

  /** Distinct component lists lead to distinct nodes: every node other than the root has one parent and one name. */
  lemma {:induction false} WalkInjective(dir: Directory, a: seq<seq<byte>>, b: seq<seq<byte>>)
    requires dir[0].used == 0
    requires Walk(dir, ROOT, a).Some? && Walk(dir, ROOT, b).Some?
    requires Walk(dir, ROOT, a).value.inode == Walk(dir, ROOT, b).value.inode
    ensures a == b
    decreases |a| + |b|
  {
    hide CStr, Lookup, Walk;
    if a != [] { LastStep(dir, a); }
    if b != [] { LastStep(dir, b); }
    if a == [] && b == [] {
    } else if a == [] || b == [] {
      RootWalk(dir);
      assert false;
    } else {
      WalkInjective(dir, a[..|a| - 1], b[..|b| - 1]);
      assert a == a[..|a| - 1] + [a[|a| - 1]] && b == b[..|b| - 1] + [b[|b| - 1]];
    }
  }

  lemma RootWalk(dir: Directory)
    ensures Walk(dir, ROOT, []) == Some(ROOT)
  {
  }

  /** The node a non-empty walk ends at is an entry filed under the node before it, with the last token as its name. */
  lemma LastStep(dir: Directory, tokens: seq<seq<byte>>)
    requires tokens != [] && Walk(dir, ROOT, tokens).Some? && dir[0].used == 0
    ensures var (n, front, t) := (Walk(dir, ROOT, tokens).value, tokens[..|tokens| - 1], tokens[|tokens| - 1]);
            && Walk(dir, ROOT, front).Some? && Walk(dir, ROOT, front).value.isDirectory
            && 0 < n.inode < 256 && n == NodeOf(dir, n.inode)
            && Matches(dir[n.inode], Walk(dir, ROOT, front).value.inode, t)
            && Lookup(dir, Walk(dir, ROOT, front).value.inode, t) == n.inode
  {
    hide CStr, Walk;
    var front, t := tokens[..|tokens| - 1], tokens[|tokens| - 1];
    assert tokens == front + [t];
    WalkAppend(dir, ROOT, front, t);
  }

  // ---- create and resolution ----

  /** Entry `i` was free and now is the entry `name` under `parent`; all others are as before. */
  ghost predicate Added(dir: Directory, dir': Directory, i: nat, parent: u32, name: seq<byte>) {
    && 0 < i < 256 && dir[0].used == 0 && dir[i].used == 0
    && dir' == dir[i := dir'[i]]
    && Matches(dir'[i], parent, name)
    && (forall j :: 0 <= j < 256 ==> !Matches(dir[j], parent, name))
  }

  lemma LookupAdded(dir: Directory, dir': Directory, i: nat, parent: u32, name: seq<byte>, p: u32, t: seq<byte>)
    requires Added(dir, dir', i, parent, name)
    ensures Lookup(dir', p, t) == if p == parent && t == name then i else Lookup(dir, p, t)
    ensures p == parent && t == name ==> Lookup(dir, p, t) == -1
  {
    hide CStr;
    assert forall j :: 0 <= j < 256 && j != i ==> dir'[j] == dir[j];
    var k, k' := Lookup(dir, p, t), Lookup(dir', p, t);
    assert forall j :: 0 <= j < 256 ==> Matches(dir'[j], p, t) == ((j == i && p == parent && t == name) || Matches(dir[j], p, t));
  }

  /** While a walk does not pass through the new entry it is what it was; the new path ends at the new entry. */
  lemma {:induction false} WalkAdded(dir: Directory, dir': Directory, i: nat, parent: u32, name: seq<byte>, tokens: seq<seq<byte>>)
    requires Added(dir, dir', i, parent, name)
    ensures var (w, w') := (Walk(dir, ROOT, tokens), Walk(dir', ROOT, tokens));
            if w.Some? then w' == w && w.value.inode != i && 0 <= w.value.inode < 256
            else w'.None? || exists n :: 0 <= n < |tokens| && PathTo(dir, tokens[..n], parent) && tokens[n] == name
    decreases |tokens|
  {
    hide CStr, Lookup, Walk;
    if tokens == [] {
      RootWalk(dir);
      RootWalk(dir');
    } else {
      var n := |tokens| - 1;
      var front, t := tokens[..n], tokens[n];
      assert tokens == front + [t];
      WalkAdded(dir, dir', i, parent, name, front);
      WalkAppend(dir, ROOT, front, t);
      WalkAppend(dir', ROOT, front, t);
      if Walk(dir, ROOT, front).Some? {
        var p := Walk(dir, ROOT, front).value;
        LookupAdded(dir, dir', i, parent, name, p.inode, t);
        if p.isDirectory && p.inode == parent && t == name {
          assert PathTo(dir, tokens[..n], parent);
        }
      } else if Walk(dir', ROOT, front).Some? {
        var m :| 0 <= m < |front| && PathTo(dir, front[..m], parent) && front[m] == name;
        assert tokens[..m] == front[..m] && tokens[m] == name;
      }
    }
  }

  ghost predicate PathTo(dir: Directory, tokens: seq<seq<byte>>, inode: u32) {
    Walk(dir, ROOT, tokens).Some? && Walk(dir, ROOT, tokens).value.inode == inode && Walk(dir, ROOT, tokens).value.isDirectory
  }

  /** A path that changes its meaning goes through the new entry. */
  lemma WalkChanged(dir: Directory, dir': Directory, i: nat, parent: Node, name: seq<byte>, front: seq<seq<byte>>, tokens: seq<seq<byte>>)
    requires Added(dir, dir', i, parent.inode, name)
    requires Walk(dir, ROOT, front) == Some(parent) && parent.isDirectory
    requires Walk(dir', ROOT, tokens) != Walk(dir, ROOT, tokens)
    ensures front + [name] <= tokens && Walk(dir, ROOT, tokens) == None
  {
    hide CStr, Lookup, Walk;
    WalkAdded(dir, dir', i, parent.inode, name, tokens);
    var n :| 0 <= n < |tokens| && PathTo(dir, tokens[..n], parent.inode) && tokens[n] == name;
    WalkInjective(dir, tokens[..n], front);
    assert tokens[..n + 1] == front + [name];
  }

  /** The new path resolves to the new entry, and did not resolve before. */
  lemma NewPath(dir: Directory, dir': Directory, i: nat, parent: Node, name: seq<byte>, front: seq<seq<byte>>)
    requires Added(dir, dir', i, parent.inode, name)
    requires Walk(dir, ROOT, front) == Some(parent) && parent.isDirectory
    ensures Walk(dir, ROOT, front + [name]) == None
    ensures Walk(dir', ROOT, front + [name]) == Some(NodeOf(dir', i))
    ensures parent.inode != i
  {
    hide CStr, Lookup, Walk;
    WalkAdded(dir, dir', i, parent.inode, name, front);
    WalkAppend(dir, ROOT, front, name);
    WalkAppend(dir', ROOT, front, name);
    LookupAdded(dir, dir', i, parent.inode, name, parent.inode, name);
  }

  /** After a regular file is created, its path resolves to it and every other path resolves as before. */
  lemma CreateResolves(dir: Directory, dir': Directory, i: nat, parent: Node, name: seq<byte>, front: seq<seq<byte>>)
    requires Added(dir, dir', i, parent.inode, name) && dir'[i].isDirectory == 0
    requires Walk(dir, ROOT, front) == Some(parent) && parent.isDirectory
    ensures Walk(dir', ROOT, front + [name]) == Some(Node(i, false, i))
    ensures forall tokens :: tokens != front + [name] ==> Walk(dir', ROOT, tokens) == Walk(dir, ROOT, tokens)
  {
    hide CStr, Lookup, Added;
    NewPath(dir, dir', i, parent, name, front);
    forall tokens | tokens != front + [name] ensures Walk(dir', ROOT, tokens) == Walk(dir, ROOT, tokens) {
      if Walk(dir', ROOT, tokens) != Walk(dir, ROOT, tokens) {
        WalkChanged(dir, dir', i, parent, name, front, tokens);
        var rest := tokens[|front| + 1..];
        assert tokens == (front + [name]) + rest;
        WalkConcat(dir', ROOT, front + [name], rest);
        assert false;
      }
    }
  }

  /** Entries left behind under an index by the removal of a directory. */
  ghost predicate Orphan(dir: Directory, i: nat, j: nat) {
    j < 256 && dir[j].used != 0 && dir[j].parentInode == i && CStr(dir[j].name) != []
  }

  /** After a directory is created, its path resolves to it; the other paths all resolve as before iff the index it got
      has no entries left behind under it, for those reappear in the new directory. */
  lemma MkdirResolves(dir: Directory, dir': Directory, i: nat, parent: Node, name: seq<byte>, front: seq<seq<byte>>)
    requires Added(dir, dir', i, parent.inode, name) && dir'[i].isDirectory != 0
    requires Walk(dir, ROOT, front) == Some(parent) && parent.isDirectory
    requires Proper(front) && name != []
    ensures Walk(dir', ROOT, front + [name]) == Some(Node(i, true, i))
    ensures (forall tokens :: Proper(tokens) && tokens != front + [name] ==> Walk(dir', ROOT, tokens) == Walk(dir, ROOT, tokens))
            <==> (forall j :: 0 <= j < 256 ==> !Orphan(dir, i, j))
  {
    hide CStr, Lookup, Walk;
    NewPath(dir, dir', i, parent, name, front);
    var new_ := front + [name];
    assert Proper(new_);
    if j :| 0 <= j < 256 && Orphan(dir, i, j) {
      var t := CStr(dir[j].name);
      var tokens := new_ + [t];
      WalkAppend(dir, ROOT, new_, t);
      WalkAppend(dir', ROOT, new_, t);
      assert Matches(dir'[j], i, t);
      assert Lookup(dir', i, t) != -1;
      assert Proper(tokens) && tokens != new_ && Walk(dir', ROOT, tokens) != Walk(dir, ROOT, tokens);
    } else {
      forall tokens | Proper(tokens) && tokens != new_ ensures Walk(dir', ROOT, tokens) == Walk(dir, ROOT, tokens) {
        if Walk(dir', ROOT, tokens) != Walk(dir, ROOT, tokens) {
          WalkChanged(dir, dir', i, parent, name, front, tokens);
          NoOrphanWalk(dir, dir', i, parent.inode, name, new_, tokens);
          assert false;
        }
      }
    }
  }

  lemma NoOrphanWalk(dir: Directory, dir': Directory, i: nat, parent: u32, name: seq<byte>, new_: seq<seq<byte>>, tokens: seq<seq<byte>>)
    requires Added(dir, dir', i, parent, name) && parent != i
    requires forall j :: 0 <= j < 256 ==> !Orphan(dir, i, j)
    requires Walk(dir', ROOT, new_) == Some(NodeOf(dir', i))
    requires Proper(tokens) && new_ <= tokens && tokens != new_
    ensures Walk(dir', ROOT, tokens) == None
  {
    hide CStr;
    var t, rest := tokens[|new_|], tokens[|new_| + 1..];
    assert tokens == new_ + [t] + rest;
    WalkAppend(dir', ROOT, new_, t);
    WalkConcat(dir', ROOT, new_ + [t], rest);
    forall j | 0 <= j < 256 ensures !Matches(dir'[j], i, t) {
      assert j != i ==> dir'[j] == dir[j];
      assert !Orphan(dir, i, j);
    }
  }
}
