/** The shape of the file allocation table: one chain of data blocks per directory entry. */
module FatChains {
  import opened Layout

  /** Who holds a block: nobody, or position `pos` of the chain of entry `file`. */
  datatype Owner = Unowned | At(file: nat, pos: nat)

  type Chains = c: seq<seq<int>> | |c| == 256 witness seq(256, _ => [])
  type Owners = o: seq<Owner> | |o| == 1024 witness seq(1024, _ => Unowned)

  /** `c` stays in the data region and is threaded through the table up to the EOF mark. */
  ghost predicate Linked(fat: Fat, c: seq<int>) {
    && (forall k :: 0 <= k < |c| ==> 101 <= c[k] < 1024)
    && (forall k :: 0 <= k < |c| ==> fat[c[k]] == Next(c, k))
  }

  function Next(c: seq<int>, k: nat): int { if k + 1 < |c| then c[k + 1] else EOF }

  ghost predicate AllLinked(fat: Fat, chains: Chains) {
    forall i :: 0 <= i < 256 ==> Linked(fat, chains[i])
  }

  function First(c: seq<int>): int { if c == [] then 0 else c[0] }

  /** Every chain position is registered with its block, so no block is on two positions. */
  ghost predicate Owned(chains: Chains, owner: Owners) {
    forall i, k :: 0 <= i < 256 && 0 <= k < |chains[i]| ==>
      0 <= chains[i][k] < 1024 && owner[chains[i][k]] == At(i, k)
  }

  /** Every allocated data block is on the chain its registration names. */
  ghost predicate Covered(fat: Fat, chains: Chains, owner: Owners) {
    forall b :: 101 <= b < 1024 ==>
      if fat[b] == 0 then owner[b] == Unowned
      else owner[b].At? && owner[b].file < 256 && owner[b].pos < |chains[owner[b].file]|
           && chains[owner[b].file][owner[b].pos] == b
  }

  ghost predicate Entries(dir: Directory, chains: Chains) {
    forall i :: 0 <= i < 256 ==>
      && dir[i].firstBlock == First(chains[i])
      && dir[i].size <= 512 * |chains[i]|
      && (dir[i].used == 0 ==> chains[i] == [])
  }

  /** Number of free data blocks numbered below `n`. */
  function FreeBelow(fat: Fat, n: nat): nat
    requires n <= 1024
  {
    if n <= 101 then 0
    else (if fat[n - 1] == 0 then 1 else 0) + FreeBelow(fat, n - 1)
  }

  function FreeCount(fat: Fat): nat { FreeBelow(fat, |fat|) }

  /** Number of blocks on the first `n` chains. */
  function Blocks(chains: Chains, n: nat): nat
    requires n <= 256
  {
    if n == 0 then 0 else Blocks(chains, n - 1) + |chains[n - 1]|
  }

  function BlockCount(chains: Chains): nat { Blocks(chains, |chains|) }

  ghost predicate Shape(fat: Fat, dir: Directory, chains: Chains, owner: Owners) {
    && AllLinked(fat, chains)
    && Owned(chains, owner)
    && Covered(fat, chains, owner)
    && Entries(dir, chains)
    && BlockCount(chains) + FreeCount(fat) == 923
  }

  // ---- counting ----

  lemma {:induction false} FreeBelowUpdate(fat: Fat, n: nat, b: nat, v: u32)
    requires n <= 1024 && 101 <= b < 1024
    ensures FreeBelow(fat[b := v], n) ==
            FreeBelow(fat, n)
            + (if b < n && fat[b] != 0 && v == 0 then 1 else 0)
            - (if b < n && fat[b] == 0 && v != 0 then 1 else 0)
  {
    if n > 101 {
      FreeBelowUpdate(fat, n - 1, b, v);
    }
  }

  lemma {:induction false} FreeBelowNone(fat: Fat, n: nat)
    requires n <= 1024
    ensures FreeBelow(fat, n) == 0 <==> forall b :: 101 <= b < n ==> fat[b] != 0
  {
    if n > 101 {
      FreeBelowNone(fat, n - 1);
    }
  }

  lemma {:induction false} BlocksUpdate(chains: Chains, n: nat, i: nat, c: seq<int>)
    requires n <= 256 && i < 256
    ensures Blocks(chains[i := c], n) == Blocks(chains, n) + if i < n then |c| - |chains[i]| else 0
  {
    if n > 0 {
      BlocksUpdate(chains, n - 1, i, c);
    }
  }

  // ---- what the shape says about chains ----

  /** Chains are acyclic and pairwise disjoint: a block determines its file and its position. */
  lemma ChainsDisjoint(fat: Fat, dir: Directory, chains: Chains, owner: Owners, i: nat, k: nat, j: nat, l: nat)
    requires Shape(fat, dir, chains, owner)
    requires i < 256 && j < 256 && k < |chains[i]| && l < |chains[j]|
    requires chains[i][k] == chains[j][l]
    ensures i == j && k == l
  {
    assert owner[chains[i][k]] == At(i, k);
    assert owner[chains[j][l]] == At(j, l);
  }

  /** The table alone determines the chain that starts at a given block. */
  lemma {:induction false} ChainUnique(fat: Fat, c: seq<int>, d: seq<int>)
    requires Linked(fat, c) && Linked(fat, d) && First(c) == First(d)
    ensures c == d
    decreases |c|
  {
    if c != [] && d != [] {
      LinkedTail(fat, c);
      LinkedTail(fat, d);
      ChainUnique(fat, c[1..], d[1..]);
      assert c == [c[0]] + c[1..] && d == [d[0]] + d[1..];
    }
  }

  lemma LinkedTail(fat: Fat, c: seq<int>)
    requires Linked(fat, c) && c != []
    ensures Linked(fat, c[1..])
    ensures First(c[1..]) == if fat[c[0]] == EOF then 0 else fat[c[0]]
  {
    var d := c[1..];
    forall k | 0 <= k < |d| ensures 101 <= d[k] < 1024 && fat[d[k]] == Next(d, k) {
      assert d[k] == c[k + 1] && Next(d, k) == Next(c, k + 1);
    }
    assert fat[c[0]] == Next(c, 0);
    if d != [] { assert d[0] == c[1]; }
  }

  /** The walk in the source tells the last block from the others by the EOF mark. */
  lemma AtEnd(fat: Fat, c: seq<int>, k: nat)
    requires Linked(fat, c) && k < |c|
    ensures fat[c[k]] == EOF <==> k == |c| - 1
    ensures fat[c[k]] == Next(c, k)
  {
    if k + 1 < |c| { assert 101 <= c[k + 1] < 1024; }
  }

  // ---- the two mutations ----

  /** Hooking a free block onto the end of chain `i`. */
  lemma AppendBlock(fat: Fat, dir: Directory, chains: Chains, owner: Owners, i: nat, b: nat,
                    fat': Fat, dir': Directory)
    requires Shape(fat, dir, chains, owner)
    requires i < 256 && dir[i].used != 0
    requires 101 <= b < 1024 && fat[b] == 0
    requires var c := chains[i];
             && fat' == (if c == [] then fat[b := EOF] else fat[b := EOF][c[|c| - 1] := b])
             && dir' == (if c == [] then dir[i := dir[i].(firstBlock := b)] else dir)
    ensures Shape(fat', dir', chains[i := chains[i] + [b]], owner[b := At(i, |chains[i]|)])
    ensures FreeCount(fat') == FreeCount(fat) - 1
  {
    assert owner[b] == Unowned;
    AppendCount(fat, chains, i, b, fat');
    AppendEntries(dir, chains, i, b, dir');
    AppendAllLinked(fat, chains, owner, i, b, fat');
    AppendOwners(fat, chains, owner, i, b, fat');
  }

  lemma AppendCount(fat: Fat, chains: Chains, i: nat, b: nat, fat': Fat)
    requires i < 256 && 101 <= b < 1024 && fat[b] == 0
    requires Linked(fat, chains[i])
    requires var c := chains[i];
             fat' == (if c == [] then fat[b := EOF] else fat[b := EOF][c[|c| - 1] := b])
    ensures FreeCount(fat') == FreeCount(fat) - 1
    ensures BlockCount(chains[i := chains[i] + [b]]) == BlockCount(chains) + 1
    ensures forall k :: 101 <= k < 1024 ==> (fat'[k] == 0 <==> k != b && fat[k] == 0)
  {
    var c := chains[i];
    FreeBelowUpdate(fat, |fat|, b, EOF);
    BlocksUpdate(chains, |chains|, i, c + [b]);
    if c != [] {
      FreeBelowUpdate(fat[b := EOF], |fat|, c[|c| - 1], b);
    }
  }

  lemma AppendEntries(dir: Directory, chains: Chains, i: nat, b: nat, dir': Directory)
    requires i < 256 && 101 <= b < 1024 && Entries(dir, chains) && dir[i].used != 0
    requires dir' == (if chains[i] == [] then dir[i := dir[i].(firstBlock := b)] else dir)
    ensures Entries(dir', chains[i := chains[i] + [b]])
  {
  }

  lemma AppendAllLinked(fat: Fat, chains: Chains, owner: Owners, i: nat, b: nat, fat': Fat)
    requires i < 256 && 101 <= b < 1024 && owner[b] == Unowned
    requires AllLinked(fat, chains) && Owned(chains, owner)
    requires var c := chains[i];
             fat' == (if c == [] then fat[b := EOF] else fat[b := EOF][c[|c| - 1] := b])
    ensures AllLinked(fat', chains[i := chains[i] + [b]])
  {
    var chains' := chains[i := chains[i] + [b]];
    forall j | 0 <= j < 256 ensures Linked(fat', chains'[j]) {
      AppendLinks(fat, chains, owner, i, b, fat', j);
    }
  }

  lemma AppendLinks(fat: Fat, chains: Chains, owner: Owners, i: nat, b: nat, fat': Fat, j: nat)
    requires i < 256 && j < 256 && 101 <= b < 1024 && owner[b] == Unowned
    requires Linked(fat, chains[i]) && Linked(fat, chains[j]) && Owned(chains, owner)
    requires var c := chains[i];
             fat' == (if c == [] then fat[b := EOF] else fat[b := EOF][c[|c| - 1] := b])
    ensures Linked(fat', chains[i := chains[i] + [b]][j])
  {
    var c, d := chains[i], chains[j];
    var d' := if i == j then c + [b] else d;
    if c != [] { assert owner[c[|c| - 1]] == At(i, |c| - 1); }
    forall k | 0 <= k < |d'| ensures 101 <= d'[k] < 1024 && fat'[d'[k]] == Next(d', k) {
      if k < |d| {
        assert d'[k] == d[k] && owner[d[k]] == At(j, k) && fat[d[k]] == Next(d, k);
      }
    }
  }

  lemma AppendOwners(fat: Fat, chains: Chains, owner: Owners, i: nat, b: nat, fat': Fat)
    requires i < 256 && 101 <= b < 1024 && owner[b] == Unowned
    requires Owned(chains, owner) && Covered(fat, chains, owner)
    requires forall k :: 101 <= k < 1024 ==> (fat'[k] == 0 <==> k != b && fat[k] == 0)
    ensures Owned(chains[i := chains[i] + [b]], owner[b := At(i, |chains[i]|)])
    ensures Covered(fat', chains[i := chains[i] + [b]], owner[b := At(i, |chains[i]|)])
  {
    var chains', owner' := chains[i := chains[i] + [b]], owner[b := At(i, |chains[i]|)];
    forall j, k | 0 <= j < 256 && 0 <= k < |chains'[j]|
      ensures 0 <= chains'[j][k] < 1024 && owner'[chains'[j][k]] == At(j, k)
    {
      if k < |chains[j]| { assert owner[chains[j][k]] == At(j, k); }
    }
  }

  /** Dropping chain `i` altogether. */
  lemma DropChain(fat: Fat, dir: Directory, chains: Chains, owner: Owners, i: nat,
                  fat': Fat, dir': Directory, owner': Owners)
    requires Shape(fat, dir, chains, owner) && i < 256
    requires forall b :: 0 <= b < 1024 ==> fat'[b] == if b in chains[i] then 0 else fat[b]
    requires FreeCount(fat') == FreeCount(fat) + |chains[i]|
    requires forall b :: 0 <= b < 1024 ==> owner'[b] == if b in chains[i] then Unowned else owner[b]
    requires dir'[i].firstBlock == 0 && dir'[i].size == 0
    requires forall j :: 0 <= j < 256 && j != i ==> dir'[j] == dir[j]
    ensures Shape(fat', dir', chains[i := []], owner')
  {
    BlocksUpdate(chains, |chains|, i, []);
    DropAllLinked(fat, chains, owner, i, fat');
    DropOwners(fat, chains, owner, i, fat', owner');
    DropEntries(dir, chains, i, dir');
  }

  lemma DropEntries(dir: Directory, chains: Chains, i: nat, dir': Directory)
    requires i < 256 && Entries(dir, chains)
    requires dir'[i].firstBlock == 0 && dir'[i].size == 0
    requires forall j :: 0 <= j < 256 && j != i ==> dir'[j] == dir[j]
    ensures Entries(dir', chains[i := []])
  {
  }

  lemma DropAllLinked(fat: Fat, chains: Chains, owner: Owners, i: nat, fat': Fat)
    requires i < 256 && AllLinked(fat, chains) && Owned(chains, owner)
    requires forall b :: 0 <= b < 1024 ==> fat'[b] == if b in chains[i] then 0 else fat[b]
    ensures AllLinked(fat', chains[i := []])
  {
    var chains' := chains[i := []];
    forall j | 0 <= j < 256 ensures Linked(fat', chains'[j]) {
      if j != i { DropLinks(fat, chains, owner, i, fat', j); }
    }
  }

  lemma DropLinks(fat: Fat, chains: Chains, owner: Owners, i: nat, fat': Fat, j: nat)
    requires i < 256 && j < 256 && i != j
    requires Linked(fat, chains[j]) && Owned(chains, owner)
    requires forall b :: 0 <= b < 1024 ==> fat'[b] == if b in chains[i] then 0 else fat[b]
    ensures Linked(fat', chains[j])
  {
    var d := chains[j];
    forall k | 0 <= k < |d| ensures fat'[d[k]] == Next(d, k) {
      assert owner[d[k]] == At(j, k) && fat[d[k]] == Next(d, k);
      assert d[k] !in chains[i];
    }
  }

  lemma DropOwners(fat: Fat, chains: Chains, owner: Owners, i: nat, fat': Fat, owner': Owners)
    requires i < 256
    requires Owned(chains, owner) && Covered(fat, chains, owner)
    requires forall b :: 0 <= b < 1024 ==> fat'[b] == if b in chains[i] then 0 else fat[b]
    requires forall b :: 0 <= b < 1024 ==> owner'[b] == if b in chains[i] then Unowned else owner[b]
    ensures Owned(chains[i := []], owner')
    ensures Covered(fat', chains[i := []], owner')
  {
    var chains' := chains[i := []];
    forall j, k | 0 <= j < 256 && 0 <= k < |chains'[j]|
      ensures 0 <= chains'[j][k] < 1024 && owner'[chains'[j][k]] == At(j, k)
    {
      assert owner[chains[j][k]] == At(j, k);
    }
  }
}
