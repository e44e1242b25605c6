/** The bytes a chain of blocks holds, and what overwriting part of it does to them. */
module FileBytes {
  import opened Basics
  import opened Layout
  import opened DiskImage
  import opened FatChains

  ghost predicate InData(c: seq<int>) { forall k :: 0 <= k < |c| ==> 101 <= c[k] < 1024 }

  /** All bytes of the blocks of `c`, in chain order. */
  ghost function ChainBytes(disk: Sectors, c: seq<int>): (s: seq<byte>)
    requires InData(c)
    ensures |s| == 512 * |c|
  {
    seq(512 * |c|, k requires 0 <= k < 512 * |c| => disk[c[k / 512]][k % 512])
  }

  lemma ChainByte(disk: Sectors, c: seq<int>, p: nat, q: nat)
    requires InData(c) && p < |c| && q < 512
    ensures 512 * p + q < 512 * |c|
    ensures ChainBytes(disk, c)[512 * p + q] == disk[c[p]][q]
  {
    assert (512 * p + q) / 512 == p && (512 * p + q) % 512 == q;
  }

  /** Reading one block's worth: a run inside block `p` is a run of the chain's bytes. */
  lemma ChainSlice(disk: Sectors, c: seq<int>, p: nat, at: nat, n: nat)
    requires InData(c) && p < |c| && at + n <= 512
    ensures 512 * p + at + n <= 512 * |c|
    ensures ChainBytes(disk, c)[512 * p + at..512 * p + at + n] == disk[c[p]][at..at + n]
  {
    var x := ChainBytes(disk, c);
    var base := 512 * p + at;
    var u, v := x[base..base + n], disk[c[p]][at..at + n];
    forall r | 0 <= r < n ensures u[r] == v[r] {
      ChainByte(disk, c, p, at + r);
      assert base + r == 512 * p + (at + r);
    }
  }

  /** `s` with `chunk` written over it from `at`. */
  function Splice<T>(s: seq<T>, at: nat, chunk: seq<T>): (r: seq<T>)
    requires at + |chunk| <= |s|
    ensures |r| == |s|
    ensures forall k :: 0 <= k < |s| ==> r[k] == if at <= k < at + |chunk| then chunk[k - at] else s[k]
  {
    s[..at] + chunk + s[at + |chunk|..]
  }

  /** Copying the next `n` bytes of `x` behind the `r` already copied to the front of a buffer. */
  lemma SpliceFront<T>(x: seq<T>, off: nat, r: nat, n: nat, b0: seq<T>)
    requires off + r + n <= |x| && r + n <= |b0|
    ensures Splice(x[off..off + r] + b0[r..], r, x[off + r..off + r + n]) == x[off..off + r + n] + b0[r + n..]
  {
  }

  /** The buffer `b0` with the bytes `off` to `off + r` of chain `c` copied to its front. */
  ghost predicate Copied(d: Sectors, c: seq<int>, off: nat, r: nat, b0: seq<byte>, b: seq<byte>) {
    InData(c) && off + r <= 512 * |c| && r <= |b0| && b == ChainBytes(d, c)[off..off + r] + b0[r..]
  }

  /** One block of the copy loop of a read. */
  lemma CopiedStep(d: Sectors, c: seq<int>, p: nat, at: nat, n: nat, off: nat, r: nat,
                   b0: seq<byte>, b1: seq<byte>, b2: seq<byte>)
    requires Copied(d, c, off, r, b0, b1)
    requires p < |c| && at + n <= 512 && off + r == 512 * p + at && r + n <= |b0|
    requires b2 == Splice(b1, r, d[c[p]][at..at + n])
    ensures Copied(d, c, off, r + n, b0, b2)
  {
    hide ChainBytes, Splice;
    ChainSlice(d, c, p, at, n);
    SpliceFront(ChainBytes(d, c), off, r, n, b0);
  }

  lemma CopiedStart(d: Sectors, c: seq<int>, off: nat, b0: seq<byte>)
    requires InData(c) && off <= 512 * |c|
    ensures Copied(d, c, off, 0, b0, b0)
  {
  }

  lemma CopiedResult(d: Sectors, c: seq<int>, off: nat, r: nat, b0: seq<byte>, b: seq<byte>)
    requires Copied(d, c, off, r, b0, b)
    ensures off + r <= 512 * |c| && r <= |b0| == |b|
    ensures b[..r] == ChainBytes(d, c)[off..off + r] && b[r..] == b0[r..]
  {
  }

  /** The table with the entries of `blocks` cleared. */
  ghost predicate Zeroed(fat: Fat, fat': Fat, blocks: seq<int>) {
    forall b :: 0 <= b < 1024 ==> fat'[b] == if b in blocks then 0 else fat[b]
  }

  /** Clearing one more block of a chain frees one more block. */
  lemma ZeroNext(f: Fat, g: Fat, c: seq<int>, n: nat)
    requires Linked(f, c) && Distinct(c) && n < |c| && Zeroed(f, g, c[..n])
    ensures g[c[n]] == f[c[n]] != 0
    ensures Zeroed(f, g[c[n] := 0], c[..n + 1])
    ensures FreeCount(g[c[n] := 0]) == FreeCount(g) + 1
  {
    AtEnd(f, c, n);
    assert c[n] !in c[..n];
    if n + 1 < |c| { assert 101 <= c[n + 1]; }
    FreeBelowUpdate(g, |g|, c[n], 0);
    assert c[..n + 1] == c[..n] + [c[n]];
  }

  /** `d1` is `d0` with `bytes` laid over chain `c` from byte `off` on, and nothing else changed. */
  ghost predicate Overlaid(d0: Sectors, d1: Sectors, c: seq<int>, off: nat, bytes: seq<byte>) {
    && InData(c)
    && |d0| == |d1|
    && off + |bytes| <= 512 * |c|
    && ChainBytes(d1, c) == Splice(ChainBytes(d0, c), off, bytes)
    && (forall b :: 0 <= b < |d0| && b !in c ==> d1[b] == d0[b])
  }

  /** One sector write advances the overlay. */
  lemma OverlaidStep(d0: Sectors, d1: Sectors, d2: Sectors, c: seq<int>, off: nat, bytes: seq<byte>,
                     p: nat, at: nat, chunk: seq<byte>)
    requires Overlaid(d0, d1, c, off, bytes) && Distinct(c)
    requires p < |c| && at + |chunk| <= 512 && 512 * p + at == off + |bytes|
    requires d2 == d1[c[p] := Splice(d1[c[p]], at, chunk)]
    ensures Overlaid(d0, d2, c, off, bytes + chunk)
  {
    var x0, x1, x2 := ChainBytes(d0, c), ChainBytes(d1, c), ChainBytes(d2, c);
    assert 512 * p + 512 <= 512 * |c|;
    var y := Splice(x0, off, bytes + chunk);
    forall k | 0 <= k < |x2| ensures x2[k] == y[k] {
      assert k / 512 < |c|;
      assert x1[k] == d1[c[k / 512]][k % 512] && x2[k] == d2[c[k / 512]][k % 512];
      if k / 512 == p {
        assert k == 512 * p + k % 512;
      } else {
        assert c[k / 512] != c[p];
        assert d2[c[k / 512]] == d1[c[k / 512]];
      }
    }
    assert x2 == y;
  }

  /** Hooking an untouched block onto the chain keeps the overlay. */
  lemma OverlaidExtend(d0: Sectors, d1: Sectors, c: seq<int>, off: nat, bytes: seq<byte>, b: nat)
    requires Overlaid(d0, d1, c, off, bytes)
    requires 101 <= b < 1024 && b !in c
    ensures Overlaid(d0, d1, c + [b], off, bytes)
  {
    ChainBytesAppend(d0, c, b);
    ChainBytesAppend(d1, c, b);
    assert d1[b] == d0[b];
    assert Splice(ChainBytes(d0, c) + d0[b], off, bytes) == Splice(ChainBytes(d0, c), off, bytes) + d0[b];
  }

  lemma OverlaidStart(d0: Sectors, c: seq<int>, off: nat, none: seq<byte>)
    requires InData(c) && off <= 512 * |c| && none == []
    ensures Overlaid(d0, d0, c, off, none)
  {
    assert Splice(ChainBytes(d0, c), off, none) == ChainBytes(d0, c);
  }

  lemma OverlaidGrown(d0: Sectors, d1: Sectors, c: seq<int>, c': seq<int>, off: nat, bytes: seq<byte>)
    requires Overlaid(d0, d1, c, off, bytes)
    requires InData(c') && Distinct(c') && c <= c' && |c'| <= |c| + 1
    ensures Overlaid(d0, d1, c', off, bytes)
  {
    if |c| < |c'| {
      assert c' == c + [c'[|c|]];
      OverlaidExtend(d0, d1, c, off, bytes, c'[|c|]);
    } else {
      assert c' == c;
    }
  }

  lemma OverlaidFits(d0: Sectors, d1: Sectors, c: seq<int>, off: nat, bytes: seq<byte>)
    requires Overlaid(d0, d1, c, off, bytes)
    ensures off + |bytes| <= 512 * |c|
  {
  }

  lemma BlockInData(c: seq<int>, k: nat)
    requires InData(c) && k < |c|
    ensures 101 <= c[k] < 1024
  {
  }

  lemma ChainBytesAppend(disk: Sectors, c: seq<int>, b: nat)
    requires InData(c) && 101 <= b < 1024
    ensures InData(c + [b])
    ensures ChainBytes(disk, c + [b]) == ChainBytes(disk, c) + disk[b]
  {
    var c' := c + [b];
    assert InData(c');
    forall k | 0 <= k < 512 * |c'| ensures ChainBytes(disk, c')[k] == (ChainBytes(disk, c) + disk[b])[k] {
      if k < 512 * |c| {
        assert c'[k / 512] == c[k / 512];
      } else {
        assert k / 512 == |c| && k % 512 == k - 512 * |c|;
      }
    }
  }

  /** Bytes of a chain depend on its own blocks only. */
  lemma ChainBytesFrame(d0: Sectors, d1: Sectors, c: seq<int>)
    requires InData(c)
    requires forall k :: 0 <= k < |c| ==> d0[c[k]] == d1[c[k]]
    ensures ChainBytes(d0, c) == ChainBytes(d1, c)
  {
  }

  /** The bytes of the longer chain start with those of the shorter one. */
  lemma ChainBytesPrefix(disk: Sectors, c: seq<int>, c': seq<int>)
    requires InData(c') && c <= c'
    ensures InData(c) && ChainBytes(disk, c) <= ChainBytes(disk, c')
  {
    assert forall k :: 0 <= k < |c| ==> c[k] == c'[k];
  }
}
