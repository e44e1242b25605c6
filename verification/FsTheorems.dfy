/** What the TinyFS steps mean for the files: every file is a flat byte sequence, and the disk remembers it. */
module FsTheorems {
  import opened Layout
  import opened DiskImage
  import opened FatChains
  import opened FileBytes
  import opened FsSpec

  /** The contents of entry `i`. */
  ghost function Bytes(s: State, i: nat): (b: seq<byte>)
    requires Sound(s) && i < 256
    ensures |b| == s.dir[i].size
  {
    ChainFacts(s, i);
    ChainBytes(s.sectors, s.chains[i])[..s.dir[i].size]
  }

  lemma BytesFrame(s: State, s': State, j: nat)
    requires Sound(s) && Sound(s') && j < 256
    requires s'.chains[j] == s.chains[j] && s'.dir[j].size == s.dir[j].size
    requires forall k :: 0 <= k < |s.chains[j]| ==> 0 <= s.chains[j][k] < 1024 && s'.sectors[s.chains[j][k]] == s.sectors[s.chains[j][k]]
    ensures Bytes(s', j) == Bytes(s, j)
  {
    hide Consistent;
    ChainFacts(s, j);
    ChainBytesFrame(s.sectors, s'.sectors, s.chains[j]);
  }

  // ---- write ----

  /** A write that returns `r` puts exactly the first `r` new bytes at `off`, keeps the other old bytes, and sets the
      size to the larger of the old size and the end of the write; one that stops in the offset walk changes nothing. */
  lemma WriteRefines(s: State, s': State, i: nat, data: seq<byte>, off: u32, r: int)
    requires Sound(s) && Sound(s') && WriteStep(s, s', i, data, off, r)
    ensures if Reaches(|s.chains[i]|, s.sb.freeBlocks, off)
            then
              && 0 <= r <= |data|
              && |Bytes(s', i)| == Max(|Bytes(s, i)|, off + r)
              && (forall k :: off <= k < off + r ==> Bytes(s', i)[k] == data[k - off])
              && (forall k :: 0 <= k < |Bytes(s, i)| && !(off <= k < off + r) ==> Bytes(s', i)[k] == Bytes(s, i)[k])
            else Bytes(s', i) == Bytes(s, i)
  {
    hide Consistent, OnDisk, ChainBytes, Splice, FatKept;
    ChainFacts(s, i);
    ChainFacts(s', i);
    ChainBytesPrefix(s.sectors, s.chains[i], s'.chains[i]);
    if Reaches(|s.chains[i]|, s.sb.freeBlocks, off) {
      SpliceFlat(ChainBytes(s.sectors, s.chains[i]), ChainBytes(s.sectors, s'.chains[i]), off, data[..r],
                 s.dir[i].size, s'.dir[i].size);
    } else {
      var x, x' := ChainBytes(s.sectors, s.chains[i]), ChainBytes(s.sectors, s'.chains[i]);
      assert x[..s.dir[i].size] == x'[..s.dir[i].size];
    }
  }

  /** Writing over the bytes of an extended chain, seen through the file sizes before and after. */
  lemma SpliceFlat(x: seq<byte>, x': seq<byte>, off: nat, bytes: seq<byte>, size: nat, size': nat)
    requires x <= x' && size <= |x| && size' == Max(size, off + |bytes|) <= |x'|
    ensures var (b, b') := (x[..size], Splice(x', off, bytes)[..size']);
            && (forall k :: off <= k < off + |bytes| ==> b'[k] == bytes[k - off])
            && (forall k :: 0 <= k < size && !(off <= k < off + |bytes|) ==> b'[k] == b[k])
  {
  }

  /** No write changes the bytes of any other file. */
  lemma WriteFrame(s: State, s': State, i: nat, data: seq<byte>, off: u32, r: int, j: nat)
    requires Sound(s) && Sound(s') && WriteStep(s, s', i, data, off, r)
    requires j < 256 && j != i
    ensures Bytes(s', j) == Bytes(s, j)
  {
    hide Consistent, OnDisk, Shape;
    ChainFacts(s', j);
    ChainsApart(s', i, j);
    forall k | 0 <= k < |s.chains[j]|
      ensures 0 <= s.chains[j][k] < 1024 && s'.sectors[s.chains[j][k]] == s.sectors[s.chains[j][k]]
    {
      assert s'.chains[j][k] !in s'.chains[i];
    }
    BytesFrame(s, s', j);
  }

  // ---- read ----

  /** The file's own answer to a read. */
  function Slice(b: seq<byte>, off: nat, n: nat): seq<byte> {
    if off >= |b| then [] else b[off..Min(off + n, |b|)]
  }

  /** A read returns the file's slice exactly when the 32-bit sum of offset and length does not wrap, or the offset is
      past the end, or the file fills its blocks. Otherwise it runs on to the end of the last block. */
  lemma ReadRefines(s: State, i: nat, n: u32, off: u32, buffer: seq<byte>, r: nat)
    requires Sound(s) && ReadStep(s, i, n, off, buffer, r)
    ensures off >= s.dir[i].size || off + n < 0x1_0000_0000 || s.dir[i].size == 512 * |s.chains[i]|
            <==> r == |Slice(Bytes(s, i), off, n)|
    ensures r == |Slice(Bytes(s, i), off, n)| ==> buffer[..r] == Slice(Bytes(s, i), off, n)
    ensures r >= |Slice(Bytes(s, i), off, n)|
  {
    hide Consistent, ChainBytes;
    ChainFacts(s, i);
    ReadCountExact(s.dir[i].size, 512 * |s.chains[i]|, off, n);
    if off < s.dir[i].size && r <= s.dir[i].size - off {
      var x := ChainBytes(s.sectors, s.chains[i]);
      assert x[..s.dir[i].size][off..off + r] == x[off..off + r];
    }
  }

  lemma ReadCountExact(size: nat, capacity: nat, off: nat, n: nat)
    requires size <= capacity < 0x1_0000_0000 && n < 0x1_0000_0000 && off < 0x1_0000_0000
    ensures off < size ==>
              var want := Min(n, size - off);
              && ReadCount(size, capacity, off, n) >= want
              && (ReadCount(size, capacity, off, n) == want <==> off + n < 0x1_0000_0000 || size == capacity)
  {
    if off + n < 0x1_0000_0000 {
      assert (off + n) % 0x1_0000_0000 == off + n;
    } else {
      assert (off + n) % 0x1_0000_0000 == off + n - 0x1_0000_0000;
    }
  }

  /** The wrap on a two-byte file: a read of 2^32 - 1 bytes at offset 1 makes the sum 0, and 511 bytes come back instead
      of the one byte that is left. */
  lemma ReadWraps(s: State, i: nat, buffer: seq<byte>, r: nat)
    requires Sound(s) && ReadStep(s, i, 0xFFFF_FFFF, 1, buffer, r)
    requires s.dir[i].size == 2 && |s.chains[i]| == 1
    ensures r == 511 && |Slice(Bytes(s, i), 1, 0xFFFF_FFFF)| == 1
  {
    hide Consistent, ChainBytes;
    assert (1 + 0xFFFF_FFFF) % 0x1_0000_0000 == 0;
  }

  /** Reading back what was written. */
  lemma WriteThenRead(s: State, s': State, i: nat, data: seq<byte>, off: u32, r: int, buffer: seq<byte>, n: nat)
    requires Sound(s) && Sound(s') && WriteStep(s, s', i, data, off, r) && r > 0
    requires ReadStep(s', i, r, off, buffer, n)
    ensures n == r && buffer[..n] == data[..r]
  {
    hide Consistent, OnDisk;
    WriteRefines(s, s', i, data, off, r);
    ChainFacts(s', i);
    ReadRefines(s', i, r, off, buffer, n);
    var b := Bytes(s', i);
    assert Slice(b, off, r) == b[off..off + r];
    assert b[off..off + r] == data[..r];
  }

  // ---- unlink and create ----

  /** Unlink frees exactly the removed entry's chain, empties that entry and touches no other file. */
  lemma UnlinkRefines(s: State, s': State, parentIsDir: bool, name: seq<byte>, i: int, r: int)
    requires Sound(s) && Sound(s') && UnlinkStep(s, s', parentIsDir, name, i, r)
    ensures r == 0 ==> Bytes(s', i) == [] && s'.dir[i].used == 0
    ensures r == 0 ==> forall b :: 101 <= b < 1024 ==> (s'.fat[b] == 0 <==> s.fat[b] == 0 || b in s.chains[i])
    ensures forall j :: 0 <= j < 256 && (r == -1 || j != i) ==> s'.dir[j] == s.dir[j] && Bytes(s', j) == Bytes(s, j)
  {
    hide Consistent, OnDisk, CStr;
    if r == 0 {
      forall j | 0 <= j < 256 && j != i ensures Bytes(s', j) == Bytes(s, j) {
        ChainFacts(s, j);
        BytesFrame(s, s', j);
      }
    }
  }

  /** Create adds one empty entry and touches no file. */
  lemma CreateRefines(s: State, s': State, parent: u32, parentIsDir: bool, name: seq<byte>, isDirectory: bool, i: int, r: int)
    requires Sound(s) && Sound(s') && CreateStep(s, s', parent, parentIsDir, name, isDirectory, i, r)
    requires IsCString(name)
    ensures r == 0 ==>
              && s.dir[i].used == 0 && s'.dir[i].used != 0 && Bytes(s', i) == []
              && Matches(s'.dir[i], parent, Truncated(name))
              && (s'.dir[i].isDirectory != 0 <==> isDirectory)
    ensures forall j :: 0 <= j < 256 && (r == -1 || j != i) ==> s'.dir[j] == s.dir[j] && Bytes(s', j) == Bytes(s, j)
  {
    hide Consistent, DirOnDisk, CStr;
    if r == 0 {
      CopyNameReads(s.dir[i].name, name);
      forall j | 0 <= j < 256 && j != i ensures Bytes(s', j) == Bytes(s, j) {
        ChainFacts(s, j);
        BytesFrame(s, s', j);
      }
    }
  }
}
