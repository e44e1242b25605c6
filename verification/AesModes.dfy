/** CBC, CTR and PKCS7 padding over the block cipher (AES256.c:271-378), as functions of whole messages. */
module AesModes {
  import opened Basics
  import opened Gf256
  import opened AesBlock

  /** Bytewise sum of a message with a longer or equally long mask. */
  function XorSeq(a: seq<bv8>, b: seq<bv8>): (r: seq<bv8>)
    requires |a| <= |b|
    ensures |r| == |a|
  {
    seq(|a|, i requires 0 <= i < |a| => Xor(a[i], b[i]))
  }

  lemma XorSeqUndo(a: seq<bv8>, b: seq<bv8>)
    requires |a| <= |b|
    ensures XorSeq(XorSeq(a, b), b) == a
  {
    hide Xor;
    forall i | 0 <= i < |a| ensures XorSeq(XorSeq(a, b), b)[i] == a[i] {
      XorUndo(a[i], b[i]);
    }
  }

  // ---- CBC ----

  /** Each block is added to the previous ciphertext block before encryption. */
  function CbcEncrypt(rk: RoundKeys, prev: Block, m: seq<bv8>): (c: seq<bv8>)
    requires |m| % 16 == 0
    ensures |c| == |m|
    decreases |m|
  {
    if m == [] then []
    else
      var y := Encrypt(rk, XorSeq(m[..16], prev));
      y + CbcEncrypt(rk, y, m[16..])
  }

  function CbcDecrypt(rk: RoundKeys, prev: Block, c: seq<bv8>): (m: seq<bv8>)
    requires |c| % 16 == 0
    ensures |m| == |c|
    decreases |c|
  {
    if c == [] then [] else XorSeq(Decrypt(rk, c[..16]), prev) + CbcDecrypt(rk, c[..16], c[16..])
  }

  /** For every message of whole blocks, CBC decryption undoes CBC encryption. */
  lemma {:induction false} CbcRoundTrip(rk: RoundKeys, iv: Block, m: seq<bv8>)
    requires |m| % 16 == 0
    ensures CbcDecrypt(rk, iv, CbcEncrypt(rk, iv, m)) == m
    decreases |m|
  {
    hide Encrypt, Decrypt, XorSeq;
    if m != [] {
      var x := XorSeq(m[..16], iv);
      var y := Encrypt(rk, x);
      var c := CbcEncrypt(rk, iv, m);
      assert c[..16] == y && c[16..] == CbcEncrypt(rk, y, m[16..]);
      DecryptEncrypt(rk, x);
      XorSeqUndo(m[..16], iv);
      CbcRoundTrip(rk, y, m[16..]);
      assert m == m[..16] + m[16..];
    }
  }

  lemma CbcEncryptStep(rk: RoundKeys, prev: Block, m: seq<bv8>, at: nat, done: seq<bv8>, y: Block)
    requires |m| % 16 == 0 && at % 16 == 0 && at < |m|
    requires y == Encrypt(rk, XorSeq(m[at..at + 16], prev))
    ensures done + CbcEncrypt(rk, prev, m[at..]) == (done + y) + CbcEncrypt(rk, y, m[at + 16..])
  {
    hide Encrypt, XorSeq;
    assert m[at..][..16] == m[at..at + 16] && m[at..][16..] == m[at + 16..];
  }

  lemma CbcDecryptStep(rk: RoundKeys, prev: Block, c: seq<bv8>, at: nat, done: seq<bv8>, x: Block)
    requires |c| % 16 == 0 && at % 16 == 0 && at < |c|
    requires x == XorSeq(Decrypt(rk, c[at..at + 16]), prev)
    ensures done + CbcDecrypt(rk, prev, c[at..]) == (done + x) + CbcDecrypt(rk, c[at..at + 16], c[at + 16..])
  {
    hide Decrypt, XorSeq;
    assert c[at..][..16] == c[at..at + 16] && c[at..][16..] == c[at + 16..];
  }

  // ---- CTR ----

  /** Increments byte `i`, carrying into byte `i - 1` when it becomes zero. */
  function IncAt(c: Block, i: nat): Block
    requires i < 16
    decreases i
  {
    var c' := c[i := c[i] + 1];
    if c[i] + 1 != 0 || i == 0 then c' else IncAt(c', i - 1)
  }

  function Inc(c: Block): Block { IncAt(c, 15) }

  /** The first `n` bytes as a big-endian number. */
  function BlockValue(c: seq<bv8>, n: nat): nat
    requires n <= |c|
  {
    if n == 0 then 0 else 256 * BlockValue(c, n - 1) + c[n - 1] as int
  }

  lemma {:induction false} BlockValueBound(c: seq<bv8>, n: nat)
    requires n <= |c|
    ensures BlockValue(c, n) < Pow256(n)
  {
    if n > 0 { BlockValueBound(c, n - 1); }
  }

  lemma {:induction false} BlockValuePrefix(c: seq<bv8>, d: seq<bv8>, n: nat)
    requires n <= |c| && n <= |d| && c[..n] == d[..n]
    ensures BlockValue(c, n) == BlockValue(d, n)
  {
    if n > 0 {
      assert c[..n - 1] == c[..n][..n - 1] && d[..n - 1] == d[..n][..n - 1];
      assert c[n - 1] == c[..n][n - 1] && d[n - 1] == d[..n][n - 1];
      BlockValuePrefix(c, d, n - 1);
    }
  }

  lemma IncByte(b: bv8)
    ensures (b + 1) as int == if b == 255 then 0 else b as int + 1
    ensures b + 1 == 0 <==> b == 255
  {
  }

  /** The byte-carry loop adds one to the first `i + 1` bytes, wrapping to zero, and leaves the others. */
  lemma {:induction false} IncAtValue(c: Block, i: nat)
    requires i < 16
    ensures BlockValue(IncAt(c, i), i + 1) ==
            if BlockValue(c, i + 1) + 1 == Pow256(i + 1) then 0 else BlockValue(c, i + 1) + 1
    ensures IncAt(c, i)[i + 1..] == c[i + 1..]
    decreases i
  {
    IncByte(c[i]);
    var c' := c[i := c[i] + 1];
    assert c'[..i] == c[..i];
    BlockValuePrefix(c, c', i);
    BlockValueBound(c, i);
    if c[i] == 255 && i > 0 {
      IncAtValue(c', i - 1);
      var d := IncAt(c', i - 1);
      assert d[i] == d[i..][0] && c'[i] == c'[i..][0];
    }
  }

  const P128 := 0x1_0000_0000_0000_0000_0000_0000_0000_0000

  lemma Pow256Is()
    ensures Pow256(16) == P128
  {
    assert Pow256(4) == 0x1_0000_0000;
    assert Pow256(8) == 0x1_0000_0000_0000_0000;
    assert Pow256(12) == 0x1_0000_0000_0000_0000_0000_0000;
  }

  /** The counter of block `k`. */
  function CounterAt(nonce: Block, k: nat): Block { if k == 0 then nonce else Inc(CounterAt(nonce, k - 1)) }

  /** Counter blocks are the nonce plus the block number, modulo 2^128. */
  lemma {:induction false} CounterValue(nonce: Block, k: nat)
    ensures BlockValue(CounterAt(nonce, k), 16) == (BlockValue(nonce, 16) + k) % P128
  {
    hide Pow256, BlockValue, IncAt;
    Pow256Is();
    BlockValueBound(nonce, 16);
    if k > 0 {
      CounterValue(nonce, k - 1);
      IncAtValue(CounterAt(nonce, k - 1), 15);
    }
  }

  function Ctr(rk: RoundKeys, counter: Block, m: seq<bv8>): (c: seq<bv8>)
    ensures |c| == |m|
    decreases |m|
  {
    if m == [] then []
    else
      var n := if |m| < 16 then |m| else 16;
      XorSeq(m[..n], Encrypt(rk, counter)) + Ctr(rk, Inc(counter), m[n..])
  }

  /** For every length, applying CTR twice gives the message back. */
  lemma {:induction false} CtrTwice(rk: RoundKeys, counter: Block, m: seq<bv8>)
    ensures Ctr(rk, counter, Ctr(rk, counter, m)) == m
    decreases |m|
  {
    hide Encrypt, XorSeq, Inc;
    if m != [] {
      var n := if |m| < 16 then |m| else 16;
      var c := Ctr(rk, counter, m);
      assert c[..n] == XorSeq(m[..n], Encrypt(rk, counter)) && c[n..] == Ctr(rk, Inc(counter), m[n..]);
      XorSeqUndo(m[..n], Encrypt(rk, counter));
      CtrTwice(rk, Inc(counter), m[n..]);
      assert m == m[..n] + m[n..];
    }
  }

  /** The first block of the output, and the rest of it. */
  lemma CtrHeadTail(rk: RoundKeys, counter: Block, m: seq<bv8>, n: nat)
    requires m != [] && n == if |m| < 16 then |m| else 16
    ensures Ctr(rk, counter, m)[..n] == XorSeq(m[..n], Encrypt(rk, counter))
    ensures Ctr(rk, counter, m)[n..] == Ctr(rk, Inc(counter), m[n..])
  {
    hide Encrypt, XorSeq, Inc;
  }

  /** One block of work moves a block from what is left to what is done. */
  lemma CtrStep(rk: RoundKeys, counter: Block, m: seq<bv8>, at: nat, n: nat, done: seq<bv8>, sum: seq<bv8>)
    requires at < |m| && n == if |m| - at < 16 then |m| - at else 16
    requires sum == XorSeq(m[at..at + n], Encrypt(rk, counter))
    ensures done + Ctr(rk, counter, m[at..]) == (done + sum) + Ctr(rk, Inc(counter), m[at + n..])
  {
    hide Encrypt, XorSeq, Inc;
    assert m[at..][..n] == m[at..at + n] && m[at..][n..] == m[at + n..];
  }

  lemma SliceOfRest(s: seq<bv8>, lo: nat, hi: nat)
    requires 16 <= lo <= hi <= |s|
    ensures s[lo..hi] == s[16..][lo - 16..hi - 16]
  {
    var rest := s[16..];
    forall i | 0 <= i < hi - lo ensures s[lo..hi][i] == rest[lo - 16..hi - 16][i] {
      assert rest[lo - 16 + i] == s[lo + i];
    }
  }

  /** Block `k` of the output is block `k` of the message under the keystream of counter `k`. */
  lemma {:induction false} CtrBlock(rk: RoundKeys, nonce: Block, k0: nat, m: seq<bv8>, k: nat)
    requires 16 * k < |m|
    ensures var hi := if |m| < 16 * k + 16 then |m| else 16 * k + 16;
            Ctr(rk, CounterAt(nonce, k0), m)[16 * k..hi] == XorSeq(m[16 * k..hi], Encrypt(rk, CounterAt(nonce, k0 + k)))
    decreases k
  {
    hide Ctr, Encrypt, XorSeq, Inc;
    var n := if |m| < 16 then |m| else 16;
    CtrHeadTail(rk, CounterAt(nonce, k0), m, n);
    var hi := if |m| < 16 * k + 16 then |m| else 16 * k + 16;
    var c := Ctr(rk, CounterAt(nonce, k0), m);
    if k == 0 {
      assert c[0..hi] == c[..n] && m[0..hi] == m[..n];
    } else {
      CtrBlock(rk, nonce, k0 + 1, m[16..], k - 1);
      var d := Ctr(rk, CounterAt(nonce, k0 + 1), m[16..]);
      assert c[16..] == d;
      SliceOfRest(c, 16 * k, hi);
      SliceOfRest(m, 16 * k, hi);
    }
  }

  // ---- PKCS7 ----

  function PadLength(len: nat): nat { 16 - len % 16 }

  function Padded(m: seq<bv8>): (p: seq<bv8>)
    ensures |p| == |m| + PadLength(|m|) && |p| % 16 == 0
  {
    m + seq(PadLength(|m|), _ => PadLength(|m|) as bv8)
  }

  /** The padding check of aes256_unpad_pkcs7. */
  predicate WellPadded(p: seq<bv8>) {
    && p != [] && |p| % 16 == 0
    && 1 <= p[|p| - 1] as int <= 16
    && forall i :: |p| - p[|p| - 1] as int <= i < |p| ==> p[i] == p[|p| - 1]
  }

  function UnpaddedLength(p: seq<bv8>): nat { if WellPadded(p) then |p| - p[|p| - 1] as int else 0 }

  /** Unpadding recovers the length of every padded message. */
  lemma UnpadPad(m: seq<bv8>)
    ensures WellPadded(Padded(m)) && UnpaddedLength(Padded(m)) == |m|
  {
  }

  /** And what is accepted is a padded message. */
  lemma PadUnpad(p: seq<bv8>)
    requires WellPadded(p)
    ensures Padded(p[..UnpaddedLength(p)]) == p
  {
    var n := UnpaddedLength(p);
    var k := p[|p| - 1] as int;
    assert PadLength(n) == k;
    assert k as bv8 == p[|p| - 1];
  }
}
