/** The compression function of src/kernel/Network/Cryptography/SHA512.c and the hash as a fold over padded messages. */
module Sha512Spec {
  /** A 64-bit word; its bits are looked at only by the operations below. */
  datatype Word = W(bits: bv64)
  type byte = x: int | 0 <= x < 256
  type Block = s: seq<byte> | |s| == 128 witness seq(128, _ => 0)
  type Hash = s: seq<Word> | |s| == 8 witness seq(8, _ => W(0))

  // ---- words ----

  function Add(a: Word, b: Word): Word { W(a.bits + b.bits) }
  function Ch(x: Word, y: Word, z: Word): Word { W((x.bits & y.bits) ^ (!x.bits & z.bits)) }
  function Maj(x: Word, y: Word, z: Word): Word { W((x.bits & y.bits) ^ (x.bits & z.bits) ^ (y.bits & z.bits)) }
  // Rotations to the right are a shift each way, as the macro ROR64 writes them.
  function BigSigma0(x: Word): Word { W(((x.bits >> 28) | (x.bits << 36)) ^ ((x.bits >> 34) | (x.bits << 30)) ^ ((x.bits >> 39) | (x.bits << 25))) }
  function BigSigma1(x: Word): Word { W(((x.bits >> 14) | (x.bits << 50)) ^ ((x.bits >> 18) | (x.bits << 46)) ^ ((x.bits >> 41) | (x.bits << 23))) }
  function SmallSigma0(x: Word): Word { W(((x.bits >> 1) | (x.bits << 63)) ^ ((x.bits >> 8) | (x.bits << 56)) ^ (x.bits >> 7)) }
  function SmallSigma1(x: Word): Word { W(((x.bits >> 19) | (x.bits << 45)) ^ ((x.bits >> 61) | (x.bits << 3)) ^ (x.bits >> 6)) }

  /** Ch takes each bit from `y` or `z` as the bit of `x` says. */
  lemma ChSelects(x: Word, y: Word, z: Word)
    ensures Ch(x, y, z).bits & x.bits == y.bits & x.bits
    ensures Ch(x, y, z).bits & !x.bits == z.bits & !x.bits
  { }

  /** Maj is the majority of three bits. */
  lemma MajVotes(x: Word, y: Word, z: Word)
    ensures Maj(x, y, z).bits == (x.bits & y.bits) | (x.bits & z.bits) | (y.bits & z.bits)
  { }

  /** The round constants. */
  /** Eight words of the table. */
  function Pick(i: nat, c0: bv64, c1: bv64, c2: bv64, c3: bv64, c4: bv64, c5: bv64, c6: bv64, c7: bv64): Word {
    W(match i case 0 => c0 case 1 => c1 case 2 => c2 case 3 => c3 case 4 => c4 case 5 => c5 case 6 => c6 case _ => c7)
  }

  function RoundConstant(t: nat): Word
    requires t < 80
  {
    var i := t % 8;
    match t / 8
    case 0 =>
      Pick(i, 0x428a2f98d728ae22, 0x7137449123ef65cd, 0xb5c0fbcfec4d3b2f, 0xe9b5dba58189dbbc,
              0x3956c25bf348b538, 0x59f111f1b605d019, 0x923f82a4af194f9b, 0xab1c5ed5da6d8118)
    case 1 =>
      Pick(i, 0xd807aa98a3030242, 0x12835b0145706fbe, 0x243185be4ee4b28c, 0x550c7dc3d5ffb4e2,
              0x72be5d74f27b896f, 0x80deb1fe3b1696b1, 0x9bdc06a725c71235, 0xc19bf174cf692694)
    case 2 =>
      Pick(i, 0xe49b69c19ef14ad2, 0xefbe4786384f25e3, 0x0fc19dc68b8cd5b5, 0x240ca1cc77ac9c65,
              0x2de92c6f592b0275, 0x4a7484aa6ea6e483, 0x5cb0a9dcbd41fbd4, 0x76f988da831153b5)
    case 3 =>
      Pick(i, 0x983e5152ee66dfab, 0xa831c66d2db43210, 0xb00327c898fb213f, 0xbf597fc7beef0ee4,
              0xc6e00bf33da88fc2, 0xd5a79147930aa725, 0x06ca6351e003826f, 0x142929670a0e6e70)
    case 4 =>
      Pick(i, 0x27b70a8546d22ffc, 0x2e1b21385c26c926, 0x4d2c6dfc5ac42aed, 0x53380d139d95b3df,
              0x650a73548baf63de, 0x766a0abb3c77b2a8, 0x81c2c92e47edaee6, 0x92722c851482353b)
    case 5 =>
      Pick(i, 0xa2bfe8a14cf10364, 0xa81a664bbc423001, 0xc24b8b70d0f89791, 0xc76c51a30654be30,
              0xd192e819d6ef5218, 0xd69906245565a910, 0xf40e35855771202a, 0x106aa07032bbd1b8)
    case 6 =>
      Pick(i, 0x19a4c116b8d2d0c8, 0x1e376c085141ab53, 0x2748774cdf8eeb99, 0x34b0bcb5e19b48a8,
              0x391c0cb3c5c95a63, 0x4ed8aa4ae3418acb, 0x5b9cca4f7763e373, 0x682e6ff3d6b2b8a3)
    case 7 =>
      Pick(i, 0x748f82ee5defb2fc, 0x78a5636f43172f60, 0x84c87814a1f0ab72, 0x8cc702081a6439ec,
              0x90befffa23631e28, 0xa4506cebde82bde9, 0xbef9a3f7b2c67915, 0xc67178f2e372532b)
    case 8 =>
      Pick(i, 0xca273eceea26619c, 0xd186b8c721c0c207, 0xeada7dd6cde0eb1e, 0xf57d4f7fee6ed178,
              0x06f067aa72176fba, 0x0a637dc5a2c898a6, 0x113f9804bef90dae, 0x1b710b35131c471b)
    case _ =>
      Pick(i, 0x28db77f523047d84, 0x32caab7b40c72493, 0x3c9ebe0a15c9bebc, 0x431d67c49c100d4c,
              0x4cc5d4becb3e42b6, 0x597f299cfc657e2a, 0x5fcb6fab3ad6faec, 0x6c44198c4a475817)
  }

  // ---- message schedule and rounds ----

  /** The big-endian word of eight bytes. */
  function WordOf(b0: byte, b1: byte, b2: byte, b3: byte, b4: byte, b5: byte, b6: byte, b7: byte): Word {
    W((b0 as bv64 << 56) | (b1 as bv64 << 48) | (b2 as bv64 << 40) | (b3 as bv64 << 32)
      | (b4 as bv64 << 24) | (b5 as bv64 << 16) | (b6 as bv64 << 8) | b7 as bv64)
  }

  /** The big-endian word at byte `at`. */
  function WordAt(d: Block, at: nat): Word
    requires at + 8 <= 128
  {
    WordOf(d[at], d[at + 1], d[at + 2], d[at + 3], d[at + 4], d[at + 5], d[at + 6], d[at + 7])
  }

  function Extend(w2: Word, w7: Word, w15: Word, w16: Word): Word {
    Add(Add(Add(SmallSigma1(w2), w7), SmallSigma0(w15)), w16)
  }

  /** Word `t` of the message schedule. */
  function Schedule(d: Block, t: nat): Word
    decreases |d|, t
  {
    if t < 16 then WordAt(d, 8 * t)
    else Extend(Schedule(d, t - 2), Schedule(d, t - 7), Schedule(d, t - 15), Schedule(d, t - 16))
  }

  datatype Regs = Regs(a: Word, b: Word, c: Word, d: Word, e: Word, f: Word, g: Word, h: Word)

  function Temp1(r: Regs, k: Word, w: Word): Word {
    Add(Add(Add(Add(r.h, BigSigma1(r.e)), Ch(r.e, r.f, r.g)), k), w)
  }

  function Temp2(r: Regs): Word { Add(BigSigma0(r.a), Maj(r.a, r.b, r.c)) }

  function Round(r: Regs, k: Word, w: Word): Regs {
    var t1 := Temp1(r, k, w);
    Regs(Add(t1, Temp2(r)), r.a, r.b, r.c, Add(r.d, t1), r.e, r.f, r.g)
  }

  /** The registers after the first `n` rounds. */
  function RoundsOf(h: Hash, d: Block, n: nat): Regs
    requires n <= 80
    decreases |d|, n
  {
    if n == 0 then Regs(h[0], h[1], h[2], h[3], h[4], h[5], h[6], h[7])
    else Round(RoundsOf(h, d, n - 1), RoundConstant(n - 1), Schedule(d, n - 1))
  }

  /** The chaining value with the registers added in. */
  function AddRegs(h: Hash, r: Regs): Hash {
    [Add(h[0], r.a), Add(h[1], r.b), Add(h[2], r.c), Add(h[3], r.d),
     Add(h[4], r.e), Add(h[5], r.f), Add(h[6], r.g), Add(h[7], r.h)]
  }

  function Compress(h: Hash, d: Block): Hash {
    AddRegs(h, RoundsOf(h, d, 80))
  }

  function Initial(): Hash {
    [W(0x6a09e667f3bcc908), W(0xbb67ae8584caa73b), W(0x3c6ef372fe94f82b), W(0xa54ff53a5f1d36f1),
     W(0x510e527fade682d1), W(0x9b05688c2b3e6c1f), W(0x1f83d9abfb41bd6b), W(0x5be0cd19137e2179)]
  }

  lemma ScheduleStart(d: Block, t: nat)
    requires t < 16
    ensures Schedule(d, t) == WordAt(d, 8 * t)
  {
    hide Extend, WordAt;
  }

  lemma ScheduleNext(d: Block, t: nat)
    requires t >= 16
    ensures Schedule(d, t) == Extend(Schedule(d, t - 2), Schedule(d, t - 7), Schedule(d, t - 15), Schedule(d, t - 16))
  {
    hide Extend, WordAt;
  }

  lemma RoundStart(h: Hash, d: Block)
    ensures RoundsOf(h, d, 0) == Regs(h[0], h[1], h[2], h[3], h[4], h[5], h[6], h[7])
  {
    hide Round;
  }

  lemma RoundNext(h: Hash, d: Block, n: nat)
    requires n < 80
    ensures RoundsOf(h, d, n + 1) == Round(RoundsOf(h, d, n), RoundConstant(n), Schedule(d, n))
  {
    hide Round, Schedule, RoundConstant;
  }

  // ---- whole messages ----

  /** The compression function folded over the first `n` blocks of a message. */
  function Fold(h: Hash, m: seq<byte>, n: nat): Hash
    requires 128 * n <= |m|
  {
    hide *;
    if n == 0 then h else
    var at := 128 * (n - 1);
    Compress(Fold(h, m, n - 1), m[at..at + 128])
  }

  /** Blocks are not affected by what follows them. */
  lemma {:induction false} FoldPrefix(h: Hash, m: seq<byte>, x: seq<byte>, n: nat)
    requires 128 * n <= |m|
    ensures Fold(h, m + x, n) == Fold(h, m, n)
  {
    hide Compress;
    if n > 0 {
      FoldPrefix(h, m, x, n - 1);
      var at := 128 * (n - 1);
      assert (m + x)[at..at + 128] == m[at..at + 128];
    }
  }

  /** `x` shifted right by `k` bytes. */
  function Shr8(x: nat, k: nat): nat { if k == 0 then x else Shr8(x, k - 1) / 256 }

  /** Byte `i` of a 64-bit number, the most significant first. */
  function ByteOf(x: nat, i: nat): byte
    requires i < 8
  {
    Shr8(x, 7 - i) % 256
  }

  function Be64(x: nat): (s: seq<byte>)
    ensures |s| == 8
  {
    seq(8, i requires 0 <= i < 8 => ByteOf(x, i))
  }

  const TWO64 := 0x1_0000_0000_0000_0000
  const TWO128 := 0x1_0000_0000_0000_0000_0000_0000_0000_0000

  /** The 128-bit bit count: high word, then low word. */
  function LengthField(bits: nat): (s: seq<byte>)
    ensures |s| == 16
  {
    Be64(bits / TWO64) + Be64(bits % TWO64)
  }

  /** Zero bytes between the end mark and the length field, counting the mark. */
  function PadLength(len: nat): nat { if len % 128 < 112 then 112 - len % 128 else 240 - len % 128 }

  lemma PaddedLength(len: nat)
    ensures (len + PadLength(len) + 16) % 128 == 0
  {
    var q, r := len / 128, len % 128;
    assert len + PadLength(len) + 16 == 128 * (if r < 112 then q + 1 else q + 2);
  }

  function EndMark(n: nat): (s: seq<byte>)
    requires n > 0
    ensures |s| == n
  {
    seq(n, i => if i == 0 then 0x80 else 0)
  }

  /** The message with its end mark, zeros and bit count, a whole number of blocks. */
  function Padded(m: seq<byte>): (p: seq<byte>)
    ensures |p| % 128 == 0
  {
    PaddedLength(|m|);
    m + EndMark(PadLength(|m|)) + LengthField(8 * |m| % TWO128)
  }

  function Low(x: bv64): byte { ((x & 0xFF) as bv8) as int }

  /** Byte `k` of a word, the most significant first. */
  function WordByte(w: Word, k: nat): byte
    requires k < 8
  {
    match k
    case 0 => Low(w.bits >> 56) case 1 => Low(w.bits >> 48) case 2 => Low(w.bits >> 40) case 3 => Low(w.bits >> 32)
    case 4 => Low(w.bits >> 24) case 5 => Low(w.bits >> 16) case 6 => Low(w.bits >> 8) case _ => Low(w.bits)
  }

  /** The bytes of a word, the most significant first. */
  function WordBytes(w: Word): (s: seq<byte>)
    ensures |s| == 8
  {
    [WordByte(w, 0), WordByte(w, 1), WordByte(w, 2), WordByte(w, 3), WordByte(w, 4), WordByte(w, 5), WordByte(w, 6), WordByte(w, 7)]
  }

  /** The first `n` words of a chaining value as bytes. */
  function DigestPrefix(h: Hash, n: nat): (s: seq<byte>)
    requires n <= 8
    ensures |s| == 8 * n
  {
    if n == 0 then [] else DigestPrefix(h, n - 1) + WordBytes(h[n - 1])
  }

  function Digest(h: Hash): (s: seq<byte>)
    ensures |s| == 64
  {
    DigestPrefix(h, 8)
  }

  /** SHA-512 of a whole message. */
  function Sha512(m: seq<byte>): (s: seq<byte>)
    ensures |s| == 64
  {
    hide Fold, Initial, Padded, Digest;
    var p := Padded(m);
    Digest(Fold(Initial(), p, |p| / 128))
  }

  // ---- HMAC ----

  function XorByte(a: byte, b: byte): byte { ((a as bv8) ^ (b as bv8)) as int }

  /** The key as HMAC uses it: hashed if longer than a block, then filled up with zeros. */
  function BlockKey(key: seq<byte>): Block {
    var k := if |key| > 128 then Sha512(key) else key;
    k + seq(128 - |k|, _ => 0)
  }

  function Masked(key: Block, mask: byte): Block { seq(128, i requires 0 <= i < 128 => XorByte(key[i], mask)) }

  /** The nested hash of section 2 of RFC 2104. */
  function Hmac(key: seq<byte>, m: seq<byte>): (s: seq<byte>)
    ensures |s| == 64
  {
    Sha512(Masked(BlockKey(key), 0x5c) + Sha512(Masked(BlockKey(key), 0x36) + m))
  }

  // ---- the length field is the big-endian bit count ----

  function BeValue(c: seq<byte>, n: nat): nat
    requires n <= |c|
  {
    if n == 0 then 0 else 256 * BeValue(c, n - 1) + c[n - 1]
  }

  function Scale(v: nat, n: nat): nat { if n == 0 then v else 256 * Scale(v, n - 1) }

  /** Eight bytes of `x` appended to a number: shifted up and filled in from the top. */
  lemma {:induction false} Be64Value(c: seq<byte>, x: nat, at: nat, n: nat)
    requires x < TWO64 && n <= 8 && at + n <= |c|
    requires forall i :: 0 <= i < n ==> c[at + i] == Be64(x)[i]
    ensures BeValue(c, at + n) == Scale(BeValue(c, at), n) + Shr8(x, 8 - n)
  {
    if n == 0 {
      TopZero(x);
    } else {
      Be64Value(c, x, at, n - 1);
      assert c[at + (n - 1)] == Be64(x)[n - 1];
      assert Shr8(x, 9 - n) == Shr8(x, 8 - n) / 256;
    }
  }

  lemma TopZero(x: nat)
    requires x < TWO64
    ensures Shr8(x, 8) == 0
  {
    assert Shr8(x, 1) < 0x100_0000_0000_0000;
    assert Shr8(x, 2) < 0x1_0000_0000_0000;
    assert Shr8(x, 3) < 0x100_0000_0000;
    assert Shr8(x, 4) < 0x1_0000_0000;
    assert Shr8(x, 5) < 0x100_0000;
    assert Shr8(x, 6) < 0x1_0000;
    assert Shr8(x, 7) < 0x100;
  }

  lemma ScaleStep(v: nat, n: nat) ensures Scale(v, n + 1) == 256 * Scale(v, n) { }

  lemma ScaleEight(v: nat)
    ensures Scale(v, 8) == v * TWO64
  {
    assert Scale(v, 0) == v;
    hide Scale;
    ScaleStep(v, 0); ScaleStep(v, 1); ScaleStep(v, 2); ScaleStep(v, 3);
    ScaleStep(v, 4); ScaleStep(v, 5); ScaleStep(v, 6); ScaleStep(v, 7);
  }

  /** Read as a big-endian number, the length field is the bit count. */
  lemma LengthFieldValue(bits: nat)
    requires bits < TWO128
    ensures BeValue(LengthField(bits), 16) == bits
  {
    hide ByteOf, Be64, BeValue, Shr8, Scale;
    var c := LengthField(bits);
    var hi, lo := bits / TWO64, bits % TWO64;
    Be64Value(c, hi, 0, 8);
    Be64Value(c, lo, 8, 8);
    ShrNone(hi);
    ShrNone(lo);
    ScaleEight(0);
    ScaleEight(hi);
    NoBytes(c);
  }

  lemma ShrNone(x: nat) ensures Shr8(x, 0) == x { }
  lemma NoBytes(c: seq<byte>) ensures BeValue(c, 0) == 0 { }

  /** Padding loses nothing: different messages of countable length are padded differently. */
  lemma PaddedInjective(m: seq<byte>, n: seq<byte>)
    requires 8 * |m| < TWO128 && 8 * |n| < TWO128
    requires Padded(m) == Padded(n)
    ensures m == n
  {
    hide LengthField, EndMark, PadLength, BeValue;
    var p := Padded(m);
    assert p[|p| - 16..] == LengthField(8 * |m|);
    assert p[|p| - 16..] == LengthField(8 * |n|);
    LengthFieldValue(8 * |m|);
    LengthFieldValue(8 * |n|);
    assert p[..|m|] == m && p[..|n|] == n;
  }

  /** No more padding than needed: an end mark, the length field, and less than a block of zeros. */
  lemma PaddedShortest(m: seq<byte>)
    ensures |m| + 17 <= |Padded(m)| < |m| + 17 + 128
    ensures Padded(m)[..|m|] == m && Padded(m)[|m|] == 0x80
    ensures forall k :: |m| < k < |Padded(m)| - 16 ==> Padded(m)[k] == 0
  {
    hide LengthField;
  }

  /** The laws of the key: a key longer than a block counts as its hash, and zeros behind a shorter one do not count. */
  lemma HmacKeyHashed(key: seq<byte>, m: seq<byte>)
    requires |key| > 128
    ensures Hmac(key, m) == Hmac(Sha512(key), m)
  {
    hide Sha512, Masked;
  }

  lemma HmacKeyFilled(key: seq<byte>, m: seq<byte>)
    requires |key| < 128
    ensures Hmac(key + [0], m) == Hmac(key, m)
  {
    hide Sha512, Masked;
    assert BlockKey(key + [0]) == BlockKey(key);
  }

  /** With the empty key the masks alone go in front. */
  lemma HmacEmptyKey(m: seq<byte>)
    ensures Hmac([], m) == Sha512(seq(128, _ => 0x5c) + Sha512(seq(128, _ => 0x36) + m))
  {
    hide Sha512;
    MasksAlone();
    hide XorByte;
    assert Masked(BlockKey([]), 0x36) == seq(128, _ => 0x36);
    assert Masked(BlockKey([]), 0x5c) == seq(128, _ => 0x5c);
  }

  lemma MasksAlone()
    ensures XorByte(0, 0x36) == 0x36 && XorByte(0, 0x5c) == 0x5c
  { }
}
