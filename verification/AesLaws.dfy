/** Where the tables of AES256.c come from, and its key schedule and modes byte by byte and block by block. */
module AesLaws {
  import opened Gf256
  import opened AesTables
  import opened AesBlock
  import opened AesModes
  import opened Aes256Module

  // ---- the tables ----

  /** The affine map of the substitution and its inverse. */
  function Affine(x: bv8): bv8 {
    x ^ ((x << 1) | (x >> 7)) ^ ((x << 2) | (x >> 6)) ^ ((x << 3) | (x >> 5)) ^ ((x << 4) | (x >> 4)) ^ 0x63
  }

  function InvAffine(y: bv8): bv8 { ((y << 1) | (y >> 7)) ^ ((y << 3) | (y >> 5)) ^ ((y << 6) | (y >> 2)) ^ 0x05 }

  lemma AffineInverse(y: bv8)
    ensures Affine(InvAffine(y)) == y
  { }

  /** The substitution of a byte is the affine image of its inverse in GF(2^8), and of 0 for 0. */
  lemma SBoxIsInverse(b: bv8) returns (inverse: bv8)
    ensures SBox(b) == Affine(inverse)
    ensures if b == 0 then inverse == 0 else GMul(b, inverse) == 1
  {
    inverse := InvAffine(SBox(b));
    AffineInverse(SBox(b));
    if b == 0 {
      SBoxZero();
    } else {
      hide SBox, GMul, InvAffine, Affine;
      if b < 0x40 { Inverse0(b); } else if b < 0x80 { Inverse1(b); } else if b < 0xc0 { Inverse2(b); } else { Inverse3(b); }
    }
  }

  lemma SBoxZero()
    ensures InvAffine(SBox(0)) == 0
  { }

  lemma Inverse0(b: bv8) requires 0 < b < 0x40 ensures GMul(b, InvAffine(SBox(b))) == 1 { }
  lemma Inverse1(b: bv8) requires 0x40 <= b < 0x80 ensures GMul(b, InvAffine(SBox(b))) == 1 { }
  lemma Inverse2(b: bv8) requires 0x80 <= b < 0xc0 ensures GMul(b, InvAffine(SBox(b))) == 1 { }
  lemma Inverse3(b: bv8) requires 0xc0 <= b ensures GMul(b, InvAffine(SBox(b))) == 1 { }

  /** The round constants are the powers of x. */
  lemma RconDoubles(i: nat)
    requires 1 <= i < 14
    ensures Rcon(1) == 1 && Rcon(i + 1) == XTime(Rcon(i))
  { }

  // ---- the key schedule ----

  lemma XorBytes(a: bv32, b: bv32, r: nat)
    requires r < 4
    ensures KeyByte(Xor32(a, b), r) == Xor(KeyByte(a, r), KeyByte(b, r))
  {
    if r == 0 { XorByte0(a, b); } else if r == 1 { XorByte1(a, b); } else if r == 2 { XorByte2(a, b); } else { XorByte3(a, b); }
  }

  lemma XorByte0(a: bv32, b: bv32) ensures KeyByte(Xor32(a, b), 0) == Xor(KeyByte(a, 0), KeyByte(b, 0)) { }
  lemma XorByte1(a: bv32, b: bv32) ensures KeyByte(Xor32(a, b), 1) == Xor(KeyByte(a, 1), KeyByte(b, 1)) { }
  lemma XorByte2(a: bv32, b: bv32) ensures KeyByte(Xor32(a, b), 2) == Xor(KeyByte(a, 2), KeyByte(b, 2)) { }
  lemma XorByte3(a: bv32, b: bv32) ensures KeyByte(Xor32(a, b), 3) == Xor(KeyByte(a, 3), KeyByte(b, 3)) { }

  lemma PackBytes(a: bv8, b: bv8, c: bv8, d: bv8)
    ensures KeyByte(Pack(a, b, c, d), 0) == a && KeyByte(Pack(a, b, c, d), 1) == b
    ensures KeyByte(Pack(a, b, c, d), 2) == c && KeyByte(Pack(a, b, c, d), 3) == d
  { }

  lemma SubBytesOf(w: bv32, r: nat)
    requires r < 4
    ensures KeyByte(SubWord(w), r) == SBox(KeyByte(w, r))
  {
    hide SBox, Pack, KeyByte;
    PackBytes(SBox(KeyByte(w, 0)), SBox(KeyByte(w, 1)), SBox(KeyByte(w, 2)), SBox(KeyByte(w, 3)));
  }

  lemma RotBytes(w: bv32)
    ensures KeyByte(RotWord(w), 0) == KeyByte(w, 1) && KeyByte(RotWord(w), 1) == KeyByte(w, 2)
    ensures KeyByte(RotWord(w), 2) == KeyByte(w, 3) && KeyByte(RotWord(w), 3) == KeyByte(w, 0)
  { }

  lemma RconBytes(i: nat)
    ensures KeyByte(RconWord(i), 0) == Rcon(i) && KeyByte(RconWord(i), 1) == 0
    ensures KeyByte(RconWord(i), 2) == 0 && KeyByte(RconWord(i), 3) == 0
  {
    hide Rcon;
  }

  /** Byte `r` of word `i` of the expanded key: a key byte; or the byte eight words before, plus the byte one word before,
      which is substituted in every fourth word, and in every eighth is the next byte of that word, with the round constant
      added to the first byte. */
  lemma KeyScheduleBytes(key: Key, i: nat, r: nat)
    requires r < 4
    ensures KeyByte(KeyWord(key, i), r) ==
            if i < 8 then key[4 * i + r]
            else
              var old_, prev := KeyWord(key, i - 8), KeyWord(key, i - 1);
              Xor(KeyByte(old_, r),
                  if i % 8 == 0 then Xor(SBox(KeyByte(prev, (r + 1) % 4)), if r == 0 then Rcon(i / 8) else 0)
                  else if i % 8 == 4 then SBox(KeyByte(prev, r))
                  else KeyByte(prev, r))
  {
    hide SBox, Rcon, SubWord, RotWord, RconWord, Xor32, KeyByte, Pack, Xor;
    if i < 8 {
      PackBytes(key[4 * i], key[4 * i + 1], key[4 * i + 2], key[4 * i + 3]);
    } else {
      hide KeyWord;
      var old_, prev := KeyWord(key, i - 8), KeyWord(key, i - 1);
      KeyWordNext(key, i);
      if i % 8 == 0 {
        XorBytes(old_, Xor32(SubWord(RotWord(prev)), RconWord(i / 8)), r);
        XorBytes(SubWord(RotWord(prev)), RconWord(i / 8), r);
        SubBytesOf(RotWord(prev), r);
        RotBytes(prev);
        RconBytes(i / 8);
      } else if i % 8 == 4 {
        XorBytes(old_, SubWord(prev), r);
        SubBytesOf(prev, r);
      } else {
        XorBytes(old_, prev, r);
      }
    }
  }

  // ---- the steps of a round, by row and column ----

  /** Byte (row r, column c) is number 4c + r; the row shift takes it from column c + r. */
  lemma ShiftRowsAt(s: Block, r: nat, c: nat)
    requires r < 4 && c < 4
    ensures ShiftRows(s)[4 * c + r] == s[4 * ((c + r) % 4) + r]
  { }

  /** The column mix adds, at distance 4 each, the byte doubled, the next one tripled and the other two. */
  lemma MixColumnsAt(s: Block, r: nat, i: nat)
    requires r < 4 && i < 4
    ensures MixColumns(s)[4 * r + i] ==
            Xor4(GMul(s[4 * r + i], 2), GMul(s[4 * ((r + 1) % 4) + i], 3), s[4 * ((r + 2) % 4) + i], s[4 * ((r + 3) % 4) + i])
  {
    hide GMul, Xor4, Mix, MixColumns;
    MixedAt(s, r, i);
    MixTurned(r, s[i], s[i + 4], s[i + 8], s[i + 12]);
    if r == 0 { } else if r == 1 { } else if r == 2 { } else { }
  }

  lemma MixTurned(r: nat, a0: bv8, a1: bv8, a2: bv8, a3: bv8)
    requires r < 4
    ensures Mix(r, a0, a1, a2, a3) ==
            if r == 0 then Xor4(GMul(a0, 2), GMul(a1, 3), a2, a3)
            else if r == 1 then Xor4(GMul(a1, 2), GMul(a2, 3), a3, a0)
            else if r == 2 then Xor4(GMul(a2, 2), GMul(a3, 3), a0, a1)
            else Xor4(GMul(a3, 2), GMul(a0, 3), a1, a2)
  {
    hide GMul, Xor4;
    Rotations(a0, GMul(a1, 2), GMul(a2, 3), a3);
    Rotations(a0, a1, GMul(a2, 2), GMul(a3, 3));
    Rotations(GMul(a0, 3), a1, a2, GMul(a3, 2));
  }

  lemma Rotations(a: bv8, b: bv8, c: bv8, d: bv8)
    ensures Xor4(a, b, c, d) == Xor4(b, c, d, a) == Xor4(c, d, a, b) == Xor4(d, a, b, c)
  {
    hide Xor;
    Xor4Rotate(a, b, c, d);
    Xor4Rotate(b, c, d, a);
    Xor4Rotate(c, d, a, b);
  }

  // ---- the modes ----

  /** Block `k` of a CBC ciphertext is the encryption of block `k` of the message plus the ciphertext block before it, or the
      initial vector. */
  lemma {:induction false} CbcBlock(rk: RoundKeys, iv: Block, m: seq<bv8>, k: nat)
    requires |m| % 16 == 0 && 16 * k < |m|
    ensures var c := CbcEncrypt(rk, iv, m);
            c[16 * k..16 * k + 16] == Encrypt(rk, XorSeq(m[16 * k..16 * k + 16], if k == 0 then iv else c[16 * k - 16..16 * k]))
    decreases k
  {
    hide Encrypt, XorSeq;
    var c := CbcEncrypt(rk, iv, m);
    var y := Encrypt(rk, XorSeq(m[..16], iv));
    var rest := CbcEncrypt(rk, y, m[16..]);
    assert c == y + rest;
    if k == 0 {
      assert c[0..16] == y && m[0..16] == m[..16];
    } else {
      CbcBlock(rk, y, m[16..], k - 1);
      hide CbcEncrypt;
      SliceOfRest(m, 16 * k, 16 * k + 16);
      assert c[16..] == rest;
      SliceOfRest(c, 16 * k, 16 * k + 16);
      if k == 1 {
        assert c[0..16] == y;
      } else {
        SliceOfRest(c, 16 * k - 16, 16 * k);
      }
    }
  }

  /** CTR applied to zeros is the keystream: block `k` of it is the encryption of counter `k`. */
  lemma CtrKeystream(rk: RoundKeys, nonce: Block, k: nat, n: nat)
    requires k < n
    ensures Ctr(rk, nonce, seq(16 * n, _ => 0))[16 * k..16 * k + 16] == Encrypt(rk, CounterAt(nonce, k))
  {
    hide Encrypt, Ctr, Inc;
    var m: seq<bv8> := seq(16 * n, _ => 0);
    CtrBlock(rk, nonce, 0, m, k);
    var y := Encrypt(rk, CounterAt(nonce, k));
    ZerosXor(m[16 * k..16 * k + 16], y);
  }

  lemma ZerosXor(z: seq<bv8>, y: Block)
    requires |z| == 16 && forall i :: 0 <= i < 16 ==> z[i] == 0
    ensures XorSeq(z, y) == y
  {
    hide Xor;
    forall i | 0 <= i < 16 ensures XorSeq(z, y)[i] == y[i] { XorZero(y[i]); }
  }

  /** A padded message is the message and n times the byte n, for some n from 1 to 16 that fills the last block. */
  lemma PaddedBytes(m: seq<bv8>)
    ensures var n := |Padded(m)| - |m|;
            && 1 <= n <= 16 && |Padded(m)| % 16 == 0 && Padded(m)[..|m|] == m
            && forall i :: |m| <= i < |Padded(m)| ==> Padded(m)[i] as int == n
  {
    UnpadPad(m);
  }
}
