/** The AES-256 block cipher of src/kernel/Network/Cryptography/AES256.c, forwards and backwards. */
module AesBlock {
  import opened Gf256
  import opened AesTables

  type Block = s: seq<bv8> | |s| == 16 witness seq(16, _ => 0)

  /** The 60 round-key words. */
  type RoundKeys = k: seq<bv32> | |k| == 60 witness seq(60, _ => 0)

  // ---- the round steps ----

  function SubBytes(s: Block): Block { seq(16, i requires 0 <= i < 16 => SBox(s[i])) }
  function InvSubBytes(s: Block): Block { seq(16, i requires 0 <= i < 16 => InvSBox(s[i])) }

  /** Byte 4c+r comes from byte 4(c+r)+r, modulo 16. */
  function ShiftRows(s: Block): Block { seq(16, i requires 0 <= i < 16 => s[(i + 4 * (i % 4)) % 16]) }
  function InvShiftRows(s: Block): Block { seq(16, i requires 0 <= i < 16 => s[(i + 16 - 4 * (i % 4)) % 16]) }

  /** Row `r` of the mixing matrix applied to four bytes. */
  function Mix(r: nat, a0: bv8, a1: bv8, a2: bv8, a3: bv8): bv8 {
    if r == 0 then Xor4(GMul(a0, 2), GMul(a1, 3), a2, a3)
    else if r == 1 then Xor4(a0, GMul(a1, 2), GMul(a2, 3), a3)
    else if r == 2 then Xor4(a0, a1, GMul(a2, 2), GMul(a3, 3))
    else Xor4(GMul(a0, 3), a1, a2, GMul(a3, 2))
  }

  function InvMix(r: nat, a0: bv8, a1: bv8, a2: bv8, a3: bv8): bv8 {
    if r == 0 then Xor4(GMul(a0, 14), GMul(a1, 11), GMul(a2, 13), GMul(a3, 9))
    else if r == 1 then Xor4(GMul(a0, 9), GMul(a1, 14), GMul(a2, 11), GMul(a3, 13))
    else if r == 2 then Xor4(GMul(a0, 13), GMul(a1, 9), GMul(a2, 14), GMul(a3, 11))
    else Xor4(GMul(a0, 11), GMul(a1, 13), GMul(a2, 9), GMul(a3, 14))
  }

  /** The four bytes mixed together are those at distance 4. */
  function MixColumns(s: Block): Block {
    seq(16, i requires 0 <= i < 16 => Mix(i / 4, s[i % 4], s[i % 4 + 4], s[i % 4 + 8], s[i % 4 + 12]))
  }

  function InvMixColumns(s: Block): Block {
    seq(16, i requires 0 <= i < 16 => InvMix(i / 4, s[i % 4], s[i % 4 + 4], s[i % 4 + 8], s[i % 4 + 12]))
  }

  /** Byte `r` of a key word, the most significant first. */
  function KeyByte(w: bv32, r: nat): bv8
    requires r < 4
  {
    if r == 0 then ((w >> 24) & 0xFF) as bv8
    else if r == 1 then ((w >> 16) & 0xFF) as bv8
    else if r == 2 then ((w >> 8) & 0xFF) as bv8
    else (w & 0xFF) as bv8
  }

  /** Adds words 4n to 4n+3, word i going to bytes i, i+4, i+8, i+12. */
  function AddRoundKey(s: Block, rk: RoundKeys, n: nat): Block
    requires n <= 14
  {
    seq(16, i requires 0 <= i < 16 => Xor(s[i], KeyByte(rk[4 * n + i % 4], i / 4)))
  }

  // ---- their inverses ----

  lemma SubInverse(s: Block)
    ensures InvSubBytes(SubBytes(s)) == s
  {
    hide SBox, InvSBox;
    forall i | 0 <= i < 16 ensures InvSubBytes(SubBytes(s))[i] == s[i] {
      SBoxInverse(s[i]);
    }
  }

  lemma ShiftInverse(s: Block)
    ensures InvShiftRows(ShiftRows(s)) == s
  {
    forall i | 0 <= i < 16 ensures InvShiftRows(ShiftRows(s))[i] == s[i] {
      ShiftIndex(i);
    }
  }

  lemma ShiftIndex(i: nat)
    requires i < 16
    ensures var j := (i + 16 - 4 * (i % 4)) % 16; (j + 4 * (j % 4)) % 16 == i
  {
  }

  lemma AddInverse(s: Block, rk: RoundKeys, n: nat)
    requires n <= 14
    ensures AddRoundKey(AddRoundKey(s, rk, n), rk, n) == s
  {
    hide Xor, KeyByte;
    forall i | 0 <= i < 16 ensures AddRoundKey(AddRoundKey(s, rk, n), rk, n)[i] == s[i] {
      XorUndo(s[i], KeyByte(rk[4 * n + i % 4], i / 4));
    }
  }

  lemma Xor4Rotate(a: bv8, b: bv8, c: bv8, d: bv8)
    ensures Xor4(b, c, d, a) == Xor4(a, b, c, d)
  {
    hide Xor;
    XorComm(Xor(Xor(b, c), d), a);
    XorAssoc(b, c, d);
    XorAssoc(a, b, Xor(c, d));
    XorAssoc(Xor(a, b), c, d);
  }

  lemma Xor4Zeros(a: bv8)
    ensures Xor4(a, 0, 0, 0) == a
  {
    hide Xor;
    XorZero(a);
  }

  /** Summing a 4 by 4 array by rows or by columns. */
  lemma XorTranspose(a0: bv8, a1: bv8, a2: bv8, a3: bv8, b0: bv8, b1: bv8, b2: bv8, b3: bv8,
                     c0: bv8, c1: bv8, c2: bv8, c3: bv8, d0: bv8, d1: bv8, d2: bv8, d3: bv8)
    ensures Xor4(Xor4(a0, a1, a2, a3), Xor4(b0, b1, b2, b3), Xor4(c0, c1, c2, c3), Xor4(d0, d1, d2, d3))
            == Xor4(Xor4(a0, b0, c0, d0), Xor4(a1, b1, c1, d1), Xor4(a2, b2, c2, d2), Xor4(a3, b3, c3, d3))
  {
    hide Xor, Xor4;
    Xor4Add(a0, a1, a2, a3, b0, b1, b2, b3);
    Xor4Add(Xor(a0, b0), Xor(a1, b1), Xor(a2, b2), Xor(a3, b3), c0, c1, c2, c3);
    Xor4Add(Xor(Xor(a0, b0), c0), Xor(Xor(a1, b1), c1), Xor(Xor(a2, b2), c2), Xor(Xor(a3, b3), c3), d0, d1, d2, d3);
    Xor4Def(a0, b0, c0, d0);
    Xor4Def(a1, b1, c1, d1);
    Xor4Def(a2, b2, c2, d2);
    Xor4Def(a3, b3, c3, d3);
    Xor4Def(Xor4(a0, a1, a2, a3), Xor4(b0, b1, b2, b3), Xor4(c0, c1, c2, c3), Xor4(d0, d1, d2, d3));
  }

  lemma Xor4Def(a: bv8, b: bv8, c: bv8, d: bv8)
    ensures Xor4(a, b, c, d) == Xor(Xor(Xor(a, b), c), d)
  {
  }

  lemma Xor4Add(a0: bv8, a1: bv8, a2: bv8, a3: bv8, b0: bv8, b1: bv8, b2: bv8, b3: bv8)
    ensures Xor(Xor4(a0, a1, a2, a3), Xor4(b0, b1, b2, b3)) == Xor4(Xor(a0, b0), Xor(a1, b1), Xor(a2, b2), Xor(a3, b3))
  {
    hide Xor;
    XorSwap(Xor(Xor(a0, a1), a2), a3, Xor(Xor(b0, b1), b2), b3);
    XorSwap(Xor(a0, a1), a2, Xor(b0, b1), b2);
    XorSwap(a0, a1, b0, b1);
  }

  /** The first output of unmixing the mixed bytes. */
  lemma UnmixFirst(a0: bv8, a1: bv8, a2: bv8, a3: bv8)
    ensures InvMix(0, Mix(0, a0, a1, a2, a3), Mix(1, a0, a1, a2, a3), Mix(2, a0, a1, a2, a3), Mix(3, a0, a1, a2, a3)) == a0
  {
    hide GMul, Xor, Xor4;
    GMulXor4(GMul(a0, 2), GMul(a1, 3), a2, a3, 14);
    GMulXor4(a0, GMul(a1, 2), GMul(a2, 3), a3, 11);
    GMulXor4(a0, a1, GMul(a2, 2), GMul(a3, 3), 13);
    GMulXor4(GMul(a0, 3), a1, a2, GMul(a3, 2), 9);
    XorTranspose(GMul(GMul(a0, 2), 14), GMul(GMul(a1, 3), 14), GMul(a2, 14), GMul(a3, 14),
                 GMul(a0, 11), GMul(GMul(a1, 2), 11), GMul(GMul(a2, 3), 11), GMul(a3, 11),
                 GMul(a0, 13), GMul(a1, 13), GMul(GMul(a2, 2), 13), GMul(GMul(a3, 3), 13),
                 GMul(GMul(a0, 3), 9), GMul(a1, 9), GMul(a2, 9), GMul(GMul(a3, 2), 9));
    Coefficients(a0);
    Coefficients(a1);
    Coefficients(a2);
    Coefficients(a3);
    Xor4Zeros(a0);
  }

  /** Mixing and unmixing commute with rotating the four bytes. */
  lemma MixRotate(a0: bv8, a1: bv8, a2: bv8, a3: bv8)
    ensures Mix(0, a1, a2, a3, a0) == Mix(1, a0, a1, a2, a3)
    ensures Mix(1, a1, a2, a3, a0) == Mix(2, a0, a1, a2, a3)
    ensures Mix(2, a1, a2, a3, a0) == Mix(3, a0, a1, a2, a3)
    ensures Mix(3, a1, a2, a3, a0) == Mix(0, a0, a1, a2, a3)
    ensures InvMix(0, a1, a2, a3, a0) == InvMix(1, a0, a1, a2, a3)
    ensures InvMix(1, a1, a2, a3, a0) == InvMix(2, a0, a1, a2, a3)
    ensures InvMix(2, a1, a2, a3, a0) == InvMix(3, a0, a1, a2, a3)
  {
    hide GMul, Xor, Xor4;
    Xor4Rotate(a0, GMul(a1, 2), GMul(a2, 3), a3);
    Xor4Rotate(a0, a1, GMul(a2, 2), GMul(a3, 3));
    Xor4Rotate(GMul(a0, 3), a1, a2, GMul(a3, 2));
    Xor4Rotate(GMul(a0, 2), GMul(a1, 3), a2, a3);
    Xor4Rotate(GMul(a0, 9), GMul(a1, 14), GMul(a2, 11), GMul(a3, 13));
    Xor4Rotate(GMul(a0, 13), GMul(a1, 9), GMul(a2, 14), GMul(a3, 11));
    Xor4Rotate(GMul(a0, 11), GMul(a1, 13), GMul(a2, 9), GMul(a3, 14));
  }

  lemma Unmix(r: nat, a0: bv8, a1: bv8, a2: bv8, a3: bv8)
    requires r < 4
    ensures InvMix(r, Mix(0, a0, a1, a2, a3), Mix(1, a0, a1, a2, a3), Mix(2, a0, a1, a2, a3), Mix(3, a0, a1, a2, a3))
            == (if r == 0 then a0 else if r == 1 then a1 else if r == 2 then a2 else a3)
  {
    hide Mix, InvMix;
    var b0, b1, b2, b3 := Mix(0, a0, a1, a2, a3), Mix(1, a0, a1, a2, a3), Mix(2, a0, a1, a2, a3), Mix(3, a0, a1, a2, a3);
    MixRotate(a0, a1, a2, a3);
    MixRotate(a1, a2, a3, a0);
    MixRotate(a2, a3, a0, a1);
    MixRotate(b0, b1, b2, b3);
    MixRotate(b1, b2, b3, b0);
    MixRotate(b2, b3, b0, b1);
    UnmixFirst(a0, a1, a2, a3);
    UnmixFirst(a1, a2, a3, a0);
    UnmixFirst(a2, a3, a0, a1);
    UnmixFirst(a3, a0, a1, a2);
  }

  lemma MixInverse(s: Block)
    ensures InvMixColumns(MixColumns(s)) == s
  {
    hide MixColumns, InvMixColumns;
    forall i | 0 <= i < 16 ensures InvMixColumns(MixColumns(s))[i] == s[i] {
      MixInverseAt(s, i / 4, i % 4);
      assert i == i % 4 + 4 * (i / 4);
    }
  }

  lemma MixInverseAt(s: Block, r: nat, j: nat)
    requires r < 4 && j < 4
    ensures InvMixColumns(MixColumns(s))[j + 4 * r] == s[j + 4 * r]
  {
    hide Mix, InvMix, MixColumns, InvMixColumns;
    MixedAt(s, 0, j);
    MixedAt(s, 1, j);
    MixedAt(s, 2, j);
    MixedAt(s, 3, j);
    UnmixedAt(MixColumns(s), r, j);
    Unmix(r, s[j], s[j + 4], s[j + 8], s[j + 12]);
  }

  lemma MixedAt(s: Block, r: nat, j: nat)
    requires r < 4 && j < 4
    ensures MixColumns(s)[j + 4 * r] == Mix(r, s[j], s[j + 4], s[j + 8], s[j + 12])
  {
    hide Mix;
    assert (j + 4 * r) / 4 == r && (j + 4 * r) % 4 == j;
  }

  lemma UnmixedAt(s: Block, r: nat, j: nat)
    requires r < 4 && j < 4
    ensures InvMixColumns(s)[j + 4 * r] == InvMix(r, s[j], s[j + 4], s[j + 8], s[j + 12])
  {
    hide InvMix;
    assert (j + 4 * r) / 4 == r && (j + 4 * r) % 4 == j;
  }

  // ---- the cipher ----

  /** The state after the first key addition and `r` full rounds. */
  function Rounds(rk: RoundKeys, x: Block, r: nat): Block
    requires r <= 13
  {
    if r == 0 then AddRoundKey(x, rk, 0)
    else AddRoundKey(MixColumns(ShiftRows(SubBytes(Rounds(rk, x, r - 1)))), rk, r)
  }

  function Encrypt(rk: RoundKeys, x: Block): Block {
    AddRoundKey(ShiftRows(SubBytes(Rounds(rk, x, 13))), rk, 14)
  }

  /** The decryption loop from round `r` down to 1, then the last step. */
  function Unrounds(rk: RoundKeys, s: Block, r: nat): Block
    requires r <= 13
    decreases r
  {
    if r == 0 then AddRoundKey(InvSubBytes(InvShiftRows(s)), rk, 0)
    else Unrounds(rk, InvMixColumns(AddRoundKey(InvSubBytes(InvShiftRows(s)), rk, r)), r - 1)
  }

  function Decrypt(rk: RoundKeys, y: Block): Block { Unrounds(rk, AddRoundKey(y, rk, 14), 13) }

  lemma {:induction false} UnroundsUndo(rk: RoundKeys, x: Block, r: nat)
    requires r <= 13
    ensures Unrounds(rk, ShiftRows(SubBytes(Rounds(rk, x, r))), r) == x
  {
    hide SubBytes, InvSubBytes, ShiftRows, InvShiftRows, MixColumns, InvMixColumns, AddRoundKey;
    var e := Rounds(rk, x, r);
    ShiftInverse(SubBytes(e));
    SubInverse(e);
    if r == 0 {
      AddInverse(x, rk, 0);
    } else {
      var d := ShiftRows(SubBytes(Rounds(rk, x, r - 1)));
      AddInverse(MixColumns(d), rk, r);
      MixInverse(d);
      UnroundsUndo(rk, x, r - 1);
    }
  }

  /** For all round keys and every block, decryption undoes encryption. */
  lemma DecryptEncrypt(rk: RoundKeys, x: Block)
    ensures Decrypt(rk, Encrypt(rk, x)) == x
  {
    hide SubBytes, ShiftRows, AddRoundKey, Rounds, Unrounds;
    AddInverse(ShiftRows(SubBytes(Rounds(rk, x, 13))), rk, 14);
    UnroundsUndo(rk, x, 13);
  }
}
