/** The AES-256 routines as they work on arrays (src/kernel/Network/Cryptography/AES256.c). */
module Aes256Module {
  import opened Gf256
  import opened AesTables
  import opened AesBlock
  import opened AesModes

  type Key = k: seq<bv8> | |k| == 32 witness seq(32, _ => 0)

  // ---- key schedule ----

  function Pack(a: bv8, b: bv8, c: bv8, d: bv8): bv32 {
    (a as bv32 << 24) | (b as bv32 << 16) | (c as bv32 << 8) | (d as bv32)
  }

  function Xor32(a: bv32, b: bv32): bv32 { a ^ b }

  function RotWord(w: bv32): bv32 { (w << 8) | (w >> 24) }

  function SubWord(w: bv32): bv32 {
    Pack(SBox(KeyByte(w, 0)), SBox(KeyByte(w, 1)), SBox(KeyByte(w, 2)), SBox(KeyByte(w, 3)))
  }

  function RconWord(i: nat): bv32 { Rcon(i) as bv32 << 24 }

  /** Word `i` of the expanded key. */
  function KeyWord(key: Key, i: nat): bv32 {
    if i < 8 then Pack(key[4 * i], key[4 * i + 1], key[4 * i + 2], key[4 * i + 3])
    else
      var t := KeyWord(key, i - 1);
      var u := if i % 8 == 0 then Xor32(SubWord(RotWord(t)), RconWord(i / 8))
               else if i % 8 == 4 then SubWord(t)
               else t;
      Xor32(KeyWord(key, i - 8), u)
  }

  lemma KeyWordNext(key: Key, i: nat)
    requires i >= 8
    ensures var t := KeyWord(key, i - 1);
            var u := if i % 8 == 0 then Xor32(SubWord(RotWord(t)), RconWord(i / 8)) else if i % 8 == 4 then SubWord(t) else t;
            KeyWord(key, i) == Xor32(KeyWord(key, i - 8), u)
  {
    hide SubWord, RotWord, RconWord, Xor32;
  }

  function Expand(key: Key): RoundKeys { seq(60, i requires 0 <= i < 60 => KeyWord(key, i)) }

  // ---- round steps in place ----

  method SubBytesInPlace(state: array<bv8>)
    requires state.Length == 16
    modifies state
    ensures state[..] == SubBytes(old(state[..]))
  {
    hide SBox;
    for i := 0 to 16
      invariant forall k :: 0 <= k < i ==> state[k] == SBox(old(state[k]))
      invariant forall k :: i <= k < 16 ==> state[k] == old(state[k])
    {
      state[i] := SBox(state[i]);
    }
  }

  method InvSubBytesInPlace(state: array<bv8>)
    requires state.Length == 16
    modifies state
    ensures state[..] == InvSubBytes(old(state[..]))
  {
    hide InvSBox;
    for i := 0 to 16
      invariant forall k :: 0 <= k < i ==> state[k] == InvSBox(old(state[k]))
      invariant forall k :: i <= k < 16 ==> state[k] == old(state[k])
    {
      state[i] := InvSBox(state[i]);
    }
  }

  /** A rotation of four bytes through a temporary: each takes the next one's value, the last the first one's. */
  method Rotate(state: array<bv8>, a: nat, b: nat, c: nat, d: nat)
    requires state.Length == 16 && a < 16 && b < 16 && c < 16 && d < 16
    requires a != b && a != c && a != d && b != c && b != d && c != d
    modifies state
    ensures state[..] == RotateOf(old(state[..]), a, b, c, d)
  {
    var temp := state[a];
    state[a] := state[b];
    state[b] := state[c];
    state[c] := state[d];
    state[d] := temp;
  }

  function RotateOf(s: Block, a: nat, b: nat, c: nat, d: nat): Block
    requires a < 16 && b < 16 && c < 16 && d < 16
  {
    s[a := s[b]][b := s[c]][c := s[d]][d := s[a]]
  }

  method Swap(state: array<bv8>, a: nat, b: nat)
    requires state.Length == 16 && a < 16 && b < 16
    modifies state
    ensures state[..] == SwapOf(old(state[..]), a, b)
  {
    var temp := state[a];
    state[a] := state[b];
    state[b] := temp;
  }

  function SwapOf(s: Block, a: nat, b: nat): Block
    requires a < 16 && b < 16
  {
    s[a := s[b]][b := s[a]]
  }

  /** The three row rotations of shift_rows make up the row shift. */
  lemma ShiftRowsBytes(s: Block)
    ensures RotateOf(SwapOf(SwapOf(RotateOf(s, 1, 5, 9, 13), 2, 10), 6, 14), 15, 11, 7, 3) == ShiftRows(s)
  {
  }

  lemma InvShiftRowsBytes(s: Block)
    ensures RotateOf(SwapOf(SwapOf(RotateOf(s, 13, 9, 5, 1), 2, 10), 6, 14), 3, 7, 11, 15) == InvShiftRows(s)
  {
  }

  method ShiftRowsInPlace(state: array<bv8>)
    requires state.Length == 16
    modifies state
    ensures state[..] == ShiftRows(old(state[..]))
  {
    hide ShiftRows, RotateOf, SwapOf;
    ShiftRowsBytes(state[..]);
    Rotate(state, 1, 5, 9, 13);
    Swap(state, 2, 10);
    Swap(state, 6, 14);
    Rotate(state, 15, 11, 7, 3);
  }

  method InvShiftRowsInPlace(state: array<bv8>)
    requires state.Length == 16
    modifies state
    ensures state[..] == InvShiftRows(old(state[..]))
  {
    hide InvShiftRows, RotateOf, SwapOf;
    InvShiftRowsBytes(state[..]);
    Rotate(state, 13, 9, 5, 1);
    Swap(state, 2, 10);
    Swap(state, 6, 14);
    Rotate(state, 3, 7, 11, 15);
  }

  /** `s` with its first `i` columns taken from `t`. */
  function UpTo(t: Block, s: Block, i: nat): Block { seq(16, k requires 0 <= k < 16 => if k % 4 < i then t[k] else s[k]) }

  lemma UpToEnds(t: Block, s: Block)
    ensures UpTo(t, s, 0) == s && UpTo(t, s, 4) == t
  {
  }

  lemma UpToAt(t: Block, s: Block, i: nat)
    requires i < 4
    ensures var u := UpTo(t, s, i);
            && u[i] == s[i] && u[i + 4] == s[i + 4] && u[i + 8] == s[i + 8] && u[i + 12] == s[i + 12]
            && UpTo(t, s, i + 1) == u[i := t[i]][i + 4 := t[i + 4]][i + 8 := t[i + 8]][i + 12 := t[i + 12]]
  {
    assert (i + 4) % 4 == i && (i + 8) % 4 == i && (i + 12) % 4 == i;
    var v := UpTo(t, s, i)[i := t[i]][i + 4 := t[i + 4]][i + 8 := t[i + 8]][i + 12 := t[i + 12]];
    forall k | 0 <= k < 16 ensures UpTo(t, s, i + 1)[k] == v[k] {
      assert k % 4 == i <==> k == i || k == i + 4 || k == i + 8 || k == i + 12;
    }
  }

  method MixColumnsInPlace(state: array<bv8>)
    requires state.Length == 16
    modifies state
    ensures state[..] == MixColumns(old(state[..]))
  {
    hide MixColumns, Mix, UpTo;
    ghost var s: Block := state[..];
    UpToEnds(MixColumns(s), s);
    for i := 0 to 4
      invariant state[..] == UpTo(MixColumns(s), s, i)
    {
      ghost var t: Block := state[..];
      UpToAt(MixColumns(s), s, i);
      var a0, a1, a2, a3 := state[i], state[i + 4], state[i + 8], state[i + 12];
      var b0, b1, b2, b3 := MixFour(a0, a1, a2, a3);
      state[i] := b0;
      state[i + 4] := b1;
      state[i + 8] := b2;
      state[i + 12] := b3;
      MixedAt(s, 0, i);
      MixedAt(s, 1, i);
      MixedAt(s, 2, i);
      MixedAt(s, 3, i);
      assert state[..] == t[i := b0][i + 4 := b1][i + 8 := b2][i + 12 := b3];
    }
  }

  method MixFour(a0: bv8, a1: bv8, a2: bv8, a3: bv8) returns (b0: bv8, b1: bv8, b2: bv8, b3: bv8)
    ensures b0 == Mix(0, a0, a1, a2, a3) && b1 == Mix(1, a0, a1, a2, a3)
    ensures b2 == Mix(2, a0, a1, a2, a3) && b3 == Mix(3, a0, a1, a2, a3)
  {
    hide GMul, Xor4;
    var p := Gmul(a0, 2);
    var q := Gmul(a1, 3);
    b0 := Xor4(p, q, a2, a3);
    p := Gmul(a1, 2);
    q := Gmul(a2, 3);
    b1 := Xor4(a0, p, q, a3);
    p := Gmul(a2, 2);
    q := Gmul(a3, 3);
    b2 := Xor4(a0, a1, p, q);
    p := Gmul(a0, 3);
    q := Gmul(a3, 2);
    b3 := Xor4(p, a1, a2, q);
  }

  method InvMixColumnsInPlace(state: array<bv8>)
    requires state.Length == 16
    modifies state
    ensures state[..] == InvMixColumns(old(state[..]))
  {
    hide InvMixColumns, InvMix, UpTo;
    ghost var s: Block := state[..];
    UpToEnds(InvMixColumns(s), s);
    for i := 0 to 4
      invariant state[..] == UpTo(InvMixColumns(s), s, i)
    {
      ghost var t: Block := state[..];
      UpToAt(InvMixColumns(s), s, i);
      var a0, a1, a2, a3 := state[i], state[i + 4], state[i + 8], state[i + 12];
      var b0 := UnmixOne(14, 11, 13, 9, a0, a1, a2, a3);
      var b1 := UnmixOne(9, 14, 11, 13, a0, a1, a2, a3);
      var b2 := UnmixOne(13, 9, 14, 11, a0, a1, a2, a3);
      var b3 := UnmixOne(11, 13, 9, 14, a0, a1, a2, a3);
      InvMixRows(a0, a1, a2, a3);
      state[i] := b0;
      state[i + 4] := b1;
      state[i + 8] := b2;
      state[i + 12] := b3;
      UnmixedAt(s, 0, i);
      UnmixedAt(s, 1, i);
      UnmixedAt(s, 2, i);
      UnmixedAt(s, 3, i);
      assert state[..] == t[i := b0][i + 4 := b1][i + 8 := b2][i + 12 := b3];
    }
  }

  method UnmixOne(k0: bv8, k1: bv8, k2: bv8, k3: bv8, a0: bv8, a1: bv8, a2: bv8, a3: bv8) returns (b: bv8)
    ensures b == Xor4(GMul(a0, k0), GMul(a1, k1), GMul(a2, k2), GMul(a3, k3))
  {
    hide GMul, Xor4;
    var p := Gmul(a0, k0);
    var q := Gmul(a1, k1);
    var r := Gmul(a2, k2);
    var t := Gmul(a3, k3);
    b := Xor4(p, q, r, t);
  }

  lemma InvMixRows(a0: bv8, a1: bv8, a2: bv8, a3: bv8)
    ensures InvMix(0, a0, a1, a2, a3) == Xor4(GMul(a0, 14), GMul(a1, 11), GMul(a2, 13), GMul(a3, 9))
    ensures InvMix(1, a0, a1, a2, a3) == Xor4(GMul(a0, 9), GMul(a1, 14), GMul(a2, 11), GMul(a3, 13))
    ensures InvMix(2, a0, a1, a2, a3) == Xor4(GMul(a0, 13), GMul(a1, 9), GMul(a2, 14), GMul(a3, 11))
    ensures InvMix(3, a0, a1, a2, a3) == Xor4(GMul(a0, 11), GMul(a1, 13), GMul(a2, 9), GMul(a3, 14))
  {
    hide GMul, Xor4;
  }

  lemma KeyedColumn(s: Block, rk: RoundKeys, n: nat, i: nat)
    requires n <= 14 && i < 4
    ensures AddRoundKey(s, rk, n)[i] == Xor(s[i], KeyByte(rk[4 * n + i], 0))
    ensures AddRoundKey(s, rk, n)[i + 4] == Xor(s[i + 4], KeyByte(rk[4 * n + i], 1))
    ensures AddRoundKey(s, rk, n)[i + 8] == Xor(s[i + 8], KeyByte(rk[4 * n + i], 2))
    ensures AddRoundKey(s, rk, n)[i + 12] == Xor(s[i + 12], KeyByte(rk[4 * n + i], 3))
  {
    hide Xor, KeyByte;
  }

  /** A cipher context with its expanded key. */
  class Aes256 {
    const roundKeys: array<bv32>
    var nr: nat

    ghost predicate Valid()
      reads this, roundKeys
    {
      roundKeys.Length == 60 && nr == 14
    }

    ghost function Keys(): RoundKeys
      requires Valid()
      reads this, roundKeys
    {
      roundKeys[..]
    }

    /** aes256_init. */
    constructor (key: Key)
      ensures Valid() && fresh(roundKeys) && Keys() == Expand(key)
    {
      hide Pack, Xor32, SubWord, RotWord, RconWord;
      var w := new bv32[60];
      for i := 0 to 8
        invariant forall k :: 0 <= k < i ==> w[k] == KeyWord(key, k)
      {
        w[i] := Pack(key[4 * i], key[4 * i + 1], key[4 * i + 2], key[4 * i + 3]);
      }
      for i := 8 to 60
        invariant forall k :: 0 <= k < i ==> w[k] == KeyWord(key, k)
      {
        var temp := w[i - 1];
        if i % 8 == 0 {
          temp := RotWord(temp);
          temp := SubWord(temp);
          temp := Xor32(temp, RconWord(i / 8));
        } else if i % 8 == 4 {
          temp := SubWord(temp);
        }
        w[i] := Xor32(w[i - 8], temp);
      }
      roundKeys := w;
      nr := 14;
    }

    method AddRoundKeyInPlace(state: array<bv8>, n: nat)
      requires Valid() && state.Length == 16 && n <= 14 && state as object != roundKeys
      modifies state
      ensures state[..] == AddRoundKey(old(state[..]), Keys(), n)
    {
      hide Xor, KeyByte, AddRoundKey;
      ghost var s: Block := state[..];
      ghost var want := AddRoundKey(s, Keys(), n);
      for i := 0 to 4
        invariant forall k :: 0 <= k < 16 ==> state[k] == if k % 4 < i then want[k] else s[k]
      {
        var w := roundKeys[4 * n + i];
        KeyedColumn(s, Keys(), n, i);
        state[i] := Xor(state[i], KeyByte(w, 0));
        state[i + 4] := Xor(state[i + 4], KeyByte(w, 1));
        state[i + 8] := Xor(state[i + 8], KeyByte(w, 2));
        state[i + 12] := Xor(state[i + 12], KeyByte(w, 3));
      }
    }

    /** aes256_encrypt_block, into `out` from `at` on. */
    method EncryptBlock(x: Block, out: array<bv8>, at: nat)
      requires Valid() && at + 16 <= out.Length && out as object != roundKeys
      modifies out
      ensures out[..] == old(out[..at]) + Encrypt(Keys(), x) + old(out[at + 16..])
    {
      hide SubBytes, ShiftRows, MixColumns, AddRoundKey;
      var state := new bv8[16];
      Load(state, x);
      ghost var rk := Keys();
      AddRoundKeyInPlace(state, 0);
      for round := 1 to nr
        invariant Valid() && Keys() == rk && out[..] == old(out[..])
        invariant state[..] == Rounds(rk, x, round - 1)
      {
        SubBytesInPlace(state);
        ShiftRowsInPlace(state);
        MixColumnsInPlace(state);
        AddRoundKeyInPlace(state, round);
      }
      SubBytesInPlace(state);
      ShiftRowsInPlace(state);
      AddRoundKeyInPlace(state, nr);
      Store(out, at, state);
    }

    /** aes256_decrypt_block, into `out` from `at` on. */
    method DecryptBlock(y: Block, out: array<bv8>, at: nat)
      requires Valid() && at + 16 <= out.Length && out as object != roundKeys
      modifies out
      ensures out[..] == old(out[..at]) + Decrypt(Keys(), y) + old(out[at + 16..])
    {
      hide InvSubBytes, InvShiftRows, InvMixColumns, AddRoundKey;
      var state := new bv8[16];
      Load(state, y);
      ghost var rk := Keys();
      AddRoundKeyInPlace(state, nr);
      for round := nr - 1 downto 0
        invariant Valid() && Keys() == rk && out[..] == old(out[..]) && round <= 13
        invariant Unrounds(rk, state[..], round) == Decrypt(rk, y)
      {
        var r := round + 1;
        InvShiftRowsInPlace(state);
        InvSubBytesInPlace(state);
        AddRoundKeyInPlace(state, r);
        InvMixColumnsInPlace(state);
      }
      InvShiftRowsInPlace(state);
      InvSubBytesInPlace(state);
      AddRoundKeyInPlace(state, 0);
      Store(out, at, state);
    }

    /** Encrypts a block behind the first `at` bytes of `out`. */
    method EncryptNext(x: Block, out: array<bv8>, at: nat)
      requires Valid() && at + 16 <= out.Length && out as object != roundKeys
      modifies out
      ensures out[..at + 16] == old(out[..at]) + Encrypt(Keys(), x) && out[at..at + 16] == Encrypt(Keys(), x)
      ensures forall k :: at + 16 <= k < out.Length ==> out[k] == old(out[k])
    {
      hide Encrypt;
      ghost var before := out[..];
      EncryptBlock(x, out, at);
      ghost var after := out[..];
      assert forall k :: at + 16 <= k < out.Length ==> after[k] == before[k];
    }

    /** aes256_cbc_encrypt of whole blocks, between buffers or in place. */
    method CbcEncryptBuffer(iv: Block, input: array<bv8>, out: array<bv8>, len: nat)
      requires Valid() && len % 16 == 0 && len <= input.Length && len <= out.Length
      requires out as object != roundKeys
      modifies out
      ensures out[..len] == CbcEncrypt(Keys(), iv, old(input[..len])) && out[len..] == old(out[len..])
    {
      hide CbcEncrypt, Encrypt, XorSeq;
      ghost var rk, m, tail := Keys(), input[..len], out[len..];
      var prev: Block := iv;
      var i := 0;
      assert m[0..] == m && out[..0] == [];
      while i < len
        invariant Valid() && Keys() == rk
        invariant i <= len && i % 16 == 0
        invariant forall k :: i <= k < len ==> input[k] == m[k]
        invariant CbcEncrypt(rk, iv, m) == out[..i] + CbcEncrypt(rk, prev, m[i..])
        invariant out[len..] == tail
      {
        assert m[i..i + 16] == input[i..i + 16];
        ghost var done := out[..i];
        var block := XorBlock(input, i, 16, prev);
        CbcEncryptStep(rk, prev, m, i, done, Encrypt(rk, block));
        EncryptNext(block, out, i);
        prev := out[i..i + 16];
        i := i + 16;
      }
      CbcEncryptNone(rk, prev);
      assert m[len..] == [] && i == len;
    }

    /** aes256_cbc_decrypt of whole blocks, between distinct buffers. */
    method CbcDecryptBuffer(iv: Block, input: array<bv8>, out: array<bv8>, len: nat)
      requires Valid() && len % 16 == 0 && len <= input.Length && len <= out.Length
      requires input != out && out as object != roundKeys
      modifies out
      ensures out[..len] == CbcDecrypt(Keys(), iv, input[..len]) && out[len..] == old(out[len..])
    {
      hide CbcDecrypt, Decrypt, XorSeq;
      ghost var rk, c, tail := Keys(), input[..len], out[len..];
      var prev: Block := iv;
      var block := new bv8[16];
      var i := 0;
      assert c[0..] == c && out[..0] == [];
      while i < len
        invariant Valid() && Keys() == rk && input[..len] == c
        invariant i <= len && i % 16 == 0
        invariant CbcDecrypt(rk, iv, c) == out[..i] + CbcDecrypt(rk, prev, c[i..])
        invariant out[len..] == tail
      {
        assert c[i..i + 16] == input[i..i + 16];
        ghost var done := out[..i];
        DecryptBlock(input[i..i + 16], block, 0);
        assert block[..] == Decrypt(rk, c[i..i + 16]) && block[0..16] == block[..];
        var sum := XorBlock(block, 0, 16, prev);
        CbcDecryptStep(rk, prev, c, i, done, sum);
        StoreSeq(out, i, sum);
        assert out[..i + 16] == done + sum;
        prev := input[i..i + 16];
        i := i + 16;
      }
      CbcDecryptNone(rk, prev);
      assert c[len..] == [] && i == len;
    }

    /** aes256_ctr, between buffers or in place. */
    method CtrBuffer(nonce: Block, input: array<bv8>, out: array<bv8>, len: nat)
      requires Valid() && len <= input.Length && len <= out.Length && out as object != roundKeys
      modifies out
      ensures out[..len] == Ctr(Keys(), nonce, old(input[..len])) && out[len..] == old(out[len..])
    {
      hide Ctr, Encrypt, XorSeq, Inc;
      ghost var rk, m, tail := Keys(), input[..len], out[len..];
      var counter: Block := nonce;
      var keystream := new bv8[16];
      var offset := 0;
      assert m[0..] == m && out[..0] == [];
      while offset < len
        invariant Valid() && Keys() == rk && offset <= len
        invariant forall k :: offset <= k < len ==> input[k] == m[k]
        invariant Ctr(rk, nonce, m) == out[..offset] + Ctr(rk, counter, m[offset..])
        invariant out[len..] == tail
      {
        EncryptBlock(counter, keystream, 0);
        var n := if len - offset < 16 then len - offset else 16;
        assert m[offset..offset + n] == input[offset..offset + n];
        ghost var done := out[..offset];
        assert keystream[..] == Encrypt(rk, counter);
        var sum := XorBlock(input, offset, n, keystream[..]);
        CtrStep(rk, counter, m, offset, n, done, sum);
        StoreSeq(out, offset, sum);
        assert out[..offset + n] == done + sum;
        counter := Increment(counter);
        offset := offset + n;
      }
      CtrNone(rk, counter);
      assert m[len..] == [] && offset == len;
    }
  }

  lemma CbcEncryptNone(rk: RoundKeys, prev: Block) ensures CbcEncrypt(rk, prev, []) == [] { }
  lemma CbcDecryptNone(rk: RoundKeys, prev: Block) ensures CbcDecrypt(rk, prev, []) == [] { }
  lemma CtrNone(rk: RoundKeys, counter: Block) ensures Ctr(rk, counter, []) == [] { }

  /** The byte-carry loop of aes256_ctr. */
  method Increment(c: Block) returns (r: Block)
    ensures r == Inc(c)
  {
    r := c;
    var i := 15;
    while i >= 0
      invariant -1 <= i < 16
      invariant if i >= 0 then IncAt(r, i) == Inc(c) else r == Inc(c)
    {
      ghost var q := r;
      r := r[i := r[i] + 1];
      if r[i] != 0 { break; }
      assert i > 0 ==> IncAt(q, i) == IncAt(r, i - 1);
      i := i - 1;
    }
  }

  method StoreSeq(out: array<bv8>, at: nat, s: seq<bv8>)
    requires at + |s| <= out.Length
    modifies out
    ensures out[..] == old(out[..at]) + s + old(out[at + |s|..])
    ensures out[..at + |s|] == old(out[..at]) + s
    ensures forall k :: at + |s| <= k < out.Length ==> out[k] == old(out[k])
  {
    for i := 0 to |s|
      invariant out[..at] == old(out[..at]) && out[at + |s|..] == old(out[at + |s|..])
      invariant out[at..at + i] == s[..i]
    {
      out[at + i] := s[i];
      assert out[at..at + i + 1] == out[at..at + i] + [out[at + i]] && s[..i + 1] == s[..i] + [s[i]];
    }
    assert s[..|s|] == s;
    assert out[..] == out[..at] + out[at..at + |s|] + out[at + |s|..];
  }

  /** aes256_pad_pkcs7 in a buffer that can hold `maxLen` bytes. */
  method PadPkcs7(data: array<bv8>, len: nat, maxLen: nat) returns (r: nat)
    requires maxLen <= data.Length
    modifies data
    ensures r == if len + PadLength(len) > maxLen then 0 else len + PadLength(len)
    ensures r == 0 ==> data[..] == old(data[..])
    ensures r > 0 ==> data[..r] == Padded(old(data[..len])) && data[r..] == old(data[r..])
  {
    var pad := 16 - len % 16;
    if len + pad > maxLen { return 0; }
    for i := 0 to pad
      invariant data[..len] == old(data[..len]) && data[len + pad..] == old(data[len + pad..])
      invariant forall k :: len <= k < len + i ==> data[k] == pad as bv8
    {
      data[len + i] := pad as bv8;
    }
    r := len + pad;
    assert data[..r] == data[..len] + data[len..r];
  }

  /** aes256_unpad_pkcs7. */
  method UnpadPkcs7(data: array<bv8>, len: nat) returns (r: nat)
    requires len <= data.Length
    ensures r == UnpaddedLength(data[..len])
  {
    if len == 0 || len % 16 != 0 { return 0; }
    var pad := data[len - 1];
    ByteRange(pad);
    if pad == 0 || pad > 16 { return 0; }
    ghost var p := data[..len];
    for i := len - pad as int to len
      invariant forall k :: len - pad as int <= k < i ==> p[k] == pad
    {
      if data[i] != pad {
        assert p[i] != pad;
        return 0;
      }
    }
    r := len - pad as int;
  }

  lemma ByteRange(b: bv8)
    ensures 0 <= b as int < 256
    ensures b == 0 <==> b as int == 0
    ensures b > 16 <==> b as int > 16
  {
  }

  /** The sum of the block of `input` at `at` with `mask`, byte by byte. */
  method XorBlock(input: array<bv8>, at: nat, n: nat, mask: seq<bv8>) returns (r: seq<bv8>)
    requires at + n <= input.Length && n <= |mask|
    ensures r == XorSeq(input[at..at + n], mask)
  {
    hide Xor;
    r := [];
    for j := 0 to n
      invariant |r| == j && forall k :: 0 <= k < j ==> r[k] == Xor(input[at..at + n][k], mask[k])
    {
      r := r + [Xor(input[at + j], mask[j])];
    }
  }

  method Load(state: array<bv8>, x: Block)
    requires state.Length == 16
    modifies state
    ensures state[..] == x
  {
    for i := 0 to 16
      invariant forall k :: 0 <= k < i ==> state[k] == x[k]
    {
      state[i] := x[i];
    }
  }

  method Store(out: array<bv8>, at: nat, state: array<bv8>)
    requires state.Length == 16 && at + 16 <= out.Length && out != state
    modifies out
    ensures out[..] == old(out[..at]) + state[..] + old(out[at + 16..])
  {
    for i := 0 to 16
      invariant out[..at] == old(out[..at]) && out[at + 16..] == old(out[at + 16..])
      invariant out[at..at + i] == state[..i]
    {
      out[at + i] := state[i];
      assert out[at..at + i + 1] == out[at..at + i] + [out[at + i]] && state[..i + 1] == state[..i] + [state[i]];
    }
    assert out[..] == out[..at] + out[at..at + 16] + out[at + 16..];
  }
}
