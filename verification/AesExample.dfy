/** The key of appendix A.3 of FIPS 197 expanded, and one block encrypted under it, worked out step by step. The words of the
    expanded key are those of the standard; the block follows AES256.c, whose column mix differs from the standard. */
module AesExample {
  import opened Gf256
  import opened AesTables
  import opened AesBlock
  import opened Aes256Module

  predicate IsKey(key: Key) {
    && key[0] == 0x60 && key[1] == 0x3d && key[2] == 0xeb && key[3] == 0x10 && key[4] == 0x15 && key[5] == 0xca && key[6] == 0x71 && key[7] == 0xbe
    && key[8] == 0x2b && key[9] == 0x73 && key[10] == 0xae && key[11] == 0xf0 && key[12] == 0x85 && key[13] == 0x7d && key[14] == 0x77 && key[15] == 0x81
    && key[16] == 0x1f && key[17] == 0x35 && key[18] == 0x2c && key[19] == 0x07 && key[20] == 0x3b && key[21] == 0x61 && key[22] == 0x08 && key[23] == 0xd7
    && key[24] == 0x2d && key[25] == 0x98 && key[26] == 0x10 && key[27] == 0xa3 && key[28] == 0x09 && key[29] == 0x14 && key[30] == 0xdf && key[31] == 0xf4
  }

  // The words of the expanded key.
  const k0: bv32 := 0x603deb10  const k1: bv32 := 0x15ca71be  const k2: bv32 := 0x2b73aef0  const k3: bv32 := 0x857d7781
  const k4: bv32 := 0x1f352c07  const k5: bv32 := 0x3b6108d7  const k6: bv32 := 0x2d9810a3  const k7: bv32 := 0x0914dff4
  const k8: bv32 := 0x9ba35411  const k9: bv32 := 0x8e6925af  const k10: bv32 := 0xa51a8b5f  const k11: bv32 := 0x2067fcde
  const k12: bv32 := 0xa8b09c1a  const k13: bv32 := 0x93d194cd  const k14: bv32 := 0xbe49846e  const k15: bv32 := 0xb75d5b9a
  const k16: bv32 := 0xd59aecb8  const k17: bv32 := 0x5bf3c917  const k18: bv32 := 0xfee94248  const k19: bv32 := 0xde8ebe96
  const k20: bv32 := 0xb5a9328a  const k21: bv32 := 0x2678a647  const k22: bv32 := 0x98312229  const k23: bv32 := 0x2f6c79b3
  const k24: bv32 := 0x812c81ad  const k25: bv32 := 0xdadf48ba  const k26: bv32 := 0x24360af2  const k27: bv32 := 0xfab8b464
  const k28: bv32 := 0x98c5bfc9  const k29: bv32 := 0xbebd198e  const k30: bv32 := 0x268c3ba7  const k31: bv32 := 0x09e04214
  const k32: bv32 := 0x68007bac  const k33: bv32 := 0xb2df3316  const k34: bv32 := 0x96e939e4  const k35: bv32 := 0x6c518d80
  const k36: bv32 := 0xc814e204  const k37: bv32 := 0x76a9fb8a  const k38: bv32 := 0x5025c02d  const k39: bv32 := 0x59c58239
  const k40: bv32 := 0xde136967  const k41: bv32 := 0x6ccc5a71  const k42: bv32 := 0xfa256395  const k43: bv32 := 0x9674ee15
  const k44: bv32 := 0x5886ca5d  const k45: bv32 := 0x2e2f31d7  const k46: bv32 := 0x7e0af1fa  const k47: bv32 := 0x27cf73c3
  const k48: bv32 := 0x749c47ab  const k49: bv32 := 0x18501dda  const k50: bv32 := 0xe2757e4f  const k51: bv32 := 0x7401905a
  const k52: bv32 := 0xcafaaae3  const k53: bv32 := 0xe4d59b34  const k54: bv32 := 0x9adf6ace  const k55: bv32 := 0xbd10190d
  const k56: bv32 := 0xfe4890d1  const k57: bv32 := 0xe6188d0b  const k58: bv32 := 0x046df344  const k59: bv32 := 0x706c631e

  // The block before round r + 1 (s), and after the substitution and row shift (c) and the column mix (d) of round r.
  const x: Block := [0x00, 0x11, 0x22, 0x33, 0x44, 0x55, 0x66, 0x77, 0x88, 0x99, 0xaa, 0xbb, 0xcc, 0xdd, 0xee, 0xff]
  const s0: Block := [0x60, 0x04, 0x09, 0xb6, 0x79, 0x9f, 0x15, 0x0a, 0x63, 0xe8, 0x04, 0xcc, 0xdc, 0x63, 0x1e, 0x7e]
  const c1: Block := [0xd0, 0xdb, 0xf2, 0xf3, 0xb6, 0x9b, 0x72, 0x4e, 0xfb, 0xfb, 0x01, 0x67, 0x86, 0xf2, 0x59, 0x4b]
  const d1: Block := [0x07, 0x12, 0x31, 0x03, 0x37, 0x12, 0x4c, 0x8d, 0x1a, 0xa0, 0x69, 0xae, 0x31, 0xe9, 0xcc, 0xb1]
  const s1: Block := [0x18, 0x29, 0x1c, 0x0a, 0x02, 0x73, 0xd4, 0x99, 0x36, 0xa8, 0x79, 0x71, 0x36, 0x3e, 0x6f, 0x45]
  const c2: Block := [0xad, 0x8f, 0xb6, 0x6e, 0x77, 0xc2, 0xa8, 0x67, 0x05, 0xb2, 0x9c, 0xee, 0x05, 0xa5, 0x48, 0xa3]
  const d2: Block := [0xd8, 0x4f, 0x40, 0x38, 0x49, 0x78, 0x0a, 0x2a, 0xdf, 0xc6, 0xe5, 0x30, 0x94, 0xab, 0x65, 0x66]
  const s2: Block := [0x43, 0xc1, 0xe5, 0x18, 0xea, 0x11, 0x10, 0x4d, 0x8b, 0xe3, 0x6e, 0xcc, 0x85, 0x04, 0x3a, 0xb8]
  const c3: Block := [0x1a, 0x82, 0x9f, 0x6c, 0x87, 0x11, 0x80, 0xad, 0x3d, 0xf2, 0xd9, 0xe3, 0x97, 0x78, 0xca, 0x4b]
  const d3: Block := [0x0c, 0xa6, 0xad, 0x9c, 0xdf, 0xd5, 0x3e, 0x58, 0x45, 0xe4, 0xf3, 0xc1, 0xa1, 0x8e, 0x6c, 0x6c]
  const s3: Block := [0xa4, 0x35, 0x13, 0x2b, 0x6f, 0x04, 0x77, 0x05, 0xd9, 0x70, 0x77, 0x9a, 0xbb, 0x43, 0x02, 0xf6]
  const c4: Block := [0x49, 0xf2, 0xf5, 0x42, 0xa8, 0x51, 0x77, 0xf1, 0x35, 0x1a, 0x7d, 0x6b, 0xea, 0x96, 0xf5, 0xb8]
  const d4: Block := [0xae, 0x80, 0xe0, 0x5f, 0xb7, 0xe8, 0x69, 0xbe, 0xae, 0x36, 0x7c, 0xb6, 0x89, 0x71, 0xff, 0x37]
  const s4: Block := [0x7b, 0xdb, 0x1e, 0x81, 0x2d, 0x1b, 0x80, 0x30, 0x42, 0xff, 0x3e, 0x08, 0x31, 0x66, 0xb7, 0xa1]
  const c5: Block := [0x21, 0xaf, 0xb2, 0x32, 0xd8, 0x16, 0xa9, 0x0c, 0x2c, 0x33, 0x72, 0x04, 0xc7, 0xb9, 0xcd, 0x30]
  const d5: Block := [0xda, 0xf5, 0x20, 0x44, 0x39, 0x6f, 0xa0, 0x16, 0xf3, 0x0f, 0xb3, 0x66, 0x02, 0xa6, 0x97, 0x3e]
  const s5: Block := [0x6f, 0xd3, 0xb8, 0x6b, 0x90, 0x17, 0x91, 0x7a, 0xc1, 0xa9, 0x91, 0x1f, 0x88, 0xe1, 0xbe, 0x8d]
  const c6: Block := [0xa8, 0xf0, 0x81, 0x5d, 0x60, 0xd3, 0xae, 0x7f, 0x78, 0xf8, 0x6c, 0xda, 0xc4, 0x66, 0x81, 0xc0]
  const d6: Block := [0x57, 0x0b, 0x1d, 0x21, 0x24, 0x38, 0xf3, 0x16, 0x6f, 0x62, 0x6f, 0xd6, 0x68, 0xec, 0x43, 0xd9]
  const s6: Block := [0xd6, 0xd1, 0x39, 0xdb, 0x08, 0xe7, 0xc5, 0xae, 0xee, 0x2a, 0x65, 0x62, 0xc5, 0x56, 0xb1, 0xbd]
  const c7: Block := [0xf6, 0x94, 0x4d, 0x7a, 0x30, 0xe5, 0xc8, 0xb9, 0x28, 0xb1, 0x12, 0xe4, 0xa6, 0x3e, 0xa6, 0xaa]
  const d7: Block := [0x29, 0x88, 0x6d, 0x6a, 0x48, 0xb3, 0x56, 0x8e, 0x67, 0x4a, 0x50, 0xf5, 0x4e, 0x8f, 0x5a, 0x9c]
  const s7: Block := [0xb1, 0x36, 0x4b, 0x63, 0x8d, 0x0e, 0xda, 0x6e, 0xd8, 0x53, 0x6b, 0xb7, 0x87, 0x01, 0xfd, 0x88]
  const c8: Block := [0xc8, 0xab, 0x7f, 0xc4, 0x5d, 0xed, 0x54, 0xfb, 0x61, 0x7c, 0xb3, 0x9f, 0x17, 0x05, 0x57, 0xa9]
  const d8: Block := [0x1a, 0x18, 0xe6, 0xb3, 0xc6, 0xeb, 0x4e, 0x3a, 0x6e, 0xb1, 0xaf, 0xfa, 0x51, 0x7d, 0xc8, 0x7a]
  const s8: Block := [0x72, 0xaa, 0x70, 0xdf, 0xc6, 0x34, 0xa7, 0x6b, 0x15, 0x82, 0x96, 0x77, 0xfd, 0x6b, 0x2c, 0xfa]
  const c9: Block := [0x40, 0x18, 0x90, 0x2d, 0xb4, 0x13, 0x71, 0x9e, 0x59, 0x7f, 0x51, 0x7f, 0x54, 0xac, 0x5c, 0xf5]
  const d9: Block := [0x4a, 0xd6, 0xa5, 0x69, 0x8c, 0x13, 0xdd, 0x7e, 0xba, 0x1a, 0xa7, 0x49, 0x85, 0x07, 0x33, 0x67]
  const s9: Block := [0x82, 0xa0, 0xf5, 0x30, 0x98, 0xba, 0xf8, 0xbb, 0x58, 0xe1, 0x67, 0xcb, 0x81, 0x8d, 0x1e, 0x5e]
  const c10: Block := [0x13, 0xf4, 0x85, 0x58, 0x46, 0xf8, 0x72, 0x04, 0x6a, 0x5d, 0xe6, 0xea, 0x0c, 0xe0, 0x41, 0x1f]
  const d10: Block := [0x8a, 0x5d, 0x20, 0x49, 0x2d, 0x18, 0x11, 0x6a, 0x95, 0x8d, 0xe3, 0xb2, 0x01, 0x79, 0x82, 0x38]
  const s10: Block := [0x54, 0x31, 0xda, 0xdf, 0x3e, 0xd4, 0x34, 0x1e, 0xfc, 0xd7, 0x80, 0x5c, 0x66, 0x08, 0x17, 0x2d]
  const c11: Block := [0x20, 0x48, 0xcd, 0xd8, 0xb2, 0x0e, 0xf0, 0x9e, 0xb0, 0x30, 0x57, 0x72, 0x33, 0xc7, 0x18, 0x4a]
  const d11: Block := [0x0e, 0x75, 0xc5, 0x2a, 0xa7, 0xc3, 0xd7, 0x23, 0xbc, 0x74, 0xbb, 0x7c, 0x04, 0x73, 0xdb, 0x0b]
  const s11: Block := [0x56, 0x5b, 0xbb, 0x0d, 0x21, 0xec, 0xdd, 0xec, 0x76, 0x45, 0x4a, 0x0f, 0x59, 0xa4, 0x21, 0xc8]
  const c12: Block := [0xb1, 0xce, 0xd6, 0xe8, 0xfd, 0x6e, 0xfd, 0xd7, 0x38, 0x49, 0xea, 0xce, 0xcb, 0x39, 0xc1, 0x76]
  const d12: Block := [0x96, 0x45, 0x80, 0x11, 0xd3, 0xf0, 0xd3, 0x62, 0x7a, 0x79, 0xbc, 0x22, 0x80, 0x1c, 0xef, 0xd6]
  const s12: Block := [0xe2, 0x5d, 0x62, 0x65, 0x4f, 0xa0, 0xa6, 0x63, 0x3d, 0x64, 0xc2, 0xb2, 0x2b, 0xc6, 0xa0, 0x8c]
  const c13: Block := [0x98, 0xe0, 0x25, 0x64, 0x84, 0x43, 0xe0, 0x4d, 0x27, 0xb4, 0xaa, 0xfb, 0xf1, 0x4c, 0x24, 0x37]
  const d13: Block := [0x6a, 0xe6, 0xff, 0xd3, 0x13, 0xed, 0x3f, 0xdf, 0x5a, 0x04, 0xe6, 0x9d, 0xe9, 0x54, 0x6d, 0x74]
  const s13: Block := [0xa0, 0x02, 0x65, 0x6e, 0xe9, 0x38, 0xe0, 0xcf, 0xf0, 0x9f, 0x8c, 0x84, 0x0a, 0x60, 0xa3, 0x79]
  const c14: Block := [0xe0, 0x07, 0x64, 0xb6, 0x1e, 0xdb, 0x0a, 0x9f, 0x8c, 0xd0, 0x4d, 0x8a, 0x67, 0x77, 0xe1, 0x5f]
  const s14: Block := [0x1e, 0xe1, 0x60, 0xc6, 0x56, 0xc3, 0x67, 0xf3, 0x1c, 0x5d, 0xbe, 0xe9, 0xb6, 0x7c, 0xa5, 0x41]

  // ---- the expanded key ----

  lemma Words0(key: Key)
    requires IsKey(key)
    ensures KeyWord(key, 0) == k0 && KeyWord(key, 1) == k1 && KeyWord(key, 2) == k2 && KeyWord(key, 3) == k3
    ensures KeyWord(key, 4) == k4 && KeyWord(key, 5) == k5 && KeyWord(key, 6) == k6 && KeyWord(key, 7) == k7
  {
    hide KeyWord, Pack;
    Packed();
    FirstWord(key, 0);
    FirstWord(key, 1);
    FirstWord(key, 2);
    FirstWord(key, 3);
    FirstWord(key, 4);
    FirstWord(key, 5);
    FirstWord(key, 6);
    FirstWord(key, 7);
  }

  lemma FirstWord(key: Key, i: nat)
    requires i < 8
    ensures KeyWord(key, i) == Pack(key[4 * i], key[4 * i + 1], key[4 * i + 2], key[4 * i + 3])
  { }

  lemma Packed()
    ensures Pack(0x60, 0x3d, 0xeb, 0x10) == k0 && Pack(0x15, 0xca, 0x71, 0xbe) == k1
    ensures Pack(0x2b, 0x73, 0xae, 0xf0) == k2 && Pack(0x85, 0x7d, 0x77, 0x81) == k3
    ensures Pack(0x1f, 0x35, 0x2c, 0x07) == k4 && Pack(0x3b, 0x61, 0x08, 0xd7) == k5
    ensures Pack(0x2d, 0x98, 0x10, 0xa3) == k6 && Pack(0x09, 0x14, 0xdf, 0xf4) == k7
  { }

  lemma Turned8()
    ensures Xor32(SubWord(RotWord(k7)), RconWord(1)) == 0xfb9ebf01
  { }

  lemma Turned12()
    ensures SubWord(k11) == 0xb785b01d
  { }

  lemma Words8(key: Key)
    requires IsKey(key)
    ensures KeyWord(key, 8) == k8 && KeyWord(key, 9) == k9 && KeyWord(key, 10) == k10 && KeyWord(key, 11) == k11
    ensures KeyWord(key, 12) == k12 && KeyWord(key, 13) == k13 && KeyWord(key, 14) == k14 && KeyWord(key, 15) == k15
  {
    hide IsKey, KeyWord, SubWord, RotWord, RconWord;
    Words0(key);
    Turned8();
    Turned12();
    KeyWordNext(key, 8);
    KeyWordNext(key, 9);
    KeyWordNext(key, 10);
    KeyWordNext(key, 11);
    KeyWordNext(key, 12);
    KeyWordNext(key, 13);
    KeyWordNext(key, 14);
    KeyWordNext(key, 15);
  }

  lemma Turned16()
    ensures Xor32(SubWord(RotWord(k15)), RconWord(2)) == 0x4e39b8a9
  { }

  lemma Turned20()
    ensures SubWord(k19) == 0x1d19ae90
  { }

  lemma Words16(key: Key)
    requires IsKey(key)
    ensures KeyWord(key, 16) == k16 && KeyWord(key, 17) == k17 && KeyWord(key, 18) == k18 && KeyWord(key, 19) == k19
    ensures KeyWord(key, 20) == k20 && KeyWord(key, 21) == k21 && KeyWord(key, 22) == k22 && KeyWord(key, 23) == k23
  {
    hide IsKey, KeyWord, SubWord, RotWord, RconWord;
    Words8(key);
    Turned16();
    Turned20();
    KeyWordNext(key, 16);
    KeyWordNext(key, 17);
    KeyWordNext(key, 18);
    KeyWordNext(key, 19);
    KeyWordNext(key, 20);
    KeyWordNext(key, 21);
    KeyWordNext(key, 22);
    KeyWordNext(key, 23);
  }

  lemma Turned24()
    ensures Xor32(SubWord(RotWord(k23)), RconWord(3)) == 0x54b66d15
  { }

  lemma Turned28()
    ensures SubWord(k27) == 0x2d6c8d43
  { }

  lemma Words24(key: Key)
    requires IsKey(key)
    ensures KeyWord(key, 24) == k24 && KeyWord(key, 25) == k25 && KeyWord(key, 26) == k26 && KeyWord(key, 27) == k27
    ensures KeyWord(key, 28) == k28 && KeyWord(key, 29) == k29 && KeyWord(key, 30) == k30 && KeyWord(key, 31) == k31
  {
    hide IsKey, KeyWord, SubWord, RotWord, RconWord;
    Words16(key);
    Turned24();
    Turned28();
    KeyWordNext(key, 24);
    KeyWordNext(key, 25);
    KeyWordNext(key, 26);
    KeyWordNext(key, 27);
    KeyWordNext(key, 28);
    KeyWordNext(key, 29);
    KeyWordNext(key, 30);
    KeyWordNext(key, 31);
  }

  lemma Turned32()
    ensures Xor32(SubWord(RotWord(k31)), RconWord(4)) == 0xe92cfa01
  { }

  lemma Turned36()
    ensures SubWord(k35) == 0x50d15dcd
  { }

  lemma Words32(key: Key)
    requires IsKey(key)
    ensures KeyWord(key, 32) == k32 && KeyWord(key, 33) == k33 && KeyWord(key, 34) == k34 && KeyWord(key, 35) == k35
    ensures KeyWord(key, 36) == k36 && KeyWord(key, 37) == k37 && KeyWord(key, 38) == k38 && KeyWord(key, 39) == k39
  {
    hide IsKey, KeyWord, SubWord, RotWord, RconWord;
    Words24(key);
    Turned32();
    Turned36();
    KeyWordNext(key, 32);
    KeyWordNext(key, 33);
    KeyWordNext(key, 34);
    KeyWordNext(key, 35);
    KeyWordNext(key, 36);
    KeyWordNext(key, 37);
    KeyWordNext(key, 38);
    KeyWordNext(key, 39);
  }

  lemma Turned40()
    ensures Xor32(SubWord(RotWord(k39)), RconWord(5)) == 0xb61312cb
  { }

  lemma Turned44()
    ensures SubWord(k43) == 0x90922859
  { }

  lemma Words40(key: Key)
    requires IsKey(key)
    ensures KeyWord(key, 40) == k40 && KeyWord(key, 41) == k41 && KeyWord(key, 42) == k42 && KeyWord(key, 43) == k43
    ensures KeyWord(key, 44) == k44 && KeyWord(key, 45) == k45 && KeyWord(key, 46) == k46 && KeyWord(key, 47) == k47
  {
    hide IsKey, KeyWord, SubWord, RotWord, RconWord;
    Words32(key);
    Turned40();
    Turned44();
    KeyWordNext(key, 40);
    KeyWordNext(key, 41);
    KeyWordNext(key, 42);
    KeyWordNext(key, 43);
    KeyWordNext(key, 44);
    KeyWordNext(key, 45);
    KeyWordNext(key, 46);
    KeyWordNext(key, 47);
  }

  lemma Turned48()
    ensures Xor32(SubWord(RotWord(k47)), RconWord(6)) == 0xaa8f2ecc
  { }

  lemma Turned52()
    ensures SubWord(k51) == 0x927c60be
  { }

  lemma Words48(key: Key)
    requires IsKey(key)
    ensures KeyWord(key, 48) == k48 && KeyWord(key, 49) == k49 && KeyWord(key, 50) == k50 && KeyWord(key, 51) == k51
    ensures KeyWord(key, 52) == k52 && KeyWord(key, 53) == k53 && KeyWord(key, 54) == k54 && KeyWord(key, 55) == k55
  {
    hide IsKey, KeyWord, SubWord, RotWord, RconWord;
    Words40(key);
    Turned48();
    Turned52();
    KeyWordNext(key, 48);
    KeyWordNext(key, 49);
    KeyWordNext(key, 50);
    KeyWordNext(key, 51);
    KeyWordNext(key, 52);
    KeyWordNext(key, 53);
    KeyWordNext(key, 54);
    KeyWordNext(key, 55);
  }

  lemma Turned56()
    ensures Xor32(SubWord(RotWord(k55)), RconWord(7)) == 0x8ad4d77a
  { }

  lemma Words56(key: Key)
    requires IsKey(key)
    ensures KeyWord(key, 56) == k56 && KeyWord(key, 57) == k57 && KeyWord(key, 58) == k58 && KeyWord(key, 59) == k59
  {
    hide IsKey, KeyWord, SubWord, RotWord, RconWord;
    Words48(key);
    Turned56();
    KeyWordNext(key, 56);
    KeyWordNext(key, 57);
    KeyWordNext(key, 58);
    KeyWordNext(key, 59);
  }

  /** The first words that are not the key itself. */
  lemma ExampleKeyWords(key: Key)
    requires IsKey(key)
    ensures KeyWord(key, 8) == 0x9ba35411 && KeyWord(key, 9) == 0x8e6925af
    ensures KeyWord(key, 10) == 0xa51a8b5f && KeyWord(key, 11) == 0x2067fcde
  {
    hide KeyWord;
    Words8(key);
  }

  // ---- the rounds ----

  /** A row of the column mix by doubling alone. */
  function MixX(r: nat, a0: bv8, a1: bv8, a2: bv8, a3: bv8): bv8 {
    if r == 0 then Xor4(XTime(a0), Xor(XTime(a1), a1), a2, a3)
    else if r == 1 then Xor4(a0, XTime(a1), Xor(XTime(a2), a2), a3)
    else if r == 2 then Xor4(a0, a1, XTime(a2), Xor(XTime(a3), a3))
    else Xor4(Xor(XTime(a0), a0), a1, a2, XTime(a3))
  }

  lemma MixIsX()
    ensures forall r: nat, a0, a1, a2, a3 :: Mix(r, a0, a1, a2, a3) == MixX(r, a0, a1, a2, a3)
  {
    forall r: nat, a0, a1, a2, a3 ensures Mix(r, a0, a1, a2, a3) == MixX(r, a0, a1, a2, a3) {
      Doubles(a0);
      Doubles(a1);
      Doubles(a2);
      Doubles(a3);
      hide GMul, XTime, Xor4, Xor;
    }
  }

  lemma Doubles(a: bv8)
    ensures GMul(a, 2) == XTime(a) && GMul(a, 3) == Xor(XTime(a), a)
  {
    Products(a);
    hide GMul;
  }

  // The four steps with their sixteen bytes written out.

  lemma SubBytesIs(s: Block)
    ensures SubBytes(s) == [SBox(s[0]), SBox(s[1]), SBox(s[2]), SBox(s[3]), SBox(s[4]), SBox(s[5]), SBox(s[6]), SBox(s[7]),
                             SBox(s[8]), SBox(s[9]), SBox(s[10]), SBox(s[11]), SBox(s[12]), SBox(s[13]), SBox(s[14]), SBox(s[15])]
  {
    hide SBox;
  }

  lemma ShiftRowsIs(s: Block)
    ensures ShiftRows(s) == [s[0], s[5], s[10], s[15], s[4], s[9], s[14], s[3], s[8], s[13], s[2], s[7], s[12], s[1], s[6], s[11]]
  { }

  lemma MixColumnsIs(s: Block)
    ensures MixColumns(s) == [MixX(0, s[0], s[4], s[8], s[12]), MixX(0, s[1], s[5], s[9], s[13]), MixX(0, s[2], s[6], s[10], s[14]), MixX(0, s[3], s[7], s[11], s[15]),
                               MixX(1, s[0], s[4], s[8], s[12]), MixX(1, s[1], s[5], s[9], s[13]), MixX(1, s[2], s[6], s[10], s[14]), MixX(1, s[3], s[7], s[11], s[15]),
                               MixX(2, s[0], s[4], s[8], s[12]), MixX(2, s[1], s[5], s[9], s[13]), MixX(2, s[2], s[6], s[10], s[14]), MixX(2, s[3], s[7], s[11], s[15]),
                               MixX(3, s[0], s[4], s[8], s[12]), MixX(3, s[1], s[5], s[9], s[13]), MixX(3, s[2], s[6], s[10], s[14]), MixX(3, s[3], s[7], s[11], s[15])]
  {
    hide Mix, MixX;
    MixIsX();
    var t := MixColumns(s);
    assert t[0] == MixX(0, s[0], s[4], s[8], s[12]) && t[1] == MixX(0, s[1], s[5], s[9], s[13]) && t[2] == MixX(0, s[2], s[6], s[10], s[14]) && t[3] == MixX(0, s[3], s[7], s[11], s[15]);
    assert t[4] == MixX(1, s[0], s[4], s[8], s[12]) && t[5] == MixX(1, s[1], s[5], s[9], s[13]) && t[6] == MixX(1, s[2], s[6], s[10], s[14]) && t[7] == MixX(1, s[3], s[7], s[11], s[15]);
    assert t[8] == MixX(2, s[0], s[4], s[8], s[12]) && t[9] == MixX(2, s[1], s[5], s[9], s[13]) && t[10] == MixX(2, s[2], s[6], s[10], s[14]) && t[11] == MixX(2, s[3], s[7], s[11], s[15]);
    assert t[12] == MixX(3, s[0], s[4], s[8], s[12]) && t[13] == MixX(3, s[1], s[5], s[9], s[13]) && t[14] == MixX(3, s[2], s[6], s[10], s[14]) && t[15] == MixX(3, s[3], s[7], s[11], s[15]);
    hide MixColumns;
    BlockListed(t);
  }

  lemma AddRoundKeyIs(s: Block, rk: RoundKeys, n: nat, w0: bv32, w1: bv32, w2: bv32, w3: bv32)
    requires n <= 14 && rk[4 * n] == w0 && rk[4 * n + 1] == w1 && rk[4 * n + 2] == w2 && rk[4 * n + 3] == w3
    ensures AddRoundKey(s, rk, n) == [Xor(s[0], KeyByte(w0, 0)), Xor(s[1], KeyByte(w1, 0)), Xor(s[2], KeyByte(w2, 0)), Xor(s[3], KeyByte(w3, 0)),
                                       Xor(s[4], KeyByte(w0, 1)), Xor(s[5], KeyByte(w1, 1)), Xor(s[6], KeyByte(w2, 1)), Xor(s[7], KeyByte(w3, 1)),
                                       Xor(s[8], KeyByte(w0, 2)), Xor(s[9], KeyByte(w1, 2)), Xor(s[10], KeyByte(w2, 2)), Xor(s[11], KeyByte(w3, 2)),
                                       Xor(s[12], KeyByte(w0, 3)), Xor(s[13], KeyByte(w1, 3)), Xor(s[14], KeyByte(w2, 3)), Xor(s[15], KeyByte(w3, 3))]
  {
    hide Xor, KeyByte, AddRoundKey;
    var t := AddRoundKey(s, rk, n);
    AddedRow(s, rk, n, 0, w0, w1, w2, w3);
    AddedRow(s, rk, n, 1, w0, w1, w2, w3);
    AddedRow(s, rk, n, 2, w0, w1, w2, w3);
    AddedRow(s, rk, n, 3, w0, w1, w2, w3);
    BlockListed(t);
  }

  lemma AddedRow(s: Block, rk: RoundKeys, n: nat, q: nat, w0: bv32, w1: bv32, w2: bv32, w3: bv32)
    requires n <= 14 && rk[4 * n] == w0 && rk[4 * n + 1] == w1 && rk[4 * n + 2] == w2 && rk[4 * n + 3] == w3 && q < 4
    ensures var t := AddRoundKey(s, rk, n);
            && t[4 * q] == Xor(s[4 * q], KeyByte(w0, q)) && t[4 * q + 1] == Xor(s[4 * q + 1], KeyByte(w1, q))
            && t[4 * q + 2] == Xor(s[4 * q + 2], KeyByte(w2, q)) && t[4 * q + 3] == Xor(s[4 * q + 3], KeyByte(w3, q))
  {
    hide Xor, KeyByte;
  }

  lemma BlockListed(t: Block)
    ensures t == [t[0], t[1], t[2], t[3], t[4], t[5], t[6], t[7], t[8], t[9], t[10], t[11], t[12], t[13], t[14], t[15]]
  { }

  lemma Shifted1()
    ensures ShiftRows(SubBytes(s0)) == c1
  {
    assert SBox(0x60) == 0xd0 && SBox(0x04) == 0xf2 && SBox(0x09) == 0x01 && SBox(0xb6) == 0x4e && SBox(0x79) == 0xb6 && SBox(0x9f) == 0xdb && SBox(0x15) == 0x59 && SBox(0x0a) == 0x67;
    assert SBox(0x63) == 0xfb && SBox(0xe8) == 0x9b && SBox(0x04) == 0xf2 && SBox(0xcc) == 0x4b && SBox(0xdc) == 0x86 && SBox(0x63) == 0xfb && SBox(0x1e) == 0x72 && SBox(0x7e) == 0xf3;
    hide SBox, SubBytes, ShiftRows;
    SubBytesIs(s0);
    ShiftRowsIs(SubBytes(s0));
  }

  lemma Mixed1()
    ensures MixColumns(c1) == d1
  {
    assert MixX(0, 0xd0, 0xb6, 0xfb, 0x86) == 0x07 && MixX(0, 0xdb, 0x9b, 0xfb, 0xf2) == 0x12 && MixX(0, 0xf2, 0x72, 0x01, 0x59) == 0x31 && MixX(0, 0xf3, 0x4e, 0x67, 0x4b) == 0x03;
    assert MixX(1, 0xd0, 0xb6, 0xfb, 0x86) == 0x37 && MixX(1, 0xdb, 0x9b, 0xfb, 0xf2) == 0x12 && MixX(1, 0xf2, 0x72, 0x01, 0x59) == 0x4c && MixX(1, 0xf3, 0x4e, 0x67, 0x4b) == 0x8d;
    assert MixX(2, 0xd0, 0xb6, 0xfb, 0x86) == 0x1a && MixX(2, 0xdb, 0x9b, 0xfb, 0xf2) == 0xa0 && MixX(2, 0xf2, 0x72, 0x01, 0x59) == 0x69 && MixX(2, 0xf3, 0x4e, 0x67, 0x4b) == 0xae;
    assert MixX(3, 0xd0, 0xb6, 0xfb, 0x86) == 0x31 && MixX(3, 0xdb, 0x9b, 0xfb, 0xf2) == 0xe9 && MixX(3, 0xf2, 0x72, 0x01, 0x59) == 0xcc && MixX(3, 0xf3, 0x4e, 0x67, 0x4b) == 0xb1;
    hide MixX, MixColumns;
    MixColumnsIs(c1);
  }

  lemma Shifted2()
    ensures ShiftRows(SubBytes(s1)) == c2
  {
    assert SBox(0x18) == 0xad && SBox(0x29) == 0xa5 && SBox(0x1c) == 0x9c && SBox(0x0a) == 0x67 && SBox(0x02) == 0x77 && SBox(0x73) == 0x8f && SBox(0xd4) == 0x48 && SBox(0x99) == 0xee;
    assert SBox(0x36) == 0x05 && SBox(0xa8) == 0xc2 && SBox(0x79) == 0xb6 && SBox(0x71) == 0xa3 && SBox(0x36) == 0x05 && SBox(0x3e) == 0xb2 && SBox(0x6f) == 0xa8 && SBox(0x45) == 0x6e;
    hide SBox, SubBytes, ShiftRows;
    SubBytesIs(s1);
    ShiftRowsIs(SubBytes(s1));
  }

  lemma Mixed2()
    ensures MixColumns(c2) == d2
  {
    assert MixX(0, 0xad, 0x77, 0x05, 0x05) == 0xd8 && MixX(0, 0x8f, 0xc2, 0xb2, 0xa5) == 0x4f && MixX(0, 0xb6, 0xa8, 0x9c, 0x48) == 0x40 && MixX(0, 0x6e, 0x67, 0xee, 0xa3) == 0x38;
    assert MixX(1, 0xad, 0x77, 0x05, 0x05) == 0x49 && MixX(1, 0x8f, 0xc2, 0xb2, 0xa5) == 0x78 && MixX(1, 0xb6, 0xa8, 0x9c, 0x48) == 0x0a && MixX(1, 0x6e, 0x67, 0xee, 0xa3) == 0x2a;
    assert MixX(2, 0xad, 0x77, 0x05, 0x05) == 0xdf && MixX(2, 0x8f, 0xc2, 0xb2, 0xa5) == 0xc6 && MixX(2, 0xb6, 0xa8, 0x9c, 0x48) == 0xe5 && MixX(2, 0x6e, 0x67, 0xee, 0xa3) == 0x30;
    assert MixX(3, 0xad, 0x77, 0x05, 0x05) == 0x94 && MixX(3, 0x8f, 0xc2, 0xb2, 0xa5) == 0xab && MixX(3, 0xb6, 0xa8, 0x9c, 0x48) == 0x65 && MixX(3, 0x6e, 0x67, 0xee, 0xa3) == 0x66;
    hide MixX, MixColumns;
    MixColumnsIs(c2);
  }

  lemma Shifted3()
    ensures ShiftRows(SubBytes(s2)) == c3
  {
    assert SBox(0x43) == 0x1a && SBox(0xc1) == 0x78 && SBox(0xe5) == 0xd9 && SBox(0x18) == 0xad && SBox(0xea) == 0x87 && SBox(0x11) == 0x82 && SBox(0x10) == 0xca && SBox(0x4d) == 0xe3;
    assert SBox(0x8b) == 0x3d && SBox(0xe3) == 0x11 && SBox(0x6e) == 0x9f && SBox(0xcc) == 0x4b && SBox(0x85) == 0x97 && SBox(0x04) == 0xf2 && SBox(0x3a) == 0x80 && SBox(0xb8) == 0x6c;
    hide SBox, SubBytes, ShiftRows;
    SubBytesIs(s2);
    ShiftRowsIs(SubBytes(s2));
  }

  lemma Mixed3()
    ensures MixColumns(c3) == d3
  {
    assert MixX(0, 0x1a, 0x87, 0x3d, 0x97) == 0x0c && MixX(0, 0x82, 0x11, 0xf2, 0x78) == 0xa6 && MixX(0, 0x9f, 0x80, 0xd9, 0xca) == 0xad && MixX(0, 0x6c, 0xad, 0xe3, 0x4b) == 0x9c;
    assert MixX(1, 0x1a, 0x87, 0x3d, 0x97) == 0xdf && MixX(1, 0x82, 0x11, 0xf2, 0x78) == 0xd5 && MixX(1, 0x9f, 0x80, 0xd9, 0xca) == 0x3e && MixX(1, 0x6c, 0xad, 0xe3, 0x4b) == 0x58;
    assert MixX(2, 0x1a, 0x87, 0x3d, 0x97) == 0x45 && MixX(2, 0x82, 0x11, 0xf2, 0x78) == 0xe4 && MixX(2, 0x9f, 0x80, 0xd9, 0xca) == 0xf3 && MixX(2, 0x6c, 0xad, 0xe3, 0x4b) == 0xc1;
    assert MixX(3, 0x1a, 0x87, 0x3d, 0x97) == 0xa1 && MixX(3, 0x82, 0x11, 0xf2, 0x78) == 0x8e && MixX(3, 0x9f, 0x80, 0xd9, 0xca) == 0x6c && MixX(3, 0x6c, 0xad, 0xe3, 0x4b) == 0x6c;
    hide MixX, MixColumns;
    MixColumnsIs(c3);
  }

  lemma Shifted4()
    ensures ShiftRows(SubBytes(s3)) == c4
  {
    assert SBox(0xa4) == 0x49 && SBox(0x35) == 0x96 && SBox(0x13) == 0x7d && SBox(0x2b) == 0xf1 && SBox(0x6f) == 0xa8 && SBox(0x04) == 0xf2 && SBox(0x77) == 0xf5 && SBox(0x05) == 0x6b;
    assert SBox(0xd9) == 0x35 && SBox(0x70) == 0x51 && SBox(0x77) == 0xf5 && SBox(0x9a) == 0xb8 && SBox(0xbb) == 0xea && SBox(0x43) == 0x1a && SBox(0x02) == 0x77 && SBox(0xf6) == 0x42;
    hide SBox, SubBytes, ShiftRows;
    SubBytesIs(s3);
    ShiftRowsIs(SubBytes(s3));
  }

  lemma Mixed4()
    ensures MixColumns(c4) == d4
  {
    assert MixX(0, 0x49, 0xa8, 0x35, 0xea) == 0xae && MixX(0, 0xf2, 0x51, 0x1a, 0x96) == 0x80 && MixX(0, 0xf5, 0x77, 0x7d, 0xf5) == 0xe0 && MixX(0, 0x42, 0xf1, 0x6b, 0xb8) == 0x5f;
    assert MixX(1, 0x49, 0xa8, 0x35, 0xea) == 0xb7 && MixX(1, 0xf2, 0x51, 0x1a, 0x96) == 0xe8 && MixX(1, 0xf5, 0x77, 0x7d, 0xf5) == 0x69 && MixX(1, 0x42, 0xf1, 0x6b, 0xb8) == 0xbe;
    assert MixX(2, 0x49, 0xa8, 0x35, 0xea) == 0xae && MixX(2, 0xf2, 0x51, 0x1a, 0x96) == 0x36 && MixX(2, 0xf5, 0x77, 0x7d, 0xf5) == 0x7c && MixX(2, 0x42, 0xf1, 0x6b, 0xb8) == 0xb6;
    assert MixX(3, 0x49, 0xa8, 0x35, 0xea) == 0x89 && MixX(3, 0xf2, 0x51, 0x1a, 0x96) == 0x71 && MixX(3, 0xf5, 0x77, 0x7d, 0xf5) == 0xff && MixX(3, 0x42, 0xf1, 0x6b, 0xb8) == 0x37;
    hide MixX, MixColumns;
    MixColumnsIs(c4);
  }

  lemma Shifted5()
    ensures ShiftRows(SubBytes(s4)) == c5
  {
    assert SBox(0x7b) == 0x21 && SBox(0xdb) == 0xb9 && SBox(0x1e) == 0x72 && SBox(0x81) == 0x0c && SBox(0x2d) == 0xd8 && SBox(0x1b) == 0xaf && SBox(0x80) == 0xcd && SBox(0x30) == 0x04;
    assert SBox(0x42) == 0x2c && SBox(0xff) == 0x16 && SBox(0x3e) == 0xb2 && SBox(0x08) == 0x30 && SBox(0x31) == 0xc7 && SBox(0x66) == 0x33 && SBox(0xb7) == 0xa9 && SBox(0xa1) == 0x32;
    hide SBox, SubBytes, ShiftRows;
    SubBytesIs(s4);
    ShiftRowsIs(SubBytes(s4));
  }

  lemma Mixed5()
    ensures MixColumns(c5) == d5
  {
    assert MixX(0, 0x21, 0xd8, 0x2c, 0xc7) == 0xda && MixX(0, 0xaf, 0x16, 0x33, 0xb9) == 0xf5 && MixX(0, 0xb2, 0xa9, 0x72, 0xcd) == 0x20 && MixX(0, 0x32, 0x0c, 0x04, 0x30) == 0x44;
    assert MixX(1, 0x21, 0xd8, 0x2c, 0xc7) == 0x39 && MixX(1, 0xaf, 0x16, 0x33, 0xb9) == 0x6f && MixX(1, 0xb2, 0xa9, 0x72, 0xcd) == 0xa0 && MixX(1, 0x32, 0x0c, 0x04, 0x30) == 0x16;
    assert MixX(2, 0x21, 0xd8, 0x2c, 0xc7) == 0xf3 && MixX(2, 0xaf, 0x16, 0x33, 0xb9) == 0x0f && MixX(2, 0xb2, 0xa9, 0x72, 0xcd) == 0xb3 && MixX(2, 0x32, 0x0c, 0x04, 0x30) == 0x66;
    assert MixX(3, 0x21, 0xd8, 0x2c, 0xc7) == 0x02 && MixX(3, 0xaf, 0x16, 0x33, 0xb9) == 0xa6 && MixX(3, 0xb2, 0xa9, 0x72, 0xcd) == 0x97 && MixX(3, 0x32, 0x0c, 0x04, 0x30) == 0x3e;
    hide MixX, MixColumns;
    MixColumnsIs(c5);
  }

  lemma Shifted6()
    ensures ShiftRows(SubBytes(s5)) == c6
  {
    assert SBox(0x6f) == 0xa8 && SBox(0xd3) == 0x66 && SBox(0xb8) == 0x6c && SBox(0x6b) == 0x7f && SBox(0x90) == 0x60 && SBox(0x17) == 0xf0 && SBox(0x91) == 0x81 && SBox(0x7a) == 0xda;
    assert SBox(0xc1) == 0x78 && SBox(0xa9) == 0xd3 && SBox(0x91) == 0x81 && SBox(0x1f) == 0xc0 && SBox(0x88) == 0xc4 && SBox(0xe1) == 0xf8 && SBox(0xbe) == 0xae && SBox(0x8d) == 0x5d;
    hide SBox, SubBytes, ShiftRows;
    SubBytesIs(s5);
    ShiftRowsIs(SubBytes(s5));
  }

  lemma Mixed6()
    ensures MixColumns(c6) == d6
  {
    assert MixX(0, 0xa8, 0x60, 0x78, 0xc4) == 0x57 && MixX(0, 0xf0, 0xd3, 0xf8, 0x66) == 0x0b && MixX(0, 0x81, 0xae, 0x6c, 0x81) == 0x1d && MixX(0, 0x5d, 0x7f, 0xda, 0xc0) == 0x21;
    assert MixX(1, 0xa8, 0x60, 0x78, 0xc4) == 0x24 && MixX(1, 0xf0, 0xd3, 0xf8, 0x66) == 0x38 && MixX(1, 0x81, 0xae, 0x6c, 0x81) == 0xf3 && MixX(1, 0x5d, 0x7f, 0xda, 0xc0) == 0x16;
    assert MixX(2, 0xa8, 0x60, 0x78, 0xc4) == 0x6f && MixX(2, 0xf0, 0xd3, 0xf8, 0x66) == 0x62 && MixX(2, 0x81, 0xae, 0x6c, 0x81) == 0x6f && MixX(2, 0x5d, 0x7f, 0xda, 0xc0) == 0xd6;
    assert MixX(3, 0xa8, 0x60, 0x78, 0xc4) == 0x68 && MixX(3, 0xf0, 0xd3, 0xf8, 0x66) == 0xec && MixX(3, 0x81, 0xae, 0x6c, 0x81) == 0x43 && MixX(3, 0x5d, 0x7f, 0xda, 0xc0) == 0xd9;
    hide MixX, MixColumns;
    MixColumnsIs(c6);
  }

  lemma Shifted7()
    ensures ShiftRows(SubBytes(s6)) == c7
  {
    assert SBox(0xd6) == 0xf6 && SBox(0xd1) == 0x3e && SBox(0x39) == 0x12 && SBox(0xdb) == 0xb9 && SBox(0x08) == 0x30 && SBox(0xe7) == 0x94 && SBox(0xc5) == 0xa6 && SBox(0xae) == 0xe4;
    assert SBox(0xee) == 0x28 && SBox(0x2a) == 0xe5 && SBox(0x65) == 0x4d && SBox(0x62) == 0xaa && SBox(0xc5) == 0xa6 && SBox(0x56) == 0xb1 && SBox(0xb1) == 0xc8 && SBox(0xbd) == 0x7a;
    hide SBox, SubBytes, ShiftRows;
    SubBytesIs(s6);
    ShiftRowsIs(SubBytes(s6));
  }

  lemma Mixed7()
    ensures MixColumns(c7) == d7
  {
    assert MixX(0, 0xf6, 0x30, 0x28, 0xa6) == 0x29 && MixX(0, 0x94, 0xe5, 0xb1, 0x3e) == 0x88 && MixX(0, 0x4d, 0xc8, 0x12, 0xa6) == 0x6d && MixX(0, 0x7a, 0xb9, 0xe4, 0xaa) == 0x6a;
    assert MixX(1, 0xf6, 0x30, 0x28, 0xa6) == 0x48 && MixX(1, 0x94, 0xe5, 0xb1, 0x3e) == 0xb3 && MixX(1, 0x4d, 0xc8, 0x12, 0xa6) == 0x56 && MixX(1, 0x7a, 0xb9, 0xe4, 0xaa) == 0x8e;
    assert MixX(2, 0xf6, 0x30, 0x28, 0xa6) == 0x67 && MixX(2, 0x94, 0xe5, 0xb1, 0x3e) == 0x4a && MixX(2, 0x4d, 0xc8, 0x12, 0xa6) == 0x50 && MixX(2, 0x7a, 0xb9, 0xe4, 0xaa) == 0xf5;
    assert MixX(3, 0xf6, 0x30, 0x28, 0xa6) == 0x4e && MixX(3, 0x94, 0xe5, 0xb1, 0x3e) == 0x8f && MixX(3, 0x4d, 0xc8, 0x12, 0xa6) == 0x5a && MixX(3, 0x7a, 0xb9, 0xe4, 0xaa) == 0x9c;
    hide MixX, MixColumns;
    MixColumnsIs(c7);
  }

  lemma Shifted8()
    ensures ShiftRows(SubBytes(s7)) == c8
  {
    assert SBox(0xb1) == 0xc8 && SBox(0x36) == 0x05 && SBox(0x4b) == 0xb3 && SBox(0x63) == 0xfb && SBox(0x8d) == 0x5d && SBox(0x0e) == 0xab && SBox(0xda) == 0x57 && SBox(0x6e) == 0x9f;
    assert SBox(0xd8) == 0x61 && SBox(0x53) == 0xed && SBox(0x6b) == 0x7f && SBox(0xb7) == 0xa9 && SBox(0x87) == 0x17 && SBox(0x01) == 0x7c && SBox(0xfd) == 0x54 && SBox(0x88) == 0xc4;
    hide SBox, SubBytes, ShiftRows;
    SubBytesIs(s7);
    ShiftRowsIs(SubBytes(s7));
  }

  lemma Mixed8()
    ensures MixColumns(c8) == d8
  {
    assert MixX(0, 0xc8, 0x5d, 0x61, 0x17) == 0x1a && MixX(0, 0xab, 0xed, 0x7c, 0x05) == 0x18 && MixX(0, 0x7f, 0x54, 0xb3, 0x57) == 0xe6 && MixX(0, 0xc4, 0xfb, 0x9f, 0xa9) == 0xb3;
    assert MixX(1, 0xc8, 0x5d, 0x61, 0x17) == 0xc6 && MixX(1, 0xab, 0xed, 0x7c, 0x05) == 0xeb && MixX(1, 0x7f, 0x54, 0xb3, 0x57) == 0x4e && MixX(1, 0xc4, 0xfb, 0x9f, 0xa9) == 0x3a;
    assert MixX(2, 0xc8, 0x5d, 0x61, 0x17) == 0x6e && MixX(2, 0xab, 0xed, 0x7c, 0x05) == 0xb1 && MixX(2, 0x7f, 0x54, 0xb3, 0x57) == 0xaf && MixX(2, 0xc4, 0xfb, 0x9f, 0xa9) == 0xfa;
    assert MixX(3, 0xc8, 0x5d, 0x61, 0x17) == 0x51 && MixX(3, 0xab, 0xed, 0x7c, 0x05) == 0x7d && MixX(3, 0x7f, 0x54, 0xb3, 0x57) == 0xc8 && MixX(3, 0xc4, 0xfb, 0x9f, 0xa9) == 0x7a;
    hide MixX, MixColumns;
    MixColumnsIs(c8);
  }

  lemma Shifted9()
    ensures ShiftRows(SubBytes(s8)) == c9
  {
    assert SBox(0x72) == 0x40 && SBox(0xaa) == 0xac && SBox(0x70) == 0x51 && SBox(0xdf) == 0x9e && SBox(0xc6) == 0xb4 && SBox(0x34) == 0x18 && SBox(0xa7) == 0x5c && SBox(0x6b) == 0x7f;
    assert SBox(0x15) == 0x59 && SBox(0x82) == 0x13 && SBox(0x96) == 0x90 && SBox(0x77) == 0xf5 && SBox(0xfd) == 0x54 && SBox(0x6b) == 0x7f && SBox(0x2c) == 0x71 && SBox(0xfa) == 0x2d;
    hide SBox, SubBytes, ShiftRows;
    SubBytesIs(s8);
    ShiftRowsIs(SubBytes(s8));
  }

  lemma Mixed9()
    ensures MixColumns(c9) == d9
  {
    assert MixX(0, 0x40, 0xb4, 0x59, 0x54) == 0x4a && MixX(0, 0x18, 0x13, 0x7f, 0xac) == 0xd6 && MixX(0, 0x90, 0x71, 0x51, 0x5c) == 0xa5 && MixX(0, 0x2d, 0x9e, 0x7f, 0xf5) == 0x69;
    assert MixX(1, 0x40, 0xb4, 0x59, 0x54) == 0x8c && MixX(1, 0x18, 0x13, 0x7f, 0xac) == 0x13 && MixX(1, 0x90, 0x71, 0x51, 0x5c) == 0xdd && MixX(1, 0x2d, 0x9e, 0x7f, 0xf5) == 0x7e;
    assert MixX(2, 0x40, 0xb4, 0x59, 0x54) == 0xba && MixX(2, 0x18, 0x13, 0x7f, 0xac) == 0x1a && MixX(2, 0x90, 0x71, 0x51, 0x5c) == 0xa7 && MixX(2, 0x2d, 0x9e, 0x7f, 0xf5) == 0x49;
    assert MixX(3, 0x40, 0xb4, 0x59, 0x54) == 0x85 && MixX(3, 0x18, 0x13, 0x7f, 0xac) == 0x07 && MixX(3, 0x90, 0x71, 0x51, 0x5c) == 0x33 && MixX(3, 0x2d, 0x9e, 0x7f, 0xf5) == 0x67;
    hide MixX, MixColumns;
    MixColumnsIs(c9);
  }

  lemma Shifted10()
    ensures ShiftRows(SubBytes(s9)) == c10
  {
    assert SBox(0x82) == 0x13 && SBox(0xa0) == 0xe0 && SBox(0xf5) == 0xe6 && SBox(0x30) == 0x04 && SBox(0x98) == 0x46 && SBox(0xba) == 0xf4 && SBox(0xf8) == 0x41 && SBox(0xbb) == 0xea;
    assert SBox(0x58) == 0x6a && SBox(0xe1) == 0xf8 && SBox(0x67) == 0x85 && SBox(0xcb) == 0x1f && SBox(0x81) == 0x0c && SBox(0x8d) == 0x5d && SBox(0x1e) == 0x72 && SBox(0x5e) == 0x58;
    hide SBox, SubBytes, ShiftRows;
    SubBytesIs(s9);
    ShiftRowsIs(SubBytes(s9));
  }

  lemma Mixed10()
    ensures MixColumns(c10) == d10
  {
    assert MixX(0, 0x13, 0x46, 0x6a, 0x0c) == 0x8a && MixX(0, 0xf4, 0xf8, 0x5d, 0xe0) == 0x5d && MixX(0, 0x85, 0x72, 0xe6, 0x41) == 0x20 && MixX(0, 0x58, 0x04, 0xea, 0x1f) == 0x49;
    assert MixX(1, 0x13, 0x46, 0x6a, 0x0c) == 0x2d && MixX(1, 0xf4, 0xf8, 0x5d, 0xe0) == 0x18 && MixX(1, 0x85, 0x72, 0xe6, 0x41) == 0x11 && MixX(1, 0x58, 0x04, 0xea, 0x1f) == 0x6a;
    assert MixX(2, 0x13, 0x46, 0x6a, 0x0c) == 0x95 && MixX(2, 0xf4, 0xf8, 0x5d, 0xe0) == 0x8d && MixX(2, 0x85, 0x72, 0xe6, 0x41) == 0xe3 && MixX(2, 0x58, 0x04, 0xea, 0x1f) == 0xb2;
    assert MixX(3, 0x13, 0x46, 0x6a, 0x0c) == 0x01 && MixX(3, 0xf4, 0xf8, 0x5d, 0xe0) == 0x79 && MixX(3, 0x85, 0x72, 0xe6, 0x41) == 0x82 && MixX(3, 0x58, 0x04, 0xea, 0x1f) == 0x38;
    hide MixX, MixColumns;
    MixColumnsIs(c10);
  }

  lemma Shifted11()
    ensures ShiftRows(SubBytes(s10)) == c11
  {
    assert SBox(0x54) == 0x20 && SBox(0x31) == 0xc7 && SBox(0xda) == 0x57 && SBox(0xdf) == 0x9e && SBox(0x3e) == 0xb2 && SBox(0xd4) == 0x48 && SBox(0x34) == 0x18 && SBox(0x1e) == 0x72;
    assert SBox(0xfc) == 0xb0 && SBox(0xd7) == 0x0e && SBox(0x80) == 0xcd && SBox(0x5c) == 0x4a && SBox(0x66) == 0x33 && SBox(0x08) == 0x30 && SBox(0x17) == 0xf0 && SBox(0x2d) == 0xd8;
    hide SBox, SubBytes, ShiftRows;
    SubBytesIs(s10);
    ShiftRowsIs(SubBytes(s10));
  }

  lemma Mixed11()
    ensures MixColumns(c11) == d11
  {
    assert MixX(0, 0x20, 0xb2, 0xb0, 0x33) == 0x0e && MixX(0, 0x48, 0x0e, 0x30, 0xc7) == 0x75 && MixX(0, 0xcd, 0xf0, 0x57, 0x18) == 0xc5 && MixX(0, 0xd8, 0x9e, 0x72, 0x4a) == 0x2a;
    assert MixX(1, 0x20, 0xb2, 0xb0, 0x33) == 0xa7 && MixX(1, 0x48, 0x0e, 0x30, 0xc7) == 0xc3 && MixX(1, 0xcd, 0xf0, 0x57, 0x18) == 0xd7 && MixX(1, 0xd8, 0x9e, 0x72, 0x4a) == 0x23;
    assert MixX(2, 0x20, 0xb2, 0xb0, 0x33) == 0xbc && MixX(2, 0x48, 0x0e, 0x30, 0xc7) == 0x74 && MixX(2, 0xcd, 0xf0, 0x57, 0x18) == 0xbb && MixX(2, 0xd8, 0x9e, 0x72, 0x4a) == 0x7c;
    assert MixX(3, 0x20, 0xb2, 0xb0, 0x33) == 0x04 && MixX(3, 0x48, 0x0e, 0x30, 0xc7) == 0x73 && MixX(3, 0xcd, 0xf0, 0x57, 0x18) == 0xdb && MixX(3, 0xd8, 0x9e, 0x72, 0x4a) == 0x0b;
    hide MixX, MixColumns;
    MixColumnsIs(c11);
  }

  lemma Shifted12()
    ensures ShiftRows(SubBytes(s11)) == c12
  {
    assert SBox(0x56) == 0xb1 && SBox(0x5b) == 0x39 && SBox(0xbb) == 0xea && SBox(0x0d) == 0xd7 && SBox(0x21) == 0xfd && SBox(0xec) == 0xce && SBox(0xdd) == 0xc1 && SBox(0xec) == 0xce;
    assert SBox(0x76) == 0x38 && SBox(0x45) == 0x6e && SBox(0x4a) == 0xd6 && SBox(0x0f) == 0x76 && SBox(0x59) == 0xcb && SBox(0xa4) == 0x49 && SBox(0x21) == 0xfd && SBox(0xc8) == 0xe8;
    hide SBox, SubBytes, ShiftRows;
    SubBytesIs(s11);
    ShiftRowsIs(SubBytes(s11));
  }

  lemma Mixed12()
    ensures MixColumns(c12) == d12
  {
    assert MixX(0, 0xb1, 0xfd, 0x38, 0xcb) == 0x96 && MixX(0, 0xce, 0x6e, 0x49, 0x39) == 0x45 && MixX(0, 0xd6, 0xfd, 0xea, 0xc1) == 0x80 && MixX(0, 0xe8, 0xd7, 0xce, 0x76) == 0x11;
    assert MixX(1, 0xb1, 0xfd, 0x38, 0xcb) == 0xd3 && MixX(1, 0xce, 0x6e, 0x49, 0x39) == 0xf0 && MixX(1, 0xd6, 0xfd, 0xea, 0xc1) == 0xd3 && MixX(1, 0xe8, 0xd7, 0xce, 0x76) == 0x62;
    assert MixX(2, 0xb1, 0xfd, 0x38, 0xcb) == 0x7a && MixX(2, 0xce, 0x6e, 0x49, 0x39) == 0x79 && MixX(2, 0xd6, 0xfd, 0xea, 0xc1) == 0xbc && MixX(2, 0xe8, 0xd7, 0xce, 0x76) == 0x22;
    assert MixX(3, 0xb1, 0xfd, 0x38, 0xcb) == 0x80 && MixX(3, 0xce, 0x6e, 0x49, 0x39) == 0x1c && MixX(3, 0xd6, 0xfd, 0xea, 0xc1) == 0xef && MixX(3, 0xe8, 0xd7, 0xce, 0x76) == 0xd6;
    hide MixX, MixColumns;
    MixColumnsIs(c12);
  }

  lemma Shifted13()
    ensures ShiftRows(SubBytes(s12)) == c13
  {
    assert SBox(0xe2) == 0x98 && SBox(0x5d) == 0x4c && SBox(0x62) == 0xaa && SBox(0x65) == 0x4d && SBox(0x4f) == 0x84 && SBox(0xa0) == 0xe0 && SBox(0xa6) == 0x24 && SBox(0x63) == 0xfb;
    assert SBox(0x3d) == 0x27 && SBox(0x64) == 0x43 && SBox(0xc2) == 0x25 && SBox(0xb2) == 0x37 && SBox(0x2b) == 0xf1 && SBox(0xc6) == 0xb4 && SBox(0xa0) == 0xe0 && SBox(0x8c) == 0x64;
    hide SBox, SubBytes, ShiftRows;
    SubBytesIs(s12);
    ShiftRowsIs(SubBytes(s12));
  }

  lemma Mixed13()
    ensures MixColumns(c13) == d13
  {
    assert MixX(0, 0x98, 0x84, 0x27, 0xf1) == 0x6a && MixX(0, 0xe0, 0x43, 0xb4, 0x4c) == 0xe6 && MixX(0, 0x25, 0xe0, 0xaa, 0x24) == 0xff && MixX(0, 0x64, 0x4d, 0xfb, 0x37) == 0xd3;
    assert MixX(1, 0x98, 0x84, 0x27, 0xf1) == 0x13 && MixX(1, 0xe0, 0x43, 0xb4, 0x4c) == 0xed && MixX(1, 0x25, 0xe0, 0xaa, 0x24) == 0x3f && MixX(1, 0x64, 0x4d, 0xfb, 0x37) == 0xdf;
    assert MixX(2, 0x98, 0x84, 0x27, 0xf1) == 0x5a && MixX(2, 0xe0, 0x43, 0xb4, 0x4c) == 0x04 && MixX(2, 0x25, 0xe0, 0xaa, 0x24) == 0xe6 && MixX(2, 0x64, 0x4d, 0xfb, 0x37) == 0x9d;
    assert MixX(3, 0x98, 0x84, 0x27, 0xf1) == 0xe9 && MixX(3, 0xe0, 0x43, 0xb4, 0x4c) == 0x54 && MixX(3, 0x25, 0xe0, 0xaa, 0x24) == 0x6d && MixX(3, 0x64, 0x4d, 0xfb, 0x37) == 0x74;
    hide MixX, MixColumns;
    MixColumnsIs(c13);
  }

  lemma Shifted14()
    ensures ShiftRows(SubBytes(s13)) == c14
  {
    assert SBox(0xa0) == 0xe0 && SBox(0x02) == 0x77 && SBox(0x65) == 0x4d && SBox(0x6e) == 0x9f && SBox(0xe9) == 0x1e && SBox(0x38) == 0x07 && SBox(0xe0) == 0xe1 && SBox(0xcf) == 0x8a;
    assert SBox(0xf0) == 0x8c && SBox(0x9f) == 0xdb && SBox(0x8c) == 0x64 && SBox(0x84) == 0x5f && SBox(0x0a) == 0x67 && SBox(0x60) == 0xd0 && SBox(0xa3) == 0x0a && SBox(0x79) == 0xb6;
    hide SBox, SubBytes, ShiftRows;
    SubBytesIs(s13);
    ShiftRowsIs(SubBytes(s13));
  }

  lemma Keyed0(rk: RoundKeys)
    requires rk[0] == k0 && rk[1] == k1 && rk[2] == k2 && rk[3] == k3
    ensures AddRoundKey(x, rk, 0) == s0
  {
    assert KeyByte(k0, 0) == 0x60 && KeyByte(k1, 0) == 0x15 && KeyByte(k2, 0) == 0x2b && KeyByte(k3, 0) == 0x85;
    assert KeyByte(k0, 1) == 0x3d && KeyByte(k1, 1) == 0xca && KeyByte(k2, 1) == 0x73 && KeyByte(k3, 1) == 0x7d;
    assert KeyByte(k0, 2) == 0xeb && KeyByte(k1, 2) == 0x71 && KeyByte(k2, 2) == 0xae && KeyByte(k3, 2) == 0x77;
    assert KeyByte(k0, 3) == 0x10 && KeyByte(k1, 3) == 0xbe && KeyByte(k2, 3) == 0xf0 && KeyByte(k3, 3) == 0x81;
    hide KeyByte, AddRoundKey;
    AddRoundKeyIs(x, rk, 0, k0, k1, k2, k3);
  }

  lemma Keyed1(rk: RoundKeys)
    requires rk[4] == k4 && rk[5] == k5 && rk[6] == k6 && rk[7] == k7
    ensures AddRoundKey(d1, rk, 1) == s1
  {
    assert KeyByte(k4, 0) == 0x1f && KeyByte(k5, 0) == 0x3b && KeyByte(k6, 0) == 0x2d && KeyByte(k7, 0) == 0x09;
    assert KeyByte(k4, 1) == 0x35 && KeyByte(k5, 1) == 0x61 && KeyByte(k6, 1) == 0x98 && KeyByte(k7, 1) == 0x14;
    assert KeyByte(k4, 2) == 0x2c && KeyByte(k5, 2) == 0x08 && KeyByte(k6, 2) == 0x10 && KeyByte(k7, 2) == 0xdf;
    assert KeyByte(k4, 3) == 0x07 && KeyByte(k5, 3) == 0xd7 && KeyByte(k6, 3) == 0xa3 && KeyByte(k7, 3) == 0xf4;
    hide KeyByte, AddRoundKey;
    AddRoundKeyIs(d1, rk, 1, k4, k5, k6, k7);
  }

  lemma Keyed2(rk: RoundKeys)
    requires rk[8] == k8 && rk[9] == k9 && rk[10] == k10 && rk[11] == k11
    ensures AddRoundKey(d2, rk, 2) == s2
  {
    assert KeyByte(k8, 0) == 0x9b && KeyByte(k9, 0) == 0x8e && KeyByte(k10, 0) == 0xa5 && KeyByte(k11, 0) == 0x20;
    assert KeyByte(k8, 1) == 0xa3 && KeyByte(k9, 1) == 0x69 && KeyByte(k10, 1) == 0x1a && KeyByte(k11, 1) == 0x67;
    assert KeyByte(k8, 2) == 0x54 && KeyByte(k9, 2) == 0x25 && KeyByte(k10, 2) == 0x8b && KeyByte(k11, 2) == 0xfc;
    assert KeyByte(k8, 3) == 0x11 && KeyByte(k9, 3) == 0xaf && KeyByte(k10, 3) == 0x5f && KeyByte(k11, 3) == 0xde;
    hide KeyByte, AddRoundKey;
    AddRoundKeyIs(d2, rk, 2, k8, k9, k10, k11);
  }

  lemma Keyed3(rk: RoundKeys)
    requires rk[12] == k12 && rk[13] == k13 && rk[14] == k14 && rk[15] == k15
    ensures AddRoundKey(d3, rk, 3) == s3
  {
    assert KeyByte(k12, 0) == 0xa8 && KeyByte(k13, 0) == 0x93 && KeyByte(k14, 0) == 0xbe && KeyByte(k15, 0) == 0xb7;
    assert KeyByte(k12, 1) == 0xb0 && KeyByte(k13, 1) == 0xd1 && KeyByte(k14, 1) == 0x49 && KeyByte(k15, 1) == 0x5d;
    assert KeyByte(k12, 2) == 0x9c && KeyByte(k13, 2) == 0x94 && KeyByte(k14, 2) == 0x84 && KeyByte(k15, 2) == 0x5b;
    assert KeyByte(k12, 3) == 0x1a && KeyByte(k13, 3) == 0xcd && KeyByte(k14, 3) == 0x6e && KeyByte(k15, 3) == 0x9a;
    hide KeyByte, AddRoundKey;
    AddRoundKeyIs(d3, rk, 3, k12, k13, k14, k15);
  }

  lemma Keyed4(rk: RoundKeys)
    requires rk[16] == k16 && rk[17] == k17 && rk[18] == k18 && rk[19] == k19
    ensures AddRoundKey(d4, rk, 4) == s4
  {
    assert KeyByte(k16, 0) == 0xd5 && KeyByte(k17, 0) == 0x5b && KeyByte(k18, 0) == 0xfe && KeyByte(k19, 0) == 0xde;
    assert KeyByte(k16, 1) == 0x9a && KeyByte(k17, 1) == 0xf3 && KeyByte(k18, 1) == 0xe9 && KeyByte(k19, 1) == 0x8e;
    assert KeyByte(k16, 2) == 0xec && KeyByte(k17, 2) == 0xc9 && KeyByte(k18, 2) == 0x42 && KeyByte(k19, 2) == 0xbe;
    assert KeyByte(k16, 3) == 0xb8 && KeyByte(k17, 3) == 0x17 && KeyByte(k18, 3) == 0x48 && KeyByte(k19, 3) == 0x96;
    hide KeyByte, AddRoundKey;
    AddRoundKeyIs(d4, rk, 4, k16, k17, k18, k19);
  }

  lemma Keyed5(rk: RoundKeys)
    requires rk[20] == k20 && rk[21] == k21 && rk[22] == k22 && rk[23] == k23
    ensures AddRoundKey(d5, rk, 5) == s5
  {
    assert KeyByte(k20, 0) == 0xb5 && KeyByte(k21, 0) == 0x26 && KeyByte(k22, 0) == 0x98 && KeyByte(k23, 0) == 0x2f;
    assert KeyByte(k20, 1) == 0xa9 && KeyByte(k21, 1) == 0x78 && KeyByte(k22, 1) == 0x31 && KeyByte(k23, 1) == 0x6c;
    assert KeyByte(k20, 2) == 0x32 && KeyByte(k21, 2) == 0xa6 && KeyByte(k22, 2) == 0x22 && KeyByte(k23, 2) == 0x79;
    assert KeyByte(k20, 3) == 0x8a && KeyByte(k21, 3) == 0x47 && KeyByte(k22, 3) == 0x29 && KeyByte(k23, 3) == 0xb3;
    hide KeyByte, AddRoundKey;
    AddRoundKeyIs(d5, rk, 5, k20, k21, k22, k23);
  }

  lemma Keyed6(rk: RoundKeys)
    requires rk[24] == k24 && rk[25] == k25 && rk[26] == k26 && rk[27] == k27
    ensures AddRoundKey(d6, rk, 6) == s6
  {
    assert KeyByte(k24, 0) == 0x81 && KeyByte(k25, 0) == 0xda && KeyByte(k26, 0) == 0x24 && KeyByte(k27, 0) == 0xfa;
    assert KeyByte(k24, 1) == 0x2c && KeyByte(k25, 1) == 0xdf && KeyByte(k26, 1) == 0x36 && KeyByte(k27, 1) == 0xb8;
    assert KeyByte(k24, 2) == 0x81 && KeyByte(k25, 2) == 0x48 && KeyByte(k26, 2) == 0x0a && KeyByte(k27, 2) == 0xb4;
    assert KeyByte(k24, 3) == 0xad && KeyByte(k25, 3) == 0xba && KeyByte(k26, 3) == 0xf2 && KeyByte(k27, 3) == 0x64;
    hide KeyByte, AddRoundKey;
    AddRoundKeyIs(d6, rk, 6, k24, k25, k26, k27);
  }

  lemma Keyed7(rk: RoundKeys)
    requires rk[28] == k28 && rk[29] == k29 && rk[30] == k30 && rk[31] == k31
    ensures AddRoundKey(d7, rk, 7) == s7
  {
    assert KeyByte(k28, 0) == 0x98 && KeyByte(k29, 0) == 0xbe && KeyByte(k30, 0) == 0x26 && KeyByte(k31, 0) == 0x09;
    assert KeyByte(k28, 1) == 0xc5 && KeyByte(k29, 1) == 0xbd && KeyByte(k30, 1) == 0x8c && KeyByte(k31, 1) == 0xe0;
    assert KeyByte(k28, 2) == 0xbf && KeyByte(k29, 2) == 0x19 && KeyByte(k30, 2) == 0x3b && KeyByte(k31, 2) == 0x42;
    assert KeyByte(k28, 3) == 0xc9 && KeyByte(k29, 3) == 0x8e && KeyByte(k30, 3) == 0xa7 && KeyByte(k31, 3) == 0x14;
    hide KeyByte, AddRoundKey;
    AddRoundKeyIs(d7, rk, 7, k28, k29, k30, k31);
  }

  lemma Keyed8(rk: RoundKeys)
    requires rk[32] == k32 && rk[33] == k33 && rk[34] == k34 && rk[35] == k35
    ensures AddRoundKey(d8, rk, 8) == s8
  {
    assert KeyByte(k32, 0) == 0x68 && KeyByte(k33, 0) == 0xb2 && KeyByte(k34, 0) == 0x96 && KeyByte(k35, 0) == 0x6c;
    assert KeyByte(k32, 1) == 0x00 && KeyByte(k33, 1) == 0xdf && KeyByte(k34, 1) == 0xe9 && KeyByte(k35, 1) == 0x51;
    assert KeyByte(k32, 2) == 0x7b && KeyByte(k33, 2) == 0x33 && KeyByte(k34, 2) == 0x39 && KeyByte(k35, 2) == 0x8d;
    assert KeyByte(k32, 3) == 0xac && KeyByte(k33, 3) == 0x16 && KeyByte(k34, 3) == 0xe4 && KeyByte(k35, 3) == 0x80;
    hide KeyByte, AddRoundKey;
    AddRoundKeyIs(d8, rk, 8, k32, k33, k34, k35);
  }

  lemma Keyed9(rk: RoundKeys)
    requires rk[36] == k36 && rk[37] == k37 && rk[38] == k38 && rk[39] == k39
    ensures AddRoundKey(d9, rk, 9) == s9
  {
    assert KeyByte(k36, 0) == 0xc8 && KeyByte(k37, 0) == 0x76 && KeyByte(k38, 0) == 0x50 && KeyByte(k39, 0) == 0x59;
    assert KeyByte(k36, 1) == 0x14 && KeyByte(k37, 1) == 0xa9 && KeyByte(k38, 1) == 0x25 && KeyByte(k39, 1) == 0xc5;
    assert KeyByte(k36, 2) == 0xe2 && KeyByte(k37, 2) == 0xfb && KeyByte(k38, 2) == 0xc0 && KeyByte(k39, 2) == 0x82;
    assert KeyByte(k36, 3) == 0x04 && KeyByte(k37, 3) == 0x8a && KeyByte(k38, 3) == 0x2d && KeyByte(k39, 3) == 0x39;
    hide KeyByte, AddRoundKey;
    AddRoundKeyIs(d9, rk, 9, k36, k37, k38, k39);
  }

  lemma Keyed10(rk: RoundKeys)
    requires rk[40] == k40 && rk[41] == k41 && rk[42] == k42 && rk[43] == k43
    ensures AddRoundKey(d10, rk, 10) == s10
  {
    assert KeyByte(k40, 0) == 0xde && KeyByte(k41, 0) == 0x6c && KeyByte(k42, 0) == 0xfa && KeyByte(k43, 0) == 0x96;
    assert KeyByte(k40, 1) == 0x13 && KeyByte(k41, 1) == 0xcc && KeyByte(k42, 1) == 0x25 && KeyByte(k43, 1) == 0x74;
    assert KeyByte(k40, 2) == 0x69 && KeyByte(k41, 2) == 0x5a && KeyByte(k42, 2) == 0x63 && KeyByte(k43, 2) == 0xee;
    assert KeyByte(k40, 3) == 0x67 && KeyByte(k41, 3) == 0x71 && KeyByte(k42, 3) == 0x95 && KeyByte(k43, 3) == 0x15;
    hide KeyByte, AddRoundKey;
    AddRoundKeyIs(d10, rk, 10, k40, k41, k42, k43);
  }

  lemma Keyed11(rk: RoundKeys)
    requires rk[44] == k44 && rk[45] == k45 && rk[46] == k46 && rk[47] == k47
    ensures AddRoundKey(d11, rk, 11) == s11
  {
    assert KeyByte(k44, 0) == 0x58 && KeyByte(k45, 0) == 0x2e && KeyByte(k46, 0) == 0x7e && KeyByte(k47, 0) == 0x27;
    assert KeyByte(k44, 1) == 0x86 && KeyByte(k45, 1) == 0x2f && KeyByte(k46, 1) == 0x0a && KeyByte(k47, 1) == 0xcf;
    assert KeyByte(k44, 2) == 0xca && KeyByte(k45, 2) == 0x31 && KeyByte(k46, 2) == 0xf1 && KeyByte(k47, 2) == 0x73;
    assert KeyByte(k44, 3) == 0x5d && KeyByte(k45, 3) == 0xd7 && KeyByte(k46, 3) == 0xfa && KeyByte(k47, 3) == 0xc3;
    hide KeyByte, AddRoundKey;
    AddRoundKeyIs(d11, rk, 11, k44, k45, k46, k47);
  }

  lemma Keyed12(rk: RoundKeys)
    requires rk[48] == k48 && rk[49] == k49 && rk[50] == k50 && rk[51] == k51
    ensures AddRoundKey(d12, rk, 12) == s12
  {
    assert KeyByte(k48, 0) == 0x74 && KeyByte(k49, 0) == 0x18 && KeyByte(k50, 0) == 0xe2 && KeyByte(k51, 0) == 0x74;
    assert KeyByte(k48, 1) == 0x9c && KeyByte(k49, 1) == 0x50 && KeyByte(k50, 1) == 0x75 && KeyByte(k51, 1) == 0x01;
    assert KeyByte(k48, 2) == 0x47 && KeyByte(k49, 2) == 0x1d && KeyByte(k50, 2) == 0x7e && KeyByte(k51, 2) == 0x90;
    assert KeyByte(k48, 3) == 0xab && KeyByte(k49, 3) == 0xda && KeyByte(k50, 3) == 0x4f && KeyByte(k51, 3) == 0x5a;
    hide KeyByte, AddRoundKey;
    AddRoundKeyIs(d12, rk, 12, k48, k49, k50, k51);
  }

  lemma Keyed13(rk: RoundKeys)
    requires rk[52] == k52 && rk[53] == k53 && rk[54] == k54 && rk[55] == k55
    ensures AddRoundKey(d13, rk, 13) == s13
  {
    assert KeyByte(k52, 0) == 0xca && KeyByte(k53, 0) == 0xe4 && KeyByte(k54, 0) == 0x9a && KeyByte(k55, 0) == 0xbd;
    assert KeyByte(k52, 1) == 0xfa && KeyByte(k53, 1) == 0xd5 && KeyByte(k54, 1) == 0xdf && KeyByte(k55, 1) == 0x10;
    assert KeyByte(k52, 2) == 0xaa && KeyByte(k53, 2) == 0x9b && KeyByte(k54, 2) == 0x6a && KeyByte(k55, 2) == 0x19;
    assert KeyByte(k52, 3) == 0xe3 && KeyByte(k53, 3) == 0x34 && KeyByte(k54, 3) == 0xce && KeyByte(k55, 3) == 0x0d;
    hide KeyByte, AddRoundKey;
    AddRoundKeyIs(d13, rk, 13, k52, k53, k54, k55);
  }

  lemma Keyed14(rk: RoundKeys)
    requires rk[56] == k56 && rk[57] == k57 && rk[58] == k58 && rk[59] == k59
    ensures AddRoundKey(c14, rk, 14) == s14
  {
    assert KeyByte(k56, 0) == 0xfe && KeyByte(k57, 0) == 0xe6 && KeyByte(k58, 0) == 0x04 && KeyByte(k59, 0) == 0x70;
    assert KeyByte(k56, 1) == 0x48 && KeyByte(k57, 1) == 0x18 && KeyByte(k58, 1) == 0x6d && KeyByte(k59, 1) == 0x6c;
    assert KeyByte(k56, 2) == 0x90 && KeyByte(k57, 2) == 0x8d && KeyByte(k58, 2) == 0xf3 && KeyByte(k59, 2) == 0x63;
    assert KeyByte(k56, 3) == 0xd1 && KeyByte(k57, 3) == 0x0b && KeyByte(k58, 3) == 0x44 && KeyByte(k59, 3) == 0x1e;
    hide KeyByte, AddRoundKey;
    AddRoundKeyIs(c14, rk, 14, k56, k57, k58, k59);
  }

  lemma Rounds0(key: Key)
    requires IsKey(key)
    ensures Rounds(Expand(key), x, 0) == s0
  {
    hide IsKey, KeyWord, SubBytes, ShiftRows, MixColumns, AddRoundKey;
    ExpandedAt(key, 0);
    Words0(key);
    Keyed0(Expand(key));
  }

  lemma Rounds1(key: Key)
    requires IsKey(key)
    ensures Rounds(Expand(key), x, 1) == s1
  {
    hide IsKey, KeyWord, SubBytes, ShiftRows, MixColumns, AddRoundKey;
    Rounds0(key);
    Shifted1();
    Mixed1();
    ExpandedAt(key, 4);
    Words0(key);
    Keyed1(Expand(key));
  }

  lemma Rounds2(key: Key)
    requires IsKey(key)
    ensures Rounds(Expand(key), x, 2) == s2
  {
    hide IsKey, KeyWord, SubBytes, ShiftRows, MixColumns, AddRoundKey;
    Rounds1(key);
    Shifted2();
    Mixed2();
    ExpandedAt(key, 8);
    Words8(key);
    Keyed2(Expand(key));
  }

  lemma Rounds3(key: Key)
    requires IsKey(key)
    ensures Rounds(Expand(key), x, 3) == s3
  {
    hide IsKey, KeyWord, SubBytes, ShiftRows, MixColumns, AddRoundKey;
    Rounds2(key);
    Shifted3();
    Mixed3();
    ExpandedAt(key, 12);
    Words8(key);
    Keyed3(Expand(key));
  }

  lemma Rounds4(key: Key)
    requires IsKey(key)
    ensures Rounds(Expand(key), x, 4) == s4
  {
    hide IsKey, KeyWord, SubBytes, ShiftRows, MixColumns, AddRoundKey;
    Rounds3(key);
    Shifted4();
    Mixed4();
    ExpandedAt(key, 16);
    Words16(key);
    Keyed4(Expand(key));
  }

  lemma Rounds5(key: Key)
    requires IsKey(key)
    ensures Rounds(Expand(key), x, 5) == s5
  {
    hide IsKey, KeyWord, SubBytes, ShiftRows, MixColumns, AddRoundKey;
    Rounds4(key);
    Shifted5();
    Mixed5();
    ExpandedAt(key, 20);
    Words16(key);
    Keyed5(Expand(key));
  }

  lemma Rounds6(key: Key)
    requires IsKey(key)
    ensures Rounds(Expand(key), x, 6) == s6
  {
    hide IsKey, KeyWord, SubBytes, ShiftRows, MixColumns, AddRoundKey;
    Rounds5(key);
    Shifted6();
    Mixed6();
    ExpandedAt(key, 24);
    Words24(key);
    Keyed6(Expand(key));
  }

  lemma Rounds7(key: Key)
    requires IsKey(key)
    ensures Rounds(Expand(key), x, 7) == s7
  {
    hide IsKey, KeyWord, SubBytes, ShiftRows, MixColumns, AddRoundKey;
    Rounds6(key);
    Shifted7();
    Mixed7();
    ExpandedAt(key, 28);
    Words24(key);
    Keyed7(Expand(key));
  }

  lemma Rounds8(key: Key)
    requires IsKey(key)
    ensures Rounds(Expand(key), x, 8) == s8
  {
    hide IsKey, KeyWord, SubBytes, ShiftRows, MixColumns, AddRoundKey;
    Rounds7(key);
    Shifted8();
    Mixed8();
    ExpandedAt(key, 32);
    Words32(key);
    Keyed8(Expand(key));
  }

  lemma Rounds9(key: Key)
    requires IsKey(key)
    ensures Rounds(Expand(key), x, 9) == s9
  {
    hide IsKey, KeyWord, SubBytes, ShiftRows, MixColumns, AddRoundKey;
    Rounds8(key);
    Shifted9();
    Mixed9();
    ExpandedAt(key, 36);
    Words32(key);
    Keyed9(Expand(key));
  }

  lemma Rounds10(key: Key)
    requires IsKey(key)
    ensures Rounds(Expand(key), x, 10) == s10
  {
    hide IsKey, KeyWord, SubBytes, ShiftRows, MixColumns, AddRoundKey;
    Rounds9(key);
    Shifted10();
    Mixed10();
    ExpandedAt(key, 40);
    Words40(key);
    Keyed10(Expand(key));
  }

  lemma Rounds11(key: Key)
    requires IsKey(key)
    ensures Rounds(Expand(key), x, 11) == s11
  {
    hide IsKey, KeyWord, SubBytes, ShiftRows, MixColumns, AddRoundKey;
    Rounds10(key);
    Shifted11();
    Mixed11();
    ExpandedAt(key, 44);
    Words40(key);
    Keyed11(Expand(key));
  }

  lemma Rounds12(key: Key)
    requires IsKey(key)
    ensures Rounds(Expand(key), x, 12) == s12
  {
    hide IsKey, KeyWord, SubBytes, ShiftRows, MixColumns, AddRoundKey;
    Rounds11(key);
    Shifted12();
    Mixed12();
    ExpandedAt(key, 48);
    Words48(key);
    Keyed12(Expand(key));
  }

  lemma Rounds13(key: Key)
    requires IsKey(key)
    ensures Rounds(Expand(key), x, 13) == s13
  {
    hide IsKey, KeyWord, SubBytes, ShiftRows, MixColumns, AddRoundKey;
    Rounds12(key);
    Shifted13();
    Mixed13();
    ExpandedAt(key, 52);
    Words48(key);
    Keyed13(Expand(key));
  }

  lemma ExpandedAt(key: Key, i: nat)
    requires i + 3 < 60
    ensures Expand(key)[i] == KeyWord(key, i) && Expand(key)[i + 1] == KeyWord(key, i + 1)
    ensures Expand(key)[i + 2] == KeyWord(key, i + 2) && Expand(key)[i + 3] == KeyWord(key, i + 3)
  {
    hide KeyWord;
  }

  /** The block 00112233445566778899aabbccddeeff under the example key. */
  lemma ExampleBlock(key: Key)
    requires IsKey(key)
    ensures Encrypt(Expand(key), x) == s14
  {
    hide IsKey, KeyWord, SubBytes, ShiftRows, AddRoundKey, Rounds;
    Rounds13(key);
    Shifted14();
    ExpandedAt(key, 56);
    Words56(key);
    Keyed14(Expand(key));
  }
}
