/** The one-block example of the Secure Hash Standard (FIPS 180-4), the hash of "abc", worked out round by round, and where
    the constants come from. */
module Sha512Example {
  import opened Sha512Spec

  predicate IsAbc(m: seq<byte>) { |m| == 3 && m[0] == 0x61 && m[1] == 0x62 && m[2] == 0x63 }

  /** The padded message: one block. */
  predicate IsBlock(d: Block) {
    && d[0] == 0x61 && d[1] == 0x62 && d[2] == 0x63 && d[3] == 0x80 && d[127] == 24
    && forall k :: 4 <= k < 127 ==> d[k] == 0
  }

  // Before round t the registers are a(t+3), a(t+2), a(t+1), a(t), e(t+3), e(t+2), e(t+1), e(t); w(t) is the schedule and
  // k(t) the round constant.

  const a0 := W(0xa54ff53a5f1d36f1)  const e0 := W(0x5be0cd19137e2179)  const w0 := W(0x6162638000000000)  const k0 := W(0x428a2f98d728ae22)
  const a1 := W(0x3c6ef372fe94f82b)  const e1 := W(0x1f83d9abfb41bd6b)  const w1 := W(0x0000000000000000)  const k1 := W(0x7137449123ef65cd)
  const a2 := W(0xbb67ae8584caa73b)  const e2 := W(0x9b05688c2b3e6c1f)  const w2 := W(0x0000000000000000)  const k2 := W(0xb5c0fbcfec4d3b2f)
  const a3 := W(0x6a09e667f3bcc908)  const e3 := W(0x510e527fade682d1)  const w3 := W(0x0000000000000000)  const k3 := W(0xe9b5dba58189dbbc)
  const a4 := W(0xf6afceb8bcfcddf5)  const e4 := W(0x58cb02347ab51f91)  const w4 := W(0x0000000000000000)  const k4 := W(0x3956c25bf348b538)
  const a5 := W(0x1320f8c9fb872cc0)  const e5 := W(0xc3d4ebfd48650ffa)  const w5 := W(0x0000000000000000)  const k5 := W(0x59f111f1b605d019)
  const a6 := W(0xebcffc07203d91f3)  const e6 := W(0xdfa9b239f2697812)  const w6 := W(0x0000000000000000)  const k6 := W(0x923f82a4af194f9b)
  const a7 := W(0x5a83cb3e80050e82)  const e7 := W(0x0b47b4bb1928990e)  const w7 := W(0x0000000000000000)  const k7 := W(0xab1c5ed5da6d8118)
  const a8 := W(0xb680953951604860)  const e8 := W(0x745aca4a342ed2e2)  const w8 := W(0x0000000000000000)  const k8 := W(0xd807aa98a3030242)
  const a9 := W(0xaf573b02403e89cd)  const e9 := W(0x96f60209b6dc35ba)  const w9 := W(0x0000000000000000)  const k9 := W(0x12835b0145706fbe)
  const a10 := W(0xc4875b0c7abc076b)  const e10 := W(0x5a6c781f54dcc00c)  const w10 := W(0x0000000000000000)  const k10 := W(0x243185be4ee4b28c)
  const a11 := W(0x8093d195e0054fa3)  const e11 := W(0x86f67263a0f0ec0a)  const w11 := W(0x0000000000000000)  const k11 := W(0x550c7dc3d5ffb4e2)
  const a12 := W(0xf1eca5544cb89225)  const e12 := W(0xd0403c398fc40002)  const w12 := W(0x0000000000000000)  const k12 := W(0x72be5d74f27b896f)
  const a13 := W(0x81782d4a5db48f03)  const e13 := W(0x00091f460be46c52)  const w13 := W(0x0000000000000000)  const k13 := W(0x80deb1fe3b1696b1)
  const a14 := W(0x69854c4aa0f25b59)  const e14 := W(0xd375471bde1ba3f4)  const w14 := W(0x0000000000000000)  const k14 := W(0x9bdc06a725c71235)
  const a15 := W(0xdb0a9963f80c2eaa)  const e15 := W(0x475975b91a7a462c)  const w15 := W(0x0000000000000018)  const k15 := W(0xc19bf174cf692694)
  const a16 := W(0x5e41214388186c14)  const e16 := W(0xcdf3bff2883fc9d9)  const w16 := W(0x6162638000000000)  const k16 := W(0xe49b69c19ef14ad2)
  const a17 := W(0x44249631255d2ca0)  const e17 := W(0x860acf9effba6f61)  const w17 := W(0x00030000000000c0)  const k17 := W(0xefbe4786384f25e3)
  const a18 := W(0xfa967eed85a08028)  const e18 := W(0x874bfe5f6aae9f2f)  const w18 := W(0x0a9699a24c700003)  const k18 := W(0x0fc19dc68b8cd5b5)
  const a19 := W(0x0ae07c86b1181c75)  const e19 := W(0xa77b7c035dd4c161)  const w19 := W(0x00000c0060000603)  const k19 := W(0x240ca1cc77ac9c65)
  const a20 := W(0xcaf81a425d800537)  const e20 := W(0x2deecc6b39d64d78)  const w20 := W(0x549ef62639858996)  const k20 := W(0x2de92c6f592b0275)
  const a21 := W(0x4725be249ad19e6b)  const e21 := W(0xf47e8353f8047455)  const w21 := W(0x00c0003300003c00)  const k21 := W(0x4a7484aa6ea6e483)
  const a22 := W(0x3c4b4104168e3edb)  const e22 := W(0x29695fd88d81dbd0)  const w22 := W(0x1497007a8a0e9dbc)  const k22 := W(0x5cb0a9dcbd41fbd4)
  const a23 := W(0x9a3fb4d38ab6cf06)  const e23 := W(0xf14998dd5f70767e)  const w23 := W(0x62e56500cc0780f0)  const k23 := W(0x76f988da831153b5)
  const a24 := W(0x8dc5ae65569d3855)  const e24 := W(0x4bb9e66d1145bfdc)  const w24 := W(0x7760dd475a538797)  const k24 := W(0x983e5152ee66dfab)
  const a25 := W(0xda34d6673d452dcf)  const e25 := W(0x8e30ff09ad488753)  const w25 := W(0xf1554b711c1c0003)  const k25 := W(0xa831c66d2db43210)
  const a26 := W(0x3e2644567b709a78)  const e26 := W(0x0ac2b11da8f571c6)  const w26 := W(0xca2993a4345d9ff2)  const k26 := W(0xb00327c898fb213f)
  const a27 := W(0x4f6877b58fe55484)  const e27 := W(0xc66005f87db55233)  const w27 := W(0x5e0e66b5c783dd32)  const k27 := W(0xbf597fc7beef0ee4)
  const a28 := W(0x9aff71163fa3a940)  const e28 := W(0xd3ecf13769180e6f)  const w28 := W(0xe25a625d00494b62)  const k28 := W(0xc6e00bf33da88fc2)
  const a29 := W(0x0bc5f791f8e6816b)  const e29 := W(0x6ddf1fd7edcce336)  const w29 := W(0x9f44486fb1e4fbd2)  const k29 := W(0xd5a79147930aa725)
  const a30 := W(0x884c3bc27bc4f941)  const e30 := W(0xe6e48c9a8e948365)  const w30 := W(0xb31b8c2b06085f2f)  const k30 := W(0x06ca6351e003826f)
  const a31 := W(0xeab4a9e5771b8d09)  const e31 := W(0x09068a4e255a0dac)  const w31 := W(0x0e987660934142f6)  const k31 := W(0x142929670a0e6e70)
  const a32 := W(0xe62349090f47d30a)  const e32 := W(0x0fcdf99710f21584)  const w32 := W(0xa4af2cfd09fbb924)  const k32 := W(0x27b70a8546d22ffc)
  const a33 := W(0x74bf40f869094c63)  const e33 := W(0xf0aec2fe1437f085)  const w33 := W(0xad289e2e0bd53186)  const k33 := W(0x2e1b21385c26c926)
  const a34 := W(0x4c4fbbb75f1873a6)  const e34 := W(0x73e025d91b9efea3)  const w34 := W(0x3c74563aa2f9673e)  const k34 := W(0x4d2c6dfc5ac42aed)
  const a35 := W(0xff4d3f1f0d46a736)  const e35 := W(0x3cd388e119e8162e)  const w35 := W(0x6ccdcd14cc14b53f)  const k35 := W(0x53380d139d95b3df)
  const a36 := W(0xa0509015ca08c8d4)  const e36 := W(0xe1034573654a106f)  const w36 := W(0xc3f925b337f22bde)  const k36 := W(0x650a73548baf63de)
  const a37 := W(0x60d4e6995ed91fe6)  const e37 := W(0xefabbd8bf47c041a)  const w37 := W(0x5bcc77a75ad95b54)  const k37 := W(0x766a0abb3c77b2a8)
  const a38 := W(0x2c59ec7743632621)  const e38 := W(0x0fbae670fa780fd3)  const w38 := W(0x3ec2257adca09a52)  const k38 := W(0x81c2c92e47edaee6)
  const a39 := W(0x1a081afc59fdbc2c)  const e39 := W(0xf098082f502b44cd)  const w39 := W(0x28246960001fc5eb)  const k39 := W(0x92722c851482353b)
  const a40 := W(0x88df85b0bbe77514)  const e40 := W(0x8fbfd0162bbf4675)  const w40 := W(0x04e33a75ce2be88a)  const k40 := W(0xa2bfe8a14cf10364)
  const a41 := W(0x002bb8e4cd989567)  const e41 := W(0x66adcfa249ac7bbd)  const w41 := W(0x7d5314b3c359e0e7)  const k41 := W(0xa81a664bbc423001)
  const a42 := W(0xb3bb8542b3376de5)  const e42 := W(0xb49596c20feba7de)  const w42 := W(0xaef7a285ff251266)  const k42 := W(0xc24b8b70d0f89791)
  const a43 := W(0x8e01e125b855d225)  const e43 := W(0x0c710a47ba6a567b)  const w43 := W(0x0b8472581deea04f)  const k43 := W(0xc76c51a30654be30)
  const a44 := W(0xb01521dd6a6be12c)  const e44 := W(0x169008b3a4bb170b)  const w44 := W(0xb174e26eddc7b033)  const k44 := W(0xd192e819d6ef5218)
  const a45 := W(0xe96f89dd48cbd851)  const e45 := W(0xf0996439e7b50cb1)  const w45 := W(0x5d63bae58ddd88de)  const k45 := W(0xd69906245565a910)
  const a46 := W(0xbc05ba8de5d3c480)  const e46 := W(0x639cb938e14dc190)  const w46 := W(0x4c044007b744ccbb)  const k46 := W(0xf40e35855771202a)
  const a47 := W(0x35d7e7f41defcbd5)  const e47 := W(0xcc5100997f5710f2)  const w47 := W(0xe6a9aa4d74dc7d43)  const k47 := W(0x106aa07032bbd1b8)
  const a48 := W(0xc47c9d5c7ea8a234)  const e48 := W(0x858d832ae0e8911c)  const w48 := W(0xebeaf1237248019c)  const k48 := W(0x19a4c116b8d2d0c8)
  const a49 := W(0x021fbadbabab5ac6)  const e49 := W(0xe95c2a57572d64d9)  const w49 := W(0x361e80b2d00f3193)  const k49 := W(0x1e376c085141ab53)
  const a50 := W(0xf61e672694de2d67)  const e50 := W(0xc6bc35740d8daa9a)  const w50 := W(0x2e9839125df3b175)  const k50 := W(0x2748774cdf8eeb99)
  const a51 := W(0x6b69fc1bb482feac)  const e51 := W(0x35264334c03ac8ad)  const w51 := W(0x3319629293ad5363)  const k51 := W(0x34b0bcb5e19b48a8)
  const a52 := W(0x571f323d96b3a047)  const e52 := W(0x271580ed6c3e5650)  const w52 := W(0x9cbc5d89ac1b89d5)  const k52 := W(0x391c0cb3c5c95a63)
  const a53 := W(0xca9bd862c5050918)  const e53 := W(0xdfe091dab182e645)  const w53 := W(0x275e23ffeeca50b7)  const k53 := W(0x4ed8aa4ae3418acb)
  const a54 := W(0x813a43dd2c502043)  const e54 := W(0x07a0d8ef821c5e1a)  const w54 := W(0x3b80d680bf69ef58)  const k54 := W(0x5b9cca4f7763e373)
  const a55 := W(0xd43f83727325dd77)  const e55 := W(0x483f80a82eaee23e)  const w55 := W(0x0d0696933945a125)  const k55 := W(0x682e6ff3d6b2b8a3)
  const a56 := W(0x03df11b32d42e203)  const e56 := W(0x504f94e40591cffa)  const w56 := W(0x7533eabcb786ff00)  const k56 := W(0x748f82ee5defb2fc)
  const a57 := W(0xd63f68037ddf06aa)  const e57 := W(0xa6781efe1aa1ce02)  const w57 := W(0xb89826cee6fbf0e5)  const k57 := W(0x78a5636f43172f60)
  const a58 := W(0xf650857b5babda4d)  const e58 := W(0x9ccfb31a86df0f86)  const w58 := W(0x249b4fbcad623e9f)  const k58 := W(0x84c87814a1f0ab72)
  const a59 := W(0x63b460e42748817e)  const e59 := W(0xc6b4dd2a9931c509)  const w59 := W(0x4aea9df2b02d6f1e)  const k59 := W(0x8cc702081a6439ec)
  const a60 := W(0x7a52912943d52b05)  const e60 := W(0xd2e89bbd91e00be0)  const w60 := W(0x2cc57475a55e8d8f)  const k60 := W(0x90befffa23631e28)
  const a61 := W(0x4b81c3aec976ea4b)  const e61 := W(0x70505988124351ac)  const w61 := W(0xb2574ae938d8be89)  const k61 := W(0xa4506cebde82bde9)
  const a62 := W(0x581ecb3355dcd9b8)  const e62 := W(0x6a3c9b0f71c8bf36)  const w62 := W(0xc1b35a57b16d6aea)  const k62 := W(0xbef9a3f7b2c67915)
  const a63 := W(0x2c074484ef1eac8c)  const e63 := W(0x4797cde4ed370692)  const w63 := W(0xcc4918b5949206bb)  const k63 := W(0xc67178f2e372532b)
  const a64 := W(0x3857dfd2fc37d3ba)  const e64 := W(0xa6af4e9c9f807e51)  const w64 := W(0x5099c3add79f90ec)  const k64 := W(0xca273eceea26619c)
  const a65 := W(0xcfcd928c5424e2b6)  const e65 := W(0x09aee5bda1644de5)  const w65 := W(0x5ea81d78e7660bf1)  const k65 := W(0xd186b8c721c0c207)
  const a66 := W(0xa81dedbb9f19e643)  const e66 := W(0x84058865d60a05fa)  const w66 := W(0xebee6267405ac2a9)  const k66 := W(0xeada7dd6cde0eb1e)
  const a67 := W(0xab44e86276478d85)  const e67 := W(0xcd881ee59ca6bc53)  const w67 := W(0xb01f21926108a4ab)  const k67 := W(0xf57d4f7fee6ed178)
  const a68 := W(0x5a806d7e9821a501)  const e68 := W(0xaa84b086688a5c45)  const w68 := W(0x786433dd2fe65556)  const k68 := W(0x06f067aa72176fba)
  const a69 := W(0xeeb9c21bb0102598)  const e69 := W(0x3b5fed0d6a1f96e1)  const w69 := W(0xc54a6eaa24a0552c)  const k69 := W(0x0a637dc5a2c898a6)
  const a70 := W(0x46c4210ab2cc155d)  const e70 := W(0x29fab5a7bff53366)  const w70 := W(0xb3c8f1530bdbaa9e)  const k70 := W(0x113f9804bef90dae)
  const a71 := W(0x54ba35cf56a0340e)  const e71 := W(0x1c66f46d95690bcf)  const w71 := W(0xbb8abfe56f469338)  const k71 := W(0x1b710b35131c471b)
  const a72 := W(0x181839d609c79748)  const e72 := W(0x0ada78ba2d446140)  const w72 := W(0xf63d4265cc1c5a78)  const k72 := W(0x28db77f523047d84)
  const a73 := W(0xfb6aaae5d0b6a447)  const e73 := W(0xe3711cb6564d112d)  const w73 := W(0xbe8355ea73129afb)  const k73 := W(0x32caab7b40c72493)
  const a74 := W(0x7652c579cb60f19c)  const e74 := W(0xaff62c9665ff80fa)  const w74 := W(0x49e2db8ebdcfbeb5)  const k74 := W(0x3c9ebe0a15c9bebc)
  const a75 := W(0xf15e9664b2803575)  const e75 := W(0x947c3dfafee570ef)  const w75 := W(0x82269d4a883a3d99)  const k75 := W(0x431d67c49c100d4c)
  const a76 := W(0x358406d165aee9ab)  const e76 := W(0x8c7b5fd91a794ca0)  const w76 := W(0xfdf53df3011f362b)  const k76 := W(0x4cc5d4becb3e42b6)
  const a77 := W(0x20878dcd29cdfaf5)  const e77 := W(0x054d3536539948d0)  const w77 := W(0x464af5671d71c12e)  const k77 := W(0x597f299cfc657e2a)
  const a78 := W(0x33d48dabb5521de2)  const e78 := W(0x2ba18245b50de4cf)  const w78 := W(0xe449b68198ec611c)  const k78 := W(0x5fcb6fab3ad6faec)
  const a79 := W(0xc8960e6be864b916)  const e79 := W(0x995019a6ff3ba3de)  const w79 := W(0x92aeeed1a7bcf7d2)  const k79 := W(0x6c44198c4a475817)
  const a80 := W(0x654ef9abec389ca9)  const e80 := W(0xceb9fc3691ce8326)
  const a81 := W(0xd67806db8b148677)  const e81 := W(0x25c96a7768fb2aa3)
  const a82 := W(0x10d9c4c4295599f6)  const e82 := W(0x9bb4d39778c07f9e)
  const a83 := W(0x73a54f399fa4b1b2)  const e83 := W(0xd08446aa79693ed7)

  /** The initial value. */
  predicate IsStart(h: Hash) {
    h[0] == a3 && h[1] == a2 && h[2] == a1 && h[3] == a0 && h[4] == e3 && h[5] == e2 && h[6] == e1 && h[7] == e0
  }

  lemma InitialIsStart()
    ensures IsStart(Initial())
  { }

  // ---- the constants ----

  const TWO192 := 0x1_0000_0000_0000_0000_0000_0000_0000_0000_0000_0000_0000_0000

  /** `k` is the cube root of n, scaled by 2^64 and rounded down. */
  predicate ScaledCubeRoot(k: nat, n: nat) { k * k * k <= n * TWO192 < (k + 1) * (k + 1) * (k + 1) }

  predicate ScaledSquareRoot(k: nat, n: nat) { k * k <= n * TWO128 < (k + 1) * (k + 1) }

  /** The first 64 fraction bits of the cube root of `p`, whose integer part is `m`. */
  predicate CubeRootFraction(w: Word, p: nat, m: nat) { ScaledCubeRoot(m * TWO64 + w.bits as int, p) }

  predicate SquareRootFraction(w: Word, p: nat, m: nat) { ScaledSquareRoot(m * TWO64 + w.bits as int, p) }

  // Eight at a time: the words of the table, and the primes they come from.

  lemma Constants0()
    ensures RoundConstant(0) == k0 && RoundConstant(1) == k1 && RoundConstant(2) == k2 && RoundConstant(3) == k3
    ensures RoundConstant(4) == k4 && RoundConstant(5) == k5 && RoundConstant(6) == k6 && RoundConstant(7) == k7
  { }

  lemma CubeRoots0()
    ensures CubeRootFraction(k0, 2, 1) && CubeRootFraction(k1, 3, 1) && CubeRootFraction(k2, 5, 1) && CubeRootFraction(k3, 7, 1)
    ensures CubeRootFraction(k4, 11, 2) && CubeRootFraction(k5, 13, 2) && CubeRootFraction(k6, 17, 2) && CubeRootFraction(k7, 19, 2)
  { }

  lemma Constants8()
    ensures RoundConstant(8) == k8 && RoundConstant(9) == k9 && RoundConstant(10) == k10 && RoundConstant(11) == k11
    ensures RoundConstant(12) == k12 && RoundConstant(13) == k13 && RoundConstant(14) == k14 && RoundConstant(15) == k15
  { }

  lemma CubeRoots8()
    ensures CubeRootFraction(k8, 23, 2) && CubeRootFraction(k9, 29, 3) && CubeRootFraction(k10, 31, 3) && CubeRootFraction(k11, 37, 3)
    ensures CubeRootFraction(k12, 41, 3) && CubeRootFraction(k13, 43, 3) && CubeRootFraction(k14, 47, 3) && CubeRootFraction(k15, 53, 3)
  { }

  lemma Constants16()
    ensures RoundConstant(16) == k16 && RoundConstant(17) == k17 && RoundConstant(18) == k18 && RoundConstant(19) == k19
    ensures RoundConstant(20) == k20 && RoundConstant(21) == k21 && RoundConstant(22) == k22 && RoundConstant(23) == k23
  { }

  lemma CubeRoots16()
    ensures CubeRootFraction(k16, 59, 3) && CubeRootFraction(k17, 61, 3) && CubeRootFraction(k18, 67, 4) && CubeRootFraction(k19, 71, 4)
    ensures CubeRootFraction(k20, 73, 4) && CubeRootFraction(k21, 79, 4) && CubeRootFraction(k22, 83, 4) && CubeRootFraction(k23, 89, 4)
  { }

  lemma Constants24()
    ensures RoundConstant(24) == k24 && RoundConstant(25) == k25 && RoundConstant(26) == k26 && RoundConstant(27) == k27
    ensures RoundConstant(28) == k28 && RoundConstant(29) == k29 && RoundConstant(30) == k30 && RoundConstant(31) == k31
  { }

  lemma CubeRoots24()
    ensures CubeRootFraction(k24, 97, 4) && CubeRootFraction(k25, 101, 4) && CubeRootFraction(k26, 103, 4) && CubeRootFraction(k27, 107, 4)
    ensures CubeRootFraction(k28, 109, 4) && CubeRootFraction(k29, 113, 4) && CubeRootFraction(k30, 127, 5) && CubeRootFraction(k31, 131, 5)
  { }

  lemma Constants32()
    ensures RoundConstant(32) == k32 && RoundConstant(33) == k33 && RoundConstant(34) == k34 && RoundConstant(35) == k35
    ensures RoundConstant(36) == k36 && RoundConstant(37) == k37 && RoundConstant(38) == k38 && RoundConstant(39) == k39
  { }

  lemma CubeRoots32()
    ensures CubeRootFraction(k32, 137, 5) && CubeRootFraction(k33, 139, 5) && CubeRootFraction(k34, 149, 5) && CubeRootFraction(k35, 151, 5)
    ensures CubeRootFraction(k36, 157, 5) && CubeRootFraction(k37, 163, 5) && CubeRootFraction(k38, 167, 5) && CubeRootFraction(k39, 173, 5)
  { }

  lemma Constants40()
    ensures RoundConstant(40) == k40 && RoundConstant(41) == k41 && RoundConstant(42) == k42 && RoundConstant(43) == k43
    ensures RoundConstant(44) == k44 && RoundConstant(45) == k45 && RoundConstant(46) == k46 && RoundConstant(47) == k47
  { }

  lemma CubeRoots40()
    ensures CubeRootFraction(k40, 179, 5) && CubeRootFraction(k41, 181, 5) && CubeRootFraction(k42, 191, 5) && CubeRootFraction(k43, 193, 5)
    ensures CubeRootFraction(k44, 197, 5) && CubeRootFraction(k45, 199, 5) && CubeRootFraction(k46, 211, 5) && CubeRootFraction(k47, 223, 6)
  { }

  lemma Constants48()
    ensures RoundConstant(48) == k48 && RoundConstant(49) == k49 && RoundConstant(50) == k50 && RoundConstant(51) == k51
    ensures RoundConstant(52) == k52 && RoundConstant(53) == k53 && RoundConstant(54) == k54 && RoundConstant(55) == k55
  { }

  lemma CubeRoots48()
    ensures CubeRootFraction(k48, 227, 6) && CubeRootFraction(k49, 229, 6) && CubeRootFraction(k50, 233, 6) && CubeRootFraction(k51, 239, 6)
    ensures CubeRootFraction(k52, 241, 6) && CubeRootFraction(k53, 251, 6) && CubeRootFraction(k54, 257, 6) && CubeRootFraction(k55, 263, 6)
  { }

  lemma Constants56()
    ensures RoundConstant(56) == k56 && RoundConstant(57) == k57 && RoundConstant(58) == k58 && RoundConstant(59) == k59
    ensures RoundConstant(60) == k60 && RoundConstant(61) == k61 && RoundConstant(62) == k62 && RoundConstant(63) == k63
  { }

  lemma CubeRoots56()
    ensures CubeRootFraction(k56, 269, 6) && CubeRootFraction(k57, 271, 6) && CubeRootFraction(k58, 277, 6) && CubeRootFraction(k59, 281, 6)
    ensures CubeRootFraction(k60, 283, 6) && CubeRootFraction(k61, 293, 6) && CubeRootFraction(k62, 307, 6) && CubeRootFraction(k63, 311, 6)
  { }

  lemma Constants64()
    ensures RoundConstant(64) == k64 && RoundConstant(65) == k65 && RoundConstant(66) == k66 && RoundConstant(67) == k67
    ensures RoundConstant(68) == k68 && RoundConstant(69) == k69 && RoundConstant(70) == k70 && RoundConstant(71) == k71
  { }

  lemma CubeRoots64()
    ensures CubeRootFraction(k64, 313, 6) && CubeRootFraction(k65, 317, 6) && CubeRootFraction(k66, 331, 6) && CubeRootFraction(k67, 337, 6)
    ensures CubeRootFraction(k68, 347, 7) && CubeRootFraction(k69, 349, 7) && CubeRootFraction(k70, 353, 7) && CubeRootFraction(k71, 359, 7)
  { }

  lemma Constants72()
    ensures RoundConstant(72) == k72 && RoundConstant(73) == k73 && RoundConstant(74) == k74 && RoundConstant(75) == k75
    ensures RoundConstant(76) == k76 && RoundConstant(77) == k77 && RoundConstant(78) == k78 && RoundConstant(79) == k79
  { }

  lemma CubeRoots72()
    ensures CubeRootFraction(k72, 367, 7) && CubeRootFraction(k73, 373, 7) && CubeRootFraction(k74, 379, 7) && CubeRootFraction(k75, 383, 7)
    ensures CubeRootFraction(k76, 389, 7) && CubeRootFraction(k77, 397, 7) && CubeRootFraction(k78, 401, 7) && CubeRootFraction(k79, 409, 7)
  { }

  /** The primes up to 409. */
  function Prime(t: nat): nat
    requires t < 80
  {
    match t
    case 0 => 2 case 1 => 3 case 2 => 5 case 3 => 7 case 4 => 11 case 5 => 13 case 6 => 17 case 7 => 19 case 8 => 23 case 9 => 29
    case 10 => 31 case 11 => 37 case 12 => 41 case 13 => 43 case 14 => 47 case 15 => 53 case 16 => 59 case 17 => 61 case 18 => 67 case 19 => 71
    case 20 => 73 case 21 => 79 case 22 => 83 case 23 => 89 case 24 => 97 case 25 => 101 case 26 => 103 case 27 => 107 case 28 => 109 case 29 => 113
    case 30 => 127 case 31 => 131 case 32 => 137 case 33 => 139 case 34 => 149 case 35 => 151 case 36 => 157 case 37 => 163 case 38 => 167 case 39 => 173
    case 40 => 179 case 41 => 181 case 42 => 191 case 43 => 193 case 44 => 197 case 45 => 199 case 46 => 211 case 47 => 223 case 48 => 227 case 49 => 229
    case 50 => 233 case 51 => 239 case 52 => 241 case 53 => 251 case 54 => 257 case 55 => 263 case 56 => 269 case 57 => 271 case 58 => 277 case 59 => 281
    case 60 => 283 case 61 => 293 case 62 => 307 case 63 => 311 case 64 => 313 case 65 => 317 case 66 => 331 case 67 => 337 case 68 => 347 case 69 => 349
    case 70 => 353 case 71 => 359 case 72 => 367 case 73 => 373 case 74 => 379 case 75 => 383 case 76 => 389 case 77 => 397 case 78 => 401 case _ => 409
  }

  /** The integer part of the cube root, below 8. */
  function CubeFloor(p: nat): nat {
    if p < 8 then 1 else if p < 27 then 2 else if p < 64 then 3 else if p < 125 then 4 else if p < 216 then 5 else if p < 343 then 6 else 7
  }

  /** Each round constant is the first 64 fraction bits of the cube root of a prime, in order. */
  lemma RoundConstantsAreCubeRoots(t: nat)
    requires t < 80
    ensures CubeRootFraction(RoundConstant(t), Prime(t), CubeFloor(Prime(t)))
  {
    hide RoundConstant, CubeRootFraction;
    if t < 8 {
      Constants0();
      CubeRoots0();
    } else if t < 16 {
      Constants8();
      CubeRoots8();
    } else if t < 24 {
      Constants16();
      CubeRoots16();
    } else if t < 32 {
      Constants24();
      CubeRoots24();
    } else if t < 40 {
      Constants32();
      CubeRoots32();
    } else if t < 48 {
      Constants40();
      CubeRoots40();
    } else if t < 56 {
      Constants48();
      CubeRoots48();
    } else if t < 64 {
      Constants56();
      CubeRoots56();
    } else if t < 72 {
      Constants64();
      CubeRoots64();
    } else {
      Constants72();
      CubeRoots72();
    }
  }

  /** The initial value consists of the first 64 fraction bits of the square roots of the first eight primes. */
  lemma InitialIsSquareRoots()
    ensures var h := Initial();
            && SquareRootFraction(h[0], 2, 1) && SquareRootFraction(h[1], 3, 1) && SquareRootFraction(h[2], 5, 2) && SquareRootFraction(h[3], 7, 2)
            && SquareRootFraction(h[4], 11, 3) && SquareRootFraction(h[5], 13, 3) && SquareRootFraction(h[6], 17, 4) && SquareRootFraction(h[7], 19, 4)
  {
    SquareRoots0();
    SquareRoots4();
    hide SquareRootFraction;
  }

  lemma SquareRoots0()
    ensures SquareRootFraction(a3, 2, 1) && SquareRootFraction(a2, 3, 1) && SquareRootFraction(a1, 5, 2) && SquareRootFraction(a0, 7, 2)
  { }

  lemma SquareRoots4()
    ensures SquareRootFraction(e3, 11, 3) && SquareRootFraction(e2, 13, 3) && SquareRootFraction(e1, 17, 4) && SquareRootFraction(e0, 19, 4)
  { }

  // ---- the schedule ----

  lemma AbcWords()
    ensures WordOf(0, 0, 0, 0, 0, 0, 0, 0) == W(0)
    ensures WordOf(0x61, 0x62, 0x63, 0x80, 0, 0, 0, 0) == w0 && WordOf(0, 0, 0, 0, 0, 0, 0, 24) == w15
  { }

  lemma WordZero(d: Block, at: nat)
    requires IsBlock(d) && 8 <= at && at + 8 <= 120
    ensures WordAt(d, at) == W(0)
  {
    hide WordOf;
    AbcWords();
  }

  lemma Words0(d: Block)
    requires IsBlock(d)
    ensures Schedule(d, 0) == w0 && Schedule(d, 15) == w15
    ensures forall t :: 1 <= t < 15 ==> Schedule(d, t) == W(0)
  {
    hide Schedule, WordOf;
    ScheduleStart(d, 0);
    ScheduleStart(d, 15);
    AbcWords();
    forall t | 1 <= t < 15 ensures Schedule(d, t) == W(0) {
      hide WordAt;
      ScheduleStart(d, t);
      WordZero(d, 8 * t);
    }
  }

  lemma Extended16()
    ensures Extend(w14, w9, w1, w0) == w16 && Extend(w15, w10, w2, w1) == w17
    ensures Extend(w16, w11, w3, w2) == w18 && Extend(w17, w12, w4, w3) == w19
    ensures Extend(w18, w13, w5, w4) == w20 && Extend(w19, w14, w6, w5) == w21
    ensures Extend(w20, w15, w7, w6) == w22 && Extend(w21, w16, w8, w7) == w23
  { }

  lemma Words16(d: Block)
    requires IsBlock(d)
    ensures Schedule(d, 16) == w16 && Schedule(d, 17) == w17 && Schedule(d, 18) == w18 && Schedule(d, 19) == w19
    ensures Schedule(d, 20) == w20 && Schedule(d, 21) == w21 && Schedule(d, 22) == w22 && Schedule(d, 23) == w23
  {
    hide Schedule, IsBlock, Extend;
    Words0(d);
    Extended16();
    ScheduleNext(d, 16);
    ScheduleNext(d, 17);
    ScheduleNext(d, 18);
    ScheduleNext(d, 19);
    ScheduleNext(d, 20);
    ScheduleNext(d, 21);
    ScheduleNext(d, 22);
    ScheduleNext(d, 23);
  }

  lemma Extended24()
    ensures Extend(w22, w17, w9, w8) == w24 && Extend(w23, w18, w10, w9) == w25
    ensures Extend(w24, w19, w11, w10) == w26 && Extend(w25, w20, w12, w11) == w27
    ensures Extend(w26, w21, w13, w12) == w28 && Extend(w27, w22, w14, w13) == w29
    ensures Extend(w28, w23, w15, w14) == w30 && Extend(w29, w24, w16, w15) == w31
  { }

  lemma Words24(d: Block)
    requires IsBlock(d)
    ensures Schedule(d, 24) == w24 && Schedule(d, 25) == w25 && Schedule(d, 26) == w26 && Schedule(d, 27) == w27
    ensures Schedule(d, 28) == w28 && Schedule(d, 29) == w29 && Schedule(d, 30) == w30 && Schedule(d, 31) == w31
  {
    hide Schedule, IsBlock, Extend;
    Words0(d);
    Words16(d);
    Extended24();
    ScheduleNext(d, 24);
    ScheduleNext(d, 25);
    ScheduleNext(d, 26);
    ScheduleNext(d, 27);
    ScheduleNext(d, 28);
    ScheduleNext(d, 29);
    ScheduleNext(d, 30);
    ScheduleNext(d, 31);
  }

  lemma Extended32()
    ensures Extend(w30, w25, w17, w16) == w32 && Extend(w31, w26, w18, w17) == w33
    ensures Extend(w32, w27, w19, w18) == w34 && Extend(w33, w28, w20, w19) == w35
    ensures Extend(w34, w29, w21, w20) == w36 && Extend(w35, w30, w22, w21) == w37
    ensures Extend(w36, w31, w23, w22) == w38 && Extend(w37, w32, w24, w23) == w39
  { }

  lemma Words32(d: Block)
    requires IsBlock(d)
    ensures Schedule(d, 32) == w32 && Schedule(d, 33) == w33 && Schedule(d, 34) == w34 && Schedule(d, 35) == w35
    ensures Schedule(d, 36) == w36 && Schedule(d, 37) == w37 && Schedule(d, 38) == w38 && Schedule(d, 39) == w39
  {
    hide Schedule, IsBlock, Extend;
    Words16(d);
    Words24(d);
    Extended32();
    ScheduleNext(d, 32);
    ScheduleNext(d, 33);
    ScheduleNext(d, 34);
    ScheduleNext(d, 35);
    ScheduleNext(d, 36);
    ScheduleNext(d, 37);
    ScheduleNext(d, 38);
    ScheduleNext(d, 39);
  }

  lemma Extended40()
    ensures Extend(w38, w33, w25, w24) == w40 && Extend(w39, w34, w26, w25) == w41
    ensures Extend(w40, w35, w27, w26) == w42 && Extend(w41, w36, w28, w27) == w43
    ensures Extend(w42, w37, w29, w28) == w44 && Extend(w43, w38, w30, w29) == w45
    ensures Extend(w44, w39, w31, w30) == w46 && Extend(w45, w40, w32, w31) == w47
  { }

  lemma Words40(d: Block)
    requires IsBlock(d)
    ensures Schedule(d, 40) == w40 && Schedule(d, 41) == w41 && Schedule(d, 42) == w42 && Schedule(d, 43) == w43
    ensures Schedule(d, 44) == w44 && Schedule(d, 45) == w45 && Schedule(d, 46) == w46 && Schedule(d, 47) == w47
  {
    hide Schedule, IsBlock, Extend;
    Words24(d);
    Words32(d);
    Extended40();
    ScheduleNext(d, 40);
    ScheduleNext(d, 41);
    ScheduleNext(d, 42);
    ScheduleNext(d, 43);
    ScheduleNext(d, 44);
    ScheduleNext(d, 45);
    ScheduleNext(d, 46);
    ScheduleNext(d, 47);
  }

  lemma Extended48()
    ensures Extend(w46, w41, w33, w32) == w48 && Extend(w47, w42, w34, w33) == w49
    ensures Extend(w48, w43, w35, w34) == w50 && Extend(w49, w44, w36, w35) == w51
    ensures Extend(w50, w45, w37, w36) == w52 && Extend(w51, w46, w38, w37) == w53
    ensures Extend(w52, w47, w39, w38) == w54 && Extend(w53, w48, w40, w39) == w55
  { }

  lemma Words48(d: Block)
    requires IsBlock(d)
    ensures Schedule(d, 48) == w48 && Schedule(d, 49) == w49 && Schedule(d, 50) == w50 && Schedule(d, 51) == w51
    ensures Schedule(d, 52) == w52 && Schedule(d, 53) == w53 && Schedule(d, 54) == w54 && Schedule(d, 55) == w55
  {
    hide Schedule, IsBlock, Extend;
    Words32(d);
    Words40(d);
    Extended48();
    ScheduleNext(d, 48);
    ScheduleNext(d, 49);
    ScheduleNext(d, 50);
    ScheduleNext(d, 51);
    ScheduleNext(d, 52);
    ScheduleNext(d, 53);
    ScheduleNext(d, 54);
    ScheduleNext(d, 55);
  }

  lemma Extended56()
    ensures Extend(w54, w49, w41, w40) == w56 && Extend(w55, w50, w42, w41) == w57
    ensures Extend(w56, w51, w43, w42) == w58 && Extend(w57, w52, w44, w43) == w59
    ensures Extend(w58, w53, w45, w44) == w60 && Extend(w59, w54, w46, w45) == w61
    ensures Extend(w60, w55, w47, w46) == w62 && Extend(w61, w56, w48, w47) == w63
  { }

  lemma Words56(d: Block)
    requires IsBlock(d)
    ensures Schedule(d, 56) == w56 && Schedule(d, 57) == w57 && Schedule(d, 58) == w58 && Schedule(d, 59) == w59
    ensures Schedule(d, 60) == w60 && Schedule(d, 61) == w61 && Schedule(d, 62) == w62 && Schedule(d, 63) == w63
  {
    hide Schedule, IsBlock, Extend;
    Words40(d);
    Words48(d);
    Extended56();
    ScheduleNext(d, 56);
    ScheduleNext(d, 57);
    ScheduleNext(d, 58);
    ScheduleNext(d, 59);
    ScheduleNext(d, 60);
    ScheduleNext(d, 61);
    ScheduleNext(d, 62);
    ScheduleNext(d, 63);
  }

  lemma Extended64()
    ensures Extend(w62, w57, w49, w48) == w64 && Extend(w63, w58, w50, w49) == w65
    ensures Extend(w64, w59, w51, w50) == w66 && Extend(w65, w60, w52, w51) == w67
    ensures Extend(w66, w61, w53, w52) == w68 && Extend(w67, w62, w54, w53) == w69
    ensures Extend(w68, w63, w55, w54) == w70 && Extend(w69, w64, w56, w55) == w71
  { }

  lemma Words64(d: Block)
    requires IsBlock(d)
    ensures Schedule(d, 64) == w64 && Schedule(d, 65) == w65 && Schedule(d, 66) == w66 && Schedule(d, 67) == w67
    ensures Schedule(d, 68) == w68 && Schedule(d, 69) == w69 && Schedule(d, 70) == w70 && Schedule(d, 71) == w71
  {
    hide Schedule, IsBlock, Extend;
    Words48(d);
    Words56(d);
    Extended64();
    ScheduleNext(d, 64);
    ScheduleNext(d, 65);
    ScheduleNext(d, 66);
    ScheduleNext(d, 67);
    ScheduleNext(d, 68);
    ScheduleNext(d, 69);
    ScheduleNext(d, 70);
    ScheduleNext(d, 71);
  }

  lemma Extended72()
    ensures Extend(w70, w65, w57, w56) == w72 && Extend(w71, w66, w58, w57) == w73
    ensures Extend(w72, w67, w59, w58) == w74 && Extend(w73, w68, w60, w59) == w75
    ensures Extend(w74, w69, w61, w60) == w76 && Extend(w75, w70, w62, w61) == w77
    ensures Extend(w76, w71, w63, w62) == w78 && Extend(w77, w72, w64, w63) == w79
  { }

  lemma Words72(d: Block)
    requires IsBlock(d)
    ensures Schedule(d, 72) == w72 && Schedule(d, 73) == w73 && Schedule(d, 74) == w74 && Schedule(d, 75) == w75
    ensures Schedule(d, 76) == w76 && Schedule(d, 77) == w77 && Schedule(d, 78) == w78 && Schedule(d, 79) == w79
  {
    hide Schedule, IsBlock, Extend;
    Words56(d);
    Words64(d);
    Extended72();
    ScheduleNext(d, 72);
    ScheduleNext(d, 73);
    ScheduleNext(d, 74);
    ScheduleNext(d, 75);
    ScheduleNext(d, 76);
    ScheduleNext(d, 77);
    ScheduleNext(d, 78);
    ScheduleNext(d, 79);
  }

  // ---- the rounds ----

  lemma Rounds0(h: Hash, d: Block)
    requires IsStart(h) && IsBlock(d)
    ensures RoundsOf(h, d, 0) == Regs(a3, a2, a1, a0, e3, e2, e1, e0)
  {
    hide RoundsOf;
    RoundStart(h, d);
  }

  lemma Rounds8(h: Hash, d: Block)
    requires IsStart(h) && IsBlock(d)
    ensures RoundsOf(h, d, 8) == Regs(a11, a10, a9, a8, e11, e10, e9, e8)
  {
    hide Schedule, IsBlock, IsStart, RoundsOf, RoundConstant;
    Rounds0(h, d);
    Words0(d);
    Constants0();
    RoundNext(h, d, 0);
    assert RoundsOf(h, d, 1) == Regs(a4, a3, a2, a1, e4, e3, e2, e1);
    RoundNext(h, d, 1);
    assert RoundsOf(h, d, 2) == Regs(a5, a4, a3, a2, e5, e4, e3, e2);
    RoundNext(h, d, 2);
    assert RoundsOf(h, d, 3) == Regs(a6, a5, a4, a3, e6, e5, e4, e3);
    RoundNext(h, d, 3);
    assert RoundsOf(h, d, 4) == Regs(a7, a6, a5, a4, e7, e6, e5, e4);
    RoundNext(h, d, 4);
    assert RoundsOf(h, d, 5) == Regs(a8, a7, a6, a5, e8, e7, e6, e5);
    RoundNext(h, d, 5);
    assert RoundsOf(h, d, 6) == Regs(a9, a8, a7, a6, e9, e8, e7, e6);
    RoundNext(h, d, 6);
    assert RoundsOf(h, d, 7) == Regs(a10, a9, a8, a7, e10, e9, e8, e7);
    RoundNext(h, d, 7);
  }

  lemma Rounds16(h: Hash, d: Block)
    requires IsStart(h) && IsBlock(d)
    ensures RoundsOf(h, d, 16) == Regs(a19, a18, a17, a16, e19, e18, e17, e16)
  {
    hide Schedule, IsBlock, IsStart, RoundsOf, RoundConstant;
    Rounds8(h, d);
    Words0(d);
    Constants8();
    RoundNext(h, d, 8);
    assert RoundsOf(h, d, 9) == Regs(a12, a11, a10, a9, e12, e11, e10, e9);
    RoundNext(h, d, 9);
    assert RoundsOf(h, d, 10) == Regs(a13, a12, a11, a10, e13, e12, e11, e10);
    RoundNext(h, d, 10);
    assert RoundsOf(h, d, 11) == Regs(a14, a13, a12, a11, e14, e13, e12, e11);
    RoundNext(h, d, 11);
    assert RoundsOf(h, d, 12) == Regs(a15, a14, a13, a12, e15, e14, e13, e12);
    RoundNext(h, d, 12);
    assert RoundsOf(h, d, 13) == Regs(a16, a15, a14, a13, e16, e15, e14, e13);
    RoundNext(h, d, 13);
    assert RoundsOf(h, d, 14) == Regs(a17, a16, a15, a14, e17, e16, e15, e14);
    RoundNext(h, d, 14);
    assert RoundsOf(h, d, 15) == Regs(a18, a17, a16, a15, e18, e17, e16, e15);
    RoundNext(h, d, 15);
  }

  lemma Rounds24(h: Hash, d: Block)
    requires IsStart(h) && IsBlock(d)
    ensures RoundsOf(h, d, 24) == Regs(a27, a26, a25, a24, e27, e26, e25, e24)
  {
    hide Schedule, IsBlock, IsStart, RoundsOf, RoundConstant;
    Rounds16(h, d);
    Words16(d);
    Constants16();
    RoundNext(h, d, 16);
    assert RoundsOf(h, d, 17) == Regs(a20, a19, a18, a17, e20, e19, e18, e17);
    RoundNext(h, d, 17);
    assert RoundsOf(h, d, 18) == Regs(a21, a20, a19, a18, e21, e20, e19, e18);
    RoundNext(h, d, 18);
    assert RoundsOf(h, d, 19) == Regs(a22, a21, a20, a19, e22, e21, e20, e19);
    RoundNext(h, d, 19);
    assert RoundsOf(h, d, 20) == Regs(a23, a22, a21, a20, e23, e22, e21, e20);
    RoundNext(h, d, 20);
    assert RoundsOf(h, d, 21) == Regs(a24, a23, a22, a21, e24, e23, e22, e21);
    RoundNext(h, d, 21);
    assert RoundsOf(h, d, 22) == Regs(a25, a24, a23, a22, e25, e24, e23, e22);
    RoundNext(h, d, 22);
    assert RoundsOf(h, d, 23) == Regs(a26, a25, a24, a23, e26, e25, e24, e23);
    RoundNext(h, d, 23);
  }

  lemma Rounds32(h: Hash, d: Block)
    requires IsStart(h) && IsBlock(d)
    ensures RoundsOf(h, d, 32) == Regs(a35, a34, a33, a32, e35, e34, e33, e32)
  {
    hide Schedule, IsBlock, IsStart, RoundsOf, RoundConstant;
    Rounds24(h, d);
    Words24(d);
    Constants24();
    RoundNext(h, d, 24);
    assert RoundsOf(h, d, 25) == Regs(a28, a27, a26, a25, e28, e27, e26, e25);
    RoundNext(h, d, 25);
    assert RoundsOf(h, d, 26) == Regs(a29, a28, a27, a26, e29, e28, e27, e26);
    RoundNext(h, d, 26);
    assert RoundsOf(h, d, 27) == Regs(a30, a29, a28, a27, e30, e29, e28, e27);
    RoundNext(h, d, 27);
    assert RoundsOf(h, d, 28) == Regs(a31, a30, a29, a28, e31, e30, e29, e28);
    RoundNext(h, d, 28);
    assert RoundsOf(h, d, 29) == Regs(a32, a31, a30, a29, e32, e31, e30, e29);
    RoundNext(h, d, 29);
    assert RoundsOf(h, d, 30) == Regs(a33, a32, a31, a30, e33, e32, e31, e30);
    RoundNext(h, d, 30);
    assert RoundsOf(h, d, 31) == Regs(a34, a33, a32, a31, e34, e33, e32, e31);
    RoundNext(h, d, 31);
  }

  lemma Rounds40(h: Hash, d: Block)
    requires IsStart(h) && IsBlock(d)
    ensures RoundsOf(h, d, 40) == Regs(a43, a42, a41, a40, e43, e42, e41, e40)
  {
    hide Schedule, IsBlock, IsStart, RoundsOf, RoundConstant;
    Rounds32(h, d);
    Words32(d);
    Constants32();
    RoundNext(h, d, 32);
    assert RoundsOf(h, d, 33) == Regs(a36, a35, a34, a33, e36, e35, e34, e33);
    RoundNext(h, d, 33);
    assert RoundsOf(h, d, 34) == Regs(a37, a36, a35, a34, e37, e36, e35, e34);
    RoundNext(h, d, 34);
    assert RoundsOf(h, d, 35) == Regs(a38, a37, a36, a35, e38, e37, e36, e35);
    RoundNext(h, d, 35);
    assert RoundsOf(h, d, 36) == Regs(a39, a38, a37, a36, e39, e38, e37, e36);
    RoundNext(h, d, 36);
    assert RoundsOf(h, d, 37) == Regs(a40, a39, a38, a37, e40, e39, e38, e37);
    RoundNext(h, d, 37);
    assert RoundsOf(h, d, 38) == Regs(a41, a40, a39, a38, e41, e40, e39, e38);
    RoundNext(h, d, 38);
    assert RoundsOf(h, d, 39) == Regs(a42, a41, a40, a39, e42, e41, e40, e39);
    RoundNext(h, d, 39);
  }

  lemma Rounds48(h: Hash, d: Block)
    requires IsStart(h) && IsBlock(d)
    ensures RoundsOf(h, d, 48) == Regs(a51, a50, a49, a48, e51, e50, e49, e48)
  {
    hide Schedule, IsBlock, IsStart, RoundsOf, RoundConstant;
    Rounds40(h, d);
    Words40(d);
    Constants40();
    RoundNext(h, d, 40);
    assert RoundsOf(h, d, 41) == Regs(a44, a43, a42, a41, e44, e43, e42, e41);
    RoundNext(h, d, 41);
    assert RoundsOf(h, d, 42) == Regs(a45, a44, a43, a42, e45, e44, e43, e42);
    RoundNext(h, d, 42);
    assert RoundsOf(h, d, 43) == Regs(a46, a45, a44, a43, e46, e45, e44, e43);
    RoundNext(h, d, 43);
    assert RoundsOf(h, d, 44) == Regs(a47, a46, a45, a44, e47, e46, e45, e44);
    RoundNext(h, d, 44);
    assert RoundsOf(h, d, 45) == Regs(a48, a47, a46, a45, e48, e47, e46, e45);
    RoundNext(h, d, 45);
    assert RoundsOf(h, d, 46) == Regs(a49, a48, a47, a46, e49, e48, e47, e46);
    RoundNext(h, d, 46);
    assert RoundsOf(h, d, 47) == Regs(a50, a49, a48, a47, e50, e49, e48, e47);
    RoundNext(h, d, 47);
  }

  lemma Rounds56(h: Hash, d: Block)
    requires IsStart(h) && IsBlock(d)
    ensures RoundsOf(h, d, 56) == Regs(a59, a58, a57, a56, e59, e58, e57, e56)
  {
    hide Schedule, IsBlock, IsStart, RoundsOf, RoundConstant;
    Rounds48(h, d);
    Words48(d);
    Constants48();
    RoundNext(h, d, 48);
    assert RoundsOf(h, d, 49) == Regs(a52, a51, a50, a49, e52, e51, e50, e49);
    RoundNext(h, d, 49);
    assert RoundsOf(h, d, 50) == Regs(a53, a52, a51, a50, e53, e52, e51, e50);
    RoundNext(h, d, 50);
    assert RoundsOf(h, d, 51) == Regs(a54, a53, a52, a51, e54, e53, e52, e51);
    RoundNext(h, d, 51);
    assert RoundsOf(h, d, 52) == Regs(a55, a54, a53, a52, e55, e54, e53, e52);
    RoundNext(h, d, 52);
    assert RoundsOf(h, d, 53) == Regs(a56, a55, a54, a53, e56, e55, e54, e53);
    RoundNext(h, d, 53);
    assert RoundsOf(h, d, 54) == Regs(a57, a56, a55, a54, e57, e56, e55, e54);
    RoundNext(h, d, 54);
    assert RoundsOf(h, d, 55) == Regs(a58, a57, a56, a55, e58, e57, e56, e55);
    RoundNext(h, d, 55);
  }

  lemma Rounds64(h: Hash, d: Block)
    requires IsStart(h) && IsBlock(d)
    ensures RoundsOf(h, d, 64) == Regs(a67, a66, a65, a64, e67, e66, e65, e64)
  {
    hide Schedule, IsBlock, IsStart, RoundsOf, RoundConstant;
    Rounds56(h, d);
    Words56(d);
    Constants56();
    RoundNext(h, d, 56);
    assert RoundsOf(h, d, 57) == Regs(a60, a59, a58, a57, e60, e59, e58, e57);
    RoundNext(h, d, 57);
    assert RoundsOf(h, d, 58) == Regs(a61, a60, a59, a58, e61, e60, e59, e58);
    RoundNext(h, d, 58);
    assert RoundsOf(h, d, 59) == Regs(a62, a61, a60, a59, e62, e61, e60, e59);
    RoundNext(h, d, 59);
    assert RoundsOf(h, d, 60) == Regs(a63, a62, a61, a60, e63, e62, e61, e60);
    RoundNext(h, d, 60);
    assert RoundsOf(h, d, 61) == Regs(a64, a63, a62, a61, e64, e63, e62, e61);
    RoundNext(h, d, 61);
    assert RoundsOf(h, d, 62) == Regs(a65, a64, a63, a62, e65, e64, e63, e62);
    RoundNext(h, d, 62);
    assert RoundsOf(h, d, 63) == Regs(a66, a65, a64, a63, e66, e65, e64, e63);
    RoundNext(h, d, 63);
  }

  lemma Rounds72(h: Hash, d: Block)
    requires IsStart(h) && IsBlock(d)
    ensures RoundsOf(h, d, 72) == Regs(a75, a74, a73, a72, e75, e74, e73, e72)
  {
    hide Schedule, IsBlock, IsStart, RoundsOf, RoundConstant;
    Rounds64(h, d);
    Words64(d);
    Constants64();
    RoundNext(h, d, 64);
    assert RoundsOf(h, d, 65) == Regs(a68, a67, a66, a65, e68, e67, e66, e65);
    RoundNext(h, d, 65);
    assert RoundsOf(h, d, 66) == Regs(a69, a68, a67, a66, e69, e68, e67, e66);
    RoundNext(h, d, 66);
    assert RoundsOf(h, d, 67) == Regs(a70, a69, a68, a67, e70, e69, e68, e67);
    RoundNext(h, d, 67);
    assert RoundsOf(h, d, 68) == Regs(a71, a70, a69, a68, e71, e70, e69, e68);
    RoundNext(h, d, 68);
    assert RoundsOf(h, d, 69) == Regs(a72, a71, a70, a69, e72, e71, e70, e69);
    RoundNext(h, d, 69);
    assert RoundsOf(h, d, 70) == Regs(a73, a72, a71, a70, e73, e72, e71, e70);
    RoundNext(h, d, 70);
    assert RoundsOf(h, d, 71) == Regs(a74, a73, a72, a71, e74, e73, e72, e71);
    RoundNext(h, d, 71);
  }

  lemma Rounds80(h: Hash, d: Block)
    requires IsStart(h) && IsBlock(d)
    ensures RoundsOf(h, d, 80) == Regs(a83, a82, a81, a80, e83, e82, e81, e80)
  {
    hide Schedule, IsBlock, IsStart, RoundsOf, RoundConstant;
    Rounds72(h, d);
    Words72(d);
    Constants72();
    RoundNext(h, d, 72);
    assert RoundsOf(h, d, 73) == Regs(a76, a75, a74, a73, e76, e75, e74, e73);
    RoundNext(h, d, 73);
    assert RoundsOf(h, d, 74) == Regs(a77, a76, a75, a74, e77, e76, e75, e74);
    RoundNext(h, d, 74);
    assert RoundsOf(h, d, 75) == Regs(a78, a77, a76, a75, e78, e77, e76, e75);
    RoundNext(h, d, 75);
    assert RoundsOf(h, d, 76) == Regs(a79, a78, a77, a76, e79, e78, e77, e76);
    RoundNext(h, d, 76);
    assert RoundsOf(h, d, 77) == Regs(a80, a79, a78, a77, e80, e79, e78, e77);
    RoundNext(h, d, 77);
    assert RoundsOf(h, d, 78) == Regs(a81, a80, a79, a78, e81, e80, e79, e78);
    RoundNext(h, d, 78);
    assert RoundsOf(h, d, 79) == Regs(a82, a81, a80, a79, e82, e81, e80, e79);
    RoundNext(h, d, 79);
  }

  // ---- the hash ----

  const h0 := W(0xddaf35a193617aba)  const d0: seq<byte> := [0xdd, 0xaf, 0x35, 0xa1, 0x93, 0x61, 0x7a, 0xba]
  const h1 := W(0xcc417349ae204131)  const d1: seq<byte> := [0xcc, 0x41, 0x73, 0x49, 0xae, 0x20, 0x41, 0x31]
  const h2 := W(0x12e6fa4e89a97ea2)  const d2: seq<byte> := [0x12, 0xe6, 0xfa, 0x4e, 0x89, 0xa9, 0x7e, 0xa2]
  const h3 := W(0x0a9eeee64b55d39a)  const d3: seq<byte> := [0x0a, 0x9e, 0xee, 0xe6, 0x4b, 0x55, 0xd3, 0x9a]
  const h4 := W(0x2192992a274fc1a8)  const d4: seq<byte> := [0x21, 0x92, 0x99, 0x2a, 0x27, 0x4f, 0xc1, 0xa8]
  const h5 := W(0x36ba3c23a3feebbd)  const d5: seq<byte> := [0x36, 0xba, 0x3c, 0x23, 0xa3, 0xfe, 0xeb, 0xbd]
  const h6 := W(0x454d4423643ce80e)  const d6: seq<byte> := [0x45, 0x4d, 0x44, 0x23, 0x64, 0x3c, 0xe8, 0x0e]
  const h7 := W(0x2a9ac94fa54ca49f)  const d7: seq<byte> := [0x2a, 0x9a, 0xc9, 0x4f, 0xa5, 0x4c, 0xa4, 0x9f]

  lemma DigestBytes0()
    ensures WordBytes(h0) == d0 && WordBytes(h1) == d1 && WordBytes(h2) == d2 && WordBytes(h3) == d3
  { }

  lemma DigestBytes4()
    ensures WordBytes(h4) == d4 && WordBytes(h5) == d5 && WordBytes(h6) == d6 && WordBytes(h7) == d7
  { }

  /** The compression function takes the initial value and the padded message to the value the standard gives. */
  lemma AbcCompressed(h: Hash, d: Block)
    requires IsStart(h) && IsBlock(d)
    ensures Compress(h, d) == [h0, h1, h2, h3, h4, h5, h6, h7]
  {
    hide IsBlock, RoundsOf;
    Rounds80(h, d);
  }

  lemma AbcPadded(m: seq<byte>)
    requires IsAbc(m)
    ensures |Padded(m)| == 128 && IsBlock(Padded(m))
  {
    AbcLength();
    hide LengthField, Be64;
  }

  lemma AbcLength()
    ensures LengthField(24) == seq(15, _ => 0) + [24]
  {
    hide Shr8;
    forall i | 0 <= i < 8 ensures Be64(0)[i] == 0 && Be64(24)[i] == if i == 7 then 24 else 0 {
      ShrSmall(0, 7 - i);
      ShrSmall(24, 7 - i);
    }
  }

  lemma {:induction false} ShrSmall(x: nat, k: nat)
    requires x < 256
    ensures Shr8(x, k) == if k == 0 then x else 0
  {
    if k > 0 { ShrSmall(x, k - 1); }
  }

  /** The hash of "abc" is the one the standard gives. */
  lemma AbcHash(m: seq<byte>)
    requires IsAbc(m)
    ensures Sha512(m) == d0 + d1 + d2 + d3 + d4 + d5 + d6 + d7
  {
    hide IsBlock, IsStart, Compress, Padded, WordBytes, Initial;
    AbcPadded(m);
    InitialIsStart();
    AbcCompressed(Initial(), Padded(m));
    OneBlock(Initial(), Padded(m));
    DigestBytes0();
    DigestBytes4();
    AbcDigest([h0, h1, h2, h3, h4, h5, h6, h7]);
  }

  lemma OneBlock(h: Hash, d: Block)
    ensures Fold(h, d, 1) == Compress(h, d)
  {
    hide Compress;
    assert d[0..128] == d;
    assert Fold(h, d, 0) == h;
  }

  lemma DigestNext(h: Hash, n: nat)
    requires n < 8
    ensures DigestPrefix(h, n + 1) == DigestPrefix(h, n) + WordBytes(h[n]) && DigestPrefix(h, 0) == []
  {
    hide WordBytes;
  }

  lemma AbcDigest(h: Hash)
    ensures Digest(h) == WordBytes(h[0]) + WordBytes(h[1]) + WordBytes(h[2]) + WordBytes(h[3])
                         + WordBytes(h[4]) + WordBytes(h[5]) + WordBytes(h[6]) + WordBytes(h[7])
  {
    hide WordBytes;
    hide DigestPrefix;
    DigestNext(h, 0); DigestNext(h, 1); DigestNext(h, 2); DigestNext(h, 3);
    DigestNext(h, 4); DigestNext(h, 5); DigestNext(h, 6); DigestNext(h, 7);
    assert [] + WordBytes(h[0]) == WordBytes(h[0]);
  }
}
