/** Multiplication in GF(2^8) as AES256.c computes it, and its linearity. */
module Gf256 {
  function Xor(a: bv8, b: bv8): bv8 { a ^ b }

  function Xor4(a: bv8, b: bv8, c: bv8, d: bv8): bv8 { Xor(Xor(Xor(a, b), c), d) }

  /** Multiplication by x, reduced by the AES polynomial. */
  function XTime(a: bv8): bv8 { if a & 0x80 != 0 then (a << 1) ^ 0x1b else a << 1 }

  function Odd(b: bv8): bool { b & 1 != 0 }

  function Half(b: bv8): bv8 { b >> 1 }

  /** The part of the product that comes from the lowest `n` bits of `b`. */
  function GMulN(a: bv8, b: bv8, n: nat): bv8
    decreases n
  {
    if n == 0 then 0 else Xor(if Odd(b) then a else 0, GMulN(XTime(a), Half(b), n - 1))
  }

  function GMul(a: bv8, b: bv8): bv8 { GMulN(a, b, 8) }

  /** gmul. */
  method Gmul(a0: bv8, b0: bv8) returns (p: bv8)
    ensures p == GMul(a0, b0)
  {
    hide XTime, Xor, Odd, Half;
    var a, b := a0, b0;
    p := 0;
    XorZero(GMulN(a, b, 8));
    for i := 0 to 8
      invariant Xor(p, GMulN(a, b, 8 - i)) == GMulN(a0, b0, 8)
    {
      ghost var rest := GMulN(XTime(a), Half(b), 7 - i);
      XorAssoc(p, a, rest);
      XorZero(rest);
      if Odd(b) { p := Xor(p, a); }
      a := Double(a);
      b := Half(b);
    }
    XorZero(p);
  }

  method Double(a: bv8) returns (r: bv8)
    ensures r == XTime(a)
  {
    var hi := a & 0x80;
    r := a << 1;
    if hi != 0 { r := r ^ 0x1b; }
  }

  // ---- bitwise identities ----

  lemma XorZero(a: bv8) ensures Xor(0, a) == a && Xor(a, 0) == a { }
  lemma XorSelf(a: bv8) ensures Xor(a, a) == 0 { }
  lemma XorAssoc(a: bv8, b: bv8, c: bv8) ensures Xor(Xor(a, b), c) == Xor(a, Xor(b, c)) { }
  lemma XorComm(a: bv8, b: bv8) ensures Xor(a, b) == Xor(b, a) { }
  lemma XorUndo(a: bv8, b: bv8) ensures Xor(Xor(a, b), b) == a { }

  lemma XorSwap(a: bv8, b: bv8, c: bv8, d: bv8)
    ensures Xor(Xor(a, b), Xor(c, d)) == Xor(Xor(a, c), Xor(b, d))
  {
    hide Xor;
    XorAssoc(a, b, Xor(c, d));
    XorAssoc(b, c, d);
    XorComm(b, c);
    XorAssoc(c, b, d);
    XorAssoc(a, c, Xor(b, d));
  }

  lemma XTimeXor(a: bv8, b: bv8)
    ensures XTime(Xor(a, b)) == Xor(XTime(a), XTime(b))
  {
    TopBit(a, b);
    if a & 0x80 != 0 {
      assert b & 0x80 != 0 ==> (a ^ b) & 0x80 == 0;
      assert b & 0x80 == 0 ==> (a ^ b) & 0x80 != 0;
    } else {
      assert b & 0x80 != 0 ==> (a ^ b) & 0x80 != 0;
      assert b & 0x80 == 0 ==> (a ^ b) & 0x80 == 0;
    }
  }

  lemma TopBit(a: bv8, b: bv8)
    ensures ((a ^ b) & 0x80) == (a & 0x80) ^ (b & 0x80)
    ensures (a ^ b) << 1 == (a << 1) ^ (b << 1)
  {
  }

  /** The product is additive in its first factor. */
  lemma {:induction false} GMulXor(a: bv8, b: bv8, c: bv8, n: nat)
    ensures GMulN(Xor(a, b), c, n) == Xor(GMulN(a, c, n), GMulN(b, c, n))
    decreases n
  {
    hide XTime, Xor, Odd, Half;
    if n == 0 {
      XorZero(0);
    } else {
      XTimeXor(a, b);
      GMulXor(XTime(a), XTime(b), Half(c), n - 1);
      var x, y := GMulN(XTime(a), Half(c), n - 1), GMulN(XTime(b), Half(c), n - 1);
      XorSwap(a, b, x, y);
      XorSwap(0, 0, x, y);
      XorZero(0);
    }
  }

  lemma GMulXor4(a: bv8, b: bv8, c: bv8, d: bv8, k: bv8)
    ensures GMul(Xor4(a, b, c, d), k) == Xor4(GMul(a, k), GMul(b, k), GMul(c, k), GMul(d, k))
  {
    hide GMulN, Xor;
    GMulXor(Xor(Xor(a, b), c), d, k, 8);
    GMulXor(Xor(a, b), c, k, 8);
    GMulXor(a, b, k, 8);
  }

  // ---- sums of multiples a, xa, x^2 a, x^3 a, x^4 a ----

  function X2(a: bv8): bv8 { XTime(XTime(a)) }
  function X3(a: bv8): bv8 { XTime(XTime(XTime(a))) }
  function X4(a: bv8): bv8 { XTime(XTime(XTime(XTime(a)))) }

  function Sel(c: bool, a: bv8): bv8 { if c then a else 0 }

  /** The sum of the selected multiples of `a`. */
  function Comb(c0: bool, c1: bool, c2: bool, c3: bool, c4: bool, a: bv8): bv8 {
    Xor(Sel(c0, a), Xor(Sel(c1, XTime(a)), Xor(Sel(c2, X2(a)), Xor(Sel(c3, X3(a)), Sel(c4, X4(a))))))
  }

  lemma SelXor(c: bool, d: bool, a: bv8)
    ensures Xor(Sel(c, a), Sel(d, a)) == Sel(c != d, a)
  {
    hide Xor;
    XorZero(a);
    XorZero(0);
    XorSelf(a);
  }

  /** Sums of multiples add coefficient by coefficient. */
  lemma CombXor(c0: bool, c1: bool, c2: bool, c3: bool, c4: bool, d0: bool, d1: bool, d2: bool, d3: bool, d4: bool, a: bv8)
    ensures Xor(Comb(c0, c1, c2, c3, c4, a), Comb(d0, d1, d2, d3, d4, a))
            == Comb(c0 != d0, c1 != d1, c2 != d2, c3 != d3, c4 != d4, a)
  {
    hide Xor, Sel, XTime, X2, X3, X4;
    var (p3, q3) := (Xor(Sel(c3, X3(a)), Sel(c4, X4(a))), Xor(Sel(d3, X3(a)), Sel(d4, X4(a))));
    var (p2, q2) := (Xor(Sel(c2, X2(a)), p3), Xor(Sel(d2, X2(a)), q3));
    var (p1, q1) := (Xor(Sel(c1, XTime(a)), p2), Xor(Sel(d1, XTime(a)), q2));
    XorSwap(Sel(c0, a), p1, Sel(d0, a), q1);
    XorSwap(Sel(c1, XTime(a)), p2, Sel(d1, XTime(a)), q2);
    XorSwap(Sel(c2, X2(a)), p3, Sel(d2, X2(a)), q3);
    XorSwap(Sel(c3, X3(a)), Sel(c4, X4(a)), Sel(d3, X3(a)), Sel(d4, X4(a)));
    SelXor(c0, d0, a);
    SelXor(c1, d1, XTime(a));
    SelXor(c2, d2, X2(a));
    SelXor(c3, d3, X3(a));
    SelXor(c4, d4, X4(a));
  }

  /** A product by a factor below 16 is the sum of the multiples its bits select. */
  lemma GMulSmall(a: bv8, b: bv8)
    requires Half(Half(Half(Half(b)))) == 0
    ensures GMul(a, b) == Comb(Odd(b), Odd(Half(b)), Odd(Half(Half(b))), Odd(Half(Half(Half(b)))), false, a)
  {
    hide XTime, Xor, Odd, Half, GMulN;
    var (b1, b2, b3) := (Half(b), Half(Half(b)), Half(Half(Half(b))));
    GMulZero(X4(a), 4);
    GMulUnfold(X3(a), b3, 5);
    GMulUnfold(X2(a), b2, 6);
    GMulUnfold(XTime(a), b1, 7);
    GMulUnfold(a, b, 8);
    XorZero(Sel(Odd(b3), X3(a)));
  }

  lemma GMulUnfold(a: bv8, b: bv8, n: nat)
    requires n > 0
    ensures GMulN(a, b, n) == Xor(Sel(Odd(b), a), GMulN(XTime(a), Half(b), n - 1))
  {
  }

  lemma {:induction false} GMulZero(a: bv8, n: nat)
    ensures GMulN(a, 0, n) == 0
    decreases n
  {
    if n > 0 {
      hide XTime, Xor;
      assert !Odd(0) && Half(0) == 0;
      GMulZero(XTime(a), n - 1);
      XorZero(0);
    }
  }

  /** Products by the constants of mix_columns and inv_mix_columns. */
  lemma Products(a: bv8)
    ensures GMul(a, 2) == Comb(false, true, false, false, false, a)
    ensures GMul(a, 3) == Comb(true, true, false, false, false, a)
    ensures GMul(a, 9) == Comb(true, false, false, true, false, a)
    ensures GMul(a, 11) == Comb(true, true, false, true, false, a)
    ensures GMul(a, 13) == Comb(true, false, true, true, false, a)
    ensures GMul(a, 14) == Comb(false, true, true, true, false, a)
  {
    hide GMul, Comb;
    assert Half(2) == 1 && Half(3) == 1 && Half(9) == 4 && Half(11) == 5 && Half(13) == 6 && Half(14) == 7;
    assert Half(1) == 0 && Half(4) == 2 && Half(5) == 2 && Half(6) == 3 && Half(7) == 3 && Half(0) == 0;
    hide Half;
    assert !Odd(0) && Odd(1) && !Odd(2) && Odd(3) && !Odd(4) && Odd(5) && !Odd(6) && Odd(7);
    assert Odd(9) && Odd(11) && Odd(13) && !Odd(14);
    hide Odd;
    GMulSmall(a, 2);
    GMulSmall(a, 3);
    GMulSmall(a, 9);
    GMulSmall(a, 11);
    GMulSmall(a, 13);
    GMulSmall(a, 14);
  }

  lemma CombPure(a: bv8)
    ensures Comb(true, false, false, false, false, a) == a
    ensures Comb(false, true, false, false, false, a) == XTime(a)
    ensures Comb(false, false, false, false, false, a) == 0
    ensures Comb(true, true, false, false, false, a) == Xor(a, XTime(a))
  {
    hide Xor, XTime;
    XorZero(0);
    XorZero(a);
    XorZero(XTime(a));
  }

  /** A multiple of xa is the multiple of `a` one place up. */
  lemma CombShift(c0: bool, c1: bool, c2: bool, c3: bool, a: bv8)
    ensures Comb(c0, c1, c2, c3, false, XTime(a)) == Comb(false, c0, c1, c2, c3, a)
  {
    hide Xor, XTime;
    var r := Xor(Sel(c0, XTime(a)), Xor(Sel(c1, X2(a)), Xor(Sel(c2, X3(a)), Sel(c3, X4(a)))));
    XorZero(r);
    XorZero(Sel(c3, X4(a)));
  }

  /** Products of products, as sums of multiples of the byte they start from. */
  lemma DoubleProducts(a: bv8)
    ensures GMul(GMul(a, 2), 14) == Comb(false, false, true, true, true, a)
    ensures GMul(GMul(a, 2), 11) == Comb(false, true, true, false, true, a)
    ensures GMul(GMul(a, 2), 13) == Comb(false, true, false, true, true, a)
    ensures GMul(GMul(a, 2), 9) == Comb(false, true, false, false, true, a)
    ensures GMul(GMul(a, 3), 9) == Comb(true, true, false, true, true, a)
    ensures GMul(GMul(a, 3), 14) == Comb(false, true, false, false, true, a)
    ensures GMul(GMul(a, 3), 11) == Comb(true, false, true, true, true, a)
    ensures GMul(GMul(a, 3), 13) == Comb(true, true, true, false, true, a)
  {
    hide GMulN, Xor, XTime, Comb;
    Products(a);
    Products(XTime(a));
    CombPure(a);
    CombShift(false, true, true, true, a);
    CombShift(true, true, false, true, a);
    CombShift(true, false, true, true, a);
    CombShift(true, false, false, true, a);
    GMulXor(a, XTime(a), 9, 8);
    GMulXor(a, XTime(a), 14, 8);
    GMulXor(a, XTime(a), 11, 8);
    GMulXor(a, XTime(a), 13, 8);
    CombXor(true, false, false, true, false, false, true, false, false, true, a);
    CombXor(false, true, true, true, false, false, false, true, true, true, a);
    CombXor(true, true, false, true, false, false, true, true, false, true, a);
    CombXor(true, false, true, true, false, false, true, false, true, true, a);
  }

  /** Contribution of one input byte to each output of inverse-after-forward: itself on the diagonal, nothing off it. */
  lemma Coefficients(a: bv8)
    ensures Xor4(GMul(GMul(a, 2), 14), GMul(a, 11), GMul(a, 13), GMul(GMul(a, 3), 9)) == a
    ensures Xor4(GMul(GMul(a, 3), 14), GMul(GMul(a, 2), 11), GMul(a, 13), GMul(a, 9)) == 0
    ensures Xor4(GMul(a, 14), GMul(GMul(a, 3), 11), GMul(GMul(a, 2), 13), GMul(a, 9)) == 0
    ensures Xor4(GMul(a, 14), GMul(a, 11), GMul(GMul(a, 3), 13), GMul(GMul(a, 2), 9)) == 0
  {
    hide GMul, Xor, XTime, Comb;
    Products(a);
    DoubleProducts(a);
    CombPure(a);
    CombXor(false, false, true, true, true, true, true, false, true, false, a);
    CombXor(true, true, true, false, true, true, false, true, true, false, a);
    CombXor(false, true, false, true, true, true, true, false, true, true, a);
    CombXor(false, true, false, false, true, false, true, true, false, true, a);
    CombXor(false, false, true, false, false, true, false, true, true, false, a);
    CombXor(true, false, false, true, false, true, false, false, true, false, a);
    CombXor(false, true, true, true, false, true, false, true, true, true, a);
    CombXor(true, true, false, false, true, false, true, false, true, true, a);
    CombXor(false, true, true, true, false, true, true, false, true, false, a);
    CombXor(true, false, true, false, false, true, true, true, false, true, a);
    CombXor(false, true, false, false, true, false, true, false, false, true, a);
  }
}
