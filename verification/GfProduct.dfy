/** What gmul computes: the product of two polynomials over GF(2), reduced modulo x^8 + x^4 + x^3 + x + 1. */
module GfProduct {
  import opened Gf256

  /** Polynomials of degree below 16, bit k the coefficient of x^k. */
  function Add(p: bv16, q: bv16): bv16 { p ^ q }

  function TimesX(p: bv16): bv16 { p << 1 }

  function TimesXn(p: bv16, n: nat): bv16 { if n == 0 then p else TimesX(TimesXn(p, n - 1)) }

  function Wide(a: bv8): bv16 { a as bv16 }

  /** The product of `p` with the polynomial of the lowest `n` bits of `b`. */
  function TimesN(p: bv16, b: bv8, n: nat): bv16
    decreases n
  {
    if n == 0 then 0 else Add(if Odd(b) then p else 0, TimesN(TimesX(p), Half(b), n - 1))
  }

  function Product(a: bv8, b: bv8): bv16 { TimesN(Wide(a), b, 8) }

  /** The multiple q (x^8 + x^4 + x^3 + x + 1) of the reduction polynomial. */
  function Multiple(q: bv8): bv16 {
    var w := Wide(q);
    Add(Add(Add(Add(w, TimesXn(w, 1)), TimesXn(w, 3)), TimesXn(w, 4)), TimesXn(w, 8))
  }

  /** `q` has a degree below `n`. */
  predicate Below(q: bv8, n: nat) {
    match n
    case 0 => q == 0
    case 1 => q & 0xFE == 0
    case 2 => q & 0xFC == 0
    case 3 => q & 0xF8 == 0
    case 4 => q & 0xF0 == 0
    case 5 => q & 0xE0 == 0
    case 6 => q & 0xC0 == 0
    case 7 => q & 0x80 == 0
    case _ => true
  }

  lemma AddZero(p: bv16) ensures Add(p, 0) == p && Add(0, p) == p { }
  lemma AddAssoc(a: bv16, b: bv16, c: bv16) ensures Add(Add(a, b), c) == Add(a, Add(b, c)) { }
  lemma AddComm(a: bv16, b: bv16) ensures Add(a, b) == Add(b, a) { }

  lemma AddSwap(a: bv16, b: bv16, c: bv16, d: bv16)
    ensures Add(Add(a, b), Add(c, d)) == Add(Add(a, c), Add(b, d))
  {
    hide Add;
    AddAssoc(a, b, Add(c, d));
    AddAssoc(b, c, d);
    AddComm(b, c);
    AddAssoc(c, b, d);
    AddAssoc(a, c, Add(b, d));
  }

  lemma TimesXAdd(p: bv16, q: bv16) ensures TimesX(Add(p, q)) == Add(TimesX(p), TimesX(q)) { }
  lemma WideXor(a: bv8, b: bv8) ensures Wide(Xor(a, b)) == Add(Wide(a), Wide(b)) { }

  lemma {:induction false} TimesXnAdd(p: bv16, q: bv16, n: nat)
    ensures TimesXn(Add(p, q), n) == Add(TimesXn(p, n), TimesXn(q, n))
  {
    hide Add, TimesX;
    if n > 0 {
      TimesXnAdd(p, q, n - 1);
      TimesXAdd(TimesXn(p, n - 1), TimesXn(q, n - 1));
    }
  }

  lemma {:induction false} TimesXnNext(p: bv16, n: nat)
    ensures TimesXn(TimesX(p), n) == TimesX(TimesXn(p, n))
  {
    hide TimesX;
    if n > 0 { TimesXnNext(p, n - 1); }
  }

  lemma MultipleXor(p: bv8, q: bv8)
    ensures Multiple(Xor(p, q)) == Add(Multiple(p), Multiple(q))
  {
    hide Add, Wide, Xor, TimesX, TimesXn;
    var v, w := Wide(p), Wide(q);
    WideXor(p, q);
    TimesXnAdd(v, w, 1);
    TimesXnAdd(v, w, 3);
    TimesXnAdd(v, w, 4);
    TimesXnAdd(v, w, 8);
    SumsAdd(v, TimesXn(v, 1), TimesXn(v, 3), TimesXn(v, 4), TimesXn(v, 8), w, TimesXn(w, 1), TimesXn(w, 3), TimesXn(w, 4), TimesXn(w, 8));
  }

  lemma SumsAdd(a: bv16, b: bv16, c: bv16, d: bv16, e: bv16, a': bv16, b': bv16, c': bv16, d': bv16, e': bv16)
    ensures Add(Add(Add(Add(Add(a, a'), Add(b, b')), Add(c, c')), Add(d, d')), Add(e, e'))
            == Add(Add(Add(Add(Add(a, b), c), d), e), Add(Add(Add(Add(a', b'), c'), d'), e'))
  {
    hide Add;
    AddSwap(a, b, a', b');
    AddSwap(Add(a, b), c, Add(a', b'), c');
    AddSwap(Add(Add(a, b), c), d, Add(Add(a', b'), c'), d');
    AddSwap(Add(Add(Add(a, b), c), d), e, Add(Add(Add(a', b'), c'), d'), e');
  }

  lemma Zeros() ensures Wide(0) == 0 && Multiple(0) == 0 && Add(0, 0) == 0 { }

  function Shifted(w: bv16, n: nat): bv16
    requires n <= 8
  {
    match n
    case 0 => w case 1 => w << 1 case 2 => w << 2 case 3 => w << 3 case 4 => w << 4
    case 5 => w << 5 case 6 => w << 6 case 7 => w << 7 case _ => w << 8
  }

  lemma ShiftedNext(w: bv16, n: nat)
    requires n < 8
    ensures TimesX(Shifted(w, n)) == Shifted(w, n + 1)
  {
    OneMore(w);
    ThreeMore(w);
    FiveMore(w);
    SevenMore(w);
    hide TimesX;
  }

  lemma OneMore(w: bv16) ensures TimesX(w) == w << 1 && TimesX(w << 1) == w << 2 { }
  lemma ThreeMore(w: bv16) ensures TimesX(w << 2) == w << 3 && TimesX(w << 3) == w << 4 { }
  lemma FiveMore(w: bv16) ensures TimesX(w << 4) == w << 5 && TimesX(w << 5) == w << 6 { }
  lemma SevenMore(w: bv16) ensures TimesX(w << 6) == w << 7 && TimesX(w << 7) == w << 8 { }

  lemma {:induction false} TimesXnShifts(w: bv16, n: nat)
    requires n <= 8
    ensures TimesXn(w, n) == Shifted(w, n)
  {
    if n > 0 {
      hide TimesX, Shifted;
      TimesXnShifts(w, n - 1);
      ShiftedNext(w, n - 1);
    }
  }

  lemma Shifts(w: bv16)
    ensures TimesXn(w, 1) == w << 1 && TimesXn(w, 3) == w << 3 && TimesXn(w, 4) == w << 4 && TimesXn(w, 8) == w << 8
  {
    hide TimesX, TimesXn;
    TimesXnShifts(w, 1);
    TimesXnShifts(w, 3);
    TimesXnShifts(w, 4);
    TimesXnShifts(w, 8);
  }

  /** The reduction polynomial itself. */
  lemma MultipleOne()
    ensures Multiple(1) == 0x11b
  {
    Shifts(1);
    hide TimesXn;
  }

  /** The quotient after another multiplication by x. */
  function NextQuotient(r: bv8, q: bv8): bv8 { (q << 1) ^ if r & 0x80 != 0 then 1 else 0 }

  lemma WideXTime(r: bv8)
    ensures TimesX(Wide(r)) == Add(Wide(XTime(r)), Multiple(if r & 0x80 != 0 then 1 else 0))
  {
    MultipleOne();
    Zeros();
    hide Multiple;
  }

  lemma MultipleX(q: bv8)
    requires q & 0x80 == 0
    ensures TimesX(Multiple(q)) == Multiple(q << 1)
  {
    WideShift(q);
    hide Add, Wide, TimesX, TimesXn;
    var w := Wide(q);
    var w1, w3, w4, w8 := TimesXn(w, 1), TimesXn(w, 3), TimesXn(w, 4), TimesXn(w, 8);
    TimesXnNext(w, 1);
    TimesXnNext(w, 3);
    TimesXnNext(w, 4);
    TimesXnNext(w, 8);
    TimesXAdd(Add(Add(Add(w, w1), w3), w4), w8);
    TimesXAdd(Add(Add(w, w1), w3), w4);
    TimesXAdd(Add(w, w1), w3);
    TimesXAdd(w, w1);
  }

  lemma WideShift(q: bv8)
    requires q & 0x80 == 0
    ensures Wide(q << 1) == TimesX(Wide(q))
  { }

  lemma NextBelow(r: bv8, q: bv8, n: nat)
    requires n < 8 && Below(q, n)
    ensures q & 0x80 == 0 && Below(NextQuotient(r, q), n + 1)
  { }

  lemma NextMultiple(r: bv8, q: bv8)
    requires q & 0x80 == 0
    ensures TimesX(Add(Wide(r), Multiple(q))) == Add(Wide(XTime(r)), Multiple(NextQuotient(r, q)))
  {
    hide Wide, Multiple, XTime, Add, TimesX;
    var c: bv8 := if r & 0x80 != 0 then 1 else 0;
    TimesXAdd(Wide(r), Multiple(q));
    WideXTime(r);
    MultipleX(q);
    MultipleXor(c, q << 1);
    XorIs(c, q << 1);
    AddAssoc(Wide(XTime(r)), Multiple(c), Multiple(q << 1));
  }

  lemma XorIs(a: bv8, b: bv8) ensures Xor(a, b) == b ^ a { }

  /** Multiplying r + q m by b gives gmul's result for r and b plus a multiple of m. */
  lemma {:induction false} Quotient(r: bv8, q: bv8, b: bv8, n: nat) returns (t: bv8)
    requires n <= 8 && Below(q, 8 - n)
    ensures TimesN(Add(Wide(r), Multiple(q)), b, n) == Add(Wide(GMulN(r, b, n)), Multiple(t))
    decreases n
  {
    hide Wide, Multiple, XTime, Add, TimesX, Xor, Odd, Half, Below, NextQuotient;
    Zeros();
    if n == 0 {
      t := 0;
    } else {
      NextBelow(r, q, 8 - n);
      NextMultiple(r, q);
      var t1 := Quotient(XTime(r), NextQuotient(r, q), Half(b), n - 1);
      var g1 := GMulN(XTime(r), Half(b), n - 1);
      if Odd(b) {
        AddSwap(Wide(r), Multiple(q), Wide(g1), Multiple(t1));
        WideXor(r, g1);
        MultipleXor(q, t1);
        t := Xor(q, t1);
      } else {
        XorZero(g1);
        AddZero(Add(Wide(g1), Multiple(t1)));
        t := t1;
      }
    }
  }

  /** gmul's result is the remainder of the product: it differs from it by a multiple of the reduction polynomial, and has
      a degree below 8. */
  lemma GMulIsProduct(a: bv8, b: bv8) returns (q: bv8)
    ensures Product(a, b) == Add(Wide(GMul(a, b)), Multiple(q))
  {
    hide Wide, Multiple, TimesN, GMulN;
    Zeros();
    AddZero(Wide(a));
    q := Quotient(a, 0, b, 8);
  }

  /** The remainder is unique: two bytes that differ by a multiple of the reduction polynomial are equal. */
  lemma RemainderUnique(a: bv8, b: bv8, q: bv8)
    requires Wide(a) == Add(Wide(b), Multiple(q))
    ensures a == b && q == 0
  {
    Shifts(Wide(q));
    hide TimesXn;
  }
}
