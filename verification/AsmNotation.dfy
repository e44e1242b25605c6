/** All the ways of writing an instruction: letter case, suffixes of mnemonics, register names, decimal and hexadecimal
    numbers, blanks and comments. */
module AsmNotation {
  import opened Basics
  import opened AsmCode
  import opened AsmText
  import opened AsmListing

  // ---- hexadecimal numbers ----

  function HexDigit(d: nat, upper: bool): char
    requires d < 16
  {
    if d < 10 then '0' + d as char else if upper then 'A' + (d - 10) as char else 'a' + (d - 10) as char
  }

  function HexNat(n: nat, upper: bool): string {
    if n < 16 then [HexDigit(n, upper)] else HexNat(n / 16, upper) + [HexDigit(n % 16, upper)]
  }

  /** A sign, 0x or 0X, and the digits in either case. */
  function Hex(v: int, upperX: bool, upper: bool): string {
    (if v < 0 then "-" else "") + (if upperX then "0X" else "0x") + HexNat(if v < 0 then -v else v, upper)
  }

  lemma HexDigitValue(d: nat, upper: bool)
    requires d < 16
    ensures Digit(HexDigit(d, upper), true) == d && InArgument(HexDigit(d, upper))
  { }

  lemma {:induction false} HexValue(n: nat, upper: bool)
    ensures Digits(HexNat(n, upper), true) && HexNat(n, upper) != "" && ValueOf(HexNat(n, upper), true) == n
    ensures forall k :: 0 <= k < |HexNat(n, upper)| ==> InArgument(HexNat(n, upper)[k])
    decreases n
  {
    hide Digit, HexDigit;
    var s := HexNat(n, upper);
    HexDigitValue(n % 16, upper);
    if n >= 16 {
      HexValue(n / 16, upper);
      assert s[..|s| - 1] == HexNat(n / 16, upper) && s[|s| - 1] == HexDigit(n % 16, upper);
    } else {
      assert s[..|s| - 1] == "";
    }
  }

  /** Every number in hexadecimal denotes itself, in upper and lower case and with a sign. */
  lemma HexWritten(v: int, upperX: bool, upper: bool)
    ensures Written(Hex(v, upperX, upper)) == v
  {
    var n := if v < 0 then -v else v;
    var s, from := Hex(v, upperX, upper), if v < 0 then 3 else 2;
    HexValue(n, upper);
    hide HexNat, SpanEnd, Digit, ValueOf;
    assert s[from..] == HexNat(n, upper);
    assert s[from - 2] == '0' && (s[from - 1] == 'x' || s[from - 1] == 'X') && (v < 0 ==> s[0] == '-');
    SpanIs(s, IsBlank, 0, 0, |s|);
    NumeralReads(s, from, from, true);
    assert s[from..from] == "";
    EmptyValue();
  }

  lemma EmptyValue()
    ensures ValueOf("", true) == 0
  { }

  lemma {:induction false} HexLength(n: nat, k: nat, bound: nat, upper: bool)
    requires n < bound && bound == Pow16(k) && k > 0
    ensures |HexNat(n, upper)| <= k
    decreases k
  {
    hide HexDigit;
    if n >= 16 {
      if k > 1 { HexLength(n / 16, k - 1, Pow16(k - 1), upper); }
    }
  }

  function Pow16(k: nat): nat { if k == 0 then 1 else 16 * Pow16(k - 1) }

  lemma Pow16Is()
    ensures Pow16(16) == TWO64
  {
    assert Pow16(4) == 0x1_0000;
    assert Pow16(8) == 0x1_0000_0000;
    assert Pow16(12) == 0x1_0000_0000_0000;
  }

  // ---- operands ----

  /** The two names of a register, and the ways of writing a number. */
  predicate RegText(t: string, r: reg) { t == RegisterName(r) || (r < 8 && t == "e" + RegisterName(r)[1..]) }

  predicate NumText(t: string, v: int) {
    t == Decimal(v) || t == Hex(v, false, false) || t == Hex(v, false, true) || t == Hex(v, true, false) || t == Hex(v, true, true)
  }

  /** Characters of an operand, at most 63 of them. */
  predicate Argument(t: string) { |t| <= 63 && forall k :: 0 <= k < |t| ==> InArgument(t[k]) }

  lemma RegTextRead(t: string, r: reg)
    requires RegText(t, r)
    ensures ParseRegister(t) == r && Argument(t) && t != ""
  {
    SpanIs(t, IsBlank, 0, 0, |t|);
    hide SpanEnd;
    if t == RegisterName(r) { RegisterRead(r); }
  }

  lemma NumTextRead(t: string, v: int)
    requires NumText(t, v) && -TWO63 <= v < TWO63
    ensures ParseImmediate(t) == v && ParseRegister(t) == -1 && Argument(t) && t != ""
  {
    WrapKeeps(v);
    hide Written, Wrap64, ParseRegister, Decimal, Hex;
    if t == Decimal(v) {
      DecimalWritten(v);
      DecimalOperand(v);
    } else if t == Hex(v, false, false) {
      HexOperand(v, false, false);
    } else if t == Hex(v, false, true) {
      HexOperand(v, false, true);
    } else if t == Hex(v, true, false) {
      HexOperand(v, true, false);
    } else {
      HexOperand(v, true, true);
    }
  }

  lemma HexShort(v: int, upper: bool)
    requires -TWO63 <= v < TWO63
    ensures |HexNat(if v < 0 then -v else v, upper)| <= 16
  {
    Pow16Is();
    HexLength(if v < 0 then -v else v, 16, Pow16(16), upper);
    hide HexNat;
  }

  lemma HexArgument(v: int, upperX: bool, upper: bool)
    requires -TWO63 <= v < TWO63
    ensures Argument(Hex(v, upperX, upper))
  {
    var n, s := if v < 0 then -v else v, Hex(v, upperX, upper);
    HexValue(n, upper);
    HexShort(v, upper);
    hide HexNat, ValueOf, Digit;
    var from := if v < 0 then 3 else 2;
    forall k | 0 <= k < |s| ensures InArgument(s[k]) {
      if k >= from { assert s[k] == HexNat(n, upper)[k - from]; }
    }
  }

  lemma HexOperand(v: int, upperX: bool, upper: bool)
    requires -TWO63 <= v < TWO63
    ensures Written(Hex(v, upperX, upper)) == v && ParseRegister(Hex(v, upperX, upper)) == -1
    ensures Argument(Hex(v, upperX, upper)) && Hex(v, upperX, upper) != ""
  {
    HexWritten(v, upperX, upper);
    HexArgument(v, upperX, upper);
    hide HexNat, Written, ParseRegister, Argument;
    NotRegister(Hex(v, upperX, upper));
  }

  /** The operand texts are those of the instruction. */
  predicate Operands(i: Instr, arg1: string, arg2: string) {
    match i
    case RegReg(_, dst, src) => RegText(arg1, dst) && RegText(arg2, src)
    case RegImm8(_, r, imm) => RegText(arg1, r) && NumText(arg2, imm)
    case OneReg(_, r) => RegText(arg1, r)
    case MovImm32(r, imm) => RegText(arg1, r) && NumText(arg2, imm)
    case MovRaxImm64(imm) => RegText(arg1, 0) && NumText(arg2, imm)
    case Push(r) => RegText(arg1, r)
    case Pop(r) => RegText(arg1, r)
    case CallRel(imm) => NumText(arg1, imm)
    case _ => true
  }

  // ---- mnemonics ----

  predicate Prefixed(m: string, name: string) { |name| <= |m| && m[..|name|] == name }

  function NameOf(i: Instr): string {
    match i
    case RegReg(a, _, _) => AluName(a)
    case RegImm8(g, _, _) => GroupName(g)
    case OneReg(u, _) => UnaryName(u)
    case MovImm32(_, _) => "mov"
    case MovRaxImm64(_) => "mov"
    case Push(_) => "push"
    case Pop(_) => "pop"
    case CallRel(_) => "call"
    case Syscall => "syscall"
    case Ret => "ret"
    case Nop => "nop"
  }

  function MnemonicOf(i: Instr): Mnemonic {
    match i
    case RegReg(a, _, _) => AluM(a)
    case RegImm8(g, _, _) => (match g case AddImm => AluM(Add) case SubImm => AluM(Sub) case CmpImm => AluM(Cmp) case _ => ShiftM(g))
    case OneReg(u, _) => if u == CallReg then CallM else UnaryM(u)
    case MovImm32(_, _) => AluM(Mov)
    case MovRaxImm64(_) => AluM(Mov)
    case Push(_) => PushM
    case Pop(_) => PopM
    case CallRel(_) => CallM
    case Syscall => SyscallM
    case Ret => RetM
    case Nop => NopM
  }

  lemma PrefixChars(m: string, name: string)
    requires Prefixed(m, name)
    ensures forall k :: 0 <= k < |name| ==> m[k] == name[k]
  {
    forall k | 0 <= k < |name| ensures m[k] == name[k] { assert m[k] == m[..|name|][k]; }
  }

  /** A mnemonic counts by its beginning: whatever follows the name of an instruction is ignored. */
  lemma LookupPrefix(m: string, i: Instr)
    requires Prefixed(m, NameOf(i))
    ensures Lookup(m) == Some(MnemonicOf(i))
  {
    PrefixChars(m, NameOf(i));
    hide Prefixed;
  }

  /** The table of mnemonics. */
  lemma AluMnemonics()
    ensures Lookup("mov") == Some(AluM(Mov)) && Lookup("add") == Some(AluM(Add)) && Lookup("sub") == Some(AluM(Sub))
    ensures Lookup("xor") == Some(AluM(Xor)) && Lookup("or") == Some(AluM(Or)) && Lookup("and") == Some(AluM(And))
    ensures Lookup("cmp") == Some(AluM(Cmp))
  { }

  lemma OtherMnemonics()
    ensures Lookup("shl") == Some(ShiftM(Shl)) && Lookup("shr") == Some(ShiftM(Shr)) && Lookup("inc") == Some(UnaryM(Inc))
    ensures Lookup("dec") == Some(UnaryM(Dec)) && Lookup("neg") == Some(UnaryM(Neg)) && Lookup("not") == Some(UnaryM(Not))
    ensures Lookup("call") == Some(CallM) && Lookup("push") == Some(PushM) && Lookup("pop") == Some(PopM)
  { }

  /** The table of registers. */
  lemma RegisterNumbers()
    ensures ParseRegister("rax") == 0 && ParseRegister("rcx") == 1 && ParseRegister("rdx") == 2 && ParseRegister("rbx") == 3
    ensures ParseRegister("rsp") == 4 && ParseRegister("rbp") == 5 && ParseRegister("rsi") == 6 && ParseRegister("rdi") == 7
  {
    hide ParseRegister;
    RegisterRead(0);
    RegisterRead(1);
    RegisterRead(2);
    RegisterRead(3);
    RegisterRead(4);
    RegisterRead(5);
    RegisterRead(6);
    RegisterRead(7);
  }

  // ---- layout ----

  /** A line with its pieces at these places: blanks up to i0, a mnemonic, blanks from i1 to i2, an operand, blanks and commas
      from i3 to i4, an operand up to i5, and then the end or a character that ends an operand. */
  predicate Laid(s: string, i0: nat, i1: nat, i2: nat, i3: nat, i4: nat, i5: nat) {
    && i0 < i1 <= i2 <= i3 <= i4 <= i5 <= |s| && i1 - i0 <= 31 && i3 - i2 <= 63 && i5 - i4 <= 63
    && (forall j :: 0 <= j < i0 ==> IsBlank(s[j]))
    && (forall j :: i0 <= j < i1 ==> InMnemonic(s[j])) && s[i0] != ';' && s[i0] != '#'
    && (i1 == |s| || IsBlank(s[i1])) && (forall j :: i1 <= j < i2 ==> IsBlank(s[j])) && (i2 == |s| || !IsBlank(s[i2]))
    && (forall j :: i2 <= j < i3 ==> InArgument(s[j])) && (i3 == |s| || !InArgument(s[i3]))
    && (forall j :: i3 <= j < i4 ==> IsSeparator(s[j])) && (i4 == |s| || !IsSeparator(s[i4]))
    && (forall j :: i4 <= j < i5 ==> InArgument(s[j])) && (i5 == |s| || !InArgument(s[i5]))
  }

  lemma LaidFields(s: string, i0: nat, i1: nat, i2: nat, i3: nat, i4: nat, i5: nat)
    requires Laid(s, i0, i1, i2, i3, i4, i5)
    ensures SpanEnd(s, IsBlank, 0, |s|) == i0 && !IsEmptyAt(s, i0)
    ensures FieldsOf(s, i0) == Fields(Lower(s[i0..i1]), s[i2..i3], s[i4..i5])
  {
    hide SpanEnd, Lower;
    SpanIs(s, IsBlank, 0, i0, |s|);
    SpanIs(s, InMnemonic, i0, i1, 31);
    SpanIs(s, IsBlank, i1, i2, |s|);
    SpanIs(s, InArgument, i2, i3, 63);
    SpanIs(s, IsSeparator, i3, i4, |s|);
    SpanIs(s, InArgument, i4, i5, 63);
  }

  /** However it is laid out and written, a line with the name of an instruction, in any letter case and with anything
      behind it, and with its operands, stands for that instruction. */
  lemma AnyNotation(s: string, i0: nat, i1: nat, i2: nat, i3: nat, i4: nat, i5: nat, i: Instr)
    requires Assemblable(i) && Laid(s, i0, i1, i2, i3, i4, i5)
    requires Prefixed(Lower(s[i0..i1]), NameOf(i)) && Operands(i, s[i2..i3], s[i4..i5])
    ensures LineMeaning(s) == Does(i)
  {
    LaidFields(s, i0, i1, i2, i3, i4, i5);
    LookupPrefix(Lower(s[i0..i1]), i);
    OperandsMean(i, s[i2..i3], s[i4..i5]);
    hide Laid, SpanEnd, Lower, FieldsOf, Lookup, Instruction, Operands, Prefixed, IsEmptyAt;
  }

  lemma OperandsMean(i: Instr, arg1: string, arg2: string)
    requires Assemblable(i) && Operands(i, arg1, arg2)
    ensures Instruction(MnemonicOf(i), arg1, arg2) == Some(i)
  {
    hide RegText, NumText, ParseRegister, ParseImmediate, Argument;
    match i
    case RegReg(_, dst, src) => RegTextRead(arg1, dst); RegTextRead(arg2, src);
    case RegImm8(_, r, imm) => RegTextRead(arg1, r); NumTextRead(arg2, imm);
    case OneReg(_, r) => RegTextRead(arg1, r);
    case MovImm32(r, imm) => RegTextRead(arg1, r); NumTextRead(arg2, imm);
    case MovRaxImm64(imm) => RegTextRead(arg1, 0); NumTextRead(arg2, imm);
    case Push(r) => RegTextRead(arg1, r);
    case Pop(r) => RegTextRead(arg1, r);
    case CallRel(imm) => NumTextRead(arg1, imm);
    case _ =>
  }

  /** A line of blanks, or of blanks and a comment, stands for nothing. */
  lemma CommentMeansNothing(s: string, i0: nat)
    requires i0 <= |s| && (forall j :: 0 <= j < i0 ==> IsBlank(s[j])) && (i0 == |s| || s[i0] == ';' || s[i0] == '#')
    ensures LineMeaning(s) == Nothing
  {
    SpanIs(s, IsBlank, 0, i0, |s|);
    hide SpanEnd;
  }

  /** A line of more than 255 characters is cut there, and the rest is read as a line of its own. */
  lemma LongLineCut(text: string, at: nat)
    requires at + 255 < |text| && forall j :: at <= j <= at + 255 ==> InLine(text[j])
    ensures Lines(text, at) == [text[at..at + 255]] + Lines(text, at + 255)
  {
    SpanIs(text, InLine, at, at + 255, 255);
  }

  /** A mnemonic is cut to 31 characters. */
  lemma LongMnemonicCut(s: string)
    requires |s| >= 31 && forall j :: 0 <= j < 31 ==> InMnemonic(s[j])
    ensures FieldsOf(s, 0).mnemonic == Lower(s[..31])
  {
    hide Lower;
    SpanIs(s, InMnemonic, 0, 31, 31);
    assert s[0..31] == s[..31];
  }

  // ---- hexadecimal listings ----

  /** Mnemonic and operands of an instruction, numbers in hexadecimal. */
  function HexParts(i: Instr, upperX: bool, upper: bool): Fields {
    match i
    case RegImm8(g, r, imm) => Fields(GroupName(g), RegisterName(r), Hex(imm, upperX, upper))
    case MovImm32(r, imm) => Fields("mov", RegisterName(r), Hex(imm, upperX, upper))
    case MovRaxImm64(imm) => Fields("mov", "rax", Hex(imm, upperX, upper))
    case CallRel(imm) => Fields("call", Hex(imm, upperX, upper), "")
    case _ => Parts(i)
  }

  function HexPrint(i: Instr, upperX: bool, upper: bool): string {
    var p := HexParts(i, upperX, upper);
    Line(p.mnemonic, p.arg1, p.arg2)
  }

  lemma HexPartsAre(i: Instr, upperX: bool, upper: bool)
    ensures var p := HexParts(i, upperX, upper);
            p.mnemonic == NameOf(i) && Operands(i, p.arg1, p.arg2) && (p.arg1 == "" ==> p.arg2 == "")
  {
    hide Hex, Decimal;
  }

  lemma NumTextFits(t: string, v: int)
    requires NumText(t, v) && -TWO63 <= v < TWO63
    ensures Argument(t)
  {
    hide NumText, Argument;
    NumTextRead(t, v);
  }

  lemma OperandsFit(i: Instr, arg1: string, arg2: string)
    requires Assemblable(i) && Operands(i, arg1, arg2)
    ensures !(i.Syscall? || i.Ret? || i.Nop?) ==> Argument(arg1)
    ensures i.RegReg? || i.RegImm8? || i.MovImm32? || i.MovRaxImm64? ==> Argument(arg2)
  {
    hide RegText, NumText, ParseRegister, ParseImmediate, Argument;
    match i
    case RegReg(_, dst, src) => RegTextRead(arg1, dst); RegTextRead(arg2, src);
    case RegImm8(_, r, imm) => RegTextRead(arg1, r); NumTextFits(arg2, imm);
    case OneReg(_, r) => RegTextRead(arg1, r);
    case MovImm32(r, imm) => RegTextRead(arg1, r); NumTextFits(arg2, imm);
    case MovRaxImm64(imm) => RegTextRead(arg1, 0); NumTextFits(arg2, imm);
    case Push(r) => RegTextRead(arg1, r);
    case Pop(r) => RegTextRead(arg1, r);
    case CallRel(imm) => NumTextFits(arg1, imm);
    case _ =>
  }

  lemma LineLaid(m: string, arg1: string, arg2: string, i2: nat, i3: nat, i4: nat)
    requires Name(m) && Argument(arg1) && Argument(arg2) && (arg1 == "" ==> arg2 == "")
    requires i2 == (if arg1 == "" then |m| else |m| + 1)
    requires i3 == i2 + |arg1| && i4 == if arg2 == "" then i3 else i3 + 2
    ensures var s := Line(m, arg1, arg2);
            && Laid(s, 0, |m|, i2, i3, i4, |s|) && s[0..|m|] == m && s[i2..i3] == arg1 && s[i4..|s|] == arg2
  {
    var s := Line(m, arg1, arg2);
    LineLaidOut(m, arg1, arg2, |m|, i2, i3, i4);
    hide Line;
    assert s[0..|m|] == s[..|m|] && s[i4..|s|] == s[i4..];
    forall j | 0 <= j < |m| ensures s[j] == m[j] { assert s[j] == s[..|m|][j]; }
    forall j | i2 <= j < i3 ensures s[j] == arg1[j - i2] { assert s[j] == s[i2..i3][j - i2]; }
    forall j | i4 <= j < |s| ensures s[j] == arg2[j - i4] { assert s[j] == s[i4..][j - i4]; }
  }

  lemma NameOfPlain(i: Instr)
    ensures Name(NameOf(i)) && Prefixed(Lower(NameOf(i)), NameOf(i))
  { }

  /** Every assemblable instruction is the meaning of its own listing in hexadecimal, in either case. */
  lemma HexPrintMeans(i: Instr, upperX: bool, upper: bool)
    requires Assemblable(i)
    ensures LineMeaning(HexPrint(i, upperX, upper)) == Does(i)
  {
    var p := HexParts(i, upperX, upper);
    HexPartsAre(i, upperX, upper);
    NameOfPlain(i);
    OperandsFit(i, p.arg1, p.arg2);
    HexOthers(i, upperX, upper);
    hide HexParts, Operands, Laid, Argument, Line, LineMeaning, Prefixed, Assemblable, Name, NameOf;
    var i2 := if p.arg1 == "" then |p.mnemonic| else |p.mnemonic| + 1;
    var i3 := i2 + |p.arg1|;
    var i4 := if p.arg2 == "" then i3 else i3 + 2;
    LineLaid(p.mnemonic, p.arg1, p.arg2, i2, i3, i4);
    var s := Line(p.mnemonic, p.arg1, p.arg2);
    AnyNotation(s, 0, |p.mnemonic|, i2, i3, i4, |s|, i);
  }

  lemma HexOthers(i: Instr, upperX: bool, upper: bool)
    ensures Argument("")
    ensures i.Syscall? || i.Ret? || i.Nop? ==> HexParts(i, upperX, upper).arg1 == ""
    ensures !(i.RegReg? || i.RegImm8? || i.MovImm32? || i.MovRaxImm64?) ==> HexParts(i, upperX, upper).arg2 == ""
  { }

  /** A hexadecimal operand is read in base 16. */
  lemma HexExample()
    ensures Written("0x10") == 16 && Written("-0XfF") == -255
  {
    assert "0x10" == Hex(16, false, false) by { assert HexNat(1, false) == "1"; }
    HexWritten(16, false, false);
    var s := "-0XfF";
    SpanIs(s, IsBlank, 0, 0, |s|);
    hide SpanEnd;
    assert Numeral(s, 4, true, 15) == 255;
  }
}
