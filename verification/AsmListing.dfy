/** Listings: a line for every instruction, and the proof that the assembler reads it as that instruction. */
module AsmListing {
  import opened Basics
  import opened AsmCode
  import opened AsmText

  // ---- printing ----

  function RegisterName(r: reg): string {
    match r
    case 0 => "rax" case 1 => "rcx" case 2 => "rdx" case 3 => "rbx" case 4 => "rsp" case 5 => "rbp" case 6 => "rsi" case 7 => "rdi"
    case 8 => "r8" case 9 => "r9" case 10 => "r10" case 11 => "r11" case 12 => "r12" case 13 => "r13" case 14 => "r14" case _ => "r15"
  }

  function DigitChar(d: nat): char
    requires d < 10
  {
    '0' + d as char
  }

  function DecimalNat(n: nat): string { if n < 10 then [DigitChar(n)] else DecimalNat(n / 10) + [DigitChar(n % 10)] }

  function Decimal(v: int): string { if v < 0 then "-" + DecimalNat(-v) else DecimalNat(v) }

  function AluName(a: Alu): string {
    match a case Mov => "mov" case Add => "add" case Sub => "sub" case Xor => "xor" case Or => "or" case And => "and" case Cmp => "cmp"
  }

  function GroupName(g: Group): string {
    match g case AddImm => "add" case SubImm => "sub" case CmpImm => "cmp" case Shl => "shl" case Shr => "shr"
  }

  function UnaryName(u: Unary): string {
    match u case Inc => "inc" case Dec => "dec" case Neg => "neg" case Not => "not" case CallReg => "call"
  }

  function Line(m: string, arg1: string, arg2: string): string {
    if arg1 == "" then m else if arg2 == "" then m + " " + arg1 else m + " " + arg1 + ", " + arg2
  }

  /** Mnemonic and operands of an instruction. */
  function Parts(i: Instr): Fields {
    match i
    case RegReg(a, dst, src) => Fields(AluName(a), RegisterName(dst), RegisterName(src))
    case RegImm8(g, r, imm) => Fields(GroupName(g), RegisterName(r), Decimal(imm))
    case OneReg(u, r) => Fields(UnaryName(u), RegisterName(r), "")
    case MovImm32(r, imm) => Fields("mov", RegisterName(r), Decimal(imm))
    case MovRaxImm64(imm) => Fields("mov", "rax", Decimal(imm))
    case Push(r) => Fields("push", RegisterName(r), "")
    case Pop(r) => Fields("pop", RegisterName(r), "")
    case CallRel(imm) => Fields("call", Decimal(imm), "")
    case Syscall => Fields("syscall", "", "")
    case Ret => Fields("ret", "", "")
    case Nop => Fields("nop", "", "")
  }

  function Print(i: Instr): string { var p := Parts(i); Line(p.mnemonic, p.arg1, p.arg2) }

  // ---- fields ----

  predicate Plain(s: string) { forall k :: 0 <= k < |s| ==> InArgument(s[k]) && !('A' <= s[k] <= 'Z') }

  lemma SpanIs(s: string, p: char -> bool, i: nat, k: nat, limit: nat)
    requires i <= k <= |s| && k - i <= limit
    requires forall j :: i <= j < k ==> p(s[j])
    requires k == |s| || k - i == limit || !p(s[k])
    ensures SpanEnd(s, p, i, limit) == k
  {
  }

  /** A line laid out as mnemonic, blank, operand, comma and blank, operand, with the ends of the four runs. */
  predicate LaidOut(s: string, m: string, arg1: string, arg2: string, i1: nat, i2: nat, i3: nat, i4: nat) {
    && 0 < i1 == |m| <= i2 && i3 == i2 + |arg1| <= i4 && |s| == i4 + |arg2|
    && s[..i1] == m && s[i2..i3] == arg1 && s[i4..] == arg2
    && (forall j :: i1 <= j < i2 ==> s[j] == ' ')
    && (forall j :: i3 <= j < i4 ==> IsSeparator(s[j]))
    && (i1 == i2 ==> i1 == |s|) && (i2 == i3 ==> i2 == |s|) && (i3 == i4 ==> i3 == |s|)
  }

  lemma LineLaidOut(m: string, arg1: string, arg2: string, i1: nat, i2: nat, i3: nat, i4: nat)
    requires m != "" && (arg1 == "" ==> arg2 == "")
    requires i1 == |m| && i2 == (if arg1 == "" then i1 else i1 + 1)
    requires i3 == i2 + |arg1| && i4 == if arg2 == "" then i3 else i3 + 2
    ensures LaidOut(Line(m, arg1, arg2), m, arg1, arg2, i1, i2, i3, i4)
  { }

  lemma LaidOutFields(s: string, m: string, arg1: string, arg2: string, i1: nat, i2: nat, i3: nat, i4: nat)
    requires LaidOut(s, m, arg1, arg2, i1, i2, i3, i4)
    requires Plain(m) && |m| <= 31 && Plain(arg1) && |arg1| <= 63 && Plain(arg2) && |arg2| <= 63
    ensures SpanEnd(s, IsBlank, 0, |s|) == 0 && !IsEmptyAt(s, 0)
    ensures FieldsOf(s, 0) == Fields(m, arg1, arg2)
  {
    assert s[0] == m[0] && s[..i1] == s[0..i1];
    NameSpan(s, 0, i1, m);
    if i2 < |s| { assert s[i2] == s[i2..i3][0]; }
    OperandSpan(s, i2, i3, arg1);
    if i4 < |s| { assert s[i4] == s[i4..][0]; }
    assert s[i4..|s|] == arg2;
    OperandSpan(s, i4, |s|, arg2);
    assert Lower(m) == m;
    hide SpanEnd;
    SpanIs(s, IsBlank, 0, 0, |s|);
    SpanIs(s, IsBlank, i1, i2, |s|);
    SpanIs(s, IsSeparator, i3, i4, |s|);
  }

  lemma NameSpan(s: string, i: nat, k: nat, part: string)
    requires i <= k <= |s| && s[i..k] == part && Plain(part) && |part| <= 31 && (k == |s| || IsBlank(s[k]))
    ensures SpanEnd(s, InMnemonic, i, 31) == k
  {
    forall j | i <= j < k ensures InMnemonic(s[j]) { assert s[j] == part[j - i]; }
    SpanIs(s, InMnemonic, i, k, 31);
  }

  lemma OperandSpan(s: string, i: nat, k: nat, part: string)
    requires i <= k <= |s| && s[i..k] == part && Plain(part) && |part| <= 63 && (k == |s| || IsSeparator(s[k]))
    ensures SpanEnd(s, InArgument, i, 63) == k
  {
    forall j | i <= j < k ensures InArgument(s[j]) { assert s[j] == part[j - i]; }
    SpanIs(s, InArgument, i, k, 63);
  }

  /** A printed line is taken apart into what it was made of. */
  lemma LineFields(m: string, arg1: string, arg2: string)
    requires m != "" && Plain(m) && |m| <= 31
    requires Plain(arg1) && |arg1| <= 63 && Plain(arg2) && |arg2| <= 63
    requires arg1 == "" ==> arg2 == ""
    ensures var s := Line(m, arg1, arg2);
            && SpanEnd(s, IsBlank, 0, |s|) == 0 && !IsEmptyAt(s, 0)
            && FieldsOf(s, 0) == Fields(m, arg1, arg2)
  {
    hide LaidOut, Plain, Line, FieldsOf, SpanEnd, IsEmptyAt;
    var i2 := if arg1 == "" then |m| else |m| + 1;
    var i3 := i2 + |arg1|;
    var i4 := if arg2 == "" then i3 else i3 + 2;
    LineLaidOut(m, arg1, arg2, |m|, i2, i3, i4);
    LaidOutFields(Line(m, arg1, arg2), m, arg1, arg2, |m|, i2, i3, i4);
  }

  // ---- registers ----

  lemma RegisterRead(r: reg)
    ensures ParseRegister(RegisterName(r)) == r && Operand(RegisterName(r)) && RegisterName(r) != ""
  {
    var s := RegisterName(r);
    SpanIs(s, IsBlank, 0, 0, |s|);
  }

  // ---- numbers ----

  predicate Digits(s: string, hex: bool) { forall k :: 0 <= k < |s| ==> Digit(s[k], hex) >= 0 }

  function ValueOf(s: string, hex: bool): nat
    requires Digits(s, hex)
  {
    if s == "" then 0 else ValueOf(s[..|s| - 1], hex) * Base(hex) + Digit(s[|s| - 1], hex)
  }

  lemma {:induction false} DecimalValue(n: nat)
    ensures Digits(DecimalNat(n), false) && DecimalNat(n) != "" && ValueOf(DecimalNat(n), false) == n
  {
    if n >= 10 {
      DecimalValue(n / 10);
      var s := DecimalNat(n);
      assert s[..|s| - 1] == DecimalNat(n / 10) && s[|s| - 1] == DigitChar(n % 10);
    } else {
      var s := DecimalNat(n);
      assert s[..|s| - 1] == "";
    }
  }

  lemma ValueNext(s: string, from: nat, i: nat, hex: bool)
    requires from <= i < |s| && Digits(s[from..], hex)
    ensures Digits(s[from..i], hex) && Digits(s[from..i + 1], hex) && Digit(s[i], hex) >= 0
    ensures ValueOf(s[from..i + 1], hex) == ValueOf(s[from..i], hex) * Base(hex) + Digit(s[i], hex)
  {
    hide Digit, Base;
    forall k | 0 <= k < i + 1 - from ensures s[from..i + 1][k] == s[from..][k] { }
    forall k | 0 <= k < i - from ensures s[from..i][k] == s[from..][k] { }
    assert s[i] == s[from..][i - from];
    assert s[from..i + 1][..i - from] == s[from..i] && s[from..i + 1][i - from] == s[i];
  }

  /** Reading on from inside a numeral gives its value. */
  lemma {:induction false} NumeralReads(s: string, from: nat, i: nat, hex: bool)
    requires from <= i <= |s| && Digits(s[from..], hex)
    ensures Digits(s[from..i], hex) && Numeral(s, i, hex, ValueOf(s[from..i], hex)) == ValueOf(s[from..], hex)
    decreases |s| - i
  {
    hide Digit, Base, ValueOf, Digits;
    if i < |s| {
      ValueNext(s, from, i, hex);
      NumeralReads(s, from, i + 1, hex);
    } else {
      assert s[from..i] == s[from..];
    }
  }

  lemma {:induction false} DecimalLength(n: nat, k: nat, bound: nat)
    requires n < bound && bound == Pow10(k) && k > 0
    ensures |DecimalNat(n)| <= k
  {
    if n >= 10 {
      if k > 1 { DecimalLength(n / 10, k - 1, Pow10(k - 1)); }
    }
  }

  function Pow10(k: nat): nat { if k == 0 then 1 else 10 * Pow10(k - 1) }

  lemma Pow10Twenty()
    ensures Pow10(20) == 100_000_000_000_000_000_000
  {
    assert Pow10(5) == 100_000;
    assert Pow10(10) == 10_000_000_000;
    assert Pow10(15) == 1_000_000_000_000_000;
  }

  /** Every number in decimal denotes itself. */
  lemma DecimalWritten(v: int)
    ensures Written(Decimal(v)) == v
  {
    var s, from := Decimal(v), if v < 0 then 1 else 0;
    DecimalText(v);
    hide Decimal, DecimalNat, SpanEnd;
    SpanIs(s, IsBlank, 0, 0, |s|);
    NumeralReads(s, from, from, false);
    assert s[from..from] == "";
    assert s[from] == s[from..][0];
    if from + 1 < |s| { assert s[from + 1] == s[from..][1]; }
    assert !HexAt(s, from);
  }

  /** A number in decimal is read back exactly when it fits 64 bits. */
  lemma DecimalRead(v: int)
    ensures ParseImmediate(Decimal(v)) == v <==> -TWO63 <= v < TWO63
  {
    hide Written, Decimal;
    DecimalWritten(v);
    WrapKeeps(v);
  }

  /** A numeral of more than 64 bits for rax: 2^64 + 1 is assembled as 1. */
  lemma LongNumeral()
    ensures Instruction(AluM(Mov), "rax", Decimal(TWO64 + 1)) == Some(MovImm32(0, 1))
  {
    var s := Decimal(TWO64 + 1);
    RegisterRead(0);
    RaxName();
    DecimalWritten(TWO64 + 1);
    DecimalText(TWO64 + 1);
    hide Decimal, Written, RegisterName, ParseRegister;
    assert s[0] == s[0..][0];
    NotRegister(s);
  }

  /** The text of a number: a sign if it is negative, then the digits of its value. */
  lemma DecimalText(v: int)
    ensures var s := Decimal(v);
            var from := if v < 0 then 1 else 0;
            && from < |s| && (At(s, 0) == '-' <==> v < 0) && At(s, 0) != ' ' && At(s, 0) != '\t'
            && Digits(s[from..], false) && ValueOf(s[from..], false) == if v < 0 then -v else v
  {
    var n := if v < 0 then -v else v;
    DecimalValue(n);
    hide DecimalNat, ValueOf;
    assert Decimal(v)[if v < 0 then 1 else 0..] == DecimalNat(n);
  }

  lemma DecimalShort(v: int)
    requires -TWO63 <= v < TWO63
    ensures |Decimal(v)| <= 21
  {
    Pow10Twenty();
    DecimalLength(if v < 0 then -v else v, 20, Pow10(20));
    hide DecimalNat;
  }

  lemma NotRegister(s: string)
    requires s != "" && (s[0] == '-' || '0' <= s[0] <= '9')
    ensures ParseRegister(s) == -1
  {
    hide SpanEnd, NamedRegister;
    SpanIs(s, IsBlank, 0, 0, |s|);
  }

  /** A text that can stand as an operand. */
  predicate Operand(s: string) { Plain(s) && |s| <= 63 }

  lemma DecimalOperand(v: int)
    requires -TWO63 <= v < TWO63
    ensures ParseRegister(Decimal(v)) == -1 && Operand(Decimal(v)) && Decimal(v) != ""
  {
    var s, from := Decimal(v), if v < 0 then 1 else 0;
    DecimalText(v);
    DecimalShort(v);
    hide Decimal, SpanEnd, ValueOf, ParseRegister;
    assert s[from] == s[from..][0];
    NotRegister(s);
    forall k | 0 <= k < |s| ensures InArgument(s[k]) && !('A' <= s[k] <= 'Z') {
      if k >= from { assert s[k] == s[from..][k - from]; }
    }
  }

  // ---- round trip ----

  /** A text that can stand as a mnemonic. */
  predicate Name(s: string) { s != "" && Plain(s) && |s| <= 31 }

  lemma AluLookup(a: Alu)
    ensures Name(AluName(a)) && Lookup(AluName(a)) == Some(AluM(a))
  { }

  lemma GroupLookup(g: Group)
    ensures Name(GroupName(g))
    ensures Lookup(GroupName(g)) ==
            Some(match g case AddImm => AluM(Add) case SubImm => AluM(Sub) case CmpImm => AluM(Cmp) case _ => ShiftM(g))
  { }

  lemma UnaryLookup(u: Unary)
    ensures Name(UnaryName(u)) && Lookup(UnaryName(u)) == Some(if u == CallReg then CallM else UnaryM(u))
  { }

  lemma OtherLookup()
    ensures Name("push") && Lookup("push") == Some(PushM)
    ensures Name("pop") && Lookup("pop") == Some(PopM)
    ensures Name("call") && Lookup("call") == Some(CallM)
    ensures Name("mov") && Lookup("mov") == Some(AluM(Mov))
  { }

  lemma BareLookup()
    ensures Name("syscall") && Lookup("syscall") == Some(SyscallM)
    ensures Name("ret") && Lookup("ret") == Some(RetM)
    ensures Name("nop") && Lookup("nop") == Some(NopM)
  { }

  predicate Reads(i: Instr, p: Fields) {
    && Name(p.mnemonic) && Operand(p.arg1) && Operand(p.arg2) && (p.arg1 == "" ==> p.arg2 == "")
    && Lookup(p.mnemonic).Some?
    && Instruction(Lookup(p.mnemonic).value, p.arg1, p.arg2) == Some(i)
  }

  lemma RegRegReads(i: Instr)
    requires i.RegReg?
    ensures Reads(i, Parts(i))
  {
    AluLookup(i.alu);
    RegisterRead(i.dst);
    RegisterRead(i.src);
    hide Plain, Lookup, Name, AluName, RegisterName, ParseRegister, ParseImmediate;
  }

  lemma RegImm8Reads(i: Instr)
    requires i.RegImm8? && Assemblable(i)
    ensures Reads(i, Parts(i))
  {
    hide Plain, Lookup, Name, GroupName, RegisterName, ParseRegister, ParseImmediate, Decimal;
    GroupLookup(i.group);
    RegisterRead(i.r);
    DecimalRead(i.imm);
    DecimalOperand(i.imm);
  }

  lemma MovReads(i: Instr)
    requires (i.MovImm32? || i.MovRaxImm64?) && Assemblable(i)
    ensures Reads(i, Parts(i))
  {
    hide Plain, Lookup, Name, RegisterName, ParseRegister, ParseImmediate, Decimal;
    OtherLookup();
    RegisterRead(if i.MovImm32? then i.r else 0);
    RaxName();
    DecimalRead(i.imm);
    DecimalOperand(i.imm);
  }

  lemma RaxName()
    ensures RegisterName(0) == "rax"
  { }

  lemma OneRegReads(i: Instr)
    requires i.OneReg? || i.Push? || i.Pop?
    ensures Reads(i, Parts(i))
  {
    hide Plain, Lookup, Name, UnaryName, RegisterName, ParseRegister, ParseImmediate;
    if i.OneReg? { UnaryLookup(i.unary); }
    OtherLookup();
    RegisterRead(i.r);
    NoOperand();
  }

  lemma NoOperand()
    ensures Operand("")
  { }

  lemma RestReads(i: Instr)
    requires (i.CallRel? || i.Syscall? || i.Ret? || i.Nop?) && Assemblable(i)
    ensures Reads(i, Parts(i))
  {
    hide Plain, Lookup, Name, ParseRegister, ParseImmediate, Decimal;
    OtherLookup();
    BareLookup();
    NoOperand();
    if i.CallRel? {
      DecimalRead(i.imm);
      DecimalOperand(i.imm);
    }
  }

  lemma PartsRead(i: Instr)
    requires Assemblable(i)
    ensures Reads(i, Parts(i))
  {
    hide Reads, Parts;
    match i
    case RegReg(_, _, _) => RegRegReads(i);
    case RegImm8(_, _, _) => RegImm8Reads(i);
    case MovImm32(_, _) => MovReads(i);
    case MovRaxImm64(_) => MovReads(i);
    case OneReg(_, _) => OneRegReads(i);
    case Push(_) => OneRegReads(i);
    case Pop(_) => OneRegReads(i);
    case _ => RestReads(i);
  }

  /** Every assemblable instruction is the meaning of its own listing. */
  lemma PrintMeans(i: Instr)
    requires Assemblable(i)
    ensures LineMeaning(Print(i)) == Does(i)
  {
    hide Parts, Line, Lookup, Instruction, FieldsOf, SpanEnd, IsEmptyAt, Plain, Assemblable;
    PartsRead(i);
    var p := Parts(i);
    LineFields(p.mnemonic, p.arg1, p.arg2);
  }

  function Printed(prog: seq<Instr>): seq<string> { if prog == [] then [] else [Print(prog[0])] + Printed(prog[1..]) }

  function Listing(prog: seq<Instr>): string { if prog == [] then "" else Print(prog[0]) + "\n" + Listing(prog[1..]) }

  ghost predicate AllAssemblable(prog: seq<Instr>) { forall i <- prog :: Assemblable(i) }

  predicate OneLine(s: string) { 0 < |s| <= 255 && forall k :: 0 <= k < |s| ==> InLine(s[k]) }

  lemma LineInLine(m: string, arg1: string, arg2: string)
    requires Name(m) && Operand(arg1) && Operand(arg2)
    ensures OneLine(Line(m, arg1, arg2))
  { }

  lemma PrintOneLine(i: Instr)
    requires Assemblable(i)
    ensures OneLine(Print(i))
  {
    hide Parts, Line, Lookup, Instruction, Assemblable, OneLine;
    PartsRead(i);
    var p := Parts(i);
    LineInLine(p.mnemonic, p.arg1, p.arg2);
  }

  lemma {:induction false} ListingLines(before: string, prog: seq<Instr>)
    requires AllAssemblable(prog)
    ensures Lines(before + Listing(prog), |before|) == Printed(prog)
    decreases |prog|
  {
    hide Print, SpanEnd, Assemblable, OneLine;
    if prog == [] {
      assert before + Listing(prog) == before;
    } else {
      hide Lines;
      var s := Print(prog[0]);
      PrintOneLine(prog[0]);
      LineBreak(before, s, Listing(prog[1..]));
      ListingLines(before + s + "\n", prog[1..]);
    }
  }

  lemma LineBreak(before: string, s: string, rest: string)
    requires OneLine(s)
    ensures var next := before + s + "\n";
            Lines(before + (s + "\n" + rest), |before|) == [s] + Lines(next + rest, |next|)
  {
    hide OneLine, Lines;
    var next := before + s + "\n";
    var text := before + (s + "\n" + rest);
    assert text == next + rest;
    assert text[|before|..|before| + |s|] == s;
    FirstLine(text, |before|, s);
  }

  lemma FirstLine(text: string, at: nat, s: string)
    requires OneLine(s) && at + |s| < |text|
    requires text[at..at + |s|] == s && text[at + |s|] == '\n'
    ensures Lines(text, at) == [s] + Lines(text, at + |s| + 1)
  {
    forall j | at <= j < at + |s| ensures InLine(text[j]) {
      assert text[j] == text[at..at + |s|][j - at];
    }
    SpanIs(text, InLine, at, at + |s|, 255);
  }

  lemma {:induction false} PrintedMeans(prog: seq<Instr>)
    requires AllAssemblable(prog)
    ensures Meanings(Printed(prog)) == Some(prog)
    decreases |prog|
  {
    hide Print, LineMeaning, Assemblable;
    if prog != [] {
      PrintMeans(prog[0]);
      PrintedMeans(prog[1..]);
      assert Printed(prog)[1..] == Printed(prog[1..]);
      assert prog == [prog[0]] + prog[1..];
    }
  }

  /** The listing of a program means that program: any instructions that lines can stand for, in any number. */
  lemma ListingMeans(prog: seq<Instr>)
    requires AllAssemblable(prog)
    ensures Meanings(Lines(Listing(prog), 0)) == Some(prog)
  {
    hide Lines, Listing, Printed, Meanings, Assemblable;
    ListingLines("", prog);
    assert "" + Listing(prog) == Listing(prog);
    PrintedMeans(prog);
  }
}
