/** The source text of the assembler: what a line of asm_line and a program of asm_program mean. */
module AsmText {
  import opened Basics
  import opened AsmCode

  // ---- characters ----

  const NUL := '\0'

  /** Character `i` of a C string. */
  function At(s: string, i: nat): char { if i < |s| then s[i] else NUL }

  predicate IsBlank(c: char) { c == ' ' || c == '\t' }
  predicate IsSeparator(c: char) { c == ' ' || c == '\t' || c == ',' }
  predicate InMnemonic(c: char) { c != NUL && c != ' ' && c != '\t' }
  predicate InArgument(c: char) {
    c != NUL && c != ',' && c != ' ' && c != '\t' && c != ';' && c != '#' && c != '\n' && c != '\r'
  }

  /** The end of the longest run of characters in `p` from `i` on, at most `limit` of them. */
  function SpanEnd(s: string, p: char -> bool, i: nat, limit: nat): (k: nat)
    requires i <= |s|
    ensures i <= k <= |s| && k - i <= limit
    ensures forall j :: i <= j < k ==> p(s[j])
    ensures k == |s| || k - i == limit || !p(s[k])
    decreases |s| - i
  {
    if i < |s| && limit > 0 && p(s[i]) then SpanEnd(s, p, i + 1, limit - 1) else i
  }

  function Lower(s: string): (r: string)
    ensures |r| == |s|
  {
    seq(|s|, i requires 0 <= i < |s| => if 'A' <= s[i] <= 'Z' then s[i] + 32 as char else s[i])
  }

  // ---- operands ----

  predicate EndsName(c: char) { c == NUL || c == ' ' || c == ',' }

  function NamedRegister(a: char, b: char): int {
    if a == 'a' && b == 'x' then 0 else if a == 'c' && b == 'x' then 1
    else if a == 'd' && b == 'x' then 2 else if a == 'b' && b == 'x' then 3
    else if a == 's' && b == 'p' then 4 else if a == 'b' && b == 'p' then 5
    else if a == 's' && b == 'i' then 6 else if a == 'd' && b == 'i' then 7
    else -1
  }

  /** parse_register: the register number, or -1. */
  function ParseRegister(s: string): (r: int)
    ensures -1 <= r < 16
  {
    var k := SpanEnd(s, IsBlank, 0, |s|);
    var c0, c1, c2, c3 := At(s, k), At(s, k + 1), At(s, k + 2), At(s, k + 3);
    if c0 == 'r' && NamedRegister(c1, c2) >= 0 && EndsName(c3) then NamedRegister(c1, c2)
    else if c0 == 'r' && '8' <= c1 <= '9' && EndsName(c2) then 8 + (c1 as int - '8' as int)
    else if c0 == 'r' && c1 == '1' && '0' <= c2 <= '5' && EndsName(c3) then 10 + (c2 as int - '0' as int)
    else if c0 == 'e' && NamedRegister(c1, c2) >= 0 && EndsName(c3) then NamedRegister(c1, c2)
    else -1
  }

  const TWO31 := 0x8000_0000
  const TWO32 := 0x1_0000_0000
  const TWO63 := 0x8000_0000_0000_0000
  const TWO64 := 0x1_0000_0000_0000_0000

  /** Two's complement values of 64 and of 32 bits. */
  function Wrap64(v: int): (r: int)
    ensures -TWO63 <= r < TWO63
  {
    (v + TWO63) % TWO64 - TWO63
  }

  function Wrap32(v: int): (r: int)
    ensures -TWO31 <= r < TWO31
  {
    (v + TWO31) % TWO32 - TWO31
  }

  /** The value of a digit, or -1. */
  function Digit(c: char, hex: bool): (d: int)
    ensures -1 <= d < if hex then 16 else 10
  {
    if '0' <= c <= '9' then c as int - '0' as int
    else if hex && 'a' <= c <= 'f' then c as int - 'a' as int + 10
    else if hex && 'A' <= c <= 'F' then c as int - 'A' as int + 10
    else -1
  }

  function Base(hex: bool): nat { if hex then 16 else 10 }

  /** The digits from `i` on, as far as they go, behind a number `acc`. */
  function Numeral(s: string, i: nat, hex: bool, acc: nat): nat
    decreases |s| - i
  {
    if i < |s| && Digit(s[i], hex) >= 0 then Numeral(s, i + 1, hex, acc * Base(hex) + Digit(s[i], hex)) else acc
  }

  predicate HexAt(s: string, i: nat) { At(s, i) == '0' && (At(s, i + 1) == 'x' || At(s, i + 1) == 'X') }

  /** The number that a text denotes: a sign, then a numeral in hexadecimal or decimal, 0 if there is none. */
  function Written(s: string): int {
    var k := SpanEnd(s, IsBlank, 0, |s|);
    var i := if At(s, k) == '-' then k + 1 else k;
    var v := if HexAt(s, i) then Numeral(s, i + 2, true, 0) else Numeral(s, i, false, 0);
    if At(s, k) == '-' then -v else v
  }

  /** parse_immediate: that number, reduced to 64 bits. */
  function ParseImmediate(s: string): int { Wrap64(Written(s)) }

  // ---- lines ----

  datatype Mnemonic = AluM(alu: Alu) | ShiftM(group: Group) | UnaryM(unary: Unary) | CallM | PushM | PopM | SyscallM | RetM | NopM

  predicate Starts(s: string, a: char, b: char, c: char) { At(s, 0) == a && At(s, 1) == b && At(s, 2) == c }

  /** The comparisons with the mnemonics, all of them prefix tests, in the order of asm_line. */
  function Lookup(m: string): Option<Mnemonic> {
    if Starts(m, 'm', 'o', 'v') then Some(AluM(Mov))
    else if Starts(m, 'a', 'd', 'd') then Some(AluM(Add))
    else if Starts(m, 's', 'u', 'b') then Some(AluM(Sub))
    else if Starts(m, 'x', 'o', 'r') then Some(AluM(Xor))
    else if At(m, 0) == 'o' && At(m, 1) == 'r' then Some(AluM(Or))
    else if Starts(m, 'a', 'n', 'd') then Some(AluM(And))
    else if Starts(m, 'c', 'm', 'p') then Some(AluM(Cmp))
    else if Starts(m, 'c', 'a', 'l') && At(m, 3) == 'l' then Some(CallM)
    else if Starts(m, 'p', 'u', 's') && At(m, 3) == 'h' then Some(PushM)
    else if Starts(m, 'p', 'o', 'p') then Some(PopM)
    else if Starts(m, 'i', 'n', 'c') then Some(UnaryM(Inc))
    else if Starts(m, 'd', 'e', 'c') then Some(UnaryM(Dec))
    else if Starts(m, 'n', 'e', 'g') then Some(UnaryM(Neg))
    else if Starts(m, 'n', 'o', 't') then Some(UnaryM(Not))
    else if Starts(m, 's', 'h', 'l') then Some(ShiftM(Shl))
    else if Starts(m, 's', 'h', 'r') then Some(ShiftM(Shr))
    else if Starts(m, 's', 'y', 's') && Starts(m[3..], 'c', 'a', 'l') && At(m, 6) == 'l' then Some(SyscallM)
    else if Starts(m, 'r', 'e', 't') then Some(RetM)
    else if Starts(m, 'n', 'o', 'p') then Some(NopM)
    else None
  }

  function GroupOf(a: Alu): Option<Group> {
    match a case Add => Some(AddImm) case Sub => Some(SubImm) case Cmp => Some(CmpImm) case _ => None
  }

  /** The instruction of a mnemonic with its two operand texts, if there is one. */
  function Instruction(m: Mnemonic, arg1: string, arg2: string): Option<Instr> {
    var r1, r2 := ParseRegister(arg1), ParseRegister(arg2);
    match m
    case SyscallM => Some(Syscall)
    case RetM => Some(Ret)
    case NopM => Some(Nop)
    case CallM => if r1 >= 0 then Some(OneReg(CallReg, r1)) else Some(CallRel(Wrap32(ParseImmediate(arg1))))
    case PushM => if r1 < 0 then None else Some(Push(r1))
    case PopM => if r1 < 0 then None else Some(Pop(r1))
    case UnaryM(u) => if r1 < 0 then None else Some(OneReg(u, r1))
    case ShiftM(g) =>
      var imm := ParseImmediate(arg2);
      if r1 < 0 || imm < 0 || imm > 63 then None else Some(RegImm8(g, r1, imm))
    case AluM(a) =>
      var imm := ParseImmediate(arg2);
      if r1 < 0 then None
      else if r2 >= 0 then Some(RegReg(a, r1, r2))
      else if a == Mov then
        if r1 == 0 && (imm > 0x7FFF_FFFF || imm < -0x8000_0000) then Some(MovRaxImm64(imm))
        else Some(MovImm32(r1, Wrap32(imm)))
      else if GroupOf(a).None? || imm < -128 || imm > 127 then None
      else Some(RegImm8(GroupOf(a).value, r1, imm))
  }

  datatype Fields = Fields(mnemonic: string, arg1: string, arg2: string)

  /** The three fields of a line whose text begins at `start`. */
  function FieldsOf(line: string, start: nat): Fields
    requires start <= |line|
  {
    var i1 := SpanEnd(line, InMnemonic, start, 31);
    var i2 := SpanEnd(line, IsBlank, i1, |line|);
    var i3 := SpanEnd(line, InArgument, i2, 63);
    var i4 := SpanEnd(line, IsSeparator, i3, |line|);
    var i5 := SpanEnd(line, InArgument, i4, 63);
    Fields(Lower(line[start..i1]), line[i2..i3], line[i4..i5])
  }

  datatype Meaning = Nothing | Wrong | Does(instr: Instr)

  predicate IsEmptyAt(line: string, start: nat) { At(line, start) == NUL || At(line, start) == ';' || At(line, start) == '#' }

  /** The meaning of one line. */
  function LineMeaning(line: string): Meaning {
    var start := SpanEnd(line, IsBlank, 0, |line|);
    if IsEmptyAt(line, start) then Nothing
    else
      var f := FieldsOf(line, start);
      var m := Lookup(f.mnemonic);
      if m.None? then Wrong
      else
        var i := Instruction(m.value, f.arg1, f.arg2);
        if i.None? then Wrong else Does(i.value)
  }

  // ---- programs ----

  predicate InLine(c: char) { c != NUL && c != '\n' }

  /** The lines of a program from `at` on; a line longer than 255 characters is cut into several. */
  function Lines(program: string, at: nat): seq<string>
    requires at <= |program|
    decreases |program| - at
  {
    if at == |program| || program[at] == NUL then []
    else
      var k := SpanEnd(program, InLine, at, 255);
      [program[at..k]] + Lines(program, if At(program, k) == '\n' then k + 1 else k)
  }

  /** The instructions of a list of lines, or None if a line is wrong. */
  function Meanings(lines: seq<string>): Option<seq<Instr>> {
    if lines == [] then Some([])
    else
      var rest := Meanings(lines[1..]);
      match LineMeaning(lines[0])
      case Nothing => rest
      case Wrong => None
      case Does(i) => if rest.None? then None else Some([i] + rest.value)
  }

  // ---- what lines can say ----

  /** The instructions that some line stands for. */
  predicate Assemblable(i: Instr) {
    match i
    case RegImm8(g, r, imm) => if g == Shl || g == Shr then 0 <= imm <= 63 else -128 <= imm <= 127
    case MovImm32(r, imm) => -TWO31 <= imm < TWO31
    case MovRaxImm64(imm) => -TWO63 <= imm < -TWO31 || TWO31 <= imm < TWO63
    case CallRel(imm) => -TWO31 <= imm < TWO31
    case _ => true
  }

  lemma PowersAre()
    ensures Pow256(1) == 256 && Pow256(4) == TWO32 && Pow256(8) == TWO64
  {
    assert Pow256(4) == TWO32;
  }

  lemma AssemblableFits(i: Instr)
    requires Assemblable(i)
    ensures WellFormed(i)
  {
    hide Pow256;
    PowersAre();
  }

  /** Every line stands for an instruction its encoding can carry, or for none. */
  lemma LineAssemblable(line: string)
    requires LineMeaning(line).Does?
    ensures Assemblable(LineMeaning(line).instr)
  {
    hide ParseRegister, ParseImmediate, FieldsOf, Lookup, SpanEnd;
    var f := FieldsOf(line, SpanEnd(line, IsBlank, 0, |line|));
    InstructionAssemblable(Lookup(f.mnemonic).value, f.arg1, f.arg2);
  }

  lemma InstructionAssemblable(m: Mnemonic, arg1: string, arg2: string)
    requires Instruction(m, arg1, arg2).Some?
    ensures Assemblable(Instruction(m, arg1, arg2).value)
  {
    ImmediateRange(arg2);
    hide ParseRegister, ParseImmediate, Wrap32, Wrap64;
  }

  lemma ImmediateRange(s: string)
    ensures -TWO63 <= ParseImmediate(s) < TWO63
  {
    hide Wrap64, Written;
  }

  predicate HasImmediate(i: Instr) { i.RegImm8? || i.MovImm32? || i.MovRaxImm64? || i.CallRel? }

  /** When the number `n`, written as the immediate of this instruction whose first operand is register `r`, is kept: it
      fits 32 bits; or it fits 64 bits and the instruction takes an 8-bit operand or moves to rax. */
  predicate Keeps(i: Instr, r: int, n: int) {
    -TWO31 <= n < TWO31 || ((i.RegImm8? || (!i.CallRel? && r == 0)) && -TWO63 <= n < TWO63)
  }

  lemma WrapKeeps(n: int)
    ensures Wrap64(n) == n <==> -TWO63 <= n < TWO63
    ensures Wrap32(n) == n <==> -TWO31 <= n < TWO31
    ensures -TWO31 <= n < TWO31 ==> Wrap64(n) == n && Wrap32(Wrap64(n)) == n
  { }

  /** The immediate of an accepted instruction is the number written in its text exactly under that condition; otherwise a
      different number is assembled without an error. */
  lemma ImmediateKept(m: Mnemonic, arg1: string, arg2: string)
    requires Instruction(m, arg1, arg2).Some? && HasImmediate(Instruction(m, arg1, arg2).value)
    ensures var i := Instruction(m, arg1, arg2).value;
            var n := Written(if i.CallRel? then arg1 else arg2);
            i.imm == n <==> Keeps(i, ParseRegister(arg1), n)
  {
    hide ParseRegister, Written;
    var i := Instruction(m, arg1, arg2).value;
    var n := Written(if i.CallRel? then arg1 else arg2);
    WrapKeeps(n);
    WrapKeeps(Wrap64(n));
    WrapRange(n);
    hide Wrap64, Wrap32;
  }

  lemma WrapRange(n: int)
    ensures -TWO63 <= Wrap64(n) < TWO63 && -TWO31 <= Wrap32(n) < TWO31
  { }

  /** The same for whole lines. */
  lemma LineImmediate(line: string)
    requires LineMeaning(line).Does? && HasImmediate(LineMeaning(line).instr)
    ensures var i := LineMeaning(line).instr;
            var f := FieldsOf(line, SpanEnd(line, IsBlank, 0, |line|));
            var n := Written(if i.CallRel? then f.arg1 else f.arg2);
            i.imm == n <==> Keeps(i, ParseRegister(f.arg1), n)
  {
    hide ParseRegister, Written, FieldsOf, Lookup, SpanEnd, Instruction, Keeps;
    var f := FieldsOf(line, SpanEnd(line, IsBlank, 0, |line|));
    ImmediateKept(Lookup(f.mnemonic).value, f.arg1, f.arg2);
  }
}
