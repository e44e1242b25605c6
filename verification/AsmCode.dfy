/** Machine code of the assembler in src/kernel/assembler/asm.c, and a decoder for its REX, ModRM and immediate formats. */
module AsmCode {
  import opened Basics

  type byte = x: int | 0 <= x < 256
  type reg = x: int | 0 <= x < 16

  datatype Alu = Mov | Add | Sub | Xor | Or | And | Cmp
  datatype Unary = Inc | Dec | Neg | Not | CallReg
  datatype Group = AddImm | SubImm | CmpImm | Shl | Shr

  datatype Instr =
    | RegReg(alu: Alu, dst: reg, src: reg)
    | RegImm8(group: Group, r: reg, imm: int)
    | OneReg(unary: Unary, r: reg)
    | MovImm32(r: reg, imm: int)
    | MovRaxImm64(imm: int)
    | Push(r: reg)
    | Pop(r: reg)
    | CallRel(imm: int)
    | Syscall
    | Ret
    | Nop

  // ---- encoding ----

  function AluOpcode(a: Alu): byte {
    match a
    case Mov => 0x89 case Add => 0x01 case Sub => 0x29 case Xor => 0x31 case Or => 0x09 case And => 0x21 case Cmp => 0x39
  }

  function UnaryOpcode(u: Unary): byte { if u == Neg || u == Not then 0xF7 else 0xFF }

  /** ModRM with register operand and the opcode extension of the instruction. */
  function UnaryModRM(u: Unary): byte {
    match u
    case Inc => 0xC0 case Dec => 0xC8 case Neg => 0xD8 case Not => 0xD0 case CallReg => 0xD0
  }

  function GroupOpcode(g: Group): byte { if g == Shl || g == Shr then 0xC1 else 0x83 }

  function GroupModRM(g: Group): byte {
    match g
    case AddImm => 0xC0 case SubImm => 0xE8 case CmpImm => 0xF8 case Shl => 0xE0 case Shr => 0xE8
  }

  /** REX.W, with REX.R and REX.B for the registers from r8 on. */
  function Rex(r: reg, b: reg): byte { 0x48 + (if r >= 8 then 4 else 0) + (if b >= 8 then 1 else 0) }

  /** The `n` low bytes of `v` in two's complement, the lowest first. */
  function ImmBytes(v: int, n: nat): (s: seq<byte>)
    ensures |s| == n
    decreases n
  {
    if n == 0 then [] else [v % 256] + ImmBytes(v / 256, n - 1)
  }

  function Encode(i: Instr): seq<byte> {
    match i
    case RegReg(a, dst, src) => [Rex(src, dst), AluOpcode(a), 0xC0 + 8 * (src % 8) + dst % 8]
    case RegImm8(g, r, imm) => [Rex(0, r), GroupOpcode(g), GroupModRM(g) + r % 8] + ImmBytes(imm, 1)
    case OneReg(u, r) => [Rex(0, r), UnaryOpcode(u), UnaryModRM(u) + r % 8]
    case MovImm32(r, imm) => [Rex(0, r), 0xC7, 0xC0 + r % 8] + ImmBytes(imm, 4)
    case MovRaxImm64(imm) => [0x48, 0xB8] + ImmBytes(imm, 8)
    case Push(r) => (if r >= 8 then [0x41] else []) + [0x50 + r % 8]
    case Pop(r) => (if r >= 8 then [0x41] else []) + [0x58 + r % 8]
    case CallRel(imm) => [0xE8] + ImmBytes(imm, 4)
    case Syscall => [0x0F, 0x05]
    case Ret => [0xC3]
    case Nop => [0x90]
  }

  function EncodeAll(prog: seq<Instr>): seq<byte> {
    if prog == [] then [] else EncodeAll(prog[..|prog| - 1]) + Encode(prog[|prog| - 1])
  }

  // ---- decoding ----

  /** The REX bits, all zero when the instruction has no prefix. */
  datatype Prefix = Prefix(w: nat, r: nat, b: nat, size: nat)

  function ReadPrefix(c: seq<byte>): Prefix {
    if c != [] && 0x40 <= c[0] < 0x50 then Prefix(c[0] / 8 % 2, c[0] / 4 % 2, c[0] % 2, 1) else Prefix(0, 0, 0, 0)
  }

  function Unsigned(c: seq<byte>, n: nat): nat
    requires n <= |c|
  {
    if n == 0 then 0 else c[0] + 256 * Unsigned(c[1..], n - 1)
  }

  /** The first `n` bytes as a little-endian number in two's complement. */
  function Signed(c: seq<byte>, n: nat): int
    requires n <= |c|
  {
    var u := Unsigned(c, n);
    if 2 * u < Pow256(n) then u else u - Pow256(n)
  }

  datatype Decoded = Decoded(instr: Instr, size: nat)

  function AluOf(op: byte): Option<Alu> {
    match op
    case 0x01 => Some(Add) case 0x09 => Some(Or) case 0x21 => Some(And) case 0x29 => Some(Sub)
    case 0x31 => Some(Xor) case 0x39 => Some(Cmp) case 0x89 => Some(Mov)
    case _ => None
  }

  /** One instruction on 64-bit registers: opcode, ModRM with two register operands, immediate. */
  function DecodeModRM(p: Prefix, op: byte, c: seq<byte>): Option<Decoded>
    requires p.r < 2 && p.b < 2
  {
    if c == [] || c[0] / 64 != 3 || p.w != 1 then None
    else
      var ext := c[0] / 8 % 8;
      var rm := 8 * p.b + c[0] % 8;
      var size := p.size + 2;
      if AluOf(op).Some? then Some(Decoded(RegReg(AluOf(op).value, rm, 8 * p.r + ext), size))
      else if op == 0xFF && ext == 0 then Some(Decoded(OneReg(Inc, rm), size))
      else if op == 0xFF && ext == 1 then Some(Decoded(OneReg(Dec, rm), size))
      else if op == 0xFF && ext == 2 then Some(Decoded(OneReg(CallReg, rm), size))
      else if op == 0xF7 && ext == 2 then Some(Decoded(OneReg(Not, rm), size))
      else if op == 0xF7 && ext == 3 then Some(Decoded(OneReg(Neg, rm), size))
      else if op == 0xC7 && ext == 0 && |c| >= 5 then Some(Decoded(MovImm32(rm, Signed(c[1..], 4)), size + 4))
      else if |c| < 2 then None
      else if op == 0x83 && ext == 0 then Some(Decoded(RegImm8(AddImm, rm, Signed(c[1..], 1)), size + 1))
      else if op == 0x83 && ext == 5 then Some(Decoded(RegImm8(SubImm, rm, Signed(c[1..], 1)), size + 1))
      else if op == 0x83 && ext == 7 then Some(Decoded(RegImm8(CmpImm, rm, Signed(c[1..], 1)), size + 1))
      else if op == 0xC1 && ext == 4 then Some(Decoded(RegImm8(Shl, rm, Signed(c[1..], 1)), size + 1))
      else if op == 0xC1 && ext == 5 then Some(Decoded(RegImm8(Shr, rm, Signed(c[1..], 1)), size + 1))
      else None
  }

  /** The instruction after the prefix. */
  function DecodeOpcode(p: Prefix, c: seq<byte>): Option<Decoded>
    requires p.r < 2 && p.b < 2
  {
    if c == [] then None
    else
      var op := c[0];
      if 0x50 <= op < 0x58 then Some(Decoded(Push(8 * p.b + op - 0x50), p.size + 1))
      else if 0x58 <= op < 0x60 then Some(Decoded(Pop(8 * p.b + op - 0x58), p.size + 1))
      else if op == 0xC3 then Some(Decoded(Ret, p.size + 1))
      else if op == 0x90 && p.b == 0 then Some(Decoded(Nop, p.size + 1))
      else if op == 0x0F then if |c| >= 2 && c[1] == 0x05 then Some(Decoded(Syscall, p.size + 2)) else None
      else if op == 0xE8 then if |c| >= 5 then Some(Decoded(CallRel(Signed(c[1..], 4)), p.size + 5)) else None
      else if op == 0xB8 && p.w == 1 && p.b == 0 then
        if |c| >= 9 then Some(Decoded(MovRaxImm64(Signed(c[1..], 8)), p.size + 9)) else None
      else DecodeModRM(p, op, c[1..])
  }

  function Decode(c: seq<byte>): (d: Option<Decoded>)
    ensures d.Some? ==> 0 < d.value.size <= |c|
  {
    var p := ReadPrefix(c);
    DecodeOpcode(p, c[p.size..])
  }

  function DecodeAll(c: seq<byte>): Option<seq<Instr>>
    decreases |c|
  {
    if c == [] then Some([])
    else
      var d := Decode(c);
      if d.None? then None
      else
        var rest := DecodeAll(c[d.value.size..]);
        if rest.None? then None else Some([d.value.instr] + rest.value)
  }

  // ---- decoding undoes encoding ----

  predicate Fits(v: int, n: nat) { 0 <= 2 * v + Pow256(n) && 2 * v < Pow256(n) }

  /** What the encodings can carry. */
  predicate WellFormed(i: Instr) {
    match i
    case RegImm8(g, r, imm) => Fits(imm, 1)
    case MovImm32(r, imm) => Fits(imm, 4)
    case MovRaxImm64(imm) => Fits(imm, 8)
    case CallRel(imm) => Fits(imm, 4)
    case _ => true
  }

  lemma {:induction false} UnsignedImm(v: int, n: nat, rest: seq<byte>)
    ensures Pow256(n) > 0 && Unsigned(ImmBytes(v, n) + rest, n) == v % Pow256(n)
    decreases n
  {
    if n > 0 {
      UnsignedImm(v / 256, n - 1, rest);
      var c := ImmBytes(v, n) + rest;
      assert c[1..] == ImmBytes(v / 256, n - 1) + rest;
      ModSplit(v, Pow256(n - 1));
    }
  }

  lemma ModSplit(v: int, m: int)
    requires m > 0
    ensures v % (256 * m) == v % 256 + 256 * (v / 256 % m)
  {
    var q := v / 256 / m;
    var r := v % 256 + 256 * (v / 256 % m);
    assert v == q * (256 * m) + r by {
      assert v / 256 == q * m + v / 256 % m;
      assert 256 * (q * m) == q * (256 * m);
    }
    assert 0 <= r < 256 * m;
    RemainderUnique(v, 256 * m, q, r);
  }

  lemma MultipleOutside(d: int, m: int)
    requires m > 0
    ensures d == 0 || d * m >= m || d * m <= -m
  {
    if d > 0 { assert (d - 1) * m >= 0; }
    if d < 0 { assert (-d - 1) * m >= 0; }
  }

  lemma RemainderUnique(v: int, m: int, q: int, r: int)
    requires m > 0 && 0 <= r < m && v == q * m + r
    ensures v % m == r
  {
    var d := q - v / m;
    assert d * m == v % m - r;
    MultipleOutside(d, m);
  }

  /** An immediate that fits its width is read back as it is. */
  lemma SignedImm(v: int, n: nat, rest: seq<byte>)
    requires Fits(v, n)
    ensures Signed(ImmBytes(v, n) + rest, n) == v
  {
    UnsignedImm(v, n, rest);
    if v >= 0 {
      RemainderUnique(v, Pow256(n), 0, v);
    } else {
      RemainderUnique(v, Pow256(n), -1, v + Pow256(n));
    }
  }

  predicate PlainOpcode(op: byte) {
    op in {0x01, 0x09, 0x21, 0x29, 0x31, 0x39, 0x83, 0x89, 0xC1, 0xC7, 0xF7, 0xFF}
  }

  /** A REX.W prefix and a plain opcode hand the rest to the ModRM decoder. */
  lemma DecodePrefixed(r: reg, b: reg, op: byte, tail: seq<byte>)
    requires PlainOpcode(op)
    ensures Decode([Rex(r, b), op] + tail) == DecodeModRM(Prefix(1, r / 8, b / 8, 1), op, tail)
  {
    hide DecodeModRM;
    var c := [Rex(r, b), op] + tail;
    assert ReadPrefix(c) == Prefix(1, r / 8, b / 8, 1);
    assert c[1..][1..] == tail;
  }

  lemma DecodeRegReg(i: Instr, rest: seq<byte>)
    requires i.RegReg?
    ensures Decode(Encode(i) + rest) == Some(Decoded(i, |Encode(i)|))
  {
    hide Decode, Rex;
    var modrm: byte := 0xC0 + 8 * (i.src % 8) + i.dst % 8;
    var op := AluOpcode(i.alu);
    var tail := [modrm] + rest;
    assert Encode(i) + rest == [Rex(i.src, i.dst), op] + tail;
    assert AluOf(op) == Some(i.alu);
    DecodePrefixed(i.src, i.dst, op, tail);
    assert modrm / 64 == 3 && modrm / 8 % 8 == i.src % 8 && modrm % 8 == i.dst % 8;
  }

  lemma DecodeOneReg(i: Instr, rest: seq<byte>)
    requires i.OneReg?
    ensures Decode(Encode(i) + rest) == Some(Decoded(i, |Encode(i)|))
  {
    hide Decode, Rex;
    var modrm: byte := UnaryModRM(i.unary) + i.r % 8;
    var op := UnaryOpcode(i.unary);
    var tail := [modrm] + rest;
    assert Encode(i) + rest == [Rex(0, i.r), op] + tail;
    DecodePrefixed(0, i.r, op, tail);
  }

  lemma DecodeRegImm8(i: Instr, rest: seq<byte>)
    requires i.RegImm8? && WellFormed(i)
    ensures Decode(Encode(i) + rest) == Some(Decoded(i, |Encode(i)|))
  {
    hide Decode, Rex, ImmBytes, Signed;
    var modrm: byte := GroupModRM(i.group) + i.r % 8;
    var op := GroupOpcode(i.group);
    var imm := ImmBytes(i.imm, 1) + rest;
    var tail := [modrm] + imm;
    assert Encode(i) + rest == [Rex(0, i.r), op] + tail;
    DecodePrefixed(0, i.r, op, tail);
    SignedImm(i.imm, 1, rest);
    assert tail[1..] == imm;
  }

  lemma DecodeMovImm32(i: Instr, rest: seq<byte>)
    requires i.MovImm32? && WellFormed(i)
    ensures Decode(Encode(i) + rest) == Some(Decoded(i, |Encode(i)|))
  {
    hide Decode, Rex, ImmBytes, Signed;
    var modrm: byte := 0xC0 + i.r % 8;
    var imm := ImmBytes(i.imm, 4) + rest;
    var tail := [modrm] + imm;
    assert Encode(i) + rest == [Rex(0, i.r), 0xC7] + tail;
    DecodePrefixed(0, i.r, 0xC7, tail);
    SignedImm(i.imm, 4, rest);
    assert tail[1..] == imm;
  }

  lemma DecodeMovRaxImm64(i: Instr, rest: seq<byte>)
    requires i.MovRaxImm64? && WellFormed(i)
    ensures Decode(Encode(i) + rest) == Some(Decoded(i, |Encode(i)|))
  {
    hide ImmBytes, Signed, DecodeModRM, Fits;
    var c := Encode(i) + rest;
    SignedImm(i.imm, 8, rest);
    assert c[1..][1..] == ImmBytes(i.imm, 8) + rest;
  }

  lemma DecodeCallRel(i: Instr, rest: seq<byte>)
    requires i.CallRel? && WellFormed(i)
    ensures Decode(Encode(i) + rest) == Some(Decoded(i, |Encode(i)|))
  {
    hide ImmBytes, Signed, DecodeModRM, Fits;
    var c := Encode(i) + rest;
    SignedImm(i.imm, 4, rest);
    assert c[0..] == c && c[1..] == ImmBytes(i.imm, 4) + rest;
  }

  lemma DecodeShort(i: Instr, rest: seq<byte>)
    requires i.Push? || i.Pop? || i.Syscall? || i.Ret? || i.Nop?
    ensures Decode(Encode(i) + rest) == Some(Decoded(i, |Encode(i)|))
  {
    hide Signed, DecodeModRM;
  }

  /** Whatever follows it, an encoded instruction decodes to itself and its own length. */
  lemma DecodeEncode(i: Instr, rest: seq<byte>)
    requires WellFormed(i)
    ensures Encode(i) != [] && Decode(Encode(i) + rest) == Some(Decoded(i, |Encode(i)|))
  {
    hide Decode, ImmBytes, Fits;
    match i
    case RegReg(_, _, _) => DecodeRegReg(i, rest);
    case OneReg(_, _) => DecodeOneReg(i, rest);
    case RegImm8(_, _, _) => DecodeRegImm8(i, rest);
    case MovImm32(_, _) => DecodeMovImm32(i, rest);
    case MovRaxImm64(_) => DecodeMovRaxImm64(i, rest);
    case CallRel(_) => DecodeCallRel(i, rest);
    case _ => DecodeShort(i, rest);
  }

  ghost predicate AllWellFormed(prog: seq<Instr>) { forall i <- prog :: WellFormed(i) }

  lemma {:induction false} DecodeSuffix(prog: seq<Instr>, rest: seq<byte>)
    requires AllWellFormed(prog) && DecodeAll(rest).Some?
    ensures DecodeAll(EncodeAll(prog) + rest) == Some(prog + DecodeAll(rest).value)
    decreases |prog|
  {
    hide Decode, Encode, WellFormed;
    if prog == [] {
      assert EncodeAll(prog) + rest == rest;
      assert prog + DecodeAll(rest).value == DecodeAll(rest).value;
    } else {
      var front, last := prog[..|prog| - 1], prog[|prog| - 1];
      var tail := Encode(last) + rest;
      DecodeEncode(last, rest);
      assert tail[|Encode(last)|..] == rest;
      assert DecodeAll(tail) == Some([last] + DecodeAll(rest).value);
      DecodeSuffix(front, tail);
      assert EncodeAll(prog) + rest == EncodeAll(front) + tail;
      assert prog + DecodeAll(rest).value == front + ([last] + DecodeAll(rest).value);
    }
  }

  /** The machine code of a program splits into its instructions. */
  lemma DecodeProgram(prog: seq<Instr>)
    requires AllWellFormed(prog)
    ensures DecodeAll(EncodeAll(prog)) == Some(prog)
  {
    hide Decode, Encode, WellFormed, EncodeAll;
    assert DecodeAll([]) == Some([]);
    DecodeSuffix(prog, []);
    assert EncodeAll(prog) + [] == EncodeAll(prog);
    assert prog + [] == prog;
  }

  /** No two programs share their machine code. */
  lemma EncodingUnique(a: seq<Instr>, b: seq<Instr>)
    requires AllWellFormed(a) && AllWellFormed(b) && EncodeAll(a) == EncodeAll(b)
    ensures a == b
  {
    hide EncodeAll, DecodeAll;
    DecodeProgram(a);
    DecodeProgram(b);
  }

  // ---- examples from the instruction set ----

  /** Operations on rax and rbx, and the prefix bits for r8 as destination and as source. */
  lemma RegRegBytes()
    ensures Encode(RegReg(Mov, 0, 3)) == [0x48, 0x89, 0xD8] && Encode(RegReg(Add, 0, 3)) == [0x48, 0x01, 0xD8]
    ensures Encode(RegReg(Sub, 0, 3)) == [0x48, 0x29, 0xD8] && Encode(RegReg(Xor, 0, 3)) == [0x48, 0x31, 0xD8]
    ensures Encode(RegReg(Or, 0, 3)) == [0x48, 0x09, 0xD8] && Encode(RegReg(And, 0, 3)) == [0x48, 0x21, 0xD8]
    ensures Encode(RegReg(Cmp, 0, 3)) == [0x48, 0x39, 0xD8]
    ensures Encode(RegReg(Add, 8, 3)) == [0x49, 0x01, 0xD8] && Encode(RegReg(Add, 3, 8)) == [0x4C, 0x01, 0xC3]
  { }

  lemma OneRegBytes()
    ensures Encode(OneReg(Inc, 0)) == [0x48, 0xFF, 0xC0] && Encode(OneReg(Dec, 0)) == [0x48, 0xFF, 0xC8]
    ensures Encode(OneReg(Neg, 0)) == [0x48, 0xF7, 0xD8] && Encode(OneReg(Not, 0)) == [0x48, 0xF7, 0xD0]
    ensures Encode(OneReg(CallReg, 0)) == [0x48, 0xFF, 0xD0]
  { }

  lemma StackBytes()
    ensures Encode(Push(3)) == [0x53] && Encode(Push(8)) == [0x41, 0x50]
    ensures Encode(Pop(3)) == [0x5B] && Encode(Pop(8)) == [0x41, 0x58]
  {
    var p: seq<byte>, q: seq<byte> := [] + [0x53], [] + [0x5B];
    assert p == [0x53] && q == [0x5B];
    assert Encode(Push(3)) == p && Encode(Pop(3)) == q;
  }

  lemma BareBytes()
    ensures Encode(Syscall) == [0x0F, 0x05] && Encode(Ret) == [0xC3] && Encode(Nop) == [0x90]
  { }

  lemma Imm8Bytes()
    ensures Encode(RegImm8(AddImm, 0, 5)) == [0x48, 0x83, 0xC0, 0x05] && Encode(RegImm8(SubImm, 0, 5)) == [0x48, 0x83, 0xE8, 0x05]
    ensures Encode(RegImm8(CmpImm, 0, -1)) == [0x48, 0x83, 0xF8, 0xFF]
    ensures Encode(RegImm8(Shl, 0, 4)) == [0x48, 0xC1, 0xE0, 0x04] && Encode(RegImm8(Shr, 0, 4)) == [0x48, 0xC1, 0xE8, 0x04]
  {
    assert ImmBytes(5, 1) == [0x05] && ImmBytes(-1, 1) == [0xFF] && ImmBytes(4, 1) == [0x04];
    hide ImmBytes;
  }

  lemma ImmNext(high: int, low: byte, v: int, n: nat)
    requires v == 256 * high + low
    ensures ImmBytes(v, n + 1) == [low] + ImmBytes(high, n)
  { }

  lemma FourByteImmediates()
    ensures ImmBytes(-2, 4) == [0xFE, 0xFF, 0xFF, 0xFF] && ImmBytes(0x102, 4) == [0x02, 0x01, 0x00, 0x00]
  {
    assert ImmBytes(-1, 0) == [] && ImmBytes(0, 0) == [];
    hide ImmBytes;
    ImmNext(-1, 0xFF, -1, 0);
    ImmNext(-1, 0xFF, -1, 1);
    ImmNext(-1, 0xFF, -1, 2);
    ImmNext(-1, 0xFE, -2, 3);
    ImmNext(0, 0x00, 0, 0);
    ImmNext(0, 0x00, 0, 1);
    ImmNext(0, 0x01, 1, 2);
    ImmNext(1, 0x02, 0x102, 3);
  }

  lemma EightByteImmediate()
    ensures ImmBytes(0x1122_3344_5566_7788, 8) == [0x88, 0x77, 0x66, 0x55, 0x44, 0x33, 0x22, 0x11]
  {
    assert ImmBytes(0, 0) == [];
    hide ImmBytes;
    ImmNext(0, 0x11, 0x11, 0);
    ImmNext(0x11, 0x22, 0x1122, 1);
    ImmNext(0x1122, 0x33, 0x0011_2233, 2);
    ImmNext(0x0011_2233, 0x44, 0x1122_3344, 3);
    ImmNext(0x1122_3344, 0x55, 0x0011_2233_4455, 4);
    ImmNext(0x0011_2233_4455, 0x66, 0x1122_3344_5566, 5);
    ImmNext(0x1122_3344_5566, 0x77, 0x0011_2233_4455_6677, 6);
    ImmNext(0x0011_2233_4455_6677, 0x88, 0x1122_3344_5566_7788, 7);
  }

  lemma LongImmediateBytes()
    ensures Encode(MovImm32(8, -2)) == [0x49, 0xC7, 0xC0, 0xFE, 0xFF, 0xFF, 0xFF]
    ensures Encode(CallRel(0x102)) == [0xE8, 0x02, 0x01, 0x00, 0x00]
    ensures Encode(MovRaxImm64(0x1122_3344_5566_7788)) == [0x48, 0xB8, 0x88, 0x77, 0x66, 0x55, 0x44, 0x33, 0x22, 0x11]
  {
    FourByteImmediates();
    EightByteImmediate();
    hide ImmBytes;
  }
}
