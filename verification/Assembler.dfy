/** The assembler context of src/kernel/assembler/asm.c: a code buffer filled line by line. */
module AssemblerModule {
  import opened Basics
  import opened AsmCode
  import opened AsmText
  import AsmListing

  const MAX_ASM_SIZE := 4096

  // ---- scanning ----

  /** The skipping and copying loops of asm_line. */
  method Span(s: string, p: char -> bool, i: nat, limit: nat) returns (k: nat)
    requires i <= |s|
    ensures k == SpanEnd(s, p, i, limit)
  {
    k := i;
    while k < |s| && k - i < limit && p(s[k])
      invariant i <= k <= |s| && k - i <= limit
      invariant SpanEnd(s, p, i, limit) == SpanEnd(s, p, k, limit - (k - i))
    {
      k := k + 1;
    }
  }

  lemma WrapStep(acc: nat, base: nat, d: int)
    requires base == 10 || base == 16
    ensures Wrap64(Wrap64(acc) * base + d) == Wrap64(acc * base + d)
  {
    var q := (acc + TWO63) / TWO64;
    assert Wrap64(acc) == acc - q * TWO64;
    if base == 10 {
      WrapShift(acc * 10 + d, q * 10);
    } else {
      WrapShift(acc * 16 + d, q * 16);
    }
  }

  lemma WrapShift(v: int, q: int)
    ensures Wrap64(v - q * TWO64) == Wrap64(v)
  { }

  lemma WrapNegate(v: int)
    ensures Wrap64(-Wrap64(v)) == Wrap64(-v)
  {
    var q := (v + TWO63) / TWO64;
    assert Wrap64(v) == v - q * TWO64;
    WrapShift(-v, -q);
  }

  /** The digit loop, in 64-bit arithmetic. */
  method ReadNumeral(s: string, from: nat, hex: bool) returns (val: int)
    ensures val == Wrap64(Numeral(s, from, hex, 0))
  {
    hide Wrap64, Digit;
    val := 0;
    ghost var acc: nat := 0;
    var i := from;
    WrapSmall(0);
    while i < |s| && Digit(s[i], hex) >= 0
      invariant from <= i
      invariant val == Wrap64(acc) && Numeral(s, from, hex, 0) == Numeral(s, i, hex, acc)
      decreases |s| - i
    {
      WrapStep(acc, Base(hex), Digit(s[i], hex));
      val := Wrap64(val * Base(hex) + Digit(s[i], hex));
      acc := acc * Base(hex) + Digit(s[i], hex);
      i := i + 1;
    }
  }

  lemma WrapSmall(v: int)
    requires -TWO63 <= v < TWO63
    ensures Wrap64(v) == v
  { }

  method ReadImmediate(s: string) returns (imm: int)
    ensures imm == ParseImmediate(s)
  {
    hide Wrap64, Numeral;
    var k := Span(s, IsBlank, 0, |s|);
    var i := k;
    var neg := At(s, i) == '-';
    if neg { i := i + 1; }
    if HexAt(s, i) {
      imm := ReadNumeral(s, i + 2, true);
      WrapNegate(Numeral(s, i + 2, true, 0));
    } else {
      imm := ReadNumeral(s, i, false);
      WrapNegate(Numeral(s, i, false, 0));
    }
    if neg { imm := Wrap64(-imm); }
  }

  /** The branches of asm_line behind the mnemonic. */
  method Select(m: Mnemonic, arg1: string, arg2: string) returns (i: Option<Instr>)
    ensures i == Instruction(m, arg1, arg2)
  {
    hide ParseRegister, ParseImmediate, Wrap32;
    var r1, r2 := ParseRegister(arg1), ParseRegister(arg2);
    match m
    case SyscallM => return Some(Syscall);
    case RetM => return Some(Ret);
    case NopM => return Some(Nop);
    case CallM =>
      if r1 >= 0 { return Some(OneReg(CallReg, r1)); }
      var offset := ReadImmediate(arg1);
      return Some(CallRel(Wrap32(offset)));
    case PushM =>
      if r1 < 0 { return None; }
      return Some(Push(r1));
    case PopM =>
      if r1 < 0 { return None; }
      return Some(Pop(r1));
    case UnaryM(u) =>
      if r1 < 0 { return None; }
      return Some(OneReg(u, r1));
    case ShiftM(g) =>
      if r1 < 0 { return None; }
      var imm := ReadImmediate(arg2);
      if imm < 0 || imm > 63 { return None; }
      return Some(RegImm8(g, r1, imm));
    case AluM(a) =>
      if r1 < 0 { return None; }
      if r2 >= 0 { return Some(RegReg(a, r1, r2)); }
      if a == Xor || a == Or || a == And { return None; }
      var imm := ReadImmediate(arg2);
      if a == Mov {
        if r1 == 0 && (imm > 0x7FFF_FFFF || imm < -0x8000_0000) { return Some(MovRaxImm64(imm)); }
        return Some(MovImm32(r1, Wrap32(imm)));
      }
      if imm < -128 || imm > 127 { return None; }
      return Some(RegImm8(GroupOf(a).value, r1, imm));
  }

  // ---- emitting ----

  /** `bytes` went behind `out0`, or the buffer is full and the error is noted. */
  ghost predicate Appended(out0: seq<byte>, error0: bool, out: seq<byte>, error: bool, bytes: seq<byte>) {
    if |out0| + |bytes| <= MAX_ASM_SIZE then out == out0 + bytes && error == error0 else error
  }

  lemma AppendedThen(a: seq<byte>, ea: bool, b: seq<byte>, eb: bool, c: seq<byte>, ec: bool, x: seq<byte>, y: seq<byte>)
    requires Appended(a, ea, b, eb, x) && Appended(b, eb, c, ec, y)
    ensures Appended(a, ea, c, ec, x + y)
  {
    assert a + (x + y) == (a + x) + y;
  }

  class Assembler {
    const code: array<byte>
    var size: nat
    var error: bool
    /** The instructions assembled so far. */
    ghost var program: seq<Instr>

    ghost predicate Sized()
      reads this, code
    {
      code.Length == MAX_ASM_SIZE && size <= MAX_ASM_SIZE
    }

    ghost function Out(): (s: seq<byte>)
      requires Sized()
      reads this, code
    {
      code[..size]
    }

    ghost predicate Valid()
      reads this, code
    {
      && Sized()
      && AsmListing.AllAssemblable(program)
      && (!error ==> Out() == EncodeAll(program))
    }

    /** asm_init on a new context. */
    constructor ()
      ensures Valid() && fresh(code) && !error && program == []
    {
      code := new byte[MAX_ASM_SIZE](_ => 0);
      size := 0;
      error := false;
      program := [];
    }

    method Emit(b: byte)
      requires Sized()
      modifies this`size, this`error, code
      ensures Sized() && Appended(old(Out()), old(error), Out(), error, [b])
    {
      if size >= MAX_ASM_SIZE {
        error := true;
        return;
      }
      code[size] := b;
      size := size + 1;
    }

    /** The byte loop of an immediate. */
    method EmitImmediate(v: int, n: nat)
      requires Sized()
      modifies this`size, this`error, code
      ensures Sized() && Appended(old(Out()), old(error), Out(), error, ImmBytes(v, n))
    {
      hide Appended;
      var rest, k := v, 0;
      AppendedNone(Out(), error);
      assert ImmBytes(v, n)[..0] == [] && ImmBytes(v, n)[0..] == ImmBytes(rest, n);
      while k < n
        invariant k <= n && Sized()
        invariant ImmBytes(v, n)[k..] == ImmBytes(rest, n - k)
        invariant Appended(old(Out()), old(error), Out(), error, ImmBytes(v, n)[..k])
      {
        ghost var all, out0, error0 := ImmBytes(v, n), Out(), error;
        assert all[k] == all[k..][0] == rest % 256;
        Emit(rest % 256);
        AppendedThen(old(Out()), old(error), out0, error0, Out(), error, all[..k], [rest % 256]);
        assert all[..k + 1] == all[..k] + [rest % 256];
        assert all[k + 1..] == all[k..][1..];
        rest := rest / 256;
        k := k + 1;
      }
      assert ImmBytes(v, n)[..n] == ImmBytes(v, n);
    }

    /** The three leading bytes of the register forms. */
    method EmitThree(a: byte, b: byte, c: byte)
      requires Sized()
      modifies this`size, this`error, code
      ensures Sized() && Appended(old(Out()), old(error), Out(), error, [a, b, c])
    {
      hide Appended;
      ghost var out0, error0 := Out(), error;
      Emit(a);
      ghost var out1, error1 := Out(), error;
      Emit(b);
      ghost var out2, error2 := Out(), error;
      AppendedThen(out0, error0, out1, error1, out2, error2, [a], [b]);
      assert [a] + [b] == [a, b];
      Emit(c);
      AppendedThen(out0, error0, out2, error2, Out(), error, [a, b], [c]);
      assert [a, b] + [c] == [a, b, c];
    }

    method EmitTwo(a: byte, b: byte)
      requires Sized()
      modifies this`size, this`error, code
      ensures Sized() && Appended(old(Out()), old(error), Out(), error, [a, b])
    {
      hide Appended;
      ghost var out0, error0 := Out(), error;
      Emit(a);
      ghost var out1, error1 := Out(), error;
      Emit(b);
      AppendedThen(out0, error0, out1, error1, Out(), error, [a], [b]);
      assert [a] + [b] == [a, b];
    }

    /** Two register operands. */
    method EmitRegReg(opcode: byte, dst: reg, src: reg)
      requires Sized()
      modifies this`size, this`error, code
      ensures Sized()
      ensures Appended(old(Out()), old(error), Out(), error, [Rex(src, dst), opcode, 0xC0 + 8 * (src % 8) + dst % 8])
    {
      hide Appended;
      var rex: int, s: int, d: int := 0x48, src, dst;
      if s >= 8 {
        rex := rex + 4;
        s := s - 8;
      }
      if d >= 8 {
        rex := rex + 1;
        d := d - 8;
      }
      EmitThree(rex, opcode, 0xC0 + 8 * s + d);
    }

    /** One register operand and an opcode extension, then an immediate of `n` bytes. */
    method EmitReg(opcode: byte, modrm: byte, r: reg, imm: int, n: nat)
      requires Sized() && modrm % 8 == 0
      modifies this`size, this`error, code
      ensures Sized()
      ensures Appended(old(Out()), old(error), Out(), error, [Rex(0, r), opcode, modrm + r % 8] + ImmBytes(imm, n))
    {
      hide Appended, ImmBytes;
      ghost var out0, error0 := Out(), error;
      var rex, low := SplitRegister(r);
      EmitThree(rex, opcode, modrm + low);
      ghost var out1, error1 := Out(), error;
      EmitImmediate(imm, n);
      AppendedThen(out0, error0, out1, error1, Out(), error, [Rex(0, r), opcode, modrm + r % 8], ImmBytes(imm, n));
    }

    /** asm_push_reg and asm_pop_reg. */
    method EmitStack(opcode: byte, r: reg)
      requires Sized() && opcode < 0xF0
      modifies this`size, this`error, code
      ensures Sized()
      ensures Appended(old(Out()), old(error), Out(), error, (if r >= 8 then [0x41] else []) + [opcode + r % 8])
    {
      hide Appended;
      if r >= 8 {
        EmitTwo(0x41, opcode + (r - 8));
        assert [0x41] + [opcode + r % 8] == [0x41, opcode + r % 8];
      } else {
        Emit(opcode + r);
        assert [] + [opcode + r % 8] == [opcode + r % 8];
      }
    }

    /** A short opcode with an immediate behind it. */
    method EmitOpcodeImmediate(opcode: seq<byte>, imm: int, n: nat)
      requires Sized() && 1 <= |opcode| <= 2
      modifies this`size, this`error, code
      ensures Sized()
      ensures Appended(old(Out()), old(error), Out(), error, opcode + ImmBytes(imm, n))
    {
      hide Appended, ImmBytes;
      ghost var out0, error0 := Out(), error;
      if |opcode| == 1 {
        Emit(opcode[0]);
        assert opcode == [opcode[0]];
      } else {
        EmitTwo(opcode[0], opcode[1]);
        assert opcode == [opcode[0], opcode[1]];
      }
      ghost var out1, error1 := Out(), error;
      EmitImmediate(imm, n);
      AppendedThen(out0, error0, out1, error1, Out(), error, opcode, ImmBytes(imm, n));
    }

    /** The emitters, one instruction each. */
    method EmitInstr(i: Instr)
      requires Sized()
      modifies this`size, this`error, code
      ensures Sized() && Appended(old(Out()), old(error), Out(), error, Encode(i))
    {
      NoImmediate();
      hide Appended, Rex, ImmBytes;
      match i
      case RegReg(a, dst, src) => EmitRegReg(AluOpcode(a), dst, src);
      case RegImm8(g, r, imm) => EmitReg(GroupOpcode(g), GroupModRM(g), r, imm, 1);
      case OneReg(u, r) =>
        EmitReg(UnaryOpcode(u), UnaryModRM(u), r, 0, 0);
        assert Encode(i) + [] == Encode(i);
      case MovImm32(r, imm) => EmitReg(0xC7, 0xC0, r, imm, 4);
      case MovRaxImm64(imm) => EmitOpcodeImmediate([0x48, 0xB8], imm, 8);
      case Push(r) => EmitStack(0x50, r);
      case Pop(r) => EmitStack(0x58, r);
      case CallRel(imm) => EmitOpcodeImmediate([0xE8], imm, 4);
      case Syscall => EmitTwo(0x0F, 0x05);
      case Ret => Emit(0xC3);
      case Nop => Emit(0x90);
    }

    /** asm_line. */
    method Line(line: string) returns (r: int)
      requires Valid()
      modifies this, code
      ensures Valid()
      ensures old(error) ==> r == -1 && error && program == old(program)
      ensures !old(error) ==>
                match LineMeaning(line)
                case Nothing => r == 0 && !error && program == old(program)
                case Wrong => r == -1 && error && program == old(program)
                case Does(i) =>
                  && r == 0
                  && (error <==> |EncodeAll(old(program))| + |Encode(i)| > MAX_ASM_SIZE)
                  && program == if error then old(program) else old(program) + [i]
    {
      hide SpanEnd, Lookup, Instruction, EncodeAll, Encode, Assemblable, Lower;
      if error { return -1; }
      var start := Span(line, IsBlank, 0, |line|);
      if IsEmptyAt(line, start) { return 0; }
      var i1 := Span(line, InMnemonic, start, 31);
      var i2 := Span(line, IsBlank, i1, |line|);
      var i3 := Span(line, InArgument, i2, 63);
      var i4 := Span(line, IsSeparator, i3, |line|);
      var i5 := Span(line, InArgument, i4, 63);
      var m := Lookup(Lower(line[start..i1]));
      if m.None? {
        error := true;
        return -1;
      }
      var i := Select(m.value, line[i2..i3], line[i4..i5]);
      if i.None? {
        error := true;
        return -1;
      }
      LineAssemblable(line);
      Place(i.value);
      return 0;
    }

    /** asm_program. The context is free of error afterwards exactly when it was before, every line is right and all the
        code fits; then the program has grown by what the lines mean. A return of -1 implies an error, but code that
        overflows on the last line is an error with a return of 0. */
    method Program(text: string) returns (r: int)
      requires Valid()
      modifies this, code
      ensures Valid() && (r == -1 ==> error)
      ensures !error <==> !old(error) && Completes(old(program), Meanings(Lines(text, 0)))
      ensures !error ==> program == old(program) + Meanings(Lines(text, 0)).value
    {
      hide SpanEnd, EncodeAll, Encode, LineMeaning, Assemblable, Meanings, Lines, Completes;
      ghost var all, done := Meanings(Lines(text, 0)), [];
      var at := 0;
      PrependNone(all);
      assert program == old(program) + done;
      while at < |text| && text[at] != NUL
        invariant at <= |text| && Valid()
        invariant error ==> old(error) || !Completes(old(program), all)
        invariant !error ==> !old(error) && program == old(program) + done && all == Prepend(done, Meanings(Lines(text, at)))
        decreases |text| - at
      {
        var k := Span(text, InLine, at, 255);
        var line := text[at..k];
        var next := if k < |text| && text[k] == '\n' then k + 1 else k;
        LinesStep(text, at, k, next);
        ghost var rest := Meanings(Lines(text, next));
        MeaningsStep(line, Lines(text, next));
        ghost var was := error;
        var s := Line(line);
        if !was && LineMeaning(line).Does? {
          ghost var i := LineMeaning(line).instr;
          if error {
            Overflows(old(program), done, i, rest);
          } else {
            PrependTwice(done, i, rest);
            assert program == old(program) + (done + [i]);
            done := done + [i];
          }
        }
        assert all.None? ==> !Completes(old(program), all) by { NotComplete(old(program), all); }
        if s < 0 { return -1; }
        at := next;
      }
      LinesEnd(text, at);
      if !error { Complete(old(program), done, all, program); }
      return 0;
    }

    /** asm_get_code: no code after an error, and otherwise code that decodes to the program. */
    method GetCode() returns (found: bool, n: nat)
      requires Valid()
      ensures found == !error && n == (if error then 0 else size) && n <= code.Length
      ensures found ==> code[..n] == EncodeAll(program) && DecodeAll(code[..n]) == Some(program)
    {
      if error { return false, 0; }
      WellFormedProgram(program);
      hide EncodeAll, DecodeAll;
      DecodeProgram(program);
      return true, size;
    }

    /** Appends one instruction to the program, if it fits. */
    method Place(i: Instr)
      requires Valid() && !error && Assemblable(i)
      modifies this, code
      ensures Valid()
      ensures error <==> |EncodeAll(old(program))| + |Encode(i)| > MAX_ASM_SIZE
      ensures program == if error then old(program) else old(program) + [i]
    {
      hide Encode, Assemblable;
      EmitInstr(i);
      if !error {
        EncodeSnoc(program, i);
        program := program + [i];
      }
    }

    /** A REX prefix with the register moved to the low eight. */
    method SplitRegister(r: reg) returns (rex: byte, low: int)
      ensures rex == Rex(0, r) && low == r % 8
    {
      rex, low := 0x48, r;
      if low >= 8 {
        rex := rex + 1;
        low := low - 8;
      }
    }
  }

  lemma EncodeSnoc(prog: seq<Instr>, i: Instr)
    ensures EncodeAll(prog + [i]) == EncodeAll(prog) + Encode(i)
  {
    hide Encode;
    var all := prog + [i];
    assert all[..|all| - 1] == prog;
  }

  lemma {:induction false} EncodeAppend(a: seq<Instr>, b: seq<Instr>)
    ensures EncodeAll(a + b) == EncodeAll(a) + EncodeAll(b)
    decreases |b|
  {
    hide Encode;
    if b == [] {
      assert a + b == a;
    } else {
      var front, last := b[..|b| - 1], b[|b| - 1];
      EncodeAppend(a, front);
      EncodeSnoc(a + front, last);
      EncodeSnoc(front, last);
      assert a + b == (a + front) + [last] && b == front + [last];
    }
  }

  lemma NoImmediate()
    ensures ImmBytes(0, 0) == []
  { }

  lemma AppendedNone(out: seq<byte>, error: bool)
    requires |out| <= MAX_ASM_SIZE
    ensures Appended(out, error, out, error, [])
  { }

  lemma WellFormedProgram(prog: seq<Instr>)
    requires AsmListing.AllAssemblable(prog)
    ensures AllWellFormed(prog)
  {
    hide Assemblable, WellFormed;
    forall i | i in prog ensures WellFormed(i) { AssemblableFits(i); }
  }

  /** The lines are all right and their code fits behind what is there. */
  ghost predicate Completes(before: seq<Instr>, meanings: Option<seq<Instr>>) {
    meanings.Some? && |EncodeAll(before + meanings.value)| <= MAX_ASM_SIZE
  }

  ghost function Prepend(done: seq<Instr>, rest: Option<seq<Instr>>): Option<seq<Instr>> {
    if rest.None? then None else Some(done + rest.value)
  }

  lemma PrependTwice(done: seq<Instr>, i: Instr, rest: Option<seq<Instr>>)
    ensures Prepend(done, Prepend([i], rest)) == Prepend(done + [i], rest)
  {
    if rest.Some? { assert done + ([i] + rest.value) == (done + [i]) + rest.value; }
  }

  lemma NotComplete(before: seq<Instr>, meanings: Option<seq<Instr>>)
    ensures meanings.None? ==> !Completes(before, meanings)
  { }

  /** Code that does not fit when an instruction is added does not fit later. */
  lemma Overflows(before: seq<Instr>, done: seq<Instr>, i: Instr, rest: Option<seq<Instr>>)
    requires |EncodeAll(before + done)| + |Encode(i)| > MAX_ASM_SIZE
    ensures !Completes(before, Prepend(done, Prepend([i], rest)))
  {
    hide EncodeAll, Encode;
    if rest.Some? {
      var v := done + ([i] + rest.value);
      assert before + v == ((before + done) + [i]) + rest.value;
      EncodeSnoc(before + done, i);
      EncodeAppend((before + done) + [i], rest.value);
    }
  }

  lemma Complete(before: seq<Instr>, done: seq<Instr>, all: Option<seq<Instr>>, program: seq<Instr>)
    requires program == before + done && all == Prepend(done, Some([])) && |EncodeAll(program)| <= MAX_ASM_SIZE
    ensures Completes(before, all) && program == before + all.value
  {
    hide EncodeAll;
    assert done + [] == done;
  }

  lemma LinesStep(text: string, at: nat, k: nat, next: nat)
    requires at < |text| && text[at] != NUL && k == SpanEnd(text, InLine, at, 255)
    requires next == if k < |text| && text[k] == '\n' then k + 1 else k
    ensures at < next <= |text| && Lines(text, at) == [text[at..k]] + Lines(text, next)
  { }

  lemma LinesEnd(text: string, at: nat)
    requires at <= |text| && (at == |text| || text[at] == NUL)
    ensures Meanings(Lines(text, at)) == Some([])
  { }

  lemma MeaningsStep(line: string, rest: seq<string>)
    ensures Meanings([line] + rest) ==
            match LineMeaning(line)
            case Nothing => Meanings(rest)
            case Wrong => None
            case Does(i) => Prepend([i], Meanings(rest))
  {
    hide LineMeaning;
    assert ([line] + rest)[1..] == rest;
  }

  lemma PrependNone(rest: Option<seq<Instr>>)
    ensures Prepend([], rest) == rest
  {
    if rest.Some? { assert [] + rest.value == rest.value; }
  }

  /** Assembling the listing of a program gives code exactly when it fits, and that code decodes to the program. */
  method AssembleListing(prog: seq<Instr>) returns (found: bool, bytes: seq<byte>)
    requires AsmListing.AllAssemblable(prog)
    ensures found <==> |EncodeAll(prog)| <= MAX_ASM_SIZE
    ensures found ==> bytes == EncodeAll(prog) && DecodeAll(bytes) == Some(prog)
  {
    hide EncodeAll, DecodeAll, Meanings, Lines, AsmListing.Listing, Assemblable;
    var asm := new Assembler();
    var r := asm.Program(AsmListing.Listing(prog));
    AsmListing.ListingMeans(prog);
    assert [] + prog == prog;
    var n;
    found, n := asm.GetCode();
    bytes := asm.code[..n];
  }
}
