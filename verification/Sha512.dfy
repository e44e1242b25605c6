/** The hashing context and HMAC of src/kernel/Network/Cryptography/SHA512.c. */
module Sha512Module {
  import opened Sha512Spec

  /** The first `n` blocks of the message are folded into `h`. */
  ghost predicate Absorbed(h: seq<Word>, m: seq<byte>, n: nat) {
    128 * n <= |m| && |h| == 8 && h == Fold(Initial(), m, n)
  }

  lemma AbsorbNone(h: seq<Word>, m: seq<byte>)
    requires |h| == 8 && h == Initial()
    ensures Absorbed(h, m, 0)
  {
    hide Compress, Initial;
  }

  lemma AbsorbBlock(h: Hash, m: seq<byte>, n: nat, at: nat)
    requires Absorbed(h, m, n) && at == 128 * n && at + 128 <= |m|
    ensures Absorbed(Compress(h, m[at..at + 128]), m, n + 1)
  {
    hide Compress, Initial;
  }

  lemma AbsorbedExtends(h: seq<Word>, m: seq<byte>, x: seq<byte>, n: nat)
    requires Absorbed(h, m, n)
    ensures Absorbed(h, m + x, n)
  {
    hide Fold, Compress, Initial;
    FoldPrefix(Initial(), m, x, n);
  }

  /** The two counters together hold the number of bits modulo 2^128. */
  ghost predicate Counts(count0: nat, count1: nat, len: nat) {
    count0 < TWO64 && count1 < TWO64 && count1 * TWO64 + count0 == 8 * len % TWO128
  }

  const TWO61 := 0x2000_0000_0000_0000

  lemma CountIndex(count0: nat, count1: nat, len: nat)
    requires Counts(count0, count1, len)
    ensures count0 / 8 % 128 == len % 128
  {
    var q := 8 * len / TWO128;
    LowWord(count0, q * TWO64 + count1, len);
  }

  lemma LowWord(count0: nat, k: nat, len: nat)
    requires 8 * len == k * TWO64 + count0
    ensures count0 / 8 % 128 == len % 128
  {
    var r := len - k * TWO61;
    assert count0 == 8 * r;
    Whole128(r, k * 0x40_0000_0000_0000);
  }

  lemma Whole128(r: nat, k: nat)
    ensures (r + 128 * k) % 128 == r % 128
  { }

  lemma RemainderIs(x: nat, q: nat, r: nat)
    requires r < TWO128 && x == q * TWO128 + r
    ensures x % TWO128 == r
  { }

  lemma ShiftSplit(more: nat)
    ensures 8 * more == more / TWO61 * TWO64 + 8 * more % TWO64
  {
    var r := more % TWO61;
    assert 8 * more == more / TWO61 * TWO64 + 8 * r && 8 * r < TWO64;
  }

  /** The sum wrapped exactly when it came out smaller than what was added. */
  lemma CarryIs(a: nat, b: nat, sum: nat)
    requires a < TWO64 && b < TWO64 && sum == (a + b) % TWO64
    ensures sum + (if sum < b then TWO64 else 0) == a + b
  { }

  lemma WrapTwice(a: nat, b: nat, sum: nat) returns (lost: nat)
    requires sum == (a % TWO64 + b) % TWO64
    ensures sum < TWO64 && sum + lost * TWO64 == a + b
  {
    lost := a / TWO64 + (a % TWO64 + b) / TWO64;
  }

  /** 64-bit addition. */
  function Add64(a: nat, b: nat): nat { (a + b) % TWO64 }

  /** 64-bit shifts of a length, up by 3 and down by 61. */
  function Shl3(len: nat): nat { 8 * len % TWO64 }
  function Shr61(len: nat): nat { len / TWO61 }

  lemma CountAdd(count0: nat, count1: nat, n0: nat, n1: nat, len: nat, more: nat, low: nat)
    requires Counts(count0, count1, len)
    requires more < TWO64 && low == Shl3(more)
    requires n0 == Add64(count0, low)
    requires n1 == Add64(if n0 < low then Add64(count1, 1) else count1, Shr61(more))
    ensures Counts(n0, n1, len + more)
  {
    var high := more / TWO61;
    ShiftSplit(more);
    var carry := if n0 < low then 1 else 0;
    CarryIs(count0, low, n0);
    var lost := WrapTwice(count1 + carry, high, n1);
    TotalIs(count0, count1, n0, n1, len, more, carry, high, lost);
  }

  lemma TotalIs(count0: nat, count1: nat, n0: nat, n1: nat, len: nat, more: nat, carry: nat, high: nat, lost: nat)
    requires Counts(count0, count1, len)
    requires n0 < TWO64 && n1 < TWO64
    requires n0 + carry * TWO64 + high * TWO64 == count0 + 8 * more
    requires n1 + lost * TWO64 == count1 + carry + high
    ensures Counts(n0, n1, len + more)
  {
    var q := 8 * len / TWO128;
    assert 8 * (len + more) == (q + lost) * TWO128 + (n1 * TWO64 + n0);
    RemainderIs(8 * (len + more), q + lost, n1 * TWO64 + n0);
  }


  /** The whole blocks of the message are folded into `h`, the rest begins `buffer`. */
  ghost predicate Holds(h: seq<Word>, buffer: seq<byte>, m: seq<byte>) {
    |buffer| == 128
    && Absorbed(h, m, |m| / 128)
    && buffer[..|m| % 128] == m[|m| / 128 * 128..]
  }

  lemma StartHeld(h: seq<Word>, buffer: seq<byte>)
    requires |buffer| == 128 && h == Initial()
    ensures Holds(h, buffer, []) && Counts(0, 0, 0)
  {
    hide Initial, Compress;
    AbsorbNone(h, []);
  }

  lemma HoldsParts(h: seq<Word>, buffer: seq<byte>, m: seq<byte>)
    requires Holds(h, buffer, m)
    ensures |buffer| == 128 && Absorbed(h, m, |m| / 128)
    ensures buffer[..|m| % 128] == m[|m| / 128 * 128..]
  {
    hide Absorbed;
  }

  /** The bytes just copied behind the rest of the message complete a block of the longer message. */
  lemma FilledBlock(buffer: seq<byte>, m: seq<byte>, x: seq<byte>, base: nat, index: nat, part: nat)
    requires |buffer| == 128 && index < 128 && part == 128 - index <= |x| && |m| == base + index
    requires buffer[..index] == m[base..]
    requires buffer[index..] == x[..part]
    ensures buffer == (m + x)[base..base + 128]
  {
    assert buffer == buffer[..index] + buffer[index..];
  }

  /** The last bytes copied restore the context's invariant. */
  lemma RestHeld(h: seq<Word>, buffer: seq<byte>, m: seq<byte>, x: seq<byte>, n: nat, index: nat, i: nat)
    requires |buffer| == 128 && i <= |x| && index + |x| - i < 128 && |m| + i == 128 * n + index
    requires Absorbed(h, m + x, n)
    requires buffer[..index] == (m + x)[128 * n..128 * n + index]
    requires buffer[index..index + |x| - i] == x[i..]
    ensures Holds(h, buffer, m + x)
  {
    hide Absorbed;
    var end := index + |x| - i;
    assert |m + x| == 128 * n + end;
    assert |m + x| / 128 == n && |m + x| % 128 == end;
    assert buffer[..end] == buffer[..index] + buffer[index..end];
    assert (m + x)[128 * n..] == (m + x)[128 * n..128 * n + index] + x[i..];
  }

  class Context {
    const state: array<Word>
    const buffer: array<byte>
    var count0: nat
    var count1: nat
    ghost var msg: seq<byte>

    ghost predicate Valid()
      reads this, state, buffer
    {
      state.Length == 8 && buffer.Length == 128
      && Counts(count0, count1, |msg|)
      && Holds(state[..], buffer[..], msg)
    }

    constructor ()
      ensures Valid() && fresh(state) && fresh(buffer) && msg == []
    {
      state := new Word[8](_ => W(0));
      buffer := new byte[128];
      new;
      Init();
    }

    /** Starts an empty message. */
    method Init()
      requires state.Length == 8 && buffer.Length == 128
      modifies this, state
      ensures Valid() && msg == []
    {
      hide Fold, Compress, Counts, Holds;
      state[0], state[1], state[2], state[3] := W(0x6a09e667f3bcc908), W(0xbb67ae8584caa73b), W(0x3c6ef372fe94f82b), W(0xa54ff53a5f1d36f1);
      state[4], state[5], state[6], state[7] := W(0x510e527fade682d1), W(0x9b05688c2b3e6c1f), W(0x1f83d9abfb41bd6b), W(0x5be0cd19137e2179);
      count0, count1, msg := 0, 0, [];
      StartHeld(state[..], buffer[..]);
    }

    /** One application of the compression function. */
    method Transform(data: array<byte>, at: nat)
      requires state.Length == 8 && at + 128 <= data.Length
      modifies state
      ensures state[..] == Compress(old(state[..]), old(data[at..at + 128]))
    {
      hide RoundsOf, AddRegs, Schedule;
      ghost var block: Block := data[at..at + 128];
      ghost var h: Hash := state[..];
      var w := MessageSchedule(data, at);
      var r := Rounds(w, block);
      AddInto(r);
    }

    /** Adds the registers into the state. */
    method AddInto(r: Regs)
      requires state.Length == 8
      modifies state
      ensures state[..] == AddRegs(old(state[..]), r)
    {
      hide Add;
      state[0], state[1], state[2], state[3], state[4], state[5], state[6], state[7] :=
        Add(state[0], r.a), Add(state[1], r.b), Add(state[2], r.c), Add(state[3], r.d),
        Add(state[4], r.e), Add(state[5], r.f), Add(state[6], r.g), Add(state[7], r.h);
    }

    /** The 80 rounds over the message schedule. */
    method Rounds(w: array<Word>, ghost block: Block) returns (r: Regs)
      requires state.Length == 8 && w.Length == 80
      requires forall t :: 0 <= t < 80 ==> w[t] == Schedule(block, t)
      ensures r == RoundsOf(state[..], block, 80)
    {
      hide Add, Temp1, Temp2, RoundConstant, RoundsOf, Schedule;
      var a, b, c, d := state[0], state[1], state[2], state[3];
      var e, f, g, h := state[4], state[5], state[6], state[7];
      ghost var h0: Hash := state[..];
      var i := 0;
      RoundStart(h0, block);
      while i < 80
        invariant i <= 80
        invariant RoundsOf(h0, block, i) == Regs(a, b, c, d, e, f, g, h)
      {
        RoundNext(h0, block, i);
        ghost var was := Regs(a, b, c, d, e, f, g, h);
        var t1 := Temp1(Regs(a, b, c, d, e, f, g, h), RoundConstant(i), w[i]);
        var t2 := Temp2(Regs(a, b, c, d, e, f, g, h));
        h := g;
        g := f;
        f := e;
        e := Add(d, t1);
        d := c;
        c := b;
        b := a;
        a := Add(t1, t2);
        assert Round(was, RoundConstant(i), w[i]) == Regs(a, b, c, d, e, f, g, h);
        i := i + 1;
      }
      r := Regs(a, b, c, d, e, f, g, h);
    }

    /** Appends `data[..len]` to the message. */
    method Update(data: array<byte>, len: nat)
      requires Valid() && len <= data.Length && len < TWO64 && data != buffer
      modifies this, state, buffer
      ensures Valid() && msg == old(msg) + data[..len]
    {
      hide Counts, Holds, Absorbed, Fold, Compress, Initial;
      ghost var m, x := msg, data[..len];
      HoldsParts(state[..], buffer[..], m);
      ghost var n := |m| / 128;
      CountIndex(count0, count1, |m|);
      var index := count0 / 8 % 128;
      AddCount(len);
      msg := m + x;
      assert Counts(count0, count1, |msg|);
      var part := 128 - index;
      AbsorbedExtends(state[..], m, x, n);
      var i := 0;
      if len >= part {
        CompleteBlock(data, m, x, n, index);
        n := n + 1;
        i := part;
        while i + 128 <= len
          invariant i <= len && |m| + i == 128 * n
          invariant data[..len] == x && msg == m + x && Counts(count0, count1, |msg|)
          invariant Absorbed(state[..], msg, n)
        {
          assert data[i..i + 128] == x[i..i + 128] == msg[128 * n..128 * n + 128];
          TransformBlock(data, i, n);
          i := i + 128;
          n := n + 1;
        }
        index := 0;
      }
      Fill(data, i, len - i, index);
      assert data[i..len] == x[i..];
      RestHeld(state[..], buffer[..], m, x, n, index, i);
    }

    /** Fills the buffer up to a whole block and folds it into the state. */
    method CompleteBlock(data: array<byte>, ghost m: seq<byte>, ghost x: seq<byte>, ghost n: nat, index: nat)
      requires state.Length == 8 && buffer.Length == 128 && data != buffer
      requires index < 128 && 128 - index <= |x| <= data.Length && data[..|x|] == x
      requires |m| == 128 * n + index && buffer[..index] == m[128 * n..] && msg == m + x
      requires Absorbed(state[..], msg, n)
      modifies state, buffer
      ensures Absorbed(state[..], msg, n + 1)
    {
      hide Absorbed, Fold, Compress, Initial;
      var part := 128 - index;
      Fill(data, 0, part, index);
      assert data[..part] == x[..part];
      assert buffer[..][index..] == buffer[index..index + part] && buffer[..][..index] == buffer[..index];
      FilledBlock(buffer[..], m, x, 128 * n, index, part);
      TransformBlock(buffer, 0, n);
    }

    /** Folds block `n` of the message, found at `data[at]`, into the state. */
    method TransformBlock(data: array<byte>, at: nat, ghost n: nat)
      requires state.Length == 8 && at + 128 <= data.Length
      requires 128 * n + 128 <= |msg| && data[at..at + 128] == msg[128 * n..128 * n + 128]
      requires Absorbed(state[..], msg, n)
      modifies state
      ensures Absorbed(state[..], msg, n + 1)
    {
      hide Absorbed, Fold, Compress, Initial;
      AbsorbBlock(state[..], msg, n, 128 * n);
      Transform(data, at);
    }

    /** Copies `n` bytes into the buffer. */
    method Fill(data: array<byte>, from: nat, n: nat, index: nat)
      requires from + n <= data.Length && index + n <= buffer.Length && data != buffer
      modifies buffer
      ensures buffer[..index] == old(buffer[..index])
      ensures buffer[index..index + n] == data[from..from + n]
    {
      var i := 0;
      while i < n
        invariant i <= n
        invariant buffer[..index] == old(buffer[..index])
        invariant buffer[index..index + i] == data[from..from + i]
      {
        buffer[index + i] := data[from + i];
        i := i + 1;
      }
    }

    /** Writes the hash of the whole message; the context is left holding the padded message. */
    method Final(digest: array<byte>)
      requires Valid() && digest.Length >= 64 && digest != buffer
      modifies this, state, buffer, digest
      ensures Valid() && msg == Padded(old(msg))
      ensures digest[..64] == Sha512(old(msg))
      ensures digest[64..] == old(digest[64..])
    {
      hide Counts, Holds, Absorbed, Fold, Compress, Initial, EndMark, PadLength, Be64, LengthField, Digest;
      ghost var m := msg;
      var bits := LengthBytes(count0, count1, |m|);
      CountIndex(count0, count1, |m|);
      var index := count0 / 8 % 128;
      PadLengthIs(|m|, index);
      var padLen := if index < 112 then 112 - index else 240 - index;
      var padding := PaddingBytes(padLen);
      Update(padding, padLen);
      Update(bits, 16);
      assert bits[..] == bits[..16];
      assert msg == m + EndMark(padLen) + LengthField(8 * |m| % TWO128);
      WholeFolded(state[..], buffer[..], m, msg);
      WriteDigest(digest);
    }

    method WriteDigest(digest: array<byte>)
      requires state.Length == 8 && digest.Length >= 64
      modifies digest
      ensures digest[..64] == Digest(state[..])
      ensures digest[64..] == old(digest[64..])
    {
      hide WordBytes;
      ghost var h: Hash := state[..];
      var i := 0;
      while i < 8
        invariant i <= 8 && state[..] == h
        invariant digest[..8 * i] == DigestPrefix(h, i)
        invariant forall k :: 64 <= k < digest.Length ==> digest[k] == old(digest[k])
      {
        WriteWord(digest, 8 * i, state[i]);
        i := i + 1;
        DigestStep(h, i, digest[..], 8 * i);
      }
    }

    method AddCount(len: nat)
      requires Counts(count0, count1, |msg|) && len < TWO64
      modifies this`count0, this`count1
      ensures Counts(count0, count1, |msg| + len)
    {
      hide Counts, Add64, Shl3, Shr61;
      var low := Shl3(len);
      ghost var was0, was1 := count0, count1;
      count0 := Add64(count0, low);
      if count0 < low {
        count1 := Add64(count1, 1);
      }
      count1 := Add64(count1, Shr61(len));
      CountAdd(was0, was1, count0, count1, |msg|, len, low);
    }
  }

  /** The 80 words of the message schedule. */
  method MessageSchedule(data: array<byte>, at: nat) returns (w: array<Word>)
    requires at + 128 <= data.Length
    ensures fresh(w) && w.Length == 80
    ensures forall t :: 0 <= t < 80 ==> w[t] == Schedule(data[at..at + 128], t)
  {
    hide Extend, WordAt, Schedule;
    var block: Block := data[at..at + 128];
    w := new Word[80](_ => W(0));
    var i := 0;
    while i < 16
      invariant i <= 16
      invariant forall t :: 0 <= t < i ==> w[t] == Schedule(block, t)
    {
      ScheduleStart(block, i);
      w[i] := WordAt(block, 8 * i);
      i := i + 1;
    }
    while i < 80
      invariant 16 <= i <= 80
      invariant forall t :: 0 <= t < i ==> w[t] == Schedule(block, t)
    {
      ScheduleNext(block, i);
      w[i] := Extend(w[i - 2], w[i - 7], w[i - 15], w[i - 16]);
      i := i + 1;
    }
  }

  lemma DigestStep(h: Hash, n: nat, d: seq<byte>, end: nat)
    requires 0 < n <= 8 && end == 8 * n <= |d|
    requires d[..end - 8] == DigestPrefix(h, n - 1) && d[end - 8..end] == WordBytes(h[n - 1])
    ensures d[..end] == DigestPrefix(h, n)
  {
    hide WordBytes;
    assert d[..end] == d[..end - 8] + d[end - 8..end];
  }

  method WriteWord(digest: array<byte>, at: nat, w: Word)
    requires at + 8 <= digest.Length
    modifies digest
    ensures forall k :: 0 <= k < digest.Length && !(at <= k < at + 8) ==> digest[k] == old(digest[k])
    ensures digest[at..at + 8] == WordBytes(w)
  {
    hide WordByte;
    digest[at] := WordByte(w, 0);
    digest[at + 1] := WordByte(w, 1);
    digest[at + 2] := WordByte(w, 2);
    digest[at + 3] := WordByte(w, 3);
    digest[at + 4] := WordByte(w, 4);
    digest[at + 5] := WordByte(w, 5);
    digest[at + 6] := WordByte(w, 6);
    digest[at + 7] := WordByte(w, 7);
  }

  lemma PadLengthIs(len: nat, index: nat)
    requires index == len % 128
    ensures PadLength(len) == if index < 112 then 112 - index else 240 - index
  { }

  /** Once the padding is in, the state is the fold over the padded message. */
  lemma WholeFolded(h: seq<Word>, buffer: seq<byte>, m: seq<byte>, all: seq<byte>)
    requires all == Padded(m) && Holds(h, buffer, all)
    ensures |h| == 8 && Digest(h) == Sha512(m)
  {
    hide Padded, Fold, Initial, Digest;
  }

  /** The counters, high word first, as sixteen bytes. */
  method LengthBytes(count0: nat, count1: nat, ghost len: nat) returns (bits: array<byte>)
    requires Counts(count0, count1, len)
    ensures fresh(bits) && bits.Length == 16
    ensures bits[..] == LengthField(8 * len % TWO128)
  {
    hide ByteOf;
    bits := new byte[16];
    var i := 0;
    while i < 8
      invariant i <= 8
      invariant forall k :: 0 <= k < i ==> bits[k] == ByteOf(count1, k)
      invariant forall k :: 8 <= k < 8 + i ==> bits[k] == ByteOf(count0, k - 8)
    {
      bits[i] := ByteOf(count1, i);
      bits[i + 8] := ByteOf(count0, i);
      i := i + 1;
    }
    CountersAre(count0, count1, len);
    assert bits[..8] == Be64(count1);
    assert bits[8..] == Be64(count0);
    assert bits[..] == bits[..8] + bits[8..];
  }

  lemma CountersAre(count0: nat, count1: nat, len: nat)
    requires Counts(count0, count1, len)
    ensures (8 * len % TWO128) / TWO64 == count1 && (8 * len % TWO128) % TWO64 == count0
  { }

  /** The end mark followed by zeros. */
  method PaddingBytes(n: nat) returns (padding: array<byte>)
    requires 0 < n <= 128
    ensures fresh(padding) && padding.Length == 128
    ensures padding[..n] == EndMark(n)
  {
    padding := new byte[128];
    padding[0] := 0x80;
    var i := 1;
    while i < n
      invariant 1 <= i <= n && padding[0] == 0x80
      invariant forall k :: 1 <= k < i ==> padding[k] == 0
    {
      padding[i] := 0;
      i := i + 1;
    }
  }

  /** One-shot hashing. */
  method Hash512(data: array<byte>, len: nat, digest: array<byte>)
    requires len <= data.Length && len < TWO64 && digest.Length >= 64
    modifies digest
    ensures digest[..64] == Sha512(old(data[..len]))
    ensures digest[64..] == old(digest[64..])
  {
    hide Sha512, Padded, Counts, Holds;
    var ctx := new Context();
    ctx.Update(data, len);
    assert ctx.msg == old(data[..len]);
    ctx.Final(digest);
  }

  ghost function Joined(pieces: seq<array<byte>>): seq<byte>
    reads pieces
  {
    if pieces == [] then [] else Joined(pieces[..|pieces| - 1]) + pieces[|pieces| - 1][..]
  }

  /** A message handed over in any pieces hashes to the hash of the whole. */
  method HashPieces(pieces: seq<array<byte>>, digest: array<byte>)
    requires digest.Length >= 64 && forall p <- pieces :: p.Length < TWO64
    modifies digest
    ensures digest[..64] == Sha512(old(Joined(pieces)))
  {
    hide Sha512, Padded, Counts, Holds;
    var ctx := new Context();
    var i := 0;
    while i < |pieces|
      invariant i <= |pieces| && ctx.Valid() && fresh(ctx) && fresh(ctx.state) && fresh(ctx.buffer)
      invariant forall p <- pieces :: p[..] == old(p[..])
      invariant ctx.msg == old(Joined(pieces[..i]))
    {
      ctx.Update(pieces[i], pieces[i].Length);
      i := i + 1;
      assert pieces[..i][..i - 1] == pieces[..i - 1];
    }
    assert pieces[..i] == pieces;
    ctx.Final(digest);
  }

  /** The key bytes under a mask, the mask alone behind them. */
  method MaskKey(k: array<byte>, len: nat, mask: byte, pad: array<byte>, ghost key: Block)
    requires len <= k.Length && len <= 128 && pad.Length == 128 && k != pad
    requires XorByte(0, mask) == mask
    requires key == k[..len] + seq(128 - len, _ => 0)
    modifies pad
    ensures pad[..] == Masked(key, mask)
  {
    hide XorByte;
    var i := 0;
    while i < len
      invariant i <= len
      invariant forall j :: 0 <= j < i ==> pad[j] == XorByte(key[j], mask)
    {
      pad[i] := XorByte(k[i], mask);
      i := i + 1;
    }
    while i < 128
      invariant len <= i <= 128
      invariant forall j :: 0 <= j < i ==> pad[j] == XorByte(key[j], mask)
    {
      pad[i] := mask;
      i := i + 1;
    }
  }

  /** The keyed hash; `hmac` may be the data buffer, and also the key if that is longer than a block and so hashed first. */
  method HmacSha512(key: array<byte>, keyLen: nat, data: array<byte>, dataLen: nat, hmac: array<byte>)
    requires keyLen <= key.Length && keyLen < TWO64 && dataLen <= data.Length && dataLen < TWO64
    requires hmac.Length >= 64 && (hmac != key || keyLen > 128)
    modifies hmac
    ensures hmac[..64] == Hmac(old(key[..keyLen]), old(data[..dataLen]))
    ensures hmac[64..] == old(hmac[64..])
  {
    hide Sha512, Padded, Masked, XorByte, Counts, Holds;
    ghost var whole := key[..keyLen];
    ghost var m := data[..dataLen];
    var k, kLen := key, keyLen;
    if keyLen > 128 {
      k := new byte[64];
      Hash512(key, keyLen, k);
      kLen := 64;
      assert k[..64] == k[..kLen];
    }
    ghost var blockKey := BlockKey(whole);
    MasksAlone();
    var pad := new byte[128];
    MaskKey(k, kLen, 0x36, pad, blockKey);
    var ctx := new Context();
    Nested(ctx, pad, data, dataLen, hmac);
    MaskKey(k, kLen, 0x5c, pad, blockKey);
    ctx.Init();
    Nested(ctx, pad, hmac, 64, hmac);
  }

  /** Hashes the masked key followed by data. */
  method Nested(ctx: Context, pad: array<byte>, data: array<byte>, len: nat, out: array<byte>)
    requires ctx.Valid() && ctx.msg == []
    requires pad.Length == 128 && len <= data.Length && len < TWO64 && out.Length >= 64
    requires pad != ctx.buffer && data != ctx.buffer && out != ctx.buffer
    modifies ctx, ctx.state, ctx.buffer, out
    ensures ctx.Valid()
    ensures out[..64] == Sha512(old(pad[..]) + old(data[..len]))
    ensures out[64..] == old(out[64..])
  {
    hide Sha512, Padded, Counts, Holds;
    ghost var p, x := pad[..], data[..len];
    ctx.Update(pad, 128);
    assert pad[..128] == p;
    ctx.Update(data, len);
    assert ctx.msg == p + x;
    ctx.Final(out);
  }
}
