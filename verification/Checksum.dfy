/** The Internet checksum: net_checksum (src/kernel/Network/Drivers/net.c) and tcp_calculate_checksum
    (src/kernel/Network/Protocols/tcp.c). */
module Checksum {
  type byte = x: int | 0 <= x < 256
  type u16 = x: int | 0 <= x < 0x1_0000
  type u32 = x: int | 0 <= x < 0x1_0000_0000

  const TWO32 := 0x1_0000_0000

  // ---- sums of words ----

  /** The sum of the little-endian 16-bit words of a buffer, an odd last byte standing for itself. */
  function WordSum(d: seq<byte>): nat
    decreases |d|
  {
    if |d| == 0 then 0 else if |d| == 1 then d[0] else d[0] + 256 * d[1] + WordSum(d[2..])
  }

  lemma {:induction false} WordSumAppend(a: seq<byte>, b: seq<byte>)
    requires |a| % 2 == 0
    ensures WordSum(a + b) == WordSum(a) + WordSum(b)
    decreases |a|
  {
    if a == [] {
      assert a + b == b;
    } else {
      assert (a + b)[2..] == a[2..] + b;
      WordSumAppend(a[2..], b);
    }
  }

  lemma {:induction false} WordSumBound(d: seq<byte>)
    ensures WordSum(d) <= (|d| + 1) / 2 * 0xFFFF
    decreases |d|
  {
    if |d| >= 2 { WordSumBound(d[2..]); }
  }

  /** The first `n` bytes of a buffer, those at odd places 256-fold. */
  function Weighted(d: seq<byte>, n: nat): nat
    requires n <= |d|
  {
    if n == 0 then 0 else
      var b: int := d[n - 1];
      Weighted(d, n - 1) + if n % 2 == 1 then b else 256 * b
  }

  lemma {:induction false} WeightedPrefix(d: seq<byte>, e: seq<byte>, n: nat)
    requires n <= |d| && n <= |e| && d[..n] == e[..n]
    ensures Weighted(d, n) == Weighted(e, n)
  {
    if n > 0 {
      assert d[n - 1] == d[..n][n - 1] && e[n - 1] == e[..n][n - 1];
      assert d[..n - 1] == d[..n][..n - 1] && e[..n - 1] == e[..n][..n - 1];
      WeightedPrefix(d, e, n - 1);
    }
  }

  /** Every byte of a buffer counts by its place: once at an even place, 256-fold at an odd one, whatever the length. */
  lemma {:induction false} WordSumWeighs(d: seq<byte>)
    ensures WordSum(d) == Weighted(d, |d|)
    decreases |d|
  {
    if |d| >= 2 {
      var n := if |d| % 2 == 0 then |d| - 2 else |d| - 1;
      var front, last := d[..n], d[n..];
      assert d == front + last;
      WordSumAppend(front, last);
      WordSumWeighs(front);
      WeightedPrefix(d, front, n);
    }
  }

  lemma LoneByte(b: byte)
    ensures WordSum([b]) == b && WordSum([b, 0]) == b
  {
    assert [b, 0][2..] == [];
  }

  /** An odd last byte counts like a word with a zero byte behind it. */
  lemma OddLastByte(d: seq<byte>)
    requires |d| % 2 == 1
    ensures WordSum(d) == WordSum(d + [0]) && ChecksumOf(d) == ChecksumOf(d + [0])
  {
    hide WordSum, Folded;
    var n := |d| - 1;
    assert d == d[..n] + [d[n]] && d + [0] == d[..n] + [d[n], 0];
    WordSumAppend(d[..n], [d[n]]);
    WordSumAppend(d[..n], [d[n], 0]);
    LoneByte(d[n]);
  }

  // ---- folding ----

  /** Adding the carries back in until none is left. */
  function Folded(sum: nat): u16
    decreases sum
  {
    if sum < 0x1_0000 then sum else Folded(sum % 0x1_0000 + sum / 0x1_0000)
  }

  /** Folding is reduction modulo 65535, with 65535 rather than 0 for positive multiples. */
  lemma {:induction false} FoldedValue(sum: nat)
    ensures Folded(sum) == if sum == 0 then 0 else (sum - 1) % 0xFFFF + 1
    decreases sum
  {
    if sum >= 0x1_0000 {
      var next := sum % 0x1_0000 + sum / 0x1_0000;
      FoldedValue(next);
      SameMod(next - 1, sum / 0x1_0000);
      assert sum - 1 == (next - 1) + 0xFFFF * (sum / 0x1_0000);
    }
  }

  lemma SameMod(a: nat, k: nat)
    ensures (a + 0xFFFF * k) % 0xFFFF == a % 0xFFFF
  { }

  function Complement(x: u16): u16 { 0xFFFF - x }

  /** The checksum of a buffer; the sum is kept in 32 bits. */
  function ChecksumOf(d: seq<byte>): u16 { Complement(Folded(WordSum(d) % TWO32)) }

  /** Up to 65537 words the 32-bit sum cannot overflow. */
  lemma NoOverflow(d: seq<byte>)
    requires |d| <= 131074
    ensures WordSum(d) < TWO32
  {
    WordSumBound(d);
  }

  function WordBytes(x: u16): seq<byte> { [x % 256, x / 256] }

  /** The buffer with `x` stored as a word at `at`. */
  function Stored(d: seq<byte>, at: nat, x: u16): seq<byte>
    requires at + 2 <= |d|
  {
    d[..at] + WordBytes(x) + d[at + 2..]
  }

  lemma StoredSum(d: seq<byte>, at: nat, x: u16)
    requires at + 2 <= |d| && at % 2 == 0
    ensures WordSum(Stored(d, at, x)) == WordSum(d[..at]) + x + WordSum(d[at + 2..])
  {
    var w := WordBytes(x);
    assert WordSum(w) == x;
    hide WordSum, WordBytes;
    WordSumAppend(d[..at] + w, d[at + 2..]);
    WordSumAppend(d[..at], w);
  }

  lemma ChecksumIs(d: seq<byte>)
    requires |d| <= 131074
    ensures ChecksumOf(d) == 0xFFFF - if WordSum(d) == 0 then 0 else (WordSum(d) - 1) % 0xFFFF + 1
  {
    hide WordSum, Folded;
    NoOverflow(d);
    InRange(WordSum(d));
    FoldedValue(WordSum(d));
  }

  lemma InRange(a: nat)
    requires a < TWO32
    ensures a % TWO32 == a
  { }

  /** A buffer checks out when its words add up to a positive multiple of 65535. */
  lemma ZeroChecksum(d: seq<byte>)
    requires |d| <= 131074
    ensures ChecksumOf(d) == 0 <==> WordSum(d) > 0 && WordSum(d) % 0xFFFF == 0
  {
    hide WordSum, ChecksumOf;
    ChecksumIs(d);
    LastResidue(WordSum(d));
  }

  lemma LastResidue(a: nat)
    ensures a > 0 ==> ((a - 1) % 0xFFFF + 1 == 0xFFFF <==> a % 0xFFFF == 0)
  { }

  /** Storing the checksum in a zeroed word makes the buffer sum up to a checksum of zero. */
  lemma ChecksumVerifies(d: seq<byte>, at: nat)
    requires |d| <= 131074 && at + 2 <= |d| && at % 2 == 0 && d[at] == 0 && d[at + 1] == 0
    ensures ChecksumOf(Stored(d, at, ChecksumOf(d))) == 0
  {
    hide WordSum, ChecksumOf;
    var sum, x := WordSum(d), ChecksumOf(d);
    assert Stored(d, at, 0) == d;
    StoredSum(d, at, 0);
    StoredSum(d, at, x);
    ChecksumIs(d);
    AllOnes(sum, x);
    ZeroChecksum(Stored(d, at, x));
  }

  lemma AllOnes(sum: nat, x: nat)
    requires x == 0xFFFF - (if sum == 0 then 0 else (sum - 1) % 0xFFFF + 1)
    ensures sum + x > 0 && (sum + x) % 0xFFFF == 0
  {
    if sum > 0 {
      var q := (sum - 1) / 0xFFFF;
      assert sum + x == 0xFFFF * (q + 1);
    }
  }

  /** Replacing one word of a buffer that checks out goes unnoticed exactly when the two words are equal modulo 65535
      (and the buffer does not become all zero). */
  lemma ChecksumDetects(d: seq<byte>, at: nat, x: u16, y: u16)
    requires |d| <= 131074 && at + 2 <= |d| && at % 2 == 0
    requires ChecksumOf(Stored(d, at, x)) == 0
    ensures ChecksumOf(Stored(d, at, y)) == 0 <==> (x - y) % 0xFFFF == 0 && WordSum(Stored(d, at, y)) > 0
  {
    hide WordSum, ChecksumOf;
    var rest := WordSum(d[..at]) + WordSum(d[at + 2..]);
    StoredSum(d, at, x);
    StoredSum(d, at, y);
    ZeroChecksum(Stored(d, at, x));
    ZeroChecksum(Stored(d, at, y));
    SameResidue(rest + x, rest + y);
  }

  lemma SameResidue(a: nat, b: nat)
    requires a % 0xFFFF == 0
    ensures b % 0xFFFF == 0 <==> (a - b) % 0xFFFF == 0
  { }

  /** In a buffer of odd length that checks out, every change of the last byte is noticed. */
  lemma ChecksumDetectsLast(d: seq<byte>, x: byte, y: byte)
    requires |d| % 2 == 0 && |d| < 131074 && ChecksumOf(d + [x]) == 0
    ensures ChecksumOf(d + [y]) == 0 <==> x == y
  {
    WordSumAppend(d, [x]);
    WordSumAppend(d, [y]);
    LoneByte(x);
    LoneByte(y);
    hide WordSum, ChecksumOf;
    ZeroChecksum(d + [x]);
    ZeroChecksum(d + [y]);
    SameResidue(WordSum(d) + x, WordSum(d) + y);
  }

  /** The example in section 3 of RFC 1071: the sum is DD F2, so the checksum goes out as the bytes 22 0D. */
  lemma ChecksumExample()
    ensures WordBytes(ChecksumOf([0x00, 0x01, 0xF2, 0x03, 0xF4, 0xF5, 0xF6, 0xF7])) == [0x22, 0x0D]
  {
    var d: seq<byte> := [0x00, 0x01, 0xF2, 0x03, 0xF4, 0xF5, 0xF6, 0xF7];
    assert WordSum(d[6..]) == 0xF7F6;
    assert d[4..][2..] == d[6..] && WordSum(d[4..]) == 0xF7F6 + 0xF5F4;
    assert d[2..][2..] == d[4..] && WordSum(d[2..]) == 0xF7F6 + 0xF5F4 + 0x03F2;
    assert WordSum(d) == 0x1_F2DC;
  }

  // ---- the methods ----

  method FoldSum(sum0: u32) returns (r: u16)
    ensures r == Folded(sum0)
  {
    var sum: u32 := sum0;
    while sum / 0x1_0000 != 0
      invariant Folded(sum) == Folded(sum0)
      decreases sum
    {
      sum := sum % 0x1_0000 + sum / 0x1_0000;
    }
    r := sum;
  }

  function WordAt(low: byte, high: byte): u16 {
    var h: int := high;
    low + 256 * h
  }

  lemma WrapAdd(a: nat, b: nat)
    ensures (a % TWO32 + b) % TWO32 == (a + b) % TWO32
  { }

  /** Adds the words of a buffer to a 32-bit sum. */
  method AddWords(sum0: u32, data: array<byte>, length: nat) returns (sum: u32)
    requires length <= data.Length
    ensures sum == (sum0 + WordSum(data[..length])) % TWO32
  {
    sum := sum0;
    var i := 0;
    ghost var d := data[..length];
    assert d[0..] == d;
    while length - i > 1
      invariant i <= length
      invariant (sum + WordSum(d[i..])) % TWO32 == (sum0 + WordSum(d)) % TWO32
    {
      assert d[i..][2..] == d[i + 2..];
      var w := WordAt(data[i], data[i + 1]);
      WrapAdd(sum + w, WordSum(d[i + 2..]));
      sum := (sum + w) % TWO32;
      i := i + 2;
    }
    if length - i == 1 {
      sum := (sum + data[i]) % TWO32;
    }
  }

  method NetChecksum(data: array<byte>, length: nat) returns (r: u16)
    requires length <= data.Length
    ensures r == ChecksumOf(data[..length])
  {
    var sum := AddWords(0, data, length);
    var folded := FoldSum(sum);
    r := Complement(folded);
  }

  /** net_htons. */
  function Htons(n: u16): u16 { n % 256 * 256 + n / 256 }

  const IP_PROTO_TCP := 6

  /** The addresses as they lie in memory, a zero byte, the protocol and the segment length in network order. */
  function PseudoHeader(src: u32, dest: u32, length: u16): (h: seq<byte>)
    ensures |h| == 12
  {
    WordBytes(src % 0x1_0000) + WordBytes(src / 0x1_0000) + WordBytes(dest % 0x1_0000) + WordBytes(dest / 0x1_0000)
    + [0, IP_PROTO_TCP] + [length / 256, length % 256]
  }

  /** The layout of the pseudo-header: addresses lowest byte first as they are kept in memory, length highest byte first. */
  lemma PseudoHeaderBytes(src: u32, dest: u32, length: u16)
    ensures var h := PseudoHeader(src, dest, length);
            && h[0] + 256 * h[1] as int + 0x1_0000 * h[2] as int + 0x100_0000 * h[3] as int == src
            && h[4] + 256 * h[5] as int + 0x1_0000 * h[6] as int + 0x100_0000 * h[7] as int == dest
            && h[8] == 0 && h[9] == 6 && 256 * h[10] as int + h[11] == length
  { }

  lemma PseudoHeaderSum(src: u32, dest: u32, length: u16)
    ensures WordSum(PseudoHeader(src, dest, length)) ==
            src / 0x1_0000 + src % 0x1_0000 + dest / 0x1_0000 + dest % 0x1_0000 + Htons(IP_PROTO_TCP) + Htons(length)
  {
    var s0, s1, d0, d1 := WordBytes(src % 0x1_0000), WordBytes(src / 0x1_0000), WordBytes(dest % 0x1_0000), WordBytes(dest / 0x1_0000);
    PairSum(src % 0x1_0000);
    PairSum(src / 0x1_0000);
    PairSum(dest % 0x1_0000);
    PairSum(dest / 0x1_0000);
    assert WordSum([0, IP_PROTO_TCP]) == Htons(IP_PROTO_TCP);
    var l: seq<byte> := [length / 256, length % 256];
    assert WordSum(l) == Htons(length);
    hide WordSum, WordBytes, Htons;
    WordSumAppend(s0, s1);
    WordSumAppend(s0 + s1, d0);
    WordSumAppend(s0 + s1 + d0, d1);
    WordSumAppend(s0 + s1 + d0 + d1, [0, IP_PROTO_TCP]);
    WordSumAppend(s0 + s1 + d0 + d1 + [0, IP_PROTO_TCP], l);
  }

  lemma PairSum(x: u16)
    ensures WordSum(WordBytes(x)) == x && |WordBytes(x)| == 2
  { }

  /** tcp_calculate_checksum is the checksum of the pseudo-header followed by the segment. */
  method TcpChecksum(src: u32, dest: u32, data: array<byte>, length: u16) returns (r: u16)
    requires length <= data.Length
    ensures r == ChecksumOf(PseudoHeader(src, dest, length) + data[..length])
  {
    hide WordSum, Folded, PseudoHeader;
    var sum := 0;
    sum := sum + src / 0x1_0000;
    sum := sum + src % 0x1_0000;
    sum := sum + dest / 0x1_0000;
    sum := sum + dest % 0x1_0000;
    sum := sum + Htons(IP_PROTO_TCP);
    sum := sum + Htons(length);
    PseudoHeaderSum(src, dest, length);
    WordSumAppend(PseudoHeader(src, dest, length), data[..length]);
    var total := AddWords(sum, data, length);
    var folded := FoldSum(total);
    r := Complement(folded);
  }
}
