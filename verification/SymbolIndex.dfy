/** The symbol index of src/kernel/elf/elf_load.c: 256 bucket lists filled from the two symbol tables. */
module SymbolIndexModule {
  import opened Basics

  /** A table entry; `fits` says whether the allocations for it succeed. */
  datatype Sym = Sym(nameOffset: nat, kind: nat, binding: nat, section: nat, value: nat, size: nat, fits: bool)

  datatype Symbol = Symbol(name: string, value: nat, size: nat, kind: nat, binding: nat, section: nat)

  const STT_SECTION := 3
  const TWO64 := 0x1_0000_0000_0000_0000

  /** The NUL-terminated string at `at`. */
  function NameAt(strings: string, at: nat): string
    decreases |strings| - at
  {
    if at >= |strings| || strings[at] == '\0' then "" else [strings[at]] + NameAt(strings, at + 1)
  }

  /** A symbol table with its string table. */
  datatype Table = Table(syms: seq<Sym>, strings: string)

  predicate Eligible(t: Table, i: nat)
    requires i < |t.syms|
  {
    t.syms[i].nameOffset != 0 && t.syms[i].kind != STT_SECTION && t.syms[i].fits
  }

  function NameOf(t: Table, i: nat): string
    requires i < |t.syms|
  {
    NameAt(t.strings, t.syms[i].nameOffset)
  }

  function SymbolOf(t: Table, i: nat, bias: nat): Symbol
    requires i < |t.syms|
  {
    var s := t.syms[i];
    Symbol(NameOf(t, i), (s.value + bias) % TWO64, s.size, s.kind, s.binding, s.section)
  }

  // ---- the linear scans ----

  /** The last eligible entry of that name among the first `n`. */
  function LastNamed(t: Table, n: nat, name: string, bias: nat): Option<Symbol>
    requires n <= |t.syms|
  {
    if n == 0 then None
    else if Eligible(t, n - 1) && NameOf(t, n - 1) == name then Some(SymbolOf(t, n - 1, bias))
    else LastNamed(t, n - 1, name, bias)
  }

  /** The first eligible entry of that name among the first `n`. */
  function FirstNamed(t: Table, n: nat, name: string, bias: nat): Option<Symbol>
    requires n <= |t.syms|
  {
    if n == 0 then None
    else
      var earlier := FirstNamed(t, n - 1, name, bias);
      if earlier.Some? then earlier
      else if Eligible(t, n - 1) && NameOf(t, n - 1) == name then Some(SymbolOf(t, n - 1, bias))
      else None
  }

  /** The meaning of a name once `n` entries of the dynamic table are in: the regular table wins. */
  function Meaning(symtab: Table, dynsym: Table, n: nat, name: string, bias: nat): Option<Symbol>
    requires n <= |dynsym.syms|
  {
    var regular := LastNamed(symtab, |symtab.syms|, name, bias);
    if regular.Some? then regular else FirstNamed(dynsym, n, name, bias)
  }

  lemma {:induction false} LastNamedIs(t: Table, n: nat, i: nat, name: string, bias: nat)
    requires i < n <= |t.syms| && Eligible(t, i) && NameOf(t, i) == name
    requires forall k :: i < k < n && Eligible(t, k) ==> NameOf(t, k) != name
    ensures LastNamed(t, n, name, bias) == Some(SymbolOf(t, i, bias))
  {
    if i < n - 1 { LastNamedIs(t, n - 1, i, name, bias); }
  }

  lemma {:induction false} FirstNamedIs(t: Table, n: nat, i: nat, name: string, bias: nat)
    requires i < n <= |t.syms| && Eligible(t, i) && NameOf(t, i) == name
    requires forall k :: 0 <= k < i && Eligible(t, k) ==> NameOf(t, k) != name
    ensures FirstNamed(t, n, name, bias) == Some(SymbolOf(t, i, bias))
  {
    if i < n - 1 { FirstNamedIs(t, n - 1, i, name, bias); } else { FirstNamedNone(t, i, name, bias); }
  }

  lemma {:induction false} FirstNamedNone(t: Table, n: nat, name: string, bias: nat)
    requires n <= |t.syms| && forall k :: 0 <= k < n && Eligible(t, k) ==> NameOf(t, k) != name
    ensures FirstNamed(t, n, name, bias) == None && LastNamed(t, n, name, bias) == None
  {
    if n > 0 { FirstNamedNone(t, n - 1, name, bias); }
  }

  /** `s` is what entry `i` of a table becomes: its fields, with the bias added to its value in 64 bits. */
  predicate IsEntry(s: Symbol, t: Table, i: nat, bias: nat)
    requires i < |t.syms|
  {
    var e := t.syms[i];
    && s.name == NameOf(t, i) && s.size == e.size && s.kind == e.kind && s.binding == e.binding && s.section == e.section
    && 0 <= s.value < TWO64 && (s.value - bias - e.value) % TWO64 == 0
  }

  /** Entry `i` has this name, is no section (kind 3) and fits; an entry with name offset 0 has no name. */
  predicate Named(t: Table, i: nat, name: string)
    requires i < |t.syms|
  {
    var e := t.syms[i];
    e.nameOffset > 0 && e.kind != 3 && e.fits && NameOf(t, i) == name
  }

  /** A name is the characters from its offset up to the first NUL or the end of the string table. */
  lemma {:induction false} NameIs(strings: string, at: nat, n: nat)
    requires at + n <= |strings| && (forall k :: at <= k < at + n ==> strings[k] != '\0')
    requires at + n == |strings| || strings[at + n] == '\0'
    ensures NameAt(strings, at) == strings[at..at + n]
    decreases n
  {
    if n > 0 {
      NameIs(strings, at + 1, n - 1);
      assert [strings[at]] + strings[at + 1..at + n] == strings[at..at + n];
    }
  }

  predicate NoneNamed(t: Table, name: string) { forall i :: 0 <= i < |t.syms| ==> !Named(t, i, name) }

  ghost predicate FromLast(r: Option<Symbol>, t: Table, name: string, bias: nat) {
    r.Some? && exists i :: 0 <= i < |t.syms| && Named(t, i, name) && IsEntry(r.value, t, i, bias)
                        && forall k :: i < k < |t.syms| ==> !Named(t, k, name)
  }

  ghost predicate FromFirst(r: Option<Symbol>, t: Table, name: string, bias: nat) {
    r.Some? && exists i :: 0 <= i < |t.syms| && Named(t, i, name) && IsEntry(r.value, t, i, bias)
                        && forall k :: 0 <= k < i ==> !Named(t, k, name)
  }

  lemma {:induction false} LastFrom(t: Table, n: nat, name: string, bias: nat) returns (i: nat)
    requires n <= |t.syms|
    ensures i <= n && forall k :: i < k < n ==> !Named(t, k, name)
    ensures i < n <==> LastNamed(t, n, name, bias).Some?
    ensures i < n ==> Named(t, i, name) && LastNamed(t, n, name, bias) == Some(SymbolOf(t, i, bias))
    ensures i == n ==> forall k :: 0 <= k < n ==> !Named(t, k, name)
  {
    hide NameOf, SymbolOf;
    if n == 0 || Named(t, n - 1, name) {
      i := if n == 0 then 0 else n - 1;
    } else {
      i := LastFrom(t, n - 1, name, bias);
      if i == n - 1 { i := n; }
    }
  }

  lemma {:induction false} FirstFrom(t: Table, n: nat, name: string, bias: nat) returns (i: nat)
    requires n <= |t.syms|
    ensures i <= n && forall k :: 0 <= k < i ==> !Named(t, k, name)
    ensures i < n <==> FirstNamed(t, n, name, bias).Some?
    ensures i < n ==> Named(t, i, name) && FirstNamed(t, n, name, bias) == Some(SymbolOf(t, i, bias))
  {
    hide NameOf, SymbolOf;
    i := 0;
    if n > 0 {
      i := FirstFrom(t, n - 1, name, bias);
      if i == n - 1 && !Named(t, i, name) { i := n; }
    }
  }

  lemma EntryFields(t: Table, i: nat, bias: nat)
    requires i < |t.syms|
    ensures IsEntry(SymbolOf(t, i, bias), t, i, bias)
  {
    ModDifference(t.syms[i].value + bias);
  }

  lemma ModDifference(x: nat)
    ensures (x % TWO64 - x) % TWO64 == 0
  {
    assert x % TWO64 - x == -(x / TWO64) * TWO64;
  }

  /** The answer for a name, field by field: from the last entry of that name in the regular table, else from the first in the
      dynamic one, and none exactly when neither table has one. */
  lemma MeaningFields(symtab: Table, dynsym: Table, name: string, bias: nat)
    ensures var r := Meaning(symtab, dynsym, |dynsym.syms|, name, bias);
            && (r.None? <==> NoneNamed(symtab, name) && NoneNamed(dynsym, name))
            && (!NoneNamed(symtab, name) ==> FromLast(r, symtab, name, bias))
            && (NoneNamed(symtab, name) && !NoneNamed(dynsym, name) ==> FromFirst(r, dynsym, name, bias))
  {
    var i := LastFrom(symtab, |symtab.syms|, name, bias);
    var j := FirstFrom(dynsym, |dynsym.syms|, name, bias);
    hide Named, LastNamed, FirstNamed, IsEntry, SymbolOf;
    if i < |symtab.syms| {
      EntryFields(symtab, i, bias);
    } else if j < |dynsym.syms| {
      EntryFields(dynsym, j, bias);
    }
  }

  // ---- bucket lists ----

  /** A bucket list; nodes are pushed at its head and never changed. */
  datatype List = Nil | Cons(symbol: Symbol, next: List)

  function FindIn(l: List, name: string): Option<Symbol> {
    match l
    case Nil => None
    case Cons(s, next) => if s.name == name then Some(s) else FindIn(next, name)
  }

  /** One step of elf_hash. */
  function Mixed(h: bv32, b: bv32): bv32 {
    var h1 := (h << 4) + b;
    var g := h1 & 0xF000_0000;
    (h1 ^ (g >> 24)) & !g
  }

  function Bits(c: char): bv32 { (c as int % 256) as bv32 }

  function HashStep(h: bv32, c: char): bv32 { Mixed(h, Bits(c)) }

  function Hash(name: string): bv32 { if name == "" then 0 else HashStep(Hash(name[..|name| - 1]), name[|name| - 1]) }

  lemma HashNext(name: string, n: nat)
    requires n < |name|
    ensures Hash(name[..n + 1]) == HashStep(Hash(name[..n]), name[n])
  {
    hide HashStep;
    assert name[..n + 1][..n] == name[..n];
  }

  lemma HashSteps()
    ensures Mixed(0x0000_0000, 0x73) == 0x0000_0073
    ensures Mixed(0x0000_0073, 0x70) == 0x0000_07A0
    ensures Mixed(0x0000_07A0, 0x72) == 0x0000_7A72
    ensures Mixed(0x0000_7A72, 0x69) == 0x0007_A789
    ensures Mixed(0x0007_A789, 0x6E) == 0x007A_78FE
    ensures Mixed(0x007A_78FE, 0x74) == 0x07A7_9054
    ensures Mixed(0x07A7_9054, 0x66) == 0x0A79_05D6
  { }

  lemma SameBits(x: int, v: bv32)
    requires x == v as int
    ensures x as bv32 == v
  { }

  lemma LetterBits(c: char, x: int, v: bv32)
    requires c as int == x < 256 && v as int == x
    ensures Bits(c) == v
  {
    SameBits(x, v);
  }

  lemma HashLetters()
    ensures Bits('s') == 0x73 && Bits('p') == 0x70 && Bits('r') == 0x72 && Bits('i') == 0x69 && Bits('n') == 0x6E && Bits('t') == 0x74 && Bits('f') == 0x66
  {
    hide Bits;
    LetterBits('s', 0x73, 0x73);
    LetterBits('p', 0x70, 0x70);
    LetterBits('r', 0x72, 0x72);
    LetterBits('i', 0x69, 0x69);
    LetterBits('n', 0x6E, 0x6E);
    LetterBits('t', 0x74, 0x74);
    LetterBits('f', 0x66, 0x66);
  }

  /** A name long enough to fold the top bits back in. */
  lemma HashExample()
    ensures Hash("sprintf") == 0x0A79_05D6
  {
    HashLetters();
    HashSteps();
    hide Bits, Mixed;
    var s := "sprintf";
    assert s[..0] == "" && s[..7] == s && Hash("") == 0;
    hide Hash;
    HashNext(s, 0);
    HashNext(s, 1);
    HashNext(s, 2);
    HashNext(s, 3);
    HashNext(s, 4);
    HashNext(s, 5);
    HashNext(s, 6);
  }

  function Bucket(name: string): (b: nat)
    ensures b < 256
  {
    Hash(name) as int % 256
  }

  ghost predicate Agrees(buckets: seq<List>, f: string -> Option<Symbol>) {
    |buckets| == 256 && forall name: string :: FindIn(buckets[Bucket(name)], name) == f(name)
  }

  /** A push gives its own name a new meaning and leaves all others alone. */
  lemma PushAgrees(buckets: seq<List>, s: Symbol, f: string -> Option<Symbol>, g: string -> Option<Symbol>)
    requires Agrees(buckets, f)
    requires g(s.name) == Some(s) && forall name: string :: name != s.name ==> g(name) == f(name)
    ensures var b := Bucket(s.name); Agrees(buckets[b := Cons(s, buckets[b])], g)
  {
    hide Bucket;
    var b := Bucket(s.name);
    var after := buckets[b := Cons(s, buckets[b])];
    forall name: string ensures FindIn(after[Bucket(name)], name) == g(name) {
      assert FindIn(buckets[Bucket(name)], name) == f(name);
    }
  }

  method HashName(name: string) returns (h: bv32)
    ensures h == Hash(name)
  {
    hide HashStep;
    h := 0;
    var i := 0;
    assert name[..0] == "";
    while i < |name|
      invariant i <= |name| && h == Hash(name[..i])
    {
      assert name[..i + 1][..i] == name[..i];
      h := HashStep(h, name[i]);
      i := i + 1;
    }
    assert name[..|name|] == name;
  }

  class SymbolIndex {
    const buckets: array<List>
    const symtab: Table
    const dynsym: Table
    const bias: nat

    constructor (symtab: Table, dynsym: Table, bias: nat)
      ensures fresh(buckets) && buckets.Length == 256 && (forall b :: 0 <= b < 256 ==> buckets[b] == Nil)
      ensures this.symtab == symtab && this.dynsym == dynsym && this.bias == bias
    {
      buckets := new List[256](_ => Nil);
      this.symtab, this.dynsym, this.bias := symtab, dynsym, bias;
    }

    /** The index answers every name like the scan of the tables. */
    ghost predicate Resolved()
      reads this, buckets
    {
      Agrees(buckets[..], name => Meaning(symtab, dynsym, |dynsym.syms|, name, bias))
    }

    method Push(s: Symbol)
      requires buckets.Length == 256
      modifies buckets
      ensures var b := Bucket(s.name); buckets[..] == old(buckets[..][b := Cons(s, buckets[b])])
    {
      var h := HashName(s.name);
      var b := h as int % 256;
      buckets[b] := Cons(s, buckets[b]);
    }

    /** elf_resolve_symbols on a fresh context. */
    method Resolve()
      requires buckets.Length == 256 && forall b :: 0 <= b < 256 ==> buckets[b] == Nil
      modifies buckets
      ensures Resolved()
    {
      hide Bucket, NameOf, SymbolOf, Eligible;
      var i := 0;
      while i < |symtab.syms|
        invariant i <= |symtab.syms|
        invariant Agrees(buckets[..], name => LastNamed(symtab, i, name, bias))
      {
        if Eligible(symtab, i) {
          var s := SymbolOf(symtab, i, bias);
          SymbolNamed(symtab, i, bias);
          PushAgrees(buckets[..], s, name => LastNamed(symtab, i, name, bias), name => LastNamed(symtab, i + 1, name, bias));
          Push(s);
        }
        i := i + 1;
      }
      i := 0;
      while i < |dynsym.syms|
        invariant i <= |dynsym.syms|
        invariant Agrees(buckets[..], name => Meaning(symtab, dynsym, i, name, bias))
      {
        if Eligible(dynsym, i) {
          var s := SymbolOf(dynsym, i, bias);
          SymbolNamed(dynsym, i, bias);
          var existing := Find(s.name);
          if existing.None? {
            PushAgrees(buckets[..], s, name => Meaning(symtab, dynsym, i, name, bias), name => Meaning(symtab, dynsym, i + 1, name, bias));
            Push(s);
          }
        }
        i := i + 1;
      }
    }

    /** The search of a bucket list. */
    method Find(name: string) returns (r: Option<Symbol>)
      requires buckets.Length == 256
      ensures r == FindIn(buckets[Bucket(name)], name)
    {
      var h := HashName(name);
      var l := buckets[h as int % 256];
      while l.Cons?
        invariant FindIn(l, name) == FindIn(buckets[Bucket(name)], name)
        decreases l
      {
        if l.symbol.name == name { return Some(l.symbol); }
        l := l.next;
      }
      return None;
    }

    /** elf_find_symbol: the last eligible entry of the regular table, else the first of the dynamic one, else none. */
    method FindSymbol(name: string) returns (r: Option<Symbol>)
      requires buckets.Length == 256 && Resolved()
      ensures r == Meaning(symtab, dynsym, |dynsym.syms|, name, bias)
      ensures r.None? <==> NoneNamed(symtab, name) && NoneNamed(dynsym, name)
      ensures !NoneNamed(symtab, name) ==> FromLast(r, symtab, name, bias)
      ensures NoneNamed(symtab, name) && !NoneNamed(dynsym, name) ==> FromFirst(r, dynsym, name, bias)
    {
      hide Meaning, NoneNamed, FromLast, FromFirst;
      r := Find(name);
      MeaningFields(symtab, dynsym, name, bias);
    }
  }

  lemma SymbolNamed(t: Table, i: nat, bias: nat)
    requires i < |t.syms|
    ensures SymbolOf(t, i, bias).name == NameOf(t, i)
  { }
}
