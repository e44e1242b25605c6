/** Edits of a text held as lines, and as one flat text with line breaks. */
module EditText {
  function InsertAt(s: string, k: nat, ch: char): string
    requires k <= |s|
  {
    s[..k] + [ch] + s[k..]
  }

  function DeleteAt(s: string, k: nat): string
    requires k < |s|
  {
    s[..k] + s[k + 1..]
  }

  /** The lines joined by line breaks. */
  function Flat(lines: seq<string>): string
    requires lines != []
  {
    if |lines| == 1 then lines[0] else lines[0] + "\n" + Flat(lines[1..])
  }

  /** The position in the flat text of column `c` of line `l`. */
  function Offset(lines: seq<string>, l: nat, c: nat): nat
    requires l < |lines|
  {
    if l == 0 then c else |lines[0]| + 1 + Offset(lines[1..], l - 1, c)
  }

  lemma {:induction false} OffsetWithin(lines: seq<string>, l: nat, c: nat)
    requires l < |lines| && c <= |lines[l]|
    ensures c <= Offset(lines, l, c) <= |Flat(lines)|
  {
    if l > 0 { OffsetWithin(lines[1..], l - 1, c); }
  }

  // ---- the edits ----

  function Typed(lines: seq<string>, l: nat, c: nat, ch: char): seq<string>
    requires l < |lines| && c <= |lines[l]|
  {
    lines[l := InsertAt(lines[l], c, ch)]
  }

  function Split(lines: seq<string>, l: nat, c: nat): seq<string>
    requires l < |lines| && c <= |lines[l]|
  {
    lines[..l] + [lines[l][..c], lines[l][c..]] + lines[l + 1..]
  }

  function Rubbed(lines: seq<string>, l: nat, c: nat): seq<string>
    requires l < |lines| && 0 < c <= |lines[l]|
  {
    lines[l := DeleteAt(lines[l], c - 1)]
  }

  function Merged(lines: seq<string>, l: nat): seq<string>
    requires 0 < l < |lines|
  {
    lines[..l - 1] + [lines[l - 1] + lines[l]] + lines[l + 1..]
  }

  // ---- what they do to the flat text ----

  lemma FlatCons(a: string, rest: seq<string>)
    requires rest != []
    ensures Flat([a] + rest) == a + "\n" + Flat(rest)
  {
    assert ([a] + rest)[1..] == rest;
  }

  lemma {:induction false} FlatTyped(lines: seq<string>, l: nat, c: nat, ch: char)
    requires l < |lines| && c <= |lines[l]|
    ensures Offset(lines, l, c) <= |Flat(lines)|
    ensures Flat(Typed(lines, l, c, ch)) == InsertAt(Flat(lines), Offset(lines, l, c), ch)
    ensures Offset(Typed(lines, l, c, ch), l, c + 1) == Offset(lines, l, c) + 1
    decreases l
  {
    OffsetWithin(lines, l, c);
    var after := Typed(lines, l, c, ch);
    if l > 0 {
      FlatTyped(lines[1..], l - 1, c, ch);
      assert after[1..] == Typed(lines[1..], l - 1, c, ch);
      Behind(lines[0] + "\n", Flat(lines[1..]), Offset(lines[1..], l - 1, c), ch);
    } else if |lines| > 1 {
      assert after[1..] == lines[1..];
      Ahead(lines[0], "\n" + Flat(lines[1..]), c, ch);
      assert lines[0] + "\n" + Flat(lines[1..]) == lines[0] + ("\n" + Flat(lines[1..]));
      assert after[0] + "\n" + Flat(lines[1..]) == after[0] + ("\n" + Flat(lines[1..]));
    }
  }

  lemma Behind(a: string, s: string, k: nat, ch: char)
    requires k <= |s|
    ensures a + InsertAt(s, k, ch) == InsertAt(a + s, |a| + k, ch)
  { }

  lemma Ahead(s: string, b: string, k: nat, ch: char)
    requires k <= |s|
    ensures InsertAt(s, k, ch) + b == InsertAt(s + b, k, ch)
  { }

  lemma {:induction false} FlatSplit(lines: seq<string>, l: nat, c: nat)
    requires l < |lines| && c <= |lines[l]|
    ensures Offset(lines, l, c) <= |Flat(lines)| && |Split(lines, l, c)| == |lines| + 1
    ensures Flat(Split(lines, l, c)) == InsertAt(Flat(lines), Offset(lines, l, c), '\n')
    ensures Offset(Split(lines, l, c), l + 1, 0) == Offset(lines, l, c) + 1
    decreases l
  {
    OffsetWithin(lines, l, c);
    var after := Split(lines, l, c);
    if l > 0 {
      FlatSplit(lines[1..], l - 1, c);
      assert after[1..] == Split(lines[1..], l - 1, c) && after[0] == lines[0];
      Behind(lines[0] + "\n", Flat(lines[1..]), Offset(lines[1..], l - 1, c), '\n');
    } else {
      SplitFirst(lines, c);
    }
  }

  lemma SplitFirst(lines: seq<string>, c: nat)
    requires lines != [] && c <= |lines[0]|
    ensures Flat(Split(lines, 0, c)) == InsertAt(Flat(lines), c, '\n')
    ensures Offset(Split(lines, 0, c), 1, 0) == c + 1
  {
    var head, tail := lines[0][..c], lines[0][c..];
    assert Split(lines, 0, c) == [head] + ([tail] + lines[1..]);
    FlatCons(head, [tail] + lines[1..]);
    assert InsertAt(lines[0], c, '\n') == head + "\n" + tail;
    if |lines| > 1 {
      FlatCons(tail, lines[1..]);
      Joined(head, tail, lines[0], Flat(lines[1..]), c);
    } else {
      assert [tail] + lines[1..] == [tail];
    }
  }

  lemma Joined(head: string, tail: string, line: string, rest: string, c: nat)
    requires c <= |line| && head == line[..c] && tail == line[c..]
    ensures head + "\n" + (tail + "\n" + rest) == InsertAt(line + "\n" + rest, c, '\n')
  { }

  /** Taking back a typed character or a line break undoes it. */
  lemma RubbedTyped(lines: seq<string>, l: nat, c: nat)
    requires l < |lines| && 0 < c <= |lines[l]|
    ensures var rubbed := Rubbed(lines, l, c);
            c - 1 <= |rubbed[l]| && Typed(rubbed, l, c - 1, lines[l][c - 1]) == lines
  {
    var rubbed := Rubbed(lines, l, c);
    assert InsertAt(rubbed[l], c - 1, lines[l][c - 1]) == lines[l];
  }

  lemma MergedSplit(lines: seq<string>, l: nat)
    requires 0 < l < |lines|
    ensures var merged := Merged(lines, l);
            |merged| == |lines| - 1 && |lines[l - 1]| <= |merged[l - 1]| && Split(merged, l - 1, |lines[l - 1]|) == lines
  {
    var merged := Merged(lines, l);
    assert merged[l - 1][..|lines[l - 1]|] == lines[l - 1] && merged[l - 1][|lines[l - 1]|..] == lines[l];
  }

  /** If inserting at `k` turns `t` into `s`, deleting at `k` turns `s` into `t`. */
  lemma DeleteInserted(s: string, t: string, k: nat, ch: char)
    requires k <= |t| && s == InsertAt(t, k, ch)
    ensures k < |s| && DeleteAt(s, k) == t
  { }

  lemma FlatRubbed(lines: seq<string>, l: nat, c: nat)
    requires l < |lines| && 0 < c <= |lines[l]|
    ensures var rubbed := Rubbed(lines, l, c);
            var off := Offset(lines, l, c);
            && 0 < off <= |Flat(lines)|
            && Flat(rubbed) == DeleteAt(Flat(lines), off - 1)
            && Offset(rubbed, l, c - 1) == off - 1
  {
    hide Flat, Offset, Typed, InsertAt, DeleteAt;
    var rubbed, ch := Rubbed(lines, l, c), lines[l][c - 1];
    RubbedTyped(lines, l, c);
    FlatTyped(rubbed, l, c - 1, ch);
    DeleteInserted(Flat(lines), Flat(rubbed), Offset(rubbed, l, c - 1), ch);
  }

  lemma FlatMerged(lines: seq<string>, l: nat)
    requires 0 < l < |lines|
    ensures var merged := Merged(lines, l);
            var off := Offset(lines, l, 0);
            && 0 < off <= |Flat(lines)| && |merged| == |lines| - 1
            && Flat(merged) == DeleteAt(Flat(lines), off - 1)
            && Offset(merged, l - 1, |lines[l - 1]|) == off - 1
  {
    hide Flat, Offset, Split, InsertAt, DeleteAt;
    var merged, c := Merged(lines, l), |lines[l - 1]|;
    MergedSplit(lines, l);
    FlatSplit(merged, l - 1, c);
    DeleteInserted(Flat(lines), Flat(merged), Offset(merged, l - 1, c), '\n');
  }
}
