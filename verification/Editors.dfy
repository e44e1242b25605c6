/** The buffers of the two text editors: src/kernel/GUI/text_editor.c and src/kernel/Anthropic/Anthropic.c. */
module EditorsModule {
  import opened EditText
  import opened EditRows

  ghost predicate RowsOk(rows: seq<string>, size: nat) { forall i :: 0 <= i < |rows| ==> IsRow(rows[i], size) }

  /** The first `n` lines. */
  function LinesOf(rows: seq<string>, n: nat): seq<string>
    requires n <= |rows|
  {
    seq(n, i requires 0 <= i < n => LineText(rows[i]))
  }

  /** One character went in at the cursor, which moved behind it. */
  ghost predicate Inserted(text0: string, cursor0: nat, text: string, cursor: nat, ch: char) {
    cursor0 <= |text0| && text == InsertAt(text0, cursor0, ch) && cursor == cursor0 + 1
  }

  /** The character before the cursor is gone. */
  ghost predicate Deleted(text0: string, cursor0: nat, text: string, cursor: nat) {
    0 < cursor0 <= |text0| && text == DeleteAt(text0, cursor0 - 1) && cursor == cursor0 - 1
  }

  /** Copies each of the lines `from` to `to - 1` one down, the last one first. */
  method ShiftDown(rows: array<string>, size: nat, from: nat, to: nat)
    requires RowsOk(rows[..], size) && from <= to < rows.Length
    modifies rows
    ensures RowsOk(rows[..], size)
    ensures forall k :: 0 <= k <= from || to < k < rows.Length ==> rows[k] == old(rows[k])
    ensures forall k :: from < k <= to ==> LineText(rows[k]) == LineText(old(rows[k - 1]))
  {
    hide IsRow, LineText;
    var i := to;
    while i > from
      invariant from <= i <= to && RowsOk(rows[..], size)
      invariant forall k :: 0 <= k <= i || to < k < rows.Length ==> rows[k] == old(rows[k])
      invariant forall k :: i < k <= to ==> LineText(rows[k]) == LineText(old(rows[k - 1]))
    {
      Replace(rows, size, i, i - 1);
      i := i - 1;
    }
  }

  /** Copies each of the lines `from + 1` to `to` one up, the first one first. */
  method ShiftUp(rows: array<string>, size: nat, from: nat, to: nat)
    requires RowsOk(rows[..], size) && from <= to < rows.Length
    modifies rows
    ensures RowsOk(rows[..], size)
    ensures forall k :: 0 <= k < from || to <= k < rows.Length ==> rows[k] == old(rows[k])
    ensures forall k :: from <= k < to ==> LineText(rows[k]) == LineText(old(rows[k + 1]))
  {
    hide IsRow, LineText;
    var i := from;
    while i < to
      invariant from <= i <= to && RowsOk(rows[..], size)
      invariant forall k :: 0 <= k < from || i <= k < rows.Length ==> rows[k] == old(rows[k])
      invariant forall k :: from <= k < i ==> LineText(rows[k]) == LineText(old(rows[k + 1]))
    {
      Replace(rows, size, i, i + 1);
      i := i + 1;
    }
  }

  /** STRCPY from one line to another. */
  method Replace(rows: array<string>, size: nat, i: nat, j: nat)
    requires RowsOk(rows[..], size) && i < rows.Length && j < rows.Length
    modifies rows
    ensures RowsOk(rows[..], size) && LineText(rows[i]) == LineText(old(rows[j]))
    ensures forall k :: 0 <= k < rows.Length && k != i ==> rows[k] == old(rows[k])
  {
    assert IsRow(rows[..][i], size) && IsRow(rows[..][j], size);
    CopiedIs(rows[i], rows[j], size);
    rows[i] := Copied(rows[i], rows[j]);
    assert forall k :: 0 <= k < rows.Length ==> IsRow(rows[k], size);
  }

  // ---- the lines after the edits ----

  lemma RowEdited(rows: seq<string>, n: nat, l: nat, row: string)
    requires l < n <= |rows|
    ensures LinesOf(rows[l := row], n) == LinesOf(rows, n)[l := LineText(row)]
  { }

  lemma LinesSplit(rows0: seq<string>, rows: seq<string>, n: nat, l: nat, c: nat)
    requires |rows| == |rows0| && l < n < |rows0| && c <= Len(rows0[l])
    requires forall k :: 0 <= k < l ==> LineText(rows[k]) == LineText(rows0[k])
    requires LineText(rows[l]) == LineText(rows0[l])[..c] && LineText(rows[l + 1]) == LineText(rows0[l])[c..]
    requires forall k :: l + 1 < k <= n ==> LineText(rows[k]) == LineText(rows0[k - 1])
    ensures LinesOf(rows, n + 1) == Split(LinesOf(rows0, n), l, c)
  {
    hide Len;
    var lines := LinesOf(rows0, n);
    var after := Split(lines, l, c);
    forall k | 0 <= k < n + 1 ensures LinesOf(rows, n + 1)[k] == after[k] {
      if k > l + 1 { assert after[k] == lines[l + 1..][k - l - 2]; }
    }
  }

  lemma LinesMerged(rows0: seq<string>, rows: seq<string>, n: nat, l: nat)
    requires |rows| == |rows0| && 0 < l < n <= |rows0|
    requires forall k :: 0 <= k < l - 1 ==> LineText(rows[k]) == LineText(rows0[k])
    requires LineText(rows[l - 1]) == LineText(rows0[l - 1]) + LineText(rows0[l])
    requires forall k :: l <= k < n - 1 ==> LineText(rows[k]) == LineText(rows0[k + 1])
    ensures LinesOf(rows, n - 1) == Merged(LinesOf(rows0, n), l)
  {
    hide Len;
    var lines := LinesOf(rows0, n);
    var after := Merged(lines, l);
    forall k | 0 <= k < n - 1 ensures LinesOf(rows, n - 1)[k] == after[k] {
      if k >= l { assert after[k] == lines[l + 1..][k - l]; }
    }
  }

  /** The flat text of the first `n` lines, and the cursor's place in it. */
  ghost function TextOf(rows: seq<string>, n: nat): string
    requires 0 < n <= |rows|
  {
    Flat(LinesOf(rows, n))
  }

  ghost function PlaceOf(rows: seq<string>, n: nat, l: nat, c: nat): nat
    requires l < n <= |rows|
  {
    Offset(LinesOf(rows, n), l, c)
  }

  lemma TypedEdit(rows: seq<string>, n: nat, l: nat, c: nat, row: string, ch: char)
    requires l < n <= |rows| && c <= Len(rows[l]) && LineText(row) == InsertAt(LineText(rows[l]), c, ch)
    ensures Inserted(TextOf(rows, n), PlaceOf(rows, n, l, c), TextOf(rows[l := row], n), PlaceOf(rows[l := row], n, l, c + 1), ch)
  {
    hide Flat, Offset, InsertAt, Len;
    RowEdited(rows, n, l, row);
    FlatTyped(LinesOf(rows, n), l, c, ch);
  }

  lemma RubbedEdit(rows: seq<string>, n: nat, l: nat, c: nat, row: string)
    requires l < n <= |rows| && 0 < c <= Len(rows[l]) && LineText(row) == DeleteAt(LineText(rows[l]), c - 1)
    ensures Deleted(TextOf(rows, n), PlaceOf(rows, n, l, c), TextOf(rows[l := row], n), PlaceOf(rows[l := row], n, l, c - 1))
  {
    hide Flat, Offset, DeleteAt, Len;
    RowEdited(rows, n, l, row);
    FlatRubbed(LinesOf(rows, n), l, c);
  }

  lemma SplitEdit(rows0: seq<string>, rows: seq<string>, n: nat, l: nat, c: nat)
    requires |rows| == |rows0| && l < n < |rows0| && c <= Len(rows0[l])
    requires LinesOf(rows, n + 1) == Split(LinesOf(rows0, n), l, c)
    ensures Inserted(TextOf(rows0, n), PlaceOf(rows0, n, l, c), TextOf(rows, n + 1), PlaceOf(rows, n + 1, l + 1, 0), '\n')
  {
    hide Flat, Offset, InsertAt, Len;
    FlatSplit(LinesOf(rows0, n), l, c);
  }

  lemma MergedEdit(rows0: seq<string>, rows: seq<string>, n: nat, l: nat)
    requires |rows| == |rows0| && 0 < l < n <= |rows0|
    requires LinesOf(rows, n - 1) == Merged(LinesOf(rows0, n), l)
    ensures Deleted(TextOf(rows0, n), PlaceOf(rows0, n, l, 0), TextOf(rows, n - 1), PlaceOf(rows, n - 1, l - 1, Len(rows0[l - 1])))
  {
    hide Flat, Offset, DeleteAt, Len;
    FlatMerged(LinesOf(rows0, n), l);
  }

  /** Joins line `l` to the one before it and closes the gap among the first `n` lines. */
  method Join(rows: array<string>, size: nat, n: nat, l: nat)
    requires RowsOk(rows[..], size) && 0 < l < n <= rows.Length && Len(rows[l - 1]) + Len(rows[l]) < size
    modifies rows
    ensures RowsOk(rows[..], size)
    ensures LinesOf(rows[..], n - 1) == Merged(old(LinesOf(rows[..], n)), l)
    ensures Len(rows[l - 1]) >= old(Len(rows[l - 1]))
  {
    hide Len, Merged;
    ghost var was := rows[..];
    assert IsRow(was[l - 1], size) && IsRow(was[l], size);
    CatenatedIs(rows[l - 1], rows[l], size);
    rows[l - 1] := Catenated(rows[l - 1], rows[l]);
    assert forall k :: 0 <= k < rows.Length ==> IsRow(rows[k], size);
    ShiftUp(rows, size, l, n - 1);
    LinesMerged(was, rows[..], n, l);
    assert Len(rows[l - 1]) == |LineText(rows[l - 1])|;
  }

  /** Makes room below line `l` among the first `n` and moves its text from column `c` on there. */
  method Break(rows: array<string>, size: nat, n: nat, l: nat, c: nat)
    requires RowsOk(rows[..], size) && l < n < rows.Length && c <= Len(rows[l])
    modifies rows
    ensures RowsOk(rows[..], size)
    ensures LinesOf(rows[..], n + 1) == Split(old(LinesOf(rows[..], n)), l, c)
  {
    hide Len, LinesOf, Split, LineText, IsRow;
    ghost var was := rows[..];
    ShiftDown(rows, size, l, n);
    assert rows[l] == was[l];
    assert IsRow(was[l], size) && IsRow(rows[..][l + 1], size);
    var next := SplitTail(rows[l], rows[l + 1], size, c);
    IsRowLength(was[l], size);
    CutIs(was[l], size, c);
    rows[l + 1] := next;
    rows[l] := rows[l][c := NUL];
    assert forall k :: 0 <= k < rows.Length ==> IsRow(rows[k], size);
    LinesSplit(was, rows[..], n, l, c);
  }

  lemma IsRowLength(row: string, size: nat)
    requires IsRow(row, size)
    ensures |row| == size && Len(row) < size
  { }

  const EDITOR_MAX_LINES: nat := 1000
  const EDITOR_MAX_LINE_LENGTH: nat := 256

  /** The buffer of text_editor.c. */
  class TextEditor {
    const rows: array<string>
    const visibleLines: int
    var lineCount: nat
    var cursorLine: nat
    var cursorCol: nat
    var scrollOffset: int
    var modified: bool

    ghost predicate Valid()
      reads this, rows
    {
      && rows.Length == EDITOR_MAX_LINES && RowsOk(rows[..], EDITOR_MAX_LINE_LENGTH)
      && cursorLine < lineCount <= EDITOR_MAX_LINES && cursorCol <= Len(rows[cursorLine])
    }

    ghost function Text(): string
      requires Valid()
      reads this, rows
    {
      TextOf(rows[..], lineCount)
    }

    ghost function Cursor(): nat
      requires Valid()
      reads this, rows
    {
      PlaceOf(rows[..], lineCount, cursorLine, cursorCol)
    }

    constructor (visibleLines: int)
      ensures Valid() && fresh(rows) && Text() == "" && Cursor() == 0
    {
      rows := new string[EDITOR_MAX_LINES](_ => seq(EDITOR_MAX_LINE_LENGTH, _ => NUL));
      this.visibleLines := visibleLines;
      lineCount, cursorLine, cursorCol, scrollOffset, modified := 1, 0, 0, 0, false;
    }

    /** text_editor_insert_char: refused exactly when the line is full. */
    method InsertChar(ch: char)
      requires Valid() && ch != NUL
      modifies this, rows
      ensures Valid()
      ensures if old(Len(rows[cursorLine])) >= EDITOR_MAX_LINE_LENGTH - 1 then Text() == old(Text()) && Cursor() == old(Cursor())
              else Inserted(old(Text()), old(Cursor()), Text(), Cursor(), ch)
    {
      hide TextOf, PlaceOf, Inserted, InsertAt, Len;
      ghost var was := rows[..];
      var len := Len(rows[cursorLine]);
      if len >= EDITOR_MAX_LINE_LENGTH - 1 { return; }
      var l := cursorLine;
      assert IsRow(was[l], EDITOR_MAX_LINE_LENGTH);
      var row := InsertShifting(rows[l], EDITOR_MAX_LINE_LENGTH, cursorCol, ch);
      TypedEdit(was, lineCount, l, cursorCol, row, ch);
      GrownLength(was[l], row, cursorCol, ch);
      rows[l] := row;
      assert rows[..] == was[l := row];
      cursorCol := cursorCol + 1;
      modified := true;
    }

    /** text_editor_backspace: refused exactly at the start of the text and where the joined line would be too long. */
    method Backspace()
      requires Valid()
      modifies this, rows
      ensures Valid()
      ensures if old(cursorCol == 0 && (cursorLine == 0 || Len(rows[cursorLine - 1]) + Len(rows[cursorLine]) >= EDITOR_MAX_LINE_LENGTH - 1))
              then Text() == old(Text()) && Cursor() == old(Cursor())
              else Deleted(old(Text()), old(Cursor()), Text(), Cursor())
    {
      hide TextOf, PlaceOf, Deleted, DeleteAt, Len, LinesOf, Merged;
      ghost var was := rows[..];
      var l := cursorLine;
      assert IsRow(was[l], EDITOR_MAX_LINE_LENGTH);
      if cursorCol > 0 {
        var row := DeleteShifting(rows[l], EDITOR_MAX_LINE_LENGTH, cursorCol);
        RubbedEdit(was, lineCount, l, cursorCol, row);
        ShrunkLength(was[l], row, cursorCol);
        rows[l] := row;
        assert rows[..] == was[l := row];
        cursorCol := cursorCol - 1;
        modified := true;
      } else if cursorLine > 0 {
        var prevLen, currLen := Len(rows[l - 1]), Len(rows[l]);
        if prevLen + currLen < EDITOR_MAX_LINE_LENGTH - 1 {
          Join(rows, EDITOR_MAX_LINE_LENGTH, lineCount, l);
          ghost var joined := rows[..];
          MergedEdit(was, joined, lineCount, l);
          assert IsRow(joined[lineCount - 1], EDITOR_MAX_LINE_LENGTH);
          CutIs(rows[lineCount - 1], EDITOR_MAX_LINE_LENGTH, 0);
          rows[lineCount - 1] := rows[lineCount - 1][0 := NUL];
          SamePrefix(joined, rows[..], lineCount - 1, l - 1, prevLen);
          lineCount := lineCount - 1;
          cursorLine := cursorLine - 1;
          cursorCol := prevLen;
          modified := true;
        }
      }
    }

    /** text_editor_newline: refused exactly when all lines are in use. */
    method Newline()
      requires Valid()
      modifies this, rows
      ensures Valid()
      ensures if old(lineCount) >= EDITOR_MAX_LINES then Text() == old(Text()) && Cursor() == old(Cursor())
              else Inserted(old(Text()), old(Cursor()), Text(), Cursor(), '\n')
    {
      hide TextOf, PlaceOf, Inserted, InsertAt, Len, LinesOf, Split;
      if lineCount >= EDITOR_MAX_LINES { return; }
      ghost var was := rows[..];
      Break(rows, EDITOR_MAX_LINE_LENGTH, lineCount, cursorLine, cursorCol);
      SplitEdit(was, rows[..], lineCount, cursorLine, cursorCol);
      lineCount := lineCount + 1;
      cursorLine := cursorLine + 1;
      cursorCol := 0;
      modified := true;
      if cursorLine >= scrollOffset + visibleLines { scrollOffset := scrollOffset + 1; }
    }

    /** text_editor_move_cursor: first down by `dy` if there is such a line, with the column cut to its length, then right by
        `dx` if that stays in the line; after a move down or up the line is in the viewport. The text stays as it is. */
    method MoveCursor(dx: int, dy: int)
      requires Valid()
      modifies this`cursorLine, this`cursorCol, this`scrollOffset
      ensures Valid() && Text() == old(Text())
      ensures var down := dy != 0 && 0 <= old(cursorLine) + dy < lineCount;
              && cursorLine == (if down then old(cursorLine) + dy else old(cursorLine))
              && var c := if down && Len(rows[cursorLine]) < old(cursorCol) then Len(rows[cursorLine]) else old(cursorCol);
              && cursorCol == (if 0 <= c + dx <= Len(rows[cursorLine]) then c + dx else c)
              && (down && visibleLines > 0 ==> scrollOffset <= cursorLine < scrollOffset + visibleLines)
              && (!down ==> scrollOffset == old(scrollOffset))
    {
      hide TextOf, Len;
      if dy != 0 {
        var newLine := cursorLine + dy;
        if 0 <= newLine < lineCount {
          cursorLine := newLine;
          var len := Len(rows[cursorLine]);
          if cursorCol > len { cursorCol := len; }
          if cursorLine < scrollOffset {
            scrollOffset := cursorLine;
          } else if cursorLine >= scrollOffset + visibleLines {
            scrollOffset := cursorLine - visibleLines + 1;
          }
        }
      }
      if dx != 0 {
        var newCol := cursorCol + dx;
        if 0 <= newCol <= Len(rows[cursorLine]) { cursorCol := newCol; }
      }
    }
  }

  lemma GrownLength(row0: string, row: string, c: nat, ch: char)
    requires c <= Len(row0) && LineText(row) == InsertAt(LineText(row0), c, ch)
    ensures c + 1 <= Len(row)
  {
    hide Len;
    assert |LineText(row)| == Len(row) && |LineText(row0)| == Len(row0);
  }

  lemma ShrunkLength(row0: string, row: string, c: nat)
    requires 0 < c <= Len(row0) && LineText(row) == DeleteAt(LineText(row0), c - 1)
    ensures c - 1 <= Len(row)
  {
    hide Len;
    assert |LineText(row)| == Len(row) && |LineText(row0)| == Len(row0);
  }

  lemma SamePrefix(rows0: seq<string>, rows: seq<string>, n: nat, l: nat, c: nat)
    requires |rows0| == |rows| && l < n <= |rows| && forall k :: 0 <= k < n ==> rows[k] == rows0[k]
    ensures TextOf(rows, n) == TextOf(rows0, n) && PlaceOf(rows, n, l, c) == PlaceOf(rows0, n, l, c)
  {
    assert LinesOf(rows, n) == LinesOf(rows0, n);
  }
}
