/** The key handler, load and save of src/kernel/Anthropic/Anthropic.c. */
module AnthropicModule {
  import opened EditText
  import opened EditRows
  import opened EditorsModule

  const MAX_LINES: nat := 250
  const MAX_LINE_LENGTH: nat := 80

  datatype Key = Up | Down | Left | Right | Rubout | Enter | Print(ch: char) | Other

  // ---- files as lines ----

  /** What a line buffer shows of the characters put into it. */
  function Shown(s: string): string { LineText(s + [NUL]) }

  /** The line split of editor_load_file: `done` lines are complete, `cur` is being read. */
  function LoadFrom(data: string, done: seq<string>, cur: string): seq<string> {
    if data == "" || |done| >= MAX_LINES then if cur != "" || done == [] then done + [Shown(cur)] else done
    else if data[0] == '\n' then LoadFrom(data[1..], done + [Shown(cur)], "")
    else if data[0] == '\r' || |cur| >= MAX_LINE_LENGTH - 1 then LoadFrom(data[1..], done, cur)
    else LoadFrom(data[1..], done, cur + [data[0]])
  }

  const READ_LIMIT: nat := 2047

  /** Loading a file of this content: only its first 2047 bytes are read. */
  function Loaded(content: string): seq<string> {
    LoadFrom(if |content| <= READ_LIMIT then content else content[..READ_LIMIT], [], "")
  }

  /** A line that can be in the buffer and comes from typing. */
  predicate CleanLine(s: string) {
    |s| <= MAX_LINE_LENGTH - 1 && forall k :: 0 <= k < |s| ==> s[k] != NUL && s[k] != '\n' && s[k] != '\r'
  }

  ghost predicate Clean(lines: seq<string>) { 0 < |lines| <= MAX_LINES && forall i :: 0 <= i < |lines| ==> CleanLine(lines[i]) }

  lemma ShownClean(s: string)
    requires NUL !in s
    ensures Shown(s) == s
  {
    CStrIs(s + [NUL], s);
  }

  lemma {:induction false} LoadChars(s: string, rest: string, done: seq<string>, cur: string)
    requires CleanLine(s) && |cur| + |s| <= MAX_LINE_LENGTH - 1 && |done| < MAX_LINES
    ensures LoadFrom(s + rest, done, cur) == LoadFrom(rest, done, cur + s)
    decreases |s|
  {
    hide Shown;
    if s == "" {
      assert s + rest == rest && cur + s == cur;
    } else {
      assert (s + rest)[1..] == s[1..] + rest && cur + [s[0]] + s[1..] == cur + s;
      LoadChars(s[1..], rest, done, cur + [s[0]]);
    }
  }

  lemma LoadLine(s: string, rest: string, done: seq<string>)
    requires CleanLine(s) && |done| < MAX_LINES
    ensures LoadFrom(s + "\n" + rest, done, "") == LoadFrom(rest, done + [s], "")
  {
    ShownClean(s);
    hide Shown;
    LoadChars(s, "\n" + rest, done, "");
    assert s + "\n" + rest == s + ("\n" + rest) && "" + s == s;
    assert ("\n" + rest)[1..] == rest;
  }

  /** The lines that loading keeps: an empty last one is lost unless it is the only one. */
  function Trimmed(lines: seq<string>, first: bool): seq<string>
    requires lines != []
  {
    if lines[|lines| - 1] == "" && (!first || |lines| > 1) then lines[..|lines| - 1] else lines
  }

  function Kept(done: seq<string>, lines: seq<string>): seq<string>
    requires lines != []
  {
    done + Trimmed(lines, done == [])
  }

  lemma {:induction false} LoadLines(lines: seq<string>, done: seq<string>)
    requires Clean(lines) && |done| + |lines| <= MAX_LINES
    ensures LoadFrom(Flat(lines), done, "") == Kept(done, lines)
    decreases |lines|
  {
    hide Shown, CleanLine;
    if |lines| == 1 {
      LastLine(lines[0], done);
      assert done + [] == done && lines[..0] == [] && done + lines == done + [lines[0]];
    } else {
      LoadLine(lines[0], Flat(lines[1..]), done);
      LoadLines(lines[1..], done + [lines[0]]);
      assert done + [lines[0]] + lines[1..] == done + lines;
      assert done + [lines[0]] + lines[1..][..|lines| - 2] == done + lines[..|lines| - 1];
    }
  }

  lemma LastLine(s: string, done: seq<string>)
    requires CleanLine(s) && |done| < MAX_LINES
    ensures LoadFrom(s, done, "") == if s != "" || done == [] then done + [s] else done
  {
    ShownClean(s);
    hide Shown;
    LoadChars(s, "", done, "");
    assert s + "" == s && "" + s == s;
  }

  /** The text that lines show is no longer than what they were loaded from. */
  lemma {:induction false} LoadedLength(data: string, done: seq<string>, cur: string)
    requires |done| <= MAX_LINES
    ensures LoadFrom(data, done, cur) != []
    ensures |Flat(LoadFrom(data, done, cur))| <= (if done == [] then 0 else |Flat(done)| + 1) + |cur| + |data|
    decreases |data|
  {
    hide Shown;
    ShownLength(cur);
    FlatSnoc(done, Shown(cur));
    if data != "" && |done| < MAX_LINES {
      if data[0] == '\n' {
        LoadedLength(data[1..], done + [Shown(cur)], "");
      } else if data[0] == '\r' || |cur| >= MAX_LINE_LENGTH - 1 {
        LoadedLength(data[1..], done, cur);
      } else {
        LoadedLength(data[1..], done, cur + [data[0]]);
      }
    }
  }

  lemma ShownLength(s: string)
    ensures |Shown(s)| <= |s|
  {
    assert (s + [NUL])[|s|] == NUL;
  }

  lemma {:induction false} FlatSnoc(lines: seq<string>, s: string)
    ensures |Flat(lines + [s])| == (if lines == [] then 0 else |Flat(lines)| + 1) + |s|
  {
    if lines != [] {
      assert (lines + [s])[1..] == lines[1..] + [s];
      FlatSnoc(lines[1..], s);
    } else {
      assert lines + [s] == [s];
    }
  }

  /** Saving and loading again gives the same lines exactly when the text is at most 2047 characters long and its last
      line is not empty, or its only one. */
  lemma SaveLoad(lines: seq<string>)
    requires Clean(lines)
    ensures Loaded(Flat(lines)) == lines <==> |Flat(lines)| <= READ_LIMIT && (lines[|lines| - 1] != "" || |lines| == 1)
  {
    hide CleanLine, LoadFrom, Flat;
    var text := Flat(lines);
    if |text| <= READ_LIMIT {
      LoadLines(lines, []);
      assert [] + lines == lines;
    } else {
      LoadedLength(text[..READ_LIMIT], [], "");
    }
  }

  // ---- any content ----

  function WithoutReturns(s: string): string {
    if s == "" then "" else if s[0] == '\r' then WithoutReturns(s[1..]) else [s[0]] + WithoutReturns(s[1..])
  }

  /** Carriage returns make no difference, wherever they are among the bytes read. */
  lemma {:induction false} ReturnsSkipped(data: string, done: seq<string>, cur: string)
    ensures LoadFrom(data, done, cur) == LoadFrom(WithoutReturns(data), done, cur)
    decreases |data|
  {
    hide Shown;
    if data != "" {
      ReturnsSkipped(data[1..], done, cur);
      if data[0] != '\r' {
        var rest := WithoutReturns(data[1..]);
        assert WithoutReturns(data) == [data[0]] + rest && ([data[0]] + rest)[1..] == rest;
        ReturnsSkipped(data[1..], done + [Shown(cur)], "");
        ReturnsSkipped(data[1..], done, cur + [data[0]]);
      }
    }
  }

  /** The lines of a text, of any number and length; `cur` is the beginning of the first. */
  function LinesIn(s: string, cur: string): (lines: seq<string>)
    ensures lines != []
  {
    if s == "" then [cur]
    else if s[0] == '\n' then [cur] + LinesIn(s[1..], "")
    else LinesIn(s[1..], cur + [s[0]])
  }

  /** They have no line breaks and make up that text. */
  lemma {:induction false} LinesInFlat(s: string, cur: string)
    requires '\n' !in cur
    ensures Flat(LinesIn(s, cur)) == cur + s
    ensures forall i :: 0 <= i < |LinesIn(s, cur)| ==> '\n' !in LinesIn(s, cur)[i]
    decreases |s|
  {
    if s != "" {
      if s[0] == '\n' {
        LinesInFlat(s[1..], "");
        FlatCons(cur, LinesIn(s[1..], ""));
        assert cur + "\n" + s[1..] == cur + s;
      } else {
        LinesInFlat(s[1..], cur + [s[0]]);
        assert cur + [s[0]] + s[1..] == cur + s;
      }
    }
  }

  /** The first 79 characters of a line. */
  function Cut(s: string): string { if |s| <= MAX_LINE_LENGTH - 1 then s else s[..MAX_LINE_LENGTH - 1] }

  function Shows(lines: seq<string>): (r: seq<string>)
    ensures |r| == |lines|
  {
    seq(|lines|, i requires 0 <= i < |lines| => Shown(Cut(lines[i])))
  }

  /** The first 250 lines. */
  function Top(lines: seq<string>): seq<string> { if |lines| <= MAX_LINES then lines else lines[..MAX_LINES] }

  lemma ShowsTrimmed(line: string, rest: seq<string>, first: bool)
    requires rest != []
    ensures Shows(Trimmed([line] + rest, first)) == [Shown(Cut(line))] + Shows(Trimmed(rest, false))
  {
    assert ([line] + rest)[..|rest|] == [line] + rest[..|rest| - 1];
  }

  lemma {:induction false} LoadFromIs(data: string, done: seq<string>, cur: string)
    requires '\r' !in data && |done| <= MAX_LINES && (|done| == MAX_LINES ==> cur == "")
    ensures LoadFrom(data, done, Cut(cur)) == Top(done + Shows(Trimmed(LinesIn(data, cur), done == [])))
    decreases |data|
  {
    hide Shown;
    if |done| == MAX_LINES {
    } else if data == "" {
      assert cur != "" || done == [] ==> Shows([cur]) == [Shown(Cut(cur))];
    } else if data[0] == '\n' {
      var next := done + [Shown(Cut(cur))];
      var rest := LinesIn(data[1..], "");
      LoadFromIs(data[1..], next, "");
      ShowsTrimmed(cur, rest, done == []);
      assert done + ([Shown(Cut(cur))] + Shows(Trimmed(rest, false))) == next + Shows(Trimmed(rest, false));
    } else {
      assert data[0] in data;
      assert |cur| >= MAX_LINE_LENGTH - 1 ==> Cut(cur + [data[0]]) == Cut(cur);
      LoadFromIs(data[1..], done, cur + [data[0]]);
    }
  }

  lemma {:induction false} NoReturns(s: string)
    ensures '\r' !in WithoutReturns(s)
  {
    if s != "" { NoReturns(s[1..]); }
  }

  lemma LoadFromStart(data: string)
    ensures LoadFrom(data, [], "") == Top(Shows(Trimmed(LinesIn(WithoutReturns(data), ""), true)))
  {
    var text := WithoutReturns(data);
    ReturnsSkipped(data, [], "");
    NoReturns(data);
    assert Cut("") == "";
    hide LoadFrom, LinesIn, Trimmed, Shows, Top, WithoutReturns, Cut;
    LoadFromIs(text, [], "");
    assert [] + Shows(Trimmed(LinesIn(text, ""), true)) == Shows(Trimmed(LinesIn(text, ""), true));
  }

  /** Loading any content: of its first 2047 bytes without the carriage returns, the first 250 lines, an empty last one left
      out, and of each line the first 79 characters up to a NUL. */
  lemma LoadedIs(content: string)
    ensures var text := WithoutReturns(if |content| <= READ_LIMIT then content else content[..READ_LIMIT]);
            Loaded(content) == Top(Shows(Trimmed(LinesIn(text, ""), true)))
  {
    hide LoadFrom, LinesIn, Trimmed, Shows, Top, WithoutReturns;
    LoadFromStart(if |content| <= READ_LIMIT then content else content[..READ_LIMIT]);
  }

  // ---- moving over line ends ----

  lemma {:induction false} OffsetAcross(lines: seq<string>, l: nat)
    requires l + 1 < |lines|
    ensures Offset(lines, l + 1, 0) == Offset(lines, l, |lines[l]|) + 1
  {
    if l > 0 { OffsetAcross(lines[1..], l - 1); }
  }

  lemma {:induction false} OffsetAlong(lines: seq<string>, l: nat, c: nat)
    requires l < |lines|
    ensures Offset(lines, l, c) == Offset(lines, l, 0) + c
  {
    if l > 0 { OffsetAlong(lines[1..], l - 1, c); }
  }

  lemma {:induction false} OffsetEnd(lines: seq<string>)
    requires lines != []
    ensures Offset(lines, |lines| - 1, |lines[|lines| - 1]|) == |Flat(lines)|
  {
    if |lines| > 1 { OffsetEnd(lines[1..]); }
  }

  /** Moving the cursor by one, over a line end or within a line. */
  lemma PlaceAcross(rows: seq<string>, n: nat, l: nat)
    requires l + 1 < n <= |rows|
    ensures PlaceOf(rows, n, l + 1, 0) == PlaceOf(rows, n, l, Len(rows[l])) + 1
  {
    hide Offset, Len;
    OffsetAcross(LinesOf(rows, n), l);
  }

  lemma PlaceAlong(rows: seq<string>, n: nat, l: nat, c: nat)
    requires l < n <= |rows|
    ensures PlaceOf(rows, n, l, c + 1) == PlaceOf(rows, n, l, c) + 1
  {
    hide Offset;
    OffsetAlong(LinesOf(rows, n), l, c);
    OffsetAlong(LinesOf(rows, n), l, c + 1);
  }

  lemma PlaceEnds(rows: seq<string>, n: nat)
    requires 0 < n <= |rows|
    ensures PlaceOf(rows, n, 0, 0) == 0
    ensures PlaceOf(rows, n, n - 1, Len(rows[n - 1])) == |TextOf(rows, n)|
  {
    hide Len;
    OffsetEnd(LinesOf(rows, n));
  }

  /** Makes room below line `l` as editor_handle_key does, from the line after it on. */
  method BreakBelow(rows: array<string>, size: nat, n: nat, l: nat, c: nat)
    requires RowsOk(rows[..], size) && l < n < rows.Length && c <= Len(rows[l])
    modifies rows
    ensures RowsOk(rows[..], size)
    ensures LinesOf(rows[..], n + 1) == Split(old(LinesOf(rows[..], n)), l, c)
  {
    hide Len, LinesOf, Split, IsRow;
    ghost var was := rows[..];
    ShiftDown(rows, size, l + 1, n);
    assert rows[l] == was[l];
    assert IsRow(was[l], size) && IsRow(rows[..][l + 1], size);
    IsRowLength(was[l], size);
    IsRowLength(rows[l + 1], size);
    CutIs(was[l], size, c);
    var len := Len(rows[l]);
    if c < len {
      var tail := TailCopied(rows[l], rows[l + 1], size, c);
      rows[l + 1] := tail;
      rows[l] := rows[l][c := NUL];
    } else {
      CutIs(rows[l + 1], size, 0);
      rows[l + 1] := rows[l + 1][0 := NUL];
    }
    assert forall k :: 0 <= k < rows.Length ==> IsRow(rows[k], size);
    LinesSplit(was, rows[..], n, l, c);
  }

  /** STRCPY of the end of one line into another. */
  method TailCopied(row: string, next0: string, size: nat, c: nat) returns (next: string)
    requires IsRow(row, size) && IsRow(next0, size) && c <= Len(row)
    ensures IsRow(next, size) && LineText(next) == LineText(row)[c..]
  {
    var len := Len(row);
    next := row[c..len + 1] + next0[len + 1 - c..];
    TailIs(row, next, size, c);
  }

  class AnthropicEditor {
    const rows: array<string>
    const visibleLines: nat
    var lineCount: nat
    var cursorLine: nat
    var cursorCol: nat
    var scrollOffset: nat
    var modified: bool

    /** The cursor is inside the text and its line is in the viewport. */
    ghost predicate Valid()
      reads this, rows
    {
      && rows.Length == MAX_LINES && RowsOk(rows[..], MAX_LINE_LENGTH)
      && cursorLine < lineCount <= MAX_LINES && cursorCol <= Len(rows[cursorLine])
      && scrollOffset <= cursorLine < scrollOffset + visibleLines
    }

    ghost function Text(): string
      requires Valid()
      reads this, rows
    {
      TextOf(rows[..], lineCount)
    }

    ghost function Cursor(): nat
      requires Valid()
      reads this, rows
    {
      PlaceOf(rows[..], lineCount, cursorLine, cursorCol)
    }

    /** editor_init on a screen that shows at least one line. */
    constructor (visibleLines: nat)
      requires visibleLines > 0
      ensures Valid() && fresh(rows) && Text() == "" && Cursor() == 0
    {
      rows := new string[MAX_LINES](_ => seq(MAX_LINE_LENGTH, _ => NUL));
      this.visibleLines := visibleLines;
      lineCount, cursorLine, cursorCol, scrollOffset, modified := 1, 0, 0, 0, false;
    }

    /** The cursor moves to another line's text; the column is cut to its length. */
    method GoUp()
      requires Valid()
      modifies this`cursorLine, this`cursorCol, this`scrollOffset
      ensures Valid() && Text() == old(Text())
      ensures cursorLine == if old(cursorLine) > 0 then old(cursorLine) - 1 else old(cursorLine)
      ensures cursorCol == if Len(rows[cursorLine]) < old(cursorCol) then Len(rows[cursorLine]) else old(cursorCol)
    {
      hide Len;
      if cursorLine > 0 {
        cursorLine := cursorLine - 1;
        if cursorLine < scrollOffset { scrollOffset := scrollOffset - 1; }
        var len := Len(rows[cursorLine]);
        if cursorCol > len { cursorCol := len; }
      }
    }

    method GoDown()
      requires Valid()
      modifies this`cursorLine, this`cursorCol, this`scrollOffset
      ensures Valid() && Text() == old(Text())
      ensures cursorLine == if old(cursorLine) < lineCount - 1 then old(cursorLine) + 1 else old(cursorLine)
      ensures cursorCol == if Len(rows[cursorLine]) < old(cursorCol) then Len(rows[cursorLine]) else old(cursorCol)
    {
      hide Len;
      if cursorLine < lineCount - 1 {
        cursorLine := cursorLine + 1;
        if cursorLine >= scrollOffset + visibleLines { scrollOffset := scrollOffset + 1; }
        var len := Len(rows[cursorLine]);
        if cursorCol > len { cursorCol := len; }
      }
    }

    /** One back in the flat text, unless at its start. */
    method GoLeft()
      requires Valid()
      modifies this`cursorLine, this`cursorCol, this`scrollOffset
      ensures Valid() && Text() == old(Text())
      ensures Cursor() == if old(Cursor()) == 0 then 0 else old(Cursor()) - 1
    {
      hide Len, TextOf, PlaceOf;
      PlaceEnds(rows[..], lineCount);
      if cursorCol > 0 {
        PlaceAlong(rows[..], lineCount, cursorLine, cursorCol - 1);
        cursorCol := cursorCol - 1;
      } else if cursorLine > 0 {
        PlaceAcross(rows[..], lineCount, cursorLine - 1);
        cursorLine := cursorLine - 1;
        if cursorLine < scrollOffset { scrollOffset := scrollOffset - 1; }
        cursorCol := Len(rows[cursorLine]);
      }
    }

    /** One on in the flat text, unless at its end. */
    method GoRight()
      requires Valid()
      modifies this`cursorLine, this`cursorCol, this`scrollOffset
      ensures Valid() && Text() == old(Text())
      ensures Cursor() == if old(Cursor()) == |Text()| then |Text()| else old(Cursor()) + 1
    {
      hide Len, TextOf, PlaceOf;
      PlaceEnds(rows[..], lineCount);
      PlaceWithin(rows[..], lineCount, cursorLine, cursorCol);
      var len := Len(rows[cursorLine]);
      if cursorCol < len {
        PlaceAlong(rows[..], lineCount, cursorLine, cursorCol);
        PlaceWithin(rows[..], lineCount, cursorLine, cursorCol + 1);
        cursorCol := cursorCol + 1;
      } else if cursorLine < lineCount - 1 {
        PlaceAcross(rows[..], lineCount, cursorLine);
        PlaceWithin(rows[..], lineCount, cursorLine + 1, 0);
        cursorLine := cursorLine + 1;
        if cursorLine >= scrollOffset + visibleLines { scrollOffset := scrollOffset + 1; }
        cursorCol := 0;
      }
    }

    /** Refused exactly at the start of the text and where the joined line would be too long. */
    method RubOut()
      requires Valid()
      modifies this, rows
      ensures Valid()
      ensures if old(Stuck())
              then Text() == old(Text()) && Cursor() == old(Cursor())
              else Deleted(old(Text()), old(Cursor()), Text(), Cursor())
    {
      hide TextOf, PlaceOf, Deleted, DeleteAt, Len, LinesOf, Merged;
      ghost var was := rows[..];
      var l := cursorLine;
      assert IsRow(was[l], MAX_LINE_LENGTH);
      if cursorCol > 0 {
        var row := DeleteShifting(rows[l], MAX_LINE_LENGTH, cursorCol);
        RubbedEdit(was, lineCount, l, cursorCol, row);
        ShrunkLength(was[l], row, cursorCol);
        rows[l] := row;
        assert rows[..] == was[l := row];
        cursorCol := cursorCol - 1;
        modified := true;
      } else if cursorLine > 0 {
        var prevLen, currLen := Len(rows[l - 1]), Len(rows[l]);
        if prevLen + currLen < MAX_LINE_LENGTH - 1 {
          Join(rows, MAX_LINE_LENGTH, lineCount, l);
          MergedEdit(was, rows[..], lineCount, l);
          lineCount := lineCount - 1;
          cursorLine := cursorLine - 1;
          if cursorLine < scrollOffset { scrollOffset := scrollOffset - 1; }
          cursorCol := prevLen;
          modified := true;
        }
      }
    }

    /** Refused exactly when all lines are in use. */
    method BreakLine()
      requires Valid()
      modifies this, rows
      ensures Valid()
      ensures if old(lineCount) >= MAX_LINES then Text() == old(Text()) && Cursor() == old(Cursor())
              else Inserted(old(Text()), old(Cursor()), Text(), Cursor(), '\n')
    {
      hide TextOf, PlaceOf, Inserted, InsertAt, Len, LinesOf, Split;
      if lineCount >= MAX_LINES { return; }
      ghost var was := rows[..];
      BreakBelow(rows, MAX_LINE_LENGTH, lineCount, cursorLine, cursorCol);
      SplitEdit(was, rows[..], lineCount, cursorLine, cursorCol);
      lineCount := lineCount + 1;
      cursorLine := cursorLine + 1;
      if cursorLine >= scrollOffset + visibleLines { scrollOffset := scrollOffset + 1; }
      cursorCol := 0;
      modified := true;
    }

    /** Refused exactly when the line is full. */
    method Type(ch: char)
      requires Valid() && ch != NUL
      modifies this, rows
      ensures Valid()
      ensures if old(LineFull()) then Text() == old(Text()) && Cursor() == old(Cursor())
              else Inserted(old(Text()), old(Cursor()), Text(), Cursor(), ch)
    {
      hide TextOf, PlaceOf, Inserted, InsertAt, Len;
      ghost var was := rows[..];
      var l := cursorLine;
      var len := Len(rows[l]);
      if len < MAX_LINE_LENGTH - 1 {
        assert IsRow(was[l], MAX_LINE_LENGTH);
        var row := InsertTerminating(rows[l], MAX_LINE_LENGTH, cursorCol, ch);
        TypedEdit(was, lineCount, l, cursorCol, row, ch);
        GrownLength(was[l], row, cursorCol, ch);
        rows[l] := row;
        assert rows[..] == was[l := row];
        cursorCol := cursorCol + 1;
        modified := true;
      }
    }

    /** Typing is refused in a full line. */
    ghost predicate LineFull()
      requires Valid()
      reads this, rows
    {
      Len(rows[cursorLine]) >= MAX_LINE_LENGTH - 1
    }

    /** Rubbing out is refused at the start of the text and where the joined line would be too long. */
    ghost predicate Stuck()
      requires Valid()
      reads this, rows
    {
      cursorCol == 0 && (cursorLine == 0 || Len(rows[cursorLine - 1]) + Len(rows[cursorLine]) >= MAX_LINE_LENGTH - 1)
    }

    /** editor_handle_key: whatever keys are pressed, the cursor stays in the text and in the viewport. Every key makes its
        one-character edit at the cursor or its move, unless it is refused; then text and cursor stay. */
    method HandleKey(key: Key)
      requires Valid() && (key.Print? ==> key.ch != NUL)
      modifies this, rows
      ensures Valid()
      ensures key.Print? && !old(LineFull()) ==> Inserted(old(Text()), old(Cursor()), Text(), Cursor(), key.ch)
      ensures key.Enter? && old(lineCount) < MAX_LINES ==> Inserted(old(Text()), old(Cursor()), Text(), Cursor(), '\n')
      ensures key.Rubout? && !old(Stuck()) ==> Deleted(old(Text()), old(Cursor()), Text(), Cursor())
      ensures (key.Print? && old(LineFull())) || (key.Enter? && old(lineCount) >= MAX_LINES) || (key.Rubout? && old(Stuck())) || key.Other? ==>
                Text() == old(Text()) && Cursor() == old(Cursor())
      ensures key.Left? ==> Text() == old(Text()) && Cursor() == if old(Cursor()) == 0 then 0 else old(Cursor()) - 1
      ensures key.Right? ==> Text() == old(Text()) && Cursor() == if old(Cursor()) == |Text()| then |Text()| else old(Cursor()) + 1
      ensures key.Up? || key.Down? ==>
                && Text() == old(Text())
                && cursorLine == (if key.Up? then if old(cursorLine) > 0 then old(cursorLine) - 1 else 0
                                  else if old(cursorLine) < lineCount - 1 then old(cursorLine) + 1 else old(cursorLine))
                && cursorCol == if Len(rows[cursorLine]) < old(cursorCol) then Len(rows[cursorLine]) else old(cursorCol)
    {
      hide TextOf, PlaceOf, Inserted, Deleted, RowsOk;
      match key
      case Up => GoUp();
      case Down => GoDown();
      case Left => GoLeft();
      case Right => GoRight();
      case Rubout => RubOut();
      case Enter => BreakLine();
      case Print(ch) => Type(ch);
      case Other =>
    }

    /** editor_load_file on the bytes read from the file, right after editor_init; -1 if there are none. */
    method Load(data: string) returns (r: int)
      requires Valid() && cursorLine == 0 && cursorCol == 0 && scrollOffset == 0 && |data| <= READ_LIMIT
      modifies this, rows
      ensures Valid() && cursorLine == 0 && cursorCol == 0
      ensures LinesOf(rows[..], lineCount) == Loaded(data) && r == (if data == "" then -1 else 0)
    {
      hide IsRow, Shown, Len, LineText, Filled;
      Clear();
      if data == "" {
        EndLine(0, 0, [], "");
        assert [] + [Shown("")] == [Shown("")];
        FilledLines(rows[..], [Shown("")]);
        lineCount := 1;
        return -1;
      }
      ghost var done: seq<string>, cur: string := [], "";
      var line, col, i := 0, 0, 0;
      assert data[0..] == data;
      while i < |data| && line < MAX_LINES
        invariant i <= |data| && line == |done| <= MAX_LINES && col == |cur| <= MAX_LINE_LENGTH - 1
        invariant rows.Length == MAX_LINES && Filled(rows[..], done, cur) && (line == MAX_LINES ==> cur == "")
        invariant LoadFrom(data[i..], done, cur) == Loaded(data)
        invariant cursorLine == 0 && cursorCol == 0 && scrollOffset == 0
      {
        assert data[i..][0] == data[i] && data[i..][1..] == data[i + 1..];
        if data[i] == '\n' {
          EndLine(line, col, done, cur);
          done, cur := done + [Shown(cur)], "";
          line := line + 1;
          col := 0;
        } else if data[i] != '\r' && col < MAX_LINE_LENGTH - 1 {
          PutChar(line, col, data[i], done, cur);
          cur := cur + [data[i]];
          col := col + 1;
        }
        i := i + 1;
      }
      if col > 0 || line == 0 {
        EndLine(line, col, done, cur);
        done, cur := done + [Shown(cur)], "";
        line := line + 1;
      }
      FilledLines(rows[..], done);
      lineCount := line;
      modified := false;
      return 0;
    }

    method Clear()
      requires rows.Length == MAX_LINES && RowsOk(rows[..], MAX_LINE_LENGTH)
      modifies rows
      ensures Filled(rows[..], [], "")
    {
      hide Len;
      var i := 0;
      while i < MAX_LINES
        invariant i <= MAX_LINES
        invariant forall k :: 0 <= k < MAX_LINES ==> |rows[k]| == MAX_LINE_LENGTH
        invariant forall k :: 0 <= k < i ==> rows[k][0] == NUL
      {
        rows[i] := rows[i][0 := NUL];
        i := i + 1;
      }
    }

    method PutChar(line: nat, col: nat, c: char, ghost done: seq<string>, ghost cur: string)
      requires rows.Length == MAX_LINES && Filled(rows[..], done, cur)
      requires line == |done| < MAX_LINES && col == |cur| < MAX_LINE_LENGTH - 1
      modifies rows
      ensures Filled(rows[..], done, cur + [c])
    {
      hide Len, LineText;
      ghost var row := rows[..][line];
      rows[line] := rows[line][col := c];
      assert rows[line][..col + 1] == row[..col] + [c];
    }

    method EndLine(line: nat, col: nat, ghost done: seq<string>, ghost cur: string)
      requires rows.Length == MAX_LINES && Filled(rows[..], done, cur) && line == |done| < MAX_LINES && col == |cur|
      modifies rows
      ensures Filled(rows[..], done + [Shown(cur)], "")
    {
      hide Len, LineText, Shown;
      ghost var row := rows[..][line];
      rows[line] := rows[line][col := NUL];
      assert rows[line][..col] == row[..col];
      ShownRow(rows[line], cur);
    }

    /** The text that editor_save_file writes; it fits the save buffer. */
    method SaveText() returns (out: string)
      requires Valid()
      ensures out == Text() && |out| <= MAX_LINES * MAX_LINE_LENGTH
    {
      hide Len;
      ghost var lines := LinesOf(rows[..], lineCount);
      out := "";
      var i := 0;
      while i < lineCount
        invariant i <= lineCount && |out| <= i * MAX_LINE_LENGTH
        invariant out == Prefix(lines, i)
      {
        assert IsRow(rows[..][i], MAX_LINE_LENGTH);
        out := out + LineText(rows[i]);
        if i < lineCount - 1 { out := out + "\n"; }
        i := i + 1;
      }
      WholePrefix(lines);
    }
  }

  /** The lines `done` are complete and `cur` has been put into the next one; the buffers behind are empty. */
  ghost predicate Filled(rows: seq<string>, done: seq<string>, cur: string) {
    && |rows| == MAX_LINES && |done| <= MAX_LINES
    && (forall k :: 0 <= k < MAX_LINES ==> |rows[k]| == MAX_LINE_LENGTH)
    && (forall k :: 0 <= k < |done| ==> IsRow(rows[k], MAX_LINE_LENGTH) && LineText(rows[k]) == done[k])
    && (forall k :: |done| < k < MAX_LINES ==> rows[k][0] == NUL)
    && (|done| < MAX_LINES ==>
          && |cur| <= MAX_LINE_LENGTH - 1 && rows[|done|][..|cur|] == cur
          && (cur == "" ==> rows[|done|][0] == NUL))
  }

  lemma ShownRow(row: string, cur: string)
    requires |cur| < |row| && row[..|cur|] == cur && row[|cur|] == NUL
    ensures Len(row) < |row| && LineText(row) == Shown(cur)
  {
    var all := cur + [NUL];
    assert row[..|all|] == all;
    assert forall k :: 0 <= k < |all| ==> row[k] == row[..|all|][k];
    assert row[Len(all)] == NUL && all[|cur|] == NUL;
  }

  lemma FilledLines(rows: seq<string>, done: seq<string>)
    requires Filled(rows, done, "")
    ensures RowsOk(rows, MAX_LINE_LENGTH) && LinesOf(rows, |done|) == done
  { }

  lemma PlaceWithin(rows: seq<string>, n: nat, l: nat, c: nat)
    requires l < n <= |rows| && c <= Len(rows[l])
    ensures PlaceOf(rows, n, l, c) <= |TextOf(rows, n)|
    ensures l < n - 1 || c < Len(rows[l]) ==> PlaceOf(rows, n, l, c) < |TextOf(rows, n)|
  {
    hide Offset, Flat, Len;
    var lines := LinesOf(rows, n);
    OffsetWithin(lines, l, c);
    if c < Len(rows[l]) {
      OffsetAlong(lines, l, c);
      OffsetAlong(lines, l, c + 1);
      OffsetWithin(lines, l, c + 1);
    } else if l < n - 1 {
      OffsetAcross(lines, l);
      OffsetWithin(lines, l + 1, 0);
    }
  }

  /** The first `n` lines, each with a line break unless it is the last of all. */
  ghost function Prefix(lines: seq<string>, n: nat): string
    requires n <= |lines|
  {
    if n == 0 then "" else Prefix(lines, n - 1) + lines[n - 1] + if n < |lines| then "\n" else ""
  }

  lemma {:induction false} PrefixShift(lines: seq<string>, n: nat)
    requires 0 < n < |lines|
    ensures Prefix(lines, n + 1) == lines[0] + "\n" + Prefix(lines[1..], n)
  {
    if n > 1 {
      PrefixShift(lines, n - 1);
    } else {
      assert Prefix(lines, 1) == lines[0] + "\n";
      assert Prefix(lines[1..], 0) == "";
    }
  }

  lemma {:induction false} WholePrefix(lines: seq<string>)
    requires lines != []
    ensures Prefix(lines, |lines|) == Flat(lines)
    decreases |lines|
  {
    if |lines| > 1 {
      PrefixShift(lines, |lines| - 1);
      WholePrefix(lines[1..]);
    } else {
      assert Prefix(lines, 0) == "";
    }
  }
}
