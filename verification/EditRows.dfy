/** Lines as fixed-size character buffers holding C strings, with the loops that shift their characters. */
module EditRows {
  import opened EditText

  const NUL := '\0'

  /** The index of the first NUL, or the size of a buffer without one. */
  function Len(row: string): (n: nat)
    ensures n <= |row| && (n < |row| ==> row[n] == NUL)
    ensures forall k :: 0 <= k < n ==> row[k] != NUL
  {
    if row == "" || row[0] == NUL then 0 else 1 + Len(row[1..])
  }

  /** The string that a buffer holds. */
  function LineText(row: string): string { row[..Len(row)] }

  /** A buffer of `size` characters that holds a terminated string. */
  predicate IsRow(row: string, size: nat) { |row| == size && Len(row) < size }

  lemma CStrIs(row: string, s: string)
    requires |s| < |row| && row[..|s|] == s && row[|s|] == NUL && NUL !in s
    ensures Len(row) == |s| && LineText(row) == s
  {
  }

  lemma CStrClean(row: string)
    ensures NUL !in LineText(row)
  { }

  /** STRCPY into a buffer large enough. */
  function Copied(dst: string, src: string): string
    requires Len(src) < |src| && Len(src) < |dst|
  {
    src[..Len(src) + 1] + dst[Len(src) + 1..]
  }

  lemma CopiedIs(dst: string, src: string, size: nat)
    requires IsRow(dst, size) && IsRow(src, size)
    ensures IsRow(Copied(dst, src), size) && LineText(Copied(dst, src)) == LineText(src)
  {
    CStrClean(src);
    CStrIs(Copied(dst, src), LineText(src));
  }

  /** STRCAT where the result fits. */
  function Catenated(dst: string, src: string): string
    requires Len(src) < |src| && Len(dst) + Len(src) < |dst|
  {
    dst[..Len(dst)] + src[..Len(src) + 1] + dst[Len(dst) + Len(src) + 1..]
  }

  lemma CatenatedIs(dst: string, src: string, size: nat)
    requires IsRow(dst, size) && IsRow(src, size) && Len(dst) + Len(src) < size
    ensures IsRow(Catenated(dst, src), size) && LineText(Catenated(dst, src)) == LineText(dst) + LineText(src)
  {
    CStrClean(src);
    CStrClean(dst);
    CStrIs(Catenated(dst, src), LineText(dst) + LineText(src));
  }

  /** text_editor_insert_char within a line: shift up everything from the column on, terminator included. */
  method InsertShifting(row0: string, size: nat, col: nat, ch: char) returns (row: string)
    requires IsRow(row0, size) && col <= Len(row0) < size - 1 && ch != NUL
    ensures IsRow(row, size) && LineText(row) == InsertAt(LineText(row0), col, ch)
  {
    row := row0;
    var len := Len(row);
    var i := len;
    while i >= col
      invariant col - 1 <= i <= len && |row| == size
      invariant row[..i + 1] == row0[..i + 1]
      invariant forall k :: i + 1 < k <= len + 1 ==> row[k] == row0[k - 1]
    {
      row := row[i + 1 := row[i]];
      i := i - 1;
    }
    row := row[col := ch];
    InsertedIs(row0, row, size, col, ch);
  }

  /** The same in editor_handle_key: shift up without the terminator, then write it. */
  method InsertTerminating(row0: string, size: nat, col: nat, ch: char) returns (row: string)
    requires IsRow(row0, size) && col <= Len(row0) < size - 1 && ch != NUL
    ensures IsRow(row, size) && LineText(row) == InsertAt(LineText(row0), col, ch)
  {
    row := row0;
    var len := Len(row);
    var i := len;
    while i > col
      invariant col <= i <= len && |row| == size
      invariant row[..i] == row0[..i]
      invariant forall k :: i < k <= len ==> row[k] == row0[k - 1]
    {
      row := row[i := row[i - 1]];
      i := i - 1;
    }
    row := row[col := ch];
    row := row[len + 1 := NUL];
    InsertedIs(row0, row, size, col, ch);
  }

  lemma InsertedIs(row0: string, row: string, size: nat, col: nat, ch: char)
    requires IsRow(row0, size) && |row| == size && col <= Len(row0) < size - 1 && ch != NUL
    requires row[..col] == row0[..col] && row[col] == ch
    requires forall k :: col < k <= Len(row0) + 1 ==> row[k] == row0[k - 1]
    ensures IsRow(row, size) && LineText(row) == InsertAt(LineText(row0), col, ch)
  {
    var s := InsertAt(LineText(row0), col, ch);
    forall k | 0 <= k < |s| ensures row[k] == s[k] && s[k] != NUL {
      if k < col { assert row[k] == row[..col][k] == row0[..col][k]; }
    }
    assert row[..|s|] == s;
    CStrIs(row, s);
  }

  /** Shift down everything behind the column, terminator included. */
  method DeleteShifting(row0: string, size: nat, col: nat) returns (row: string)
    requires IsRow(row0, size) && 0 < col <= Len(row0)
    ensures IsRow(row, size) && LineText(row) == DeleteAt(LineText(row0), col - 1)
  {
    row := row0;
    var len := Len(row);
    var i := col - 1;
    while i < len
      invariant col - 1 <= i <= len && |row| == size
      invariant row[..col - 1] == row0[..col - 1] && row[i..] == row0[i..]
      invariant forall k :: col - 1 <= k < i ==> row[k] == row0[k + 1]
    {
      assert row[i..][1] == row0[i..][1];
      row := row[i := row[i + 1]];
      assert row[i + 1..] == row0[i..][1..];
      i := i + 1;
    }
    DeletedIs(row0, row, size, col);
  }

  lemma DeletedIs(row0: string, row: string, size: nat, col: nat)
    requires IsRow(row0, size) && |row| == size && 0 < col <= Len(row0)
    requires row[..col - 1] == row0[..col - 1]
    requires forall k :: col - 1 <= k < Len(row0) ==> row[k] == row0[k + 1]
    ensures IsRow(row, size) && LineText(row) == DeleteAt(LineText(row0), col - 1)
  {
    var s := DeleteAt(LineText(row0), col - 1);
    forall k | 0 <= k < |s| ensures row[k] == s[k] && s[k] != NUL {
      if k < col - 1 { assert row[k] == row[..col - 1][k] == row0[..col - 1][k]; }
    }
    assert row[..|s|] == s;
    CStrIs(row, s);
  }

  /** The end of a line copied to the front of another. */
  method SplitTail(row: string, next0: string, size: nat, col: nat) returns (next: string)
    requires IsRow(row, size) && IsRow(next0, size) && col <= Len(row)
    ensures IsRow(next, size) && LineText(next) == LineText(row)[col..]
  {
    next := next0;
    var len := Len(row);
    var i := col;
    while i <= len
      invariant col <= i <= len + 1 && |next| == size
      invariant forall k :: col <= k < i ==> next[k - col] == row[k]
    {
      next := next[i - col := row[i]];
      i := i + 1;
    }
    TailIs(row, next, size, col);
  }

  lemma TailIs(row: string, next: string, size: nat, col: nat)
    requires IsRow(row, size) && |next| == size && col <= Len(row)
    requires forall k :: col <= k <= Len(row) ==> next[k - col] == row[k]
    ensures IsRow(next, size) && LineText(next) == LineText(row)[col..]
  {
    var s := LineText(row)[col..];
    forall k | 0 <= k < |s| ensures next[k] == s[k] && s[k] != NUL { assert next[col + k - col] == row[col + k]; }
    assert next[Len(row) - col] == row[Len(row)];
    assert next[..|s|] == s;
    CStrIs(next, s);
  }

  lemma CutIs(row: string, size: nat, col: nat)
    requires IsRow(row, size) && col <= Len(row)
    ensures IsRow(row[col := NUL], size) && LineText(row[col := NUL]) == LineText(row)[..col]
  {
    CStrIs(row[col := NUL], LineText(row)[..col]);
  }
}
