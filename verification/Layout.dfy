/**
 A byte stream laid out on paper: split at newlines, then every line cut into rows of
 80 with a new row begun as soon as one is full.  The screen shows the last 25 rows.
 */
module Layout {
  import opened Types
  import opened TextMode

  type Row = seq<byte>

  /** The lines of a stream; a stream ending in a newline has an empty last line. */
  function Lines(s: seq<byte>): (r: seq<seq<byte>>)
    ensures |r| >= 1
  {
    if s == [] then [[]]
    else
      var before, c := Lines(s[..|s| - 1]), s[|s| - 1];
      if IsBreak(c) then before + [[]]
      else before[..|before| - 1] + [before[|before| - 1] + [c]]
  }

  /** One line cut into full rows of 80 and a last row that still has room. */
  function Wrap(line: seq<byte>): (r: seq<Row>)
    ensures |r| >= 1
    ensures |r[|r| - 1]| < NUM_COLS
  {
    if |line| < NUM_COLS then [line] else [line[..NUM_COLS]] + Wrap(line[NUM_COLS..])
  }

  function WrapAll(lines: seq<seq<byte>>): seq<Row> {
    if lines == [] then [] else WrapAll(lines[..|lines| - 1]) + Wrap(lines[|lines| - 1])
  }

  function Rows(s: seq<byte>): seq<Row> {
    WrapAll(Lines(s))
  }

  /** Line feeds and carriage returns begin new lines. */
  function Breaks(s: seq<byte>): nat {
    if s == [] then 0 else Breaks(s[..|s| - 1]) + if s[|s| - 1] == 10 || s[|s| - 1] == 13 then 1 else 0
  }

  /** The bytes of a stream that are no line feeds or carriage returns. */
  function Text(s: seq<byte>): seq<byte> {
    if s == [] then [] else Text(s[..|s| - 1]) + if s[|s| - 1] == 10 || s[|s| - 1] == 13 then [] else [s[|s| - 1]]
  }

  function Joined(rows: seq<seq<byte>>): seq<byte> {
    if rows == [] then [] else Joined(rows[..|rows| - 1]) + rows[|rows| - 1]
  }

  lemma JoinedLast(rows: seq<seq<byte>>, row: seq<byte>)
    ensures Joined(rows + [row]) == Joined(rows) + row
  {
    assert (rows + [row])[..|rows|] == rows;
  }

  /** The lines of a stream are its text, with a line more than it has breaks. */
  lemma {:induction false} LinesHoldText(s: seq<byte>)
    ensures |Lines(s)| == 1 + Breaks(s) && Joined(Lines(s)) == Text(s)
  {
    if s == [] {
      JoinedLast([], []);
    } else {
      var before, c := Lines(s[..|s| - 1]), s[|s| - 1];
      LinesHoldText(s[..|s| - 1]);
      if IsBreak(c) {
        JoinedLast(before, []);
      } else {
        var front, last := before[..|before| - 1], before[|before| - 1];
        JoinedLast(front, last);
        JoinedLast(front, last + [c]);
        assert before == front + [last];
        assert Joined(front) + last + [c] == Joined(front) + (last + [c]);
      }
    }
  }

  lemma {:induction false} JoinedFirst(first: seq<byte>, rest: seq<seq<byte>>)
    ensures Joined([first] + rest) == first + Joined(rest)
    decreases rest
  {
    if rest == [] {
      assert [first] + rest == [first] && [first][..0] == [];
    } else {
      var front, last := rest[..|rest| - 1], rest[|rest| - 1];
      JoinedFirst(first, front);
      JoinedLast([first] + front, last);
      assert [first] + front + [last] == [first] + rest;
      assert first + Joined(front) + last == first + (Joined(front) + last);
    }
  }

  /** The rows of a line are the line, and all but the last are full. */
  lemma {:induction false} RowsHoldLine(line: seq<byte>)
    ensures Joined(Wrap(line)) == line
    ensures forall i | 0 <= i < |Wrap(line)| - 1 :: |Wrap(line)[i]| == 80
  {
    if |line| < NUM_COLS {
      assert [line][..0] == [] && [] + line == line;
    } else {
      RowsHoldLine(line[NUM_COLS..]);
      JoinedFirst(line[..NUM_COLS], Wrap(line[NUM_COLS..]));
    }
  }

  /** How one more byte changes a laid-out page. */
  function Extend(rows: seq<Row>, c: byte): seq<Row>
    requires |rows| >= 1
  {
    var last := rows[|rows| - 1] + [c];
    if IsBreak(c) then rows + [[]]
    else if |last| == NUM_COLS then rows[..|rows| - 1] + [last, []]
    else rows[..|rows| - 1] + [last]
  }

  lemma {:induction false} WrapExtends(line: seq<byte>, c: byte)
    requires !IsBreak(c)
    ensures Wrap(line + [c]) == Extend(Wrap(line), c)
  {
    if |line| < NUM_COLS - 1 {
    } else if |line| == NUM_COLS - 1 {
      assert (line + [c])[..NUM_COLS] == line + [c];
      assert (line + [c])[NUM_COLS..] == [];
    } else {
      assert (line + [c])[..NUM_COLS] == line[..NUM_COLS];
      assert (line + [c])[NUM_COLS..] == line[NUM_COLS..] + [c];
      ExtendConcat([line[..NUM_COLS]], Wrap(line[NUM_COLS..]), c);
      WrapExtends(line[NUM_COLS..], c);
    }
  }

  lemma {:induction false} ExtendConcat(a: seq<Row>, b: seq<Row>, c: byte)
    requires |b| >= 1
    ensures Extend(a + b, c) == a + Extend(b, c)
  {
  }

  /** Laying out a longer stream only extends the page at its end. */
  lemma {:induction false} RowsExtend(s: seq<byte>, c: byte)
    ensures |Rows(s)| >= 1 && |Rows(s)[|Rows(s)| - 1]| < NUM_COLS
    ensures Rows(s + [c]) == Extend(Rows(s), c)
  {
    var lines := Lines(s);
    var front, last := lines[..|lines| - 1], lines[|lines| - 1];
    assert (s + [c])[..|s|] == s;
    if IsBreak(c) {
      assert (lines + [[]])[..|lines|] == lines;
    } else {
      assert (front + [last + [c]])[..|front|] == front;
      WrapExtends(last, c);
      ExtendConcat(WrapAll(front), Wrap(last), c);
    }
  }

  /** Rows that scroll in from below start out as NULs, the cleared screen as blanks. */
  function Paper(row: nat): byte {
    if row < NUM_ROWS then SPACE else NUL
  }

  function Inked(rows: seq<Row>, row: nat, col: nat): byte {
    if row < |rows| && col < |rows[row]| then rows[row][col] else Paper(row)
  }

  /** The number of rows that have left the screen at the top. */
  function Top(rows: seq<Row>): nat {
    if |rows| > NUM_ROWS then |rows| - NUM_ROWS else 0
  }

  /** The cursor is behind the last byte. */
  predicate EndsAtCursor(s: Screen, rows: seq<Row>) {
    && OnScreen(s)
    && |rows| >= 1
    && |rows[|rows| - 1]| < NUM_COLS
    && s.row == |rows| - 1 - Top(rows)
    && s.col == |rows[|rows| - 1]|
  }

  /** The screen shows exactly the last 25 rows, with the cursor behind the last byte. */
  ghost predicate Shows(s: Screen, attr: byte, rows: seq<Row>) {
    && EndsAtCursor(s, rows)
    && (forall cell: nat | cell < CELLS ::
          Char(s.mem, cell) == Inked(rows, Top(rows) + cell / NUM_COLS, cell % NUM_COLS))
    && (forall cell: nat | cell < CELLS :: Attr(s.mem, cell) == attr)
  }

  /** Extending the page inks one position at most. */
  lemma InkedExtend(rows: seq<Row>, c: byte, row: nat, col: nat)
    requires |rows| >= 1 && |rows[|rows| - 1]| < NUM_COLS && col < NUM_COLS
    ensures Inked(Extend(rows, c), row, col)
         == if !IsBreak(c) && row == |rows| - 1 && col == |rows[row]| then c else Inked(rows, row, col)
  {
  }

  /** A cell, by its row and column, shows a position of a page. */
  ghost predicate ShowsAt(mem: seq<byte>, attr: byte, rows: seq<Row>, row: nat, col: nat)
    requires |mem| == SCREEN_SIZE && row < NUM_ROWS && col < NUM_COLS
  {
    Attr(mem, NUM_COLS * row + col) == attr && Char(mem, NUM_COLS * row + col) == Inked(rows, Top(rows) + row, col)
  }

  /** So does the cell below it. */
  ghost predicate ShowsNear(mem: seq<byte>, attr: byte, rows: seq<Row>, row: nat, col: nat)
    requires |mem| == SCREEN_SIZE && row < NUM_ROWS && col < NUM_COLS
  {
    ShowsAt(mem, attr, rows, row, col) && (row < NUM_ROWS - 1 ==> ShowsAt(mem, attr, rows, row + 1, col))
  }

  lemma ShownAt(s: Screen, attr: byte, rows: seq<Row>, row: nat, col: nat)
    requires Shows(s, attr, rows) && row < NUM_ROWS && col < NUM_COLS
    ensures ShowsAt(s.mem, attr, rows, row, col)
  {
    var cell := NUM_COLS * row + col;
    assert cell / NUM_COLS == row && cell % NUM_COLS == col;
  }

  lemma ShownEverywhere(t: Screen, attr: byte, rows: seq<Row>)
    requires EndsAtCursor(t, rows)
    requires forall row: nat, col: nat | row < NUM_ROWS && col < NUM_COLS :: ShowsAt(t.mem, attr, rows, row, col)
    ensures Shows(t, attr, rows)
  {
    forall cell: nat | cell < CELLS
      ensures Attr(t.mem, cell) == attr
      ensures Char(t.mem, cell) == Inked(rows, Top(rows) + cell / NUM_COLS, cell % NUM_COLS)
    {
      assert ShowsAt(t.mem, attr, rows, cell / NUM_COLS, cell % NUM_COLS);
      assert cell == NUM_COLS * (cell / NUM_COLS) + cell % NUM_COLS;
    }
  }

  lemma {:induction false} PutShows(s: Screen, attr: byte, rows: seq<Row>, c: byte)
    requires Shows(s, attr, rows) && c != TAB
    ensures Shows(Put(s, attr, c), attr, Extend(rows, c))
  {
    PutMovesOn(s, attr, rows, c);
    forall row: nat, col: nat | row < NUM_ROWS && col < NUM_COLS
      ensures ShowsAt(Put(s, attr, c).mem, attr, Extend(rows, c), row, col)
    {
      ShownAt(s, attr, rows, row, col);
      if row < NUM_ROWS - 1 {
        ShownAt(s, attr, rows, row + 1, col);
      }
      PutShowsCell(s, attr, rows, c, row, col);
    }
    ShownEverywhere(Put(s, attr, c), attr, Extend(rows, c));
  }

  lemma PutMovesOn(s: Screen, attr: byte, rows: seq<Row>, c: byte)
    requires EndsAtCursor(s, rows) && c != TAB
    ensures EndsAtCursor(Put(s, attr, c), Extend(rows, c))
  {
  }

  lemma PutShowsCell(s: Screen, attr: byte, rows: seq<Row>, c: byte, row: nat, col: nat)
    requires EndsAtCursor(s, rows) && c != TAB && row < NUM_ROWS && col < NUM_COLS
    requires ShowsNear(s.mem, attr, rows, row, col)
    ensures ShowsAt(Put(s, attr, c).mem, attr, Extend(rows, c), row, col)
  {
    if IsBreak(c) {
      NewLineShowsCell(s, attr, rows, c, row, col);
    } else if CursorCell(s) == CELLS - 1 {
      LastPrintShowsCell(s, attr, rows, c, row, col);
    } else {
      OtherPrintShowsCell(s, attr, rows, c, row, col);
    }
  }

  lemma NewLineShowsCell(s: Screen, attr: byte, rows: seq<Row>, c: byte, row: nat, col: nat)
    requires EndsAtCursor(s, rows) && IsBreak(c) && row < NUM_ROWS && col < NUM_COLS
    requires ShowsNear(s.mem, attr, rows, row, col)
    ensures ShowsAt(NewLine(s).mem, attr, Extend(rows, c), row, col)
  {
    InkedExtend(rows, c, Top(Extend(rows, c)) + row, col);
    NewLineCell(s, NUM_COLS * row + col);
  }

  /** The page when everything has moved up and the row above the last is complete. */
  lemma LastPrintInked(rows: seq<Row>, c: byte, row: nat, col: nat, below: byte)
    requires |rows| >= NUM_ROWS && |rows[|rows| - 1]| == NUM_COLS - 1 && !IsBreak(c) && row < NUM_ROWS && col < NUM_COLS
    requires row < NUM_ROWS - 1 ==> below == Inked(rows, Top(rows) + row + 1, col)
    ensures Inked(Extend(rows, c), Top(Extend(rows, c)) + row, col)
         == if row == NUM_ROWS - 2 && col == NUM_COLS - 1 then c else if row < NUM_ROWS - 1 then below else NUL
  {
    InkedExtend(rows, c, Top(rows) + 1 + row, col);
  }

  lemma OtherPrintInked(rows: seq<Row>, c: byte, row: nat, col: nat, here: byte)
    requires |rows| >= 1 && |rows[|rows| - 1]| < NUM_COLS && !IsBreak(c) && row < NUM_ROWS && col < NUM_COLS
    requires |rows| < NUM_ROWS || |rows[|rows| - 1]| < NUM_COLS - 1
    requires here == Inked(rows, Top(rows) + row, col)
    ensures Inked(Extend(rows, c), Top(Extend(rows, c)) + row, col)
         == if row == |rows| - 1 - Top(rows) && col == |rows[|rows| - 1]| then c else here
  {
    InkedExtend(rows, c, Top(rows) + row, col);
  }

  /** A character that fills the last row but one cell: everything moves up. */
  lemma LastPrintShowsCell(s: Screen, attr: byte, rows: seq<Row>, c: byte, row: nat, col: nat)
    requires EndsAtCursor(s, rows) && !IsBreak(c) && CursorCell(s) == CELLS - 1 && row < NUM_ROWS && col < NUM_COLS
    requires ShowsNear(s.mem, attr, rows, row, col)
    ensures ShowsAt(Print(s, attr, c).mem, attr, Extend(rows, c), row, col)
  {
    var cell := NUM_COLS * row + col;
    PrintCell(s, attr, c, cell);
    LastPrintInked(rows, c, row, col, if row < NUM_ROWS - 1 then Char(s.mem, cell + NUM_COLS) else NUL);
  }

  /** Any other character is just added. */
  lemma OtherPrintShowsCell(s: Screen, attr: byte, rows: seq<Row>, c: byte, row: nat, col: nat)
    requires EndsAtCursor(s, rows) && !IsBreak(c) && CursorCell(s) < CELLS - 1 && row < NUM_ROWS && col < NUM_COLS
    requires ShowsNear(s.mem, attr, rows, row, col)
    ensures ShowsAt(Print(s, attr, c).mem, attr, Extend(rows, c), row, col)
  {
    PrintCell(s, attr, c, NUM_COLS * row + col);
    OtherPrintInked(rows, c, row, col, Char(s.mem, NUM_COLS * row + col));
  }

  lemma BlankPage(attr: byte)
    ensures Rows([]) == [[]] && Shows(Cleared(attr), attr, [[]])
  {
    assert Lines([]) == [[]] && WrapAll([[]]) == [] + Wrap([]);
  }

  /** Every tab-free stream printed on a cleared screen shows as its layout. */
  lemma {:induction false} StreamShowsLayout(attr: byte, bytes: seq<byte>)
    requires TAB !in bytes
    ensures Shows(PutAll(Cleared(attr), attr, bytes), attr, Rows(bytes))
  {
    if bytes == [] {
      BlankPage(attr);
    } else {
      var front, c := bytes[..|bytes| - 1], bytes[|bytes| - 1];
      StreamShowsLayout(attr, front);
      PutShows(PutAll(Cleared(attr), attr, front), attr, Rows(front), c);
      RowsExtend(front, c);
      assert front + [c] == bytes;
    }
  }
}
