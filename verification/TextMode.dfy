/**
 One text-mode screen as a value: 25 rows of 80 cells, a character byte and an
 attribute byte each, and the column and row of the cursor.
 */
module TextMode {
  import opened Types

  const NUM_COLS := 80
  const NUM_ROWS := 25
  const CELLS := 2000
  const SCREEN_SIZE := 4000
  const ROW_SIZE := 160

  datatype Screen = Screen(mem: seq<byte>, col: int, row: int)

  predicate OnScreen(s: Screen) {
    && |s.mem| == SCREEN_SIZE
    && 0 <= s.col < NUM_COLS
    && 0 <= s.row < NUM_ROWS
  }

  /** The number of the cell under the cursor. */
  function CursorCell(s: Screen): int {
    NUM_COLS * s.row + s.col
  }

  /** The screen with the cursor on a given cell. */
  function AtCell(mem: seq<byte>, cell: nat): (r: Screen)
    requires |mem| == SCREEN_SIZE && cell < CELLS
    ensures OnScreen(r) && CursorCell(r) == cell
  {
    Screen(mem, cell % NUM_COLS, cell / NUM_COLS)
  }

  /** The screen whose cursor the driver keeps as a byte offset into video memory. */
  function AtLocation(mem: seq<byte>, location: int): Screen {
    Screen(mem, location % ROW_SIZE / 2, location / ROW_SIZE)
  }

  lemma LocationOf(mem: seq<byte>, col: int, row: int)
    requires 0 <= col < NUM_COLS
    ensures AtLocation(mem, 2 * (col + row * NUM_COLS)) == Screen(mem, col, row)
  {
  }

  /** A screen and the offset of its cursor determine each other. */
  lemma CursorAt(s: Screen, mem: seq<byte>, location: int)
    requires OnScreen(s) && location % 2 == 0
    ensures s == AtLocation(mem, location) <==> mem == s.mem && location == 2 * CursorCell(s)
  {
  }

  /** An even offset is the cursor of a screen exactly if it is one of 0, 2, .. 3998. */
  lemma OnScreenIff(mem: seq<byte>, location: int)
    requires |mem| == SCREEN_SIZE && location % 2 == 0
    ensures OnScreen(AtLocation(mem, location)) <==> 0 <= location <= 3998
  {
  }

  function Attribute(term: nat): byte {
    if term == 0 then 0xf else if term == 1 then 0x3 else 0x2
  }

  /** White, cyan and green on black. */
  lemma ColoursDiffer(t: nat, u: nat)
    requires t < 3 && u < 3
    ensures Attribute(t) == [15, 3, 2][t] && (Attribute(t) == Attribute(u) ==> t == u)
  {
  }

  /** The character byte of a cell. */
  function Char(mem: seq<byte>, cell: nat): byte
    requires |mem| == SCREEN_SIZE && cell < CELLS
  {
    mem[2 * cell]
  }

  /** The attribute byte of a cell. */
  function Attr(mem: seq<byte>, cell: nat): byte
    requires |mem| == SCREEN_SIZE && cell < CELLS
  {
    mem[2 * cell + 1]
  }

  /** Scrolling moves the character bytes up one row; attributes stay where they are. */
  function Scrolled(mem: seq<byte>): (r: seq<byte>)
    requires |mem| == SCREEN_SIZE
    ensures |r| == SCREEN_SIZE
  {
    seq(SCREEN_SIZE, i requires 0 <= i < SCREEN_SIZE =>
      if i % 2 == 1 then mem[i]
      else if i < SCREEN_SIZE - ROW_SIZE then mem[i + ROW_SIZE]
      else NUL)
  }

  /** What handle_scroll() leaves. */
  function ScrolledAway(mem: seq<byte>): (r: Screen)
    requires |mem| == SCREEN_SIZE
    ensures OnScreen(r) && CursorCell(r) == CELLS - NUM_COLS
  {
    Screen(Scrolled(mem), 0, NUM_ROWS - 1)
  }

  function Poke(mem: seq<byte>, cell: nat, c: byte, attr: byte): (r: seq<byte>)
    requires |mem| == SCREEN_SIZE && cell < CELLS
    ensures |r| == SCREEN_SIZE
  {
    mem[2 * cell := c][2 * cell + 1 := attr]
  }

  function NewLine(s: Screen): Screen
    requires OnScreen(s)
  {
    if s.row == NUM_ROWS - 1 then Screen(Scrolled(s.mem), 0, s.row)
    else Screen(s.mem, 0, s.row + 1)
  }

  /** A row is left as soon as it is full, and the last row is never quite full. */
  function Print(s: Screen, attr: byte, c: byte): Screen
    requires OnScreen(s)
  {
    if s.col < NUM_COLS - 1 then Screen(Poke(s.mem, CursorCell(s), c, attr), s.col + 1, s.row)
    else if s.row < NUM_ROWS - 1 then Screen(Poke(s.mem, CursorCell(s), c, attr), 0, s.row + 1)
    else Screen(Poke(Scrolled(s.mem), CursorCell(s) - NUM_COLS, c, attr), 0, s.row)
  }

  predicate IsBreak(c: byte) {
    c == NEWLINE || c == RETURN
  }

  /**
   What printing a tab does to the screen on display.  The driver compares the column
   with a number of rows, so it may scroll from a row that has none above it.
   */
  function Tabbed(s: Screen): Screen
    requires OnScreen(s)
  {
    var corner := s.col == NUM_COLS - 1 && s.row == NUM_ROWS - 1;
    var mem, row := if corner then Scrolled(s.mem) else s.mem, if corner then s.row - 1 else s.row;
    if s.col < NUM_ROWS - 4 then Screen(mem, s.col + 4, row)
    else if s.col < NUM_COLS - 4 then Screen(Scrolled(mem), s.col + 4, row - 1)
    else Screen(Scrolled(mem), s.col + 4 - NUM_COLS, row)
  }

  /** A hidden terminal keeps its row in an unsigned word, where row -1 reads as 20 modulo 25. */
  function TabbedHidden(s: Screen): Screen
    requires OnScreen(s)
  {
    var r := Tabbed(s);
    if r.row < 0 then r.(row := 20) else r
  }

  /** What printing a byte does; a tab does it to a shown terminal too, as long as it stays on the screen. */
  function Put(s: Screen, attr: byte, c: byte): (r: Screen)
    requires OnScreen(s)
    ensures OnScreen(r)
  {
    if c == TAB then TabbedHidden(s) else if IsBreak(c) then NewLine(s) else Print(s, attr, c)
  }

  function PutAll(s: Screen, attr: byte, bytes: seq<byte>): (r: Screen)
    requires OnScreen(s)
    ensures OnScreen(r)
  {
    if bytes == [] then s
    else Put(PutAll(s, attr, bytes[..|bytes| - 1]), attr, bytes[|bytes| - 1])
  }

  predicate TabLeavesScreen(s: Screen) {
    s.row == 0 && NUM_ROWS - 4 <= s.col < NUM_COLS - 4
  }

  /** No tab among the bytes leaves the screen. */
  predicate StaysOnScreen(s: Screen, attr: byte, bytes: seq<byte>)
    requires OnScreen(s)
  {
    forall i | 0 <= i < |bytes| && bytes[i] == TAB :: !TabLeavesScreen(PutAll(s, attr, bytes[..i]))
  }

  /** A tab keeps the cursor on the screen, and treats a hidden terminal as a shown one, exactly off the top row's middle. */
  lemma TabIsSafeIff(s: Screen)
    requires OnScreen(s)
    ensures OnScreen(Tabbed(s)) <==> !TabLeavesScreen(s)
    ensures TabbedHidden(s) == Tabbed(s) <==> !TabLeavesScreen(s)
    ensures OnScreen(TabbedHidden(s))
  {
  }

  /** A tab moves the cursor on by four cells, and everything up a row from column 21 on, and once more from the last cell. */
  lemma TabMoves(s: Screen, cell: nat)
    requires OnScreen(s) && cell < CELLS && !TabLeavesScreen(s)
    ensures var rows := (if s.col >= 21 then 1 else 0) + (if s.col == 79 && s.row == 24 then 1 else 0);
      && CursorCell(Tabbed(s)) == CursorCell(s) + 4 - 80 * rows
      && Char(Tabbed(s).mem, cell) == (if cell + 80 * rows < CELLS then Char(s.mem, cell + 80 * rows) else NUL)
      && Attr(Tabbed(s).mem, cell) == Attr(s.mem, cell)
  {
  }

  /** The screen that clear() and clear_backup() leave. */
  function Cleared(attr: byte): (r: Screen)
    ensures OnScreen(r)
  {
    Screen(seq(SCREEN_SIZE, i => if i % 2 == 0 then SPACE else attr), 0, 0)
  }

  lemma PrintCell(s: Screen, attr: byte, c: byte, cell: nat)
    requires OnScreen(s) && cell < CELLS
    ensures var scroll := CursorCell(s) == CELLS - 1;
      var at := CursorCell(s) - if scroll then NUM_COLS else 0;
      var mem := Print(s, attr, c).mem;
      && Char(mem, cell)
         == (if cell == at then c
             else if !scroll then Char(s.mem, cell)
             else if cell < CELLS - NUM_COLS then Char(s.mem, cell + NUM_COLS)
             else NUL)
      && Attr(mem, cell) == (if cell == at then attr else Attr(s.mem, cell))
  {
  }

  lemma NewLineCell(s: Screen, cell: nat)
    requires OnScreen(s) && cell < CELLS
    ensures var mem := NewLine(s).mem;
      && Char(mem, cell)
         == (if s.row != NUM_ROWS - 1 then Char(s.mem, cell)
             else if cell < CELLS - NUM_COLS then Char(s.mem, cell + NUM_COLS)
             else NUL)
      && Attr(mem, cell) == Attr(s.mem, cell)
  {
  }

  lemma {:induction false} PutAllConcat(s: Screen, attr: byte, a: seq<byte>, b: seq<byte>)
    requires OnScreen(s)
    ensures PutAll(s, attr, a + b) == PutAll(PutAll(s, attr, a), attr, b)
  {
    if b == [] {
      assert a + b == a;
    } else {
      var front := b[..|b| - 1];
      PutAllConcat(s, attr, a, front);
      assert (a + b)[..|a + b| - 1] == a + front;
    }
  }
}
