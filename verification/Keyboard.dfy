/**
 The keyboard driver as a step on what a terminal shows: each scancode edits the line
 being typed, echoes it on the screen, or changes the modifier keys.
 */
module Keyboard {
  import opened Types
  import opened TextMode

  const KEYBOARD_BUFFER_SIZE := 128
  const KEY_COUNT := 80
  const BLACK: byte := 0x07
  const BACKSPACE := 0x0E
  const TAB_KEY := 0x0F
  const ENTER := 0x1C
  const CTRL_DOWN := 0x1D
  const LETTER_L := 0x26
  const LSHIFT_DOWN := 0x2A
  const LETTER_C := 0x2E
  const RSHIFT_DOWN := 0x36
  const ALT_DOWN := 0x38
  const CAP := 0x3A
  const F1 := 0x3B
  const F2 := 0x3C
  const F3 := 0x3D
  const CTRL_UP := 0x9D
  const LSHIFT_UP := 0xAA
  const RSHIFT_UP := 0xB6
  const ALT_UP := 0xB8

  /** What one terminal shows: its screen, its line of typed keys, and whether Enter was hit. */
  datatype View = View(screen: Screen, keys: seq<byte>, len: nat, entered: bool)

  predicate Wf(v: View) {
    && OnScreen(v.screen)
    && |v.keys| == KEYBOARD_BUFFER_SIZE
    && v.len < KEYBOARD_BUFFER_SIZE
  }

  /** Bit 0 of the mode is shift, bit 1 is caps lock. */
  datatype Modifiers = Modifiers(mode: nat, caps: bool, ctrl: bool, alt: bool)

  /** What the interrupt handler does once the key is processed. */
  datatype Action = Nothing | LaunchTerm(term: nat) | Halt

  // ----- the four rows of the table of scancodes -----

  /** Neither shift nor caps lock. */
  function Plain(scode: nat): char {
    match scode
    case 0x02 => '1' case 0x03 => '2' case 0x04 => '3' case 0x05 => '4' case 0x06 => '5' case 0x07 => '6'
    case 0x08 => '7' case 0x09 => '8' case 0x0A => '9' case 0x0B => '0' case 0x0C => '-' case 0x0D => '='
    case 0x10 => 'q' case 0x11 => 'w' case 0x12 => 'e' case 0x13 => 'r' case 0x14 => 't' case 0x15 => 'y'
    case 0x16 => 'u' case 0x17 => 'i' case 0x18 => 'o' case 0x19 => 'p' case 0x1A => '[' case 0x1B => ']'
    case 0x1E => 'a' case 0x1F => 's' case 0x20 => 'd' case 0x21 => 'f' case 0x22 => 'g' case 0x23 => 'h'
    case 0x24 => 'j' case 0x25 => 'k' case 0x26 => 'l' case 0x27 => ';' case 0x28 => '\'' case 0x29 => '`'
    case 0x2B => '\\' case 0x2C => 'z' case 0x2D => 'x' case 0x2E => 'c' case 0x2F => 'v' case 0x30 => 'b'
    case 0x31 => 'n' case 0x32 => 'm' case 0x33 => ',' case 0x34 => '.' case 0x35 => '/' case 0x37 => '*'
    case 0x39 => ' ' case _ => '\0'
  }

  /** Shift. */
  function Shifted(scode: nat): char {
    match scode
    case 0x02 => '!' case 0x03 => '@' case 0x04 => '#' case 0x05 => '$' case 0x06 => '%' case 0x07 => '^'
    case 0x08 => '&' case 0x09 => '*' case 0x0A => '(' case 0x0B => ')' case 0x0C => '_' case 0x0D => '+'
    case 0x10 => 'Q' case 0x11 => 'W' case 0x12 => 'E' case 0x13 => 'R' case 0x14 => 'T' case 0x15 => 'Y'
    case 0x16 => 'U' case 0x17 => 'I' case 0x18 => 'O' case 0x19 => 'P' case 0x1A => '{' case 0x1B => '}'
    case 0x1E => 'A' case 0x1F => 'S' case 0x20 => 'D' case 0x21 => 'F' case 0x22 => 'G' case 0x23 => 'H'
    case 0x24 => 'J' case 0x25 => 'K' case 0x26 => 'L' case 0x27 => ':' case 0x28 => '"' case 0x29 => '~'
    case 0x2B => '|' case 0x2C => 'Z' case 0x2D => 'X' case 0x2E => 'C' case 0x2F => 'V' case 0x30 => 'B'
    case 0x31 => 'N' case 0x32 => 'M' case 0x33 => '<' case 0x34 => '>' case 0x35 => '?' case 0x37 => '*'
    case 0x39 => ' ' case _ => '\0'
  }

  /** Caps lock. */
  function Caps(scode: nat): char {
    match scode
    case 0x02 => '1' case 0x03 => '2' case 0x04 => '3' case 0x05 => '4' case 0x06 => '5' case 0x07 => '6'
    case 0x08 => '7' case 0x09 => '8' case 0x0A => '9' case 0x0B => '0' case 0x0C => '-' case 0x0D => '='
    case 0x10 => 'Q' case 0x11 => 'W' case 0x12 => 'E' case 0x13 => 'R' case 0x14 => 'T' case 0x15 => 'Y'
    case 0x16 => 'U' case 0x17 => 'I' case 0x18 => 'O' case 0x19 => 'P' case 0x1A => '[' case 0x1B => ']'
    case 0x1E => 'A' case 0x1F => 'S' case 0x20 => 'D' case 0x21 => 'F' case 0x22 => 'G' case 0x23 => 'H'
    case 0x24 => 'J' case 0x25 => 'K' case 0x26 => 'L' case 0x27 => ';' case 0x28 => '\'' case 0x29 => '`'
    case 0x2B => '\\' case 0x2C => 'Z' case 0x2D => 'X' case 0x2E => 'C' case 0x2F => 'V' case 0x30 => 'B'
    case 0x31 => 'N' case 0x32 => 'M' case 0x33 => ',' case 0x34 => '.' case 0x35 => '/' case 0x37 => '*'
    case 0x39 => ' ' case _ => '\0'
  }

  /** Both. */
  function ShiftedCaps(scode: nat): char {
    match scode
    case 0x02 => '!' case 0x03 => '@' case 0x04 => '#' case 0x05 => '$' case 0x06 => '%' case 0x07 => '^'
    case 0x08 => '&' case 0x09 => '*' case 0x0A => '(' case 0x0B => ')' case 0x0C => '_' case 0x0D => '+'
    case 0x10 => 'q' case 0x11 => 'w' case 0x12 => 'e' case 0x13 => 'r' case 0x14 => 't' case 0x15 => 'y'
    case 0x16 => 'u' case 0x17 => 'i' case 0x18 => 'o' case 0x19 => 'p' case 0x1A => '{' case 0x1B => '}'
    case 0x1E => 'a' case 0x1F => 's' case 0x20 => 'd' case 0x21 => 'f' case 0x22 => 'g' case 0x23 => 'h'
    case 0x24 => 'j' case 0x25 => 'k' case 0x26 => 'l' case 0x27 => ':' case 0x28 => '"' case 0x29 => '~'
    case 0x2B => '\\' case 0x2C => 'z' case 0x2D => 'x' case 0x2E => 'c' case 0x2F => 'v' case 0x30 => 'b'
    case 0x31 => 'n' case 0x32 => 'm' case 0x33 => '<' case 0x34 => '>' case 0x35 => '?' case 0x37 => '*'
    case 0x39 => ' ' case _ => '\0'
  }

  /** The byte that a key types, or NUL. */
  function ScancodeMap(mode: nat, scode: nat): (c: byte)
    requires mode < 4
    ensures c != TAB && !IsBreak(c)
  {
    var c := if mode == 0 then Plain(scode) else if mode == 1 then Shifted(scode)
             else if mode == 2 then Caps(scode) else ShiftedCaps(scode);
    if ' ' <= c <= '~' then c as int else NUL
  }

  predicate IsShifted(mode: nat) {
    mode % 2 == 1
  }

  /** The last place up to an offset where a byte is stored, or -1. */
  function LastByte(mem: seq<byte>, at: int, c: byte): (r: int)
    requires -1 <= at < |mem|
    ensures -1 <= r <= at && (r >= 0 ==> mem[r] == c)
    ensures forall i | r < i <= at :: mem[i] != c
  {
    if at < 0 then -1 else if mem[at] == c then at else LastByte(mem, at - 1, c)
  }

  /** Where the search for the end of the line above stops: at the character before the newline. */
  function LineEnd(v: View): int
    requires Wf(v) && v.len > 1
  {
    LastByte(v.screen.mem, 2 * CursorCell(v.screen), v.keys[v.len - 2])
  }

  /** A backspace stays on the screen: there are four cells to go back over a tab, a row to go up over an
      empty line, and a character to go back to over the end of any other. */
  predicate Erasable(v: View)
    requires Wf(v)
  {
    CursorCell(v.screen) == 0 || v.len == 0 ||
    (if v.keys[v.len - 1] == TAB then CursorCell(v.screen) >= 4
     else if v.keys[v.len - 1] != NEWLINE then true
     else v.len > 1 && if v.keys[v.len - 2] == NEWLINE then CursorCell(v.screen) >= NUM_COLS
                       else LineEnd(v) % 2 == 0 && LineEnd(v) < SCREEN_SIZE - 2)
  }

  /** The scancodes that the driver handles without leaving its memory. */
  predicate Handled(v: View, code: nat)
    requires Wf(v)
  {
    0 < code < 0x100 && (code == BACKSPACE ==> Erasable(v))
  }

  /** clear_keyboard_buffer() writes one NUL more than the line is long. */
  function ClearedKeys(keys: seq<byte>, len: nat): (r: seq<byte>)
    ensures |r| == |keys|
  {
    seq(|keys|, i requires 0 <= i < |keys| => if i <= len then NUL else keys[i])
  }

  /** Only an ordinary character is wiped out; over a tab or a newline the cursor just goes back. */
  function ErasedScreen(v: View, attr: byte): (r: Screen)
    requires Wf(v) && Erasable(v) && CursorCell(v.screen) > 0 && v.len > 0
    ensures OnScreen(r)
  {
    var s := v.screen;
    if v.keys[v.len - 1] == TAB then AtCell(s.mem, CursorCell(s) - 4)
    else if v.keys[v.len - 1] != NEWLINE then AtCell(Poke(s.mem, CursorCell(s) - 1, NUL, attr), CursorCell(s) - 1)
    else if v.keys[v.len - 2] == NEWLINE then AtCell(s.mem, CursorCell(s) - NUM_COLS)
    else AtCell(s.mem, LineEnd(v) / 2 + 1)
  }

  function Erase(v: View, attr: byte): (r: View)
    requires Wf(v) && Erasable(v)
    ensures Wf(r)
  {
    if CursorCell(v.screen) == 0 || v.len == 0 then v
    else v.(screen := ErasedScreen(v, attr), keys := v.keys[v.len - 1 := NUL], len := v.len - 1)
  }

  function Typed(v: View, attr: byte, c: byte): (r: View)
    requires Wf(v) && c != TAB
    ensures Wf(r)
  {
    if v.len == KEYBOARD_BUFFER_SIZE - 1 then v
    else v.(screen := Put(v.screen, attr, c), keys := v.keys[v.len := c], len := v.len + 1)
  }

  function Entered(v: View): (r: View)
    requires Wf(v)
  {
    v.(screen := NewLine(v.screen), keys := v.keys[v.len := NEWLINE], len := v.len + 1, entered := true)
  }

  /** One of the four blanks of handle_tab(), which also scrolls at cell 1000: it takes the number of
      cells for the number of bytes. */
  function BlankCell(s: Screen): (r: Screen)
    requires OnScreen(s)
    ensures OnScreen(r)
  {
    var t := if CursorCell(s) == CELLS / 2 then ScrolledAway(s.mem) else s;
    var mem := Poke(t.mem, CursorCell(t), SPACE, BLACK);
    if CursorCell(t) == CELLS - 1 then ScrolledAway(mem) else AtCell(mem, CursorCell(t) + 1)
  }

  function BlankCells(s: Screen, n: nat): (r: Screen)
    requires OnScreen(s)
    ensures OnScreen(r)
  {
    if n == 0 then s else BlankCell(BlankCells(s, n - 1))
  }

  /** The Tab key moves the cursor on by four cells, unless it writes a cell in the middle of the screen
      or the last one. */
  lemma TabKeyScrollsIff(s: Screen)
    requires OnScreen(s)
    ensures CursorCell(BlankCells(s, 4)) == CursorCell(s) + 4
       <==> !(CELLS / 2 - 4 < CursorCell(s) <= CELLS / 2 || CursorCell(s) >= CELLS - 4)
  {
    var one, two := BlankCell(s), BlankCell(BlankCell(s));
    assert BlankCells(s, 1) == one && BlankCells(s, 2) == two;
    assert BlankCells(s, 4) == BlankCell(BlankCell(two));
  }

  function TabTyped(v: View): (r: View)
    requires Wf(v)
  {
    v.(screen := BlankCells(v.screen, 4), keys := v.keys[v.len := TAB], len := v.len + 1)
  }

  function Wiped(v: View, attr: byte): (r: View)
    requires Wf(v)
    ensures Wf(r)
  {
    v.(screen := Cleared(attr), keys := ClearedKeys(v.keys, v.len), len := 0)
  }

  function KeyUp(m: Modifiers, code: nat): Modifiers {
    if code == LSHIFT_UP || code == RSHIFT_UP then
      if m.mode == 2 || m.mode == 0 then m else m.(mode := if m.mode == 3 then 2 else 0)
    else if code == CTRL_UP then m.(ctrl := false)
    else if code == ALT_UP then m.(alt := false)
    else m
  }

  /** How a scancode changes the modifiers. */
  function KeyModifiers(m: Modifiers, code: nat): Modifiers {
    if code >= KEY_COUNT then KeyUp(m, code)
    else if code == CAP then
      if m.caps then m.(caps := false, mode := if m.mode == 2 then 0 else 1)
      else m.(caps := true, mode := if m.mode == 0 then 2 else 3)
    else if code == LSHIFT_DOWN || code == RSHIFT_DOWN then
      if IsShifted(m.mode) then m else m.(mode := if m.mode == 2 then 3 else 1)
    else if code == ALT_DOWN then m.(alt := true)
    else if code == CTRL_DOWN then m.(ctrl := true)
    else if (code == LETTER_L || code == LETTER_C) && m.ctrl then m.(ctrl := false)
    else m
  }

  function KeyAction(m: Modifiers, code: nat): Action {
    if F1 <= code <= F3 && m.alt then LaunchTerm(code - F1)
    else if code == LETTER_C && m.ctrl then Halt
    else Nothing
  }

  predicate IsModifier(code: nat) {
    code in {CAP, LSHIFT_DOWN, RSHIFT_DOWN, ALT_DOWN, CTRL_DOWN, F1, F2, F3}
  }

  /** The keys that put a character into the line. */
  predicate Prints(m: Modifiers, code: nat) {
    && code < KEY_COUNT
    && code !in {BACKSPACE, TAB_KEY, ENTER} && !IsModifier(code)
    && !(m.ctrl && (code == LETTER_L || code == LETTER_C))
  }

  /** Enter and Tab do not stop at 127 characters. */
  predicate FitsLine(v: View, code: nat) {
    code == ENTER || code == TAB_KEY ==> v.len < KEYBOARD_BUFFER_SIZE - 1
  }

  /** How a scancode changes the terminal on display. */
  function KeyView(m: Modifiers, v: View, attr: byte, code: nat): (r: View)
    requires m.mode < 4 && Wf(v) && Handled(v, code)
    ensures FitsLine(v, code) ==> Wf(r)
  {
    if code == BACKSPACE then Erase(v, attr)
    else if code == TAB_KEY then TabTyped(v)
    else if code == ENTER then Entered(v)
    else if code == LETTER_L && m.ctrl then Wiped(v, attr)
    else if Prints(m, code) then Typed(v, attr, ScancodeMap(m.mode, code))
    else v
  }

  /** A key leaves a line of at most 127 characters, unless it is Enter or Tab on a line that has as many. */
  lemma KeyKeepsWfIff(m: Modifiers, v: View, attr: byte, code: nat)
    requires m.mode < 4 && Wf(v) && Handled(v, code)
    ensures Wf(KeyView(m, v, attr, code)) <==> !(code in {ENTER, TAB_KEY} && v.len == KEYBOARD_BUFFER_SIZE - 1)
  {
  }

  lemma ModifierKeepsView(m: Modifiers, v: View, attr: byte, code: nat)
    requires m.mode < 4 && Wf(v) && Handled(v, code) && (IsModifier(code) || (code == LETTER_C && m.ctrl))
    ensures KeyView(m, v, attr, code) == v
  {
  }

  lemma EditKeepsModes(m: Modifiers, code: nat)
    requires code < KEY_COUNT && !IsModifier(code) && !(code == LETTER_C && m.ctrl)
    ensures KeyModifiers(m, code) == m.(ctrl := m.ctrl && code != LETTER_L) && KeyAction(m, code) == Nothing
  {
  }

  /** What terminal_read() leaves of the terminal on display: an empty line. */
  function Consumed(v: View): (r: View)
    requires Wf(v)
    ensures Wf(r)
  {
    v.(keys := ClearedKeys(v.keys, v.len), len := 0, entered := false)
  }

  /** What it delivers to a program that asks for n bytes. */
  function Delivered(v: View, n: nat): seq<byte>
    requires Wf(v)
  {
    v.keys[..if n < v.len then n else v.len]
  }
}
