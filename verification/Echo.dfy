/**
 Typing a line: the key buffer is the stack-like edit of the keys, and the cells just
 before the cursor show it, however often the line wraps and the screen scrolls.
 */
module Echo {
  import opened Types
  import opened TextMode
  import opened Keyboard

  /** Keys typed while a line is open. */
  predicate Typing(code: nat) {
    0 < code < 0x100 && code != TAB_KEY && code != ENTER
  }

  /** The line as a stack of at most 127 characters, without screen or buffer. */
  function Edit(m: Modifiers, line: seq<byte>, code: nat): seq<byte>
    requires m.mode < 4
  {
    if code == BACKSPACE then
      if line == [] then [] else line[..|line| - 1]
    else if code == LETTER_L && m.ctrl then []
    else if Prints(m, code) && |line| < KEYBOARD_BUFFER_SIZE - 1 then line + [ScancodeMap(m.mode, code)]
    else line
  }

  function ModifiersAfter(m: Modifiers, codes: seq<nat>): (r: Modifiers)
    ensures m.mode < 4 ==> r.mode < 4
  {
    if codes == [] then m
    else KeyModifiers(ModifiersAfter(m, codes[..|codes| - 1]), codes[|codes| - 1])
  }

  function EditAll(m: Modifiers, codes: seq<nat>): seq<byte>
    requires m.mode < 4
  {
    if codes == [] then []
    else
      var front := codes[..|codes| - 1];
      Edit(ModifiersAfter(m, front), EditAll(m, front), codes[|codes| - 1])
  }

  /** The open line holds no newline and no tab. */
  ghost predicate PlainLine(v: View) {
    Wf(v) && forall i: nat | i < v.len :: v.keys[i] != TAB && v.keys[i] != NEWLINE
  }

  /** A run of keys that stays on the open line of one terminal: none of them switches terminals or halts the program. */
  predicate TypingRun(m: Modifiers, codes: seq<nat>) {
    forall i | 0 <= i < |codes| :: Typing(codes[i]) && KeyAction(ModifiersAfter(m, codes[..i]), codes[i]) == Nothing
  }

  lemma FrontIsTyping(m: Modifiers, codes: seq<nat>)
    requires TypingRun(m, codes) && codes != []
    ensures Typing(codes[|codes| - 1]) && TypingRun(m, codes[..|codes| - 1])
  {
    var front := codes[..|codes| - 1];
    forall i | 0 <= i < |front| ensures KeyAction(ModifiersAfter(m, front[..i]), front[i]) == Nothing && Typing(front[i]) {
      assert front[..i] == codes[..i];
    }
  }

  /** The terminal on display after a run of keys. */
  ghost function TypeAll(m: Modifiers, v: View, attr: byte, codes: seq<nat>): (r: View)
    requires m.mode < 4 && PlainLine(v) && TypingRun(m, codes)
    ensures PlainLine(r)
    decreases codes
  {
    if codes == [] then v
    else
      FrontIsTyping(m, codes);
      var front, code := codes[..|codes| - 1], codes[|codes| - 1];
      KeyView(ModifiersAfter(m, front), TypeAll(m, v, attr, front), attr, code)
  }

  /** The cells just before the cursor show the line, and the rest of the buffer is clear. */
  ghost predicate Echoes(v: View) {
    && Wf(v)
    && v.len <= CursorCell(v.screen)
    && (forall i: nat | i < v.len :: Char(v.screen.mem, CursorCell(v.screen) - v.len + i) == v.keys[i])
    && (forall i: nat | v.len <= i < KEYBOARD_BUFFER_SIZE :: v.keys[i] == NUL)
  }

  lemma TypedEchoes(v: View, attr: byte, c: byte)
    requires Echoes(v) && c != TAB && !IsBreak(c)
    ensures Echoes(Typed(v, attr, c))
  {
    var w := Typed(v, attr, c);
    var at := CursorCell(w.screen);
    if w != v {
      forall i: nat | i < w.len
        ensures Char(w.screen.mem, at - w.len + i) == w.keys[i]
      {
        PrintCell(v.screen, attr, c, at - w.len + i);
      }
    }
  }

  lemma EraseEchoes(v: View, attr: byte)
    requires Echoes(v) && PlainLine(v)
    ensures Echoes(Erase(v, attr))
    ensures v.len > 0 ==> Erase(v, attr).len == v.len - 1
  {
    var w := Erase(v, attr);
    var at := CursorCell(w.screen);
    if w != v {
      forall i: nat | i < w.len
        ensures Char(w.screen.mem, at - w.len + i) == w.keys[i]
      {
        assert Char(v.screen.mem, at + 1 - v.len + i) == v.keys[i];
      }
    }
  }

  /** Any run of keys on an empty line leaves exactly the edited line, in the buffer and on the screen. */
  lemma {:induction false} TypingEchoes(m: Modifiers, v: View, attr: byte, codes: seq<nat>)
    requires m.mode < 4 && Echoes(v) && v.len == 0 && TypingRun(m, codes)
    ensures PlainLine(v)
    ensures var w := TypeAll(m, v, attr, codes);
      && Echoes(w)
      && w.len <= 127
      && w.keys[..w.len] == EditAll(m, codes)
    decreases codes
  {
    if codes != [] {
      FrontIsTyping(m, codes);
      var front, code := codes[..|codes| - 1], codes[|codes| - 1];
      TypingEchoes(m, v, attr, front);
      KeyEchoes(ModifiersAfter(m, front), TypeAll(m, v, attr, front), attr, code);
    }
  }

  /** A backspace over a character leaves a NUL in the terminal's colour under the cursor, and every other cell as it
      was; over a tab the cursor goes back four cells, over an empty line a row, and over the end of any other line
      to behind the last place where its last character is. */
  lemma EraseShows(v: View, attr: byte)
    requires Wf(v) && Erasable(v) && CursorCell(v.screen) > 0 && v.len > 0
    ensures var last, s, t := v.keys[v.len - 1], v.screen, Erase(v, attr).screen;
      if last == TAB then t.mem == s.mem && CursorCell(t) == CursorCell(s) - 4
      else if last != NEWLINE then
        && CursorCell(t) == CursorCell(s) - 1
        && Char(t.mem, CursorCell(t)) == 0 && Attr(t.mem, CursorCell(t)) == attr
        && forall cell: nat | cell < CELLS && cell != CursorCell(t) ::
             Char(t.mem, cell) == Char(s.mem, cell) && Attr(t.mem, cell) == Attr(s.mem, cell)
      else
        && t.mem == s.mem && v.len > 1
        && if v.keys[v.len - 2] == NEWLINE then CursorCell(t) == CursorCell(s) - 80
           else
             && 0 < CursorCell(t) <= CursorCell(s) + 1
             && Char(s.mem, CursorCell(t) - 1) == v.keys[v.len - 2]
             && forall cell: nat | CursorCell(t) <= cell <= CursorCell(s) :: Char(s.mem, cell) != v.keys[v.len - 2]
  {
    if v.keys[v.len - 1] == NEWLINE && v.keys[v.len - 2] != NEWLINE {
      assert LineEnd(v) >= 0;
    }
  }

  lemma BlankShows(s: Screen, cell: nat)
    requires OnScreen(s) && cell < CELLS && CursorCell(s) < CELLS - 1 && CursorCell(s) != CELLS / 2
    ensures var t := BlankCell(s);
      && CursorCell(t) == CursorCell(s) + 1
      && (if cell == CursorCell(s) then Char(t.mem, cell) == 32 && Attr(t.mem, cell) == 7
          else Char(t.mem, cell) == Char(s.mem, cell) && Attr(t.mem, cell) == Attr(s.mem, cell))
  {
  }

  /** The Tab key writes blanks from the cursor on, as long as nothing scrolls. */
  lemma {:induction false} BlanksShow(s: Screen, n: nat, cell: nat)
    requires OnScreen(s) && cell < CELLS && CursorCell(s) + n < CELLS
    requires CursorCell(s) > CELLS / 2 || CursorCell(s) + n <= CELLS / 2
    ensures var t := BlankCells(s, n);
      && CursorCell(t) == CursorCell(s) + n
      && if CursorCell(s) <= cell < CursorCell(s) + n then Char(t.mem, cell) == 32 && Attr(t.mem, cell) == 7
         else Char(t.mem, cell) == Char(s.mem, cell) && Attr(t.mem, cell) == Attr(s.mem, cell)
    decreases n
  {
    if n > 0 {
      BlanksShow(s, n - 1, cell);
      BlankShows(BlankCells(s, n - 1), cell);
    }
  }

  /** Enter shows as a newline. */
  lemma EnterShows(v: View, attr: byte)
    requires Wf(v)
    ensures Entered(v).screen == Put(v.screen, attr, 10)
  {
  }

  lemma WipedEchoes(v: View, attr: byte)
    requires Echoes(v)
    ensures Echoes(Wiped(v, attr)) && Wiped(v, attr).len == 0
  {
  }

  lemma ErasedLine(v: View, attr: byte)
    requires PlainLine(v) && 0 < v.len <= CursorCell(v.screen)
    ensures var w := Erase(v, attr); w.keys[..w.len] == v.keys[..v.len][..v.len - 1]
  {
    var w := Erase(v, attr);
    assert w.keys[..w.len] == v.keys[..v.len - 1];
  }

  lemma TypedLine(v: View, attr: byte, c: byte)
    requires Wf(v) && c != TAB
    ensures var w := Typed(v, attr, c);
      w.keys[..w.len] == if v.len < KEYBOARD_BUFFER_SIZE - 1 then v.keys[..v.len] + [c] else v.keys[..v.len]
  {
  }

  /** The line in the buffer after a key. */
  lemma KeyEdits(m: Modifiers, v: View, attr: byte, code: nat)
    requires m.mode < 4 && PlainLine(v) && v.len <= CursorCell(v.screen) && Typing(code)
    ensures var w := KeyView(m, v, attr, code); w.keys[..w.len] == Edit(m, v.keys[..v.len], code)
  {
    if code == BACKSPACE {
      if v.len > 0 {
        ErasedLine(v, attr);
      }
    } else if Prints(m, code) {
      TypedLine(v, attr, ScancodeMap(m.mode, code));
    }
  }

  lemma KeyEchoes(m: Modifiers, v: View, attr: byte, code: nat)
    requires m.mode < 4 && Echoes(v) && PlainLine(v) && Typing(code)
    ensures var w := KeyView(m, v, attr, code);
      Echoes(w) && w.keys[..w.len] == Edit(m, v.keys[..v.len], code)
  {
    KeyEdits(m, v, attr, code);
    if code == BACKSPACE {
      EraseEchoes(v, attr);
    } else if code == LETTER_L && m.ctrl {
      WipedEchoes(v, attr);
    } else if Prints(m, code) {
      TypedEchoes(v, attr, ScancodeMap(m.mode, code));
    }
  }
}
