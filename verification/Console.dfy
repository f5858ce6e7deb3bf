/**
 The console driver: one video buffer, cursor and key buffer shared by three terminals.
 Every method is specified by the step of the multiplexer it implements.
 */
module Console {
  import opened Types
  import opened TextMode
  import opened Keyboard
  import opened Multiplexer

  /** The display half of one entry of the kernel's terminal table. */
  class Terminal {
    const termId: nat
    const vidBackup: array<byte>
    const termKeyBuf: array<byte>
    var cursorX: u32
    var cursorY: u32
    var cursorLocation: int
    var lenKeyBuf: nat
    var hasEnter: bool

    /** One round of the loop in init_term(), on an entry in zeroed memory. */
    constructor (id: nat)
      ensures Valid() && termId == id && fresh(vidBackup) && fresh(termKeyBuf)
      ensures Saved() == FreshView(id)
    {
      termId := id;
      vidBackup := new byte[SCREEN_SIZE](_ => NUL);
      termKeyBuf := new byte[KEYBOARD_BUFFER_SIZE](_ => NUL);
      cursorX, cursorY, cursorLocation, lenKeyBuf, hasEnter := 0, 0, 0, 0, false;
      new;
      Blank(vidBackup, id);
      ClearKeys(termKeyBuf, lenKeyBuf);
    }

    ghost predicate Valid()
      reads this, vidBackup, termKeyBuf
    {
      && vidBackup.Length == SCREEN_SIZE
      && termKeyBuf.Length == KEYBOARD_BUFFER_SIZE
      && cursorLocation % 2 == 0
      && Wf(Saved())
    }

    ghost function Saved(): View
      reads this, vidBackup, termKeyBuf
    {
      View(AtLocation(vidBackup[..], cursorLocation), termKeyBuf[..], lenKeyBuf, hasEnter)
    }

    /** What save_term_info() does to this entry before interrupts come on. */
    method SaveCursor(x: int, y: int, location: int, len: nat)
      requires Valid() && location % 2 == 0 && 0 <= location < SCREEN_SIZE && len < KEYBOARD_BUFFER_SIZE
      modifies this`cursorX, this`cursorY, this`cursorLocation, this`lenKeyBuf, termKeyBuf
      ensures Valid()
      ensures Saved() == old(Saved()).(screen := AtLocation(vidBackup[..], location),
                                       keys := ClearedKeys(old(termKeyBuf[..]), len), len := 0)
    {
      cursorX := Unsigned(x);
      cursorY := Unsigned(y);
      cursorLocation := location;
      lenKeyBuf := len;
      ClearKeys(termKeyBuf, lenKeyBuf);
      lenKeyBuf := 0;
    }

    /** And after that: the copies. */
    method SaveCopies(len: nat, video: array<byte>, keys: array<byte>)
      requires Valid() && len < KEYBOARD_BUFFER_SIZE
      requires video != vidBackup && video.Length == SCREEN_SIZE
      requires keys != termKeyBuf && keys.Length == KEYBOARD_BUFFER_SIZE
      modifies this`lenKeyBuf, vidBackup, termKeyBuf
      ensures Valid()
      ensures Saved() == View(WithCursor(Screen(video[..], 0, 0), old(Saved()).screen), keys[..], len, hasEnter)
    {
      Copy(vidBackup, video);
      Copy(termKeyBuf, keys);
      lenKeyBuf := len;
    }

    /** The tab case of putc_term(), once the cursor is off the last cell. */
    method MoveToTabStop()
      requires cursorX < NUM_COLS && cursorY < NUM_ROWS && vidBackup.Length == SCREEN_SIZE
      requires !(cursorX == NUM_COLS - 1 && cursorY == NUM_ROWS - 1)
      modifies this`cursorX, this`cursorY, vidBackup
      ensures Screen(vidBackup[..], cursorX, cursorY) == TabbedHidden(Screen(old(vidBackup[..]), old(cursorX), old(cursorY)))
    {
      if cursorX >= NUM_ROWS - 4 {
        ScrollUp(vidBackup);
        cursorY := Add32(cursorY, 0xFFFF_FFFF);
      }
      ColumnAfterTab(cursorX);
      cursorX := cursorX + 4;
      AddRow(cursorY, cursorX / NUM_COLS);
      cursorY := Add32(cursorY, cursorX / NUM_COLS) % NUM_ROWS;
      cursorX := cursorX % NUM_COLS;
    }

    /** The case of putc_term() for a character with a cell of its own, once the cursor is off the last cell. */
    method PutCharacter(c: byte)
      requires cursorX < NUM_COLS && cursorY < NUM_ROWS && vidBackup.Length == SCREEN_SIZE
      requires !(cursorX == NUM_COLS - 1 && cursorY == NUM_ROWS - 1)
      modifies this`cursorX, this`cursorY, vidBackup
      ensures vidBackup[..] == Poke(old(vidBackup[..]), NUM_COLS * old(cursorY) + old(cursorX), c, Attribute(termId))
      ensures if old(cursorX) == NUM_COLS - 1 then cursorX == 0 && cursorY == old(cursorY) + 1
              else cursorX == old(cursorX) + 1 && cursorY == old(cursorY)
    {
      PokeCell(vidBackup, NUM_COLS * cursorY + cursorX, c, Attribute(termId));
      cursorX := cursorX + 1;
      cursorY := (cursorY + cursorX / NUM_COLS) % NUM_ROWS;
      cursorX := cursorX % NUM_COLS;
    }

    /** putc_term() between finding row and column and storing them back as a location. */
    method PutAtCursor(c: byte)
      requires cursorX < NUM_COLS && cursorY < NUM_ROWS && vidBackup.Length == SCREEN_SIZE
      modifies this`cursorX, this`cursorY, vidBackup
      ensures Screen(vidBackup[..], cursorX, cursorY)
           == Put(Screen(old(vidBackup[..]), old(cursorX), old(cursorY)), Attribute(termId), c)
    {
      if cursorX == NUM_COLS - 1 && cursorY == NUM_ROWS - 1 {
        ScrollUp(vidBackup);
        cursorY := cursorY - 1;
      }
      if c == NEWLINE || c == RETURN {
        if cursorY == NUM_ROWS - 1 {
          ScrollUp(vidBackup);
          cursorY := cursorY - 1;
        }
        cursorY := cursorY + 1;
        cursorX := 0;
      } else if c == TAB {
        MoveToTabStop();
      } else {
        PutCharacter(c);
      }
    }

    /** putc_term(), which does the same to a saved copy, with unsigned rows and columns. */
    method PutcTerm(c: byte)
      requires Valid()
      modifies this`cursorX, this`cursorY, this`cursorLocation, vidBackup
      ensures Valid()
      ensures Saved().screen == Put(old(Saved()).screen, Attribute(termId), c)
    {
      cursorX := cursorLocation % (NUM_COLS * 2) / 2;
      cursorY := cursorLocation / (NUM_COLS * 2);
      PutAtCursor(c);
      cursorLocation := 2 * (cursorX + cursorY * NUM_COLS);
      LocationOf(vidBackup[..], cursorX, cursorY);
    }

    /** The loop of terminal_write() on a hidden terminal. */
    method PutcTermEach(buf: array<byte>, n: nat)
      requires Valid()
      requires n <= buf.Length && buf != vidBackup
      modifies this`cursorX, this`cursorY, this`cursorLocation, vidBackup
      ensures Valid()
      ensures Saved() == Written(old(Saved()), termId, buf[..n])
    {
      for i := 0 to n
        invariant Valid()
        invariant Saved().screen == PutAll(old(Saved()).screen, Attribute(termId), buf[..i])
      {
        assert buf[..i + 1][..i] == buf[..i];
        PutcTerm(buf[i]);
      }
    }
  }

  /** Column and carry of a cursor moved on by a tab. */
  lemma ColumnAfterTab(x: int)
    requires 0 <= x < NUM_COLS
    ensures (x + 4) / NUM_COLS == (if x < NUM_COLS - 4 then 0 else 1)
    ensures (x + 4) % NUM_COLS == if x < NUM_COLS - 4 then x + 4 else x + 4 - NUM_COLS
  {
  }

  /** The row stays as it is unless it is one above the screen and carried. */
  lemma RowAfterTab(y: int, carry: int)
    requires -1 <= y && 0 <= carry && y + carry < NUM_ROWS
    ensures Rem(y + carry, NUM_ROWS) == y + carry
  {
  }

  lemma AddRow(row: u32, carry: u32)
    requires carry <= 1
    ensures row + carry < NUM_ROWS ==> Add32(row, carry) % NUM_ROWS == row + carry
    ensures row == 0xFFFF_FFFF ==> Add32(row, carry) % NUM_ROWS == if carry == 1 then 0 else 20
  {
  }

  /** The first of the two loops of scroll(), scroll_term() and handle_scroll(): every row but the first moves up. */
  method RowsUp(buf: array<byte>)
    requires buf.Length == SCREEN_SIZE
    modifies buf
    ensures forall j | 0 <= j < SCREEN_SIZE ::
              buf[j] == if j % 2 == 0 && j < SCREEN_SIZE - ROW_SIZE then old(buf[j + ROW_SIZE]) else old(buf[j])
  {
    var i := ROW_SIZE;
    while i < SCREEN_SIZE
      invariant ROW_SIZE <= i <= SCREEN_SIZE && i % 2 == 0
      invariant forall j | 0 <= j < SCREEN_SIZE ::
                  buf[j] == if j % 2 == 0 && j < i - ROW_SIZE then old(buf[j + ROW_SIZE]) else old(buf[j])
    {
      buf[i - ROW_SIZE] := buf[i];
      i := i + 2;
    }
  }

  /** Both loops, on one buffer. */
  method ScrollUp(buf: array<byte>)
    requires buf.Length == SCREEN_SIZE
    modifies buf
    ensures buf[..] == Scrolled(old(buf[..]))
  {
    RowsUp(buf);
    var i := SCREEN_SIZE - ROW_SIZE;
    while i < SCREEN_SIZE
      invariant SCREEN_SIZE - ROW_SIZE <= i <= SCREEN_SIZE && i % 2 == 0
      invariant forall j | 0 <= j < SCREEN_SIZE ::
                  buf[j] == if j % 2 == 1 then old(buf[j])
                            else if j < SCREEN_SIZE - ROW_SIZE then old(buf[j + ROW_SIZE])
                            else if j < i then NUL else old(buf[j])
    {
      buf[i] := NUL;
      i := i + 2;
    }
  }

  /** The two stores of a character and its colour. */
  method PokeCell(buf: array<byte>, cell: nat, c: byte, attr: byte)
    requires buf.Length == SCREEN_SIZE && cell < CELLS
    modifies buf
    ensures buf[..] == Poke(old(buf[..]), cell, c, attr)
  {
    buf[2 * cell] := c;
    buf[2 * cell + 1] := attr;
  }

  /** The loop of clear() and clear_backup(): blanks in one terminal's colour. */
  method Blank(buf: array<byte>, term: nat)
    requires buf.Length == SCREEN_SIZE
    modifies buf
    ensures buf[..] == Cleared(Attribute(term)).mem
  {
    for i := 0 to CELLS
      invariant forall j | 0 <= j < 2 * i :: buf[j] == if j % 2 == 0 then SPACE else Attribute(term)
    {
      buf[2 * i] := SPACE;
      buf[2 * i + 1] := Attribute(term);
    }
  }

  /** The loop of clear_keyboard_buffer() and clear_keyboard_backup(). */
  method ClearKeys(buf: array<byte>, len: nat)
    requires len < buf.Length
    modifies buf
    ensures buf[..] == ClearedKeys(old(buf[..]), len)
  {
    for i := 0 to len + 1
      invariant forall j | 0 <= j < buf.Length :: buf[j] == if j < i then NUL else old(buf[j])
    {
      buf[i] := NUL;
    }
  }

  /** memcpy() between two buffers of the console. */
  method Copy(dst: array<byte>, src: array<byte>)
    requires dst != src && dst.Length == src.Length
    modifies dst
    ensures dst[..] == src[..]
  {
    for i := 0 to src.Length
      invariant dst[..i] == src[..i]
    {
      dst[i] := src[i];
    }
  }

  /** The loop of terminal_read(), and the count that it returns, compared as an unsigned word. */
  method CopyLine(dst: array<byte>, nbytes: int, src: array<byte>, len: nat) returns (r: int)
    requires nbytes <= dst.Length && len <= src.Length && dst != src
    requires -0x8000_0000 <= nbytes < 0x8000_0000 && len < 0x8000_0000
    modifies dst
    ensures r == if nbytes < 0 || len < nbytes then len else nbytes
    ensures if nbytes < 0 then dst[..] == old(dst[..]) else dst[..] == src[..r] + old(dst[r..])
  {
    var i := 0;
    while i < nbytes
      invariant 0 <= i && (i <= nbytes || i == 0)
      invariant forall j | 0 <= j < dst.Length :: dst[j] == if j < i && j < len then src[j] else old(dst[j])
    {
      if i < len {
        dst[i] := src[i];
      }
      i := i + 1;
    }
    r := if len < Unsigned(nbytes) then len else i;
  }

  class Console {
    const video: array<byte>
    const keyboardBuffer: array<byte>
    const term: seq<Terminal>
    var currTerm: nat
    var currentLocation: int
    var screenX: int
    var screenY: int
    var lengthKey: nat
    var keyMode: nat
    var capOn: bool
    var ctrlPressed: bool
    var altPressed: bool

    /** Buffers and terminals are separate storage. */
    ghost predicate Apart() {
      && video.Length == SCREEN_SIZE
      && keyboardBuffer.Length == KEYBOARD_BUFFER_SIZE
      && |term| == NUM_TERMS
      && (forall t | 0 <= t < NUM_TERMS ::
            && term[t].termId == t
            && term[t].vidBackup.Length == SCREEN_SIZE
            && term[t].termKeyBuf.Length == KEYBOARD_BUFFER_SIZE
            && term[t].vidBackup != video
            && term[t].termKeyBuf != keyboardBuffer)
      && (forall t, u | 0 <= t < u < NUM_TERMS ::
            && term[t] != term[u]
            && term[t].vidBackup != term[u].vidBackup
            && term[t].termKeyBuf != term[u].termKeyBuf)
    }

    ghost function Buffers(): set<object>
      requires Apart()
    {
      {video, keyboardBuffer}
      + {term[0].vidBackup, term[1].vidBackup, term[2].vidBackup}
      + {term[0].termKeyBuf, term[1].termKeyBuf, term[2].termKeyBuf}
    }

    ghost function Repr(): set<object>
      requires Apart()
    {
      {this, term[0], term[1], term[2]} + Buffers()
    }

    /** The shared buffers as the view of one terminal. */
    ghost function LiveAs(t: nat): View
      requires Apart() && t < NUM_TERMS
      reads this, term[t], video, keyboardBuffer
    {
      View(AtLocation(video[..], currentLocation), keyboardBuffer[..], lengthKey, term[t].hasEnter)
    }

    ghost predicate ValidAs(t: nat)
      requires Apart()
      reads Repr()
    {
      && t < NUM_TERMS
      && keyMode < 4
      && currentLocation % 2 == 0
      && Wf(LiveAs(t))
      && (forall u | 0 <= u < NUM_TERMS :: term[u].Valid())
    }

    /** The multiplexer this console represents while terminal t is on display. */
    ghost function ModelAs(t: nat): (m: Mux)
      requires Apart() && ValidAs(t)
      reads Repr()
      ensures MuxOk(m)
    {
      Mux(Modifiers(keyMode, capOn, ctrlPressed, altPressed), t, LiveAs(t),
          [term[0].Saved(), term[1].Saved(), term[2].Saved()])
    }

    ghost predicate Valid()
      requires Apart()
      reads Repr()
    {
      ValidAs(currTerm)
    }

    ghost function Model(): (m: Mux)
      requires Apart() && Valid()
      reads Repr()
      ensures MuxOk(m)
    {
      ModelAs(currTerm)
    }

    /** What the console stands for depends on nothing else. */
    twostate lemma Unchanged()
      requires Apart() && old(Valid()) && unchanged(Repr())
      ensures Valid() && Model() == old(Model())
    {
    }

    /** The tab case of putc(), once the cursor is off the last cell. */
    method MoveToTabStop()
      requires 0 <= screenX < NUM_COLS && 0 <= screenY < NUM_ROWS && video.Length == SCREEN_SIZE
      requires !(screenX == NUM_COLS - 1 && screenY == NUM_ROWS - 1)
      modifies this`screenX, this`screenY, video
      ensures Screen(video[..], screenX, screenY) == Tabbed(Screen(old(video[..]), old(screenX), old(screenY)))
    {
      if screenX >= NUM_ROWS - 4 {
        ScrollUp(video);
        screenY := screenY - 1;
      }
      ColumnAfterTab(screenX);
      screenX := screenX + 4;
      RowAfterTab(screenY, screenX / NUM_COLS);
      screenY := Rem(screenY + screenX / NUM_COLS, NUM_ROWS);
      screenX := screenX % NUM_COLS;
    }

    /** The case of putc() for a character with a cell of its own, once the cursor is off the last cell. */
    method PutCharacter(c: byte)
      requires 0 <= screenX < NUM_COLS && 0 <= screenY < NUM_ROWS && video.Length == SCREEN_SIZE
      requires !(screenX == NUM_COLS - 1 && screenY == NUM_ROWS - 1)
      modifies this`screenX, this`screenY, video
      ensures video[..] == Poke(old(video[..]), NUM_COLS * old(screenY) + old(screenX), c, Attribute(currTerm))
      ensures if old(screenX) == NUM_COLS - 1 then screenX == 0 && screenY == old(screenY) + 1
              else screenX == old(screenX) + 1 && screenY == old(screenY)
    {
      PokeCell(video, NUM_COLS * screenY + screenX, c, Attribute(currTerm));
      screenX := screenX + 1;
      screenY := (screenY + screenX / NUM_COLS) % NUM_ROWS;
      screenX := screenX % NUM_COLS;
    }

    /** putc() between finding row and column and storing them back as a location. */
    method PutAtCursor(c: byte)
      requires 0 <= screenX < NUM_COLS && 0 <= screenY < NUM_ROWS && video.Length == SCREEN_SIZE
      modifies this`screenX, this`screenY, video
      ensures Screen(video[..], screenX, screenY)
           == if c == TAB then Tabbed(Screen(old(video[..]), old(screenX), old(screenY)))
              else Put(Screen(old(video[..]), old(screenX), old(screenY)), Attribute(currTerm), c)
    {
      if screenX == NUM_COLS - 1 && screenY == NUM_ROWS - 1 {
        ScrollUp(video);
        screenY := screenY - 1;
      }
      if c == NEWLINE || c == RETURN {
        if screenY == NUM_ROWS - 1 {
          ScrollUp(video);
          screenY := screenY - 1;
        }
        screenY := screenY + 1;
        screenX := 0;
      } else if c == TAB {
        MoveToTabStop();
      } else {
        PutCharacter(c);
      }
    }

    /** putc(); a tab may leave the screen. */
    method Putc(c: byte)
      requires Apart() && Valid()
      modifies this`currentLocation, this`screenX, this`screenY, video
      ensures Valid() <==> !(c == TAB && TabLeavesScreen(old(LiveAs(currTerm)).screen))
      ensures AtLocation(video[..], currentLocation)
           == if c == TAB then Tabbed(old(LiveAs(currTerm)).screen)
              else Put(old(LiveAs(currTerm)).screen, Attribute(currTerm), c)
    {
      screenX := currentLocation % (NUM_COLS * 2) / 2;
      screenY := currentLocation / (NUM_COLS * 2);
      PutAtCursor(c);
      currentLocation := 2 * (screenX + screenY * NUM_COLS);
      LocationOf(video[..], screenX, screenY);
    }

    /** clear() */
    method Clear()
      requires Apart() && Valid()
      modifies this`currentLocation, this`screenX, this`screenY, video
      ensures Valid()
      ensures LiveAs(currTerm) == old(LiveAs(currTerm)).(screen := Cleared(Attribute(currTerm)))
    {
      Blank(video, currTerm);
      screenX := 0;
      screenY := 0;
      currentLocation := 0;
    }

    /** clear_keyboard_buffer() while terminal t is on display. */
    method ClearLine(t: nat)
      requires Apart() && ValidAs(t)
      modifies this`lengthKey, keyboardBuffer
      ensures ValidAs(t)
      ensures LiveAs(t) == old(LiveAs(t)).(keys := ClearedKeys(old(keyboardBuffer[..]), old(lengthKey)), len := 0)
      ensures forall u | 0 <= u < NUM_TERMS :: term[u].Saved() == old(term[u].Saved())
    {
      ClearKeys(keyboardBuffer, lengthKey);
      lengthKey := 0;
    }

    /** The loop of terminal_write() on the terminal that is shown. */
    method PutcEach(buf: array<byte>, n: nat)
      requires Apart() && Valid()
      requires n <= buf.Length && buf != video
      requires StaysOnScreen(LiveAs(currTerm).screen, Attribute(currTerm), buf[..n])
      modifies this`currentLocation, this`screenX, this`screenY, video
      ensures Valid()
      ensures AtLocation(video[..], currentLocation)
           == PutAll(old(LiveAs(currTerm)).screen, Attribute(currTerm), buf[..n])
    {
      for i := 0 to n
        invariant Valid()
        invariant AtLocation(video[..], currentLocation)
               == PutAll(old(LiveAs(currTerm)).screen, Attribute(currTerm), buf[..i])
      {
        assert buf[..i + 1][..i] == buf[..i] == buf[..n][..i] && buf[..n][i] == buf[i];
        TabIsSafeIff(LiveAs(currTerm).screen);
        Putc(buf[i]);
      }
    }

    method WriteShown(buf: array<byte>, n: nat)
      requires Apart() && Valid()
      requires n <= buf.Length && buf !in Buffers() && OpOk(Write(currTerm, buf[..n]), currTerm, LiveAs(currTerm))
      modifies this`currentLocation, this`screenX, this`screenY, video
      ensures Valid()
      ensures Model() == MuxStep(old(Model()), Write(currTerm, old(buf[..n])))
    {
      PutcEach(buf, n);
      assert forall t | 0 <= t < NUM_TERMS :: term[t].Saved() == old(term[t].Saved());
    }

    /** A write changes one saved copy and nothing else. */
    method WriteCopy(runningTerm: nat, buf: array<byte>, n: nat)
      requires Apart() && Valid() && runningTerm < NUM_TERMS && runningTerm != currTerm
      requires n <= buf.Length && buf !in Buffers()
      modifies term[runningTerm], term[runningTerm].vidBackup
      ensures Valid() && LiveAs(currTerm) == old(LiveAs(currTerm))
      ensures term[runningTerm].Saved() == Written(old(term[runningTerm].Saved()), runningTerm, old(buf[..n]))
      ensures forall t | 0 <= t < NUM_TERMS && t != runningTerm :: term[t].Saved() == old(term[t].Saved())
    {
      term[runningTerm].PutcTermEach(buf, n);
    }

    method WriteHidden(runningTerm: nat, buf: array<byte>, n: nat)
      requires Apart() && Valid() && runningTerm < NUM_TERMS && runningTerm != currTerm
      requires n <= buf.Length && buf !in Buffers()
      modifies term[runningTerm], term[runningTerm].vidBackup
      ensures Valid()
      ensures Model() == MuxStep(old(Model()), Write(runningTerm, old(buf[..n])))
    {
      WriteCopy(runningTerm, buf, n);
      SavedCopyRefines(runningTerm);
      HiddenWrite(old(Model()), runningTerm, old(buf[..n]), term[runningTerm].Saved());
    }

    /** The two states around a change of one saved copy, put together. */
    twostate lemma SavedCopyRefines(id: nat)
      requires Apart() && old(Valid()) && Valid() && id < NUM_TERMS && currTerm == old(currTerm) != id
      requires Mods() == old(Mods()) && LiveAs(currTerm) == old(LiveAs(currTerm))
      requires forall t | 0 <= t < NUM_TERMS && t != id :: term[t].Saved() == old(term[t].Saved())
      ensures Model() == old(Model()).(saved := old(Model()).saved[id := term[id].Saved()])
    {
    }

    /** terminal_write() by the running terminal, whether it is shown or hidden. */
    method TerminalWrite(runningTerm: nat, buf: array?<byte>, nbytes: int) returns (r: int)
      requires Apart() && Valid() && runningTerm < NUM_TERMS
      requires buf != null ==> nbytes <= buf.Length && buf !in Buffers()
      requires buf != null && nbytes > 0 ==> OpOk(Write(runningTerm, buf[..nbytes]), currTerm, LiveAs(currTerm))
      modifies this`currentLocation, this`screenX, this`screenY, video
      modifies term[runningTerm], term[runningTerm].vidBackup
      ensures Valid()
      ensures buf == null ==> r == -1 && Model() == old(Model())
      ensures buf != null ==>
                && r == (if nbytes < 0 then 0 else nbytes) + 1
                && Model() == MuxStep(old(Model()), Write(runningTerm, if nbytes < 0 then [] else old(buf[..nbytes])))
    {
      r := -1;
      if buf != null {
        var n := if nbytes < 0 then 0 else nbytes;
        if runningTerm == currTerm {
          WriteShown(buf, n);
        } else {
          WriteHidden(runningTerm, buf, n);
        }
        r := n + 1;
      }
    }

    /** save_term_info() up to where interrupts come on. */
    method SaveTermCursor(id: nat)
      requires Apart() && ValidAs(id)
      modifies term[id], term[id].termKeyBuf
      ensures ValidAs(id) && ModelAs(id) == SavePlace(old(ModelAs(id)))
    {
      CursorAt(LiveAs(id).screen, video[..], currentLocation);
      term[id].SaveCursor(screenX, screenY, currentLocation, lengthKey);
      assert forall t | 0 <= t < NUM_TERMS && t != id :: term[t].Saved() == old(term[t].Saved());
      PlaceRefines(id);
    }

    twostate lemma PlaceRefines(id: nat)
      requires Apart() && old(ValidAs(id)) && ValidAs(id) && Mods() == old(Mods()) && LiveAs(id) == old(LiveAs(id))
      requires forall t | 0 <= t < NUM_TERMS && t != id :: term[t].Saved() == old(term[t].Saved())
      requires term[id].Saved() == old(SavePlace(ModelAs(id))).saved[id]
      ensures ModelAs(id) == SavePlace(old(ModelAs(id)))
    {
    }

    /** The two copies of save_term_info(). */
    method CopyOut(id: nat)
      requires Apart() && ValidAs(id)
      modifies term[id], term[id].vidBackup, term[id].termKeyBuf
      ensures ValidAs(id) && LiveAs(id) == old(LiveAs(id)) && term[id].Saved() == Copied(old(ModelAs(id)))
      ensures forall t | 0 <= t < NUM_TERMS && t != id :: term[t].Saved() == old(term[t].Saved())
    {
      term[id].SaveCopies(lengthKey, video, keyboardBuffer);
    }

    /** The rest of save_term_info(). */
    method SaveTermScreen(id: nat)
      requires Apart() && ValidAs(id)
      modifies this`lengthKey, keyboardBuffer
      modifies term[id], term[id].vidBackup, term[id].termKeyBuf
      ensures ValidAs(id) && ModelAs(id) == SaveScreen(old(ModelAs(id)))
    {
      CopyOut(id);
      ClearLine(id);
      SaveRefines(id);
    }

    twostate lemma SaveRefines(id: nat)
      requires Apart() && old(ValidAs(id)) && ValidAs(id) && Mods() == old(Mods())
      requires LiveAs(id) == old(LiveAs(id)).(keys := ClearedKeys(old(keyboardBuffer[..]), old(lengthKey)), len := 0)
      requires forall t | 0 <= t < NUM_TERMS && t != id :: term[t].Saved() == old(term[t].Saved())
      requires term[id].Saved() == Copied(old(ModelAs(id)))
      ensures ModelAs(id) == SaveScreen(old(ModelAs(id)))
    {
    }

    /** save_term_info() when nothing comes in between. */
    method SaveTermInfo(id: nat)
      requires Apart() && ValidAs(id)
      modifies this`lengthKey, keyboardBuffer
      modifies term[id], term[id].vidBackup, term[id].termKeyBuf
      ensures ValidAs(id) && ModelAs(id) == SaveScreen(SavePlace(old(ModelAs(id))))
    {
      SaveTermCursor(id);
      SaveTermScreen(id);
    }

    /** restore_term_info() of terminal id while another one may still be the current terminal. */
    method RestoreTermInfo(id: nat)
      requires Apart() && Valid() && id < NUM_TERMS
      modifies this`screenX, this`screenY, this`currentLocation, this`lengthKey, video, keyboardBuffer
      ensures ValidAs(id) && ModelAs(id) == RestoreHalf(old(Model()), id)
    {
      var t := term[id];
      screenX := Signed(t.cursorX);
      screenY := Signed(t.cursorY);
      currentLocation := t.cursorLocation;
      lengthKey := t.lenKeyBuf;
      Copy(video, t.vidBackup);
      Copy(keyboardBuffer, t.termKeyBuf);
      assert forall u | 0 <= u < NUM_TERMS :: term[u].Saved() == old(term[u].Saved());
      RestoreRefines(id);
    }

    twostate lemma RestoreRefines(id: nat)
      requires Apart() && old(Valid()) && ValidAs(id) && Mods() == old(Mods())
      requires LiveAs(id) == term[id].Saved()
      requires forall t | 0 <= t < NUM_TERMS :: term[t].Saved() == old(term[t].Saved())
      ensures ModelAs(id) == RestoreHalf(old(Model()), id)
    {
    }

    /** switch_terminal() between two different terminals; the caller then changes currTerm. */
    method SwitchTerminal(oldTerm: nat, newTerm: nat)
      requires Apart() && Valid()
      requires oldTerm == currTerm && newTerm < NUM_TERMS && newTerm != oldTerm
      modifies this`screenX, this`screenY, this`currentLocation, this`lengthKey, video, keyboardBuffer
      modifies term[oldTerm], term[oldTerm].vidBackup, term[oldTerm].termKeyBuf
      ensures ValidAs(newTerm)
      ensures ModelAs(newTerm) == MuxStep(old(Model()), Switch(newTerm))
    {
      SaveTermInfo(oldTerm);
      RestoreTermInfo(newTerm);
      PartsAreSwitch(old(Model()), newTerm);
    }

    ghost function Mods(): Modifiers
      reads this
    {
      Modifiers(keyMode, capOn, ctrlPressed, altPressed)
    }

    /** The stored state is read as that of terminal id once this is the current one. */
    twostate lemma Refocused(id: nat)
      requires Apart() && old(ValidAs(id)) && currTerm == id
      requires unchanged(this`currentLocation, this`screenX, this`screenY, this`lengthKey)
      requires unchanged(this`keyMode, this`capOn, this`ctrlPressed, this`altPressed, Repr() - {this})
      ensures Valid() && Model() == old(ModelAs(id))
    {
    }

    /** launch_term() of a terminal that has a process, up to the mapping of the video window. */
    method LaunchTerm(id: nat) returns (switched: bool)
      requires Apart() && Valid() && id < NUM_TERMS
      modifies this, video, keyboardBuffer
      modifies term[currTerm], term[currTerm].vidBackup, term[currTerm].termKeyBuf
      ensures Valid() && currTerm == id
      ensures switched == (id != old(currTerm))
      ensures Model() == MuxStep(old(Model()), Switch(id))
    {
      switched := id != currTerm;
      if switched {
        SwitchTerminal(currTerm, id);
        label Swapped:
        currTerm := id;
        Refocused@Swapped(id);
      }
    }

    /** Video memory and cursor, the latter as twice its cell. */
    ghost predicate Draws(s: Screen)
      reads this, video
    {
      OnScreen(s) && video[..] == s.mem && currentLocation == 2 * CursorCell(s)
    }

    /** What the buffers and the cursor hold is the view of a line that is not empty, behind the first cell. */
    ghost predicate CanStepBack(v: View)
      reads this, video, keyboardBuffer
    {
      && Wf(v) && Draws(v.screen) && currentLocation > 0
      && v.keys == keyboardBuffer[..] && v.len == lengthKey && v.len > 0
      && Erasable(v)
    }

    /** The three cases of handle_backspace(): over a tab, over a newline, and over a character, which is wiped out. */
    method StepBack(ghost v: View)
      requires CanStepBack(v)
      modifies this`currentLocation, video
      ensures Draws(ErasedScreen(v, Attribute(currTerm)))
    {
      var c := keyboardBuffer[lengthKey - 1];
      if c == TAB {
        currentLocation := currentLocation - 8;
      } else if c == NEWLINE {
        StepBackOverLine(v);
      } else {
        currentLocation := currentLocation - 2;
        PokeCell(video, currentLocation / 2, NUL, Attribute(currTerm));
      }
    }

    /** To the line above, or behind the last place where the character before the newline is stored. */
    method StepBackOverLine(ghost v: View)
      requires CanStepBack(v) && v.keys[v.len - 1] == NEWLINE
      modifies this`currentLocation
      ensures Draws(ErasedScreen(v, Attribute(currTerm)))
    {
      if lengthKey > 1 && keyboardBuffer[lengthKey - 2] == NEWLINE {
        currentLocation := currentLocation - NUM_COLS * 2;
      } else {
        SearchBack(v.screen.mem, keyboardBuffer[lengthKey - 2]);
        currentLocation := currentLocation + 2;
      }
    }

    method SearchBack(ghost mem: seq<byte>, c: byte)
      requires mem == video[..] && 0 <= currentLocation < |mem|
      requires LastByte(mem, currentLocation, c) >= 0
      modifies this`currentLocation
      ensures currentLocation == LastByte(mem, old(currentLocation), c)
    {
      while video[currentLocation] != c
        invariant 0 <= currentLocation < |mem|
        invariant LastByte(mem, currentLocation, c) == LastByte(mem, old(currentLocation), c)
        decreases currentLocation
      {
        currentLocation := currentLocation - 1;
      }
    }

    /** handle_backspace() */
    method HandleBackspace()
      requires Apart() && Valid() && Erasable(LiveAs(currTerm))
      modifies this`currentLocation, this`lengthKey, video, keyboardBuffer
      ensures Valid()
      ensures LiveAs(currTerm) == Erase(old(LiveAs(currTerm)), Attribute(currTerm))
    {
      if currentLocation == 0 || lengthKey == 0 {
        return;
      }
      ghost var v := LiveAs(currTerm);
      CursorAt(v.screen, video[..], currentLocation);
      StepBack(v);
      CursorAt(ErasedScreen(v, Attribute(currTerm)), video[..], currentLocation);
      keyboardBuffer[lengthKey - 1] := NUL;
      lengthKey := lengthKey - 1;
    }

    /** One round of handle_tab(), which scrolls at the wrong place too. */
    method PutBlank(ghost s: Screen)
      requires Draws(s)
      modifies this`currentLocation, video
      ensures Draws(BlankCell(s))
    {
      if currentLocation == NUM_COLS * NUM_ROWS {
        HandleScroll();
      }
      PokeCell(video, currentLocation / 2, SPACE, BLACK);
      currentLocation := currentLocation + 2;
      if currentLocation == SCREEN_SIZE {
        HandleScroll();
      }
    }

    /** handle_tab() */
    method HandleTab(ghost s: Screen)
      requires Draws(s)
      modifies this`currentLocation, video
      ensures Draws(BlankCells(s, 4))
    {
      for i := 0 to 4
        invariant Draws(BlankCells(s, i))
      {
        PutBlank(BlankCells(s, i));
      }
    }

    /** The tab key, and the tab that process_char() then puts into the key buffer. */
    method TypeTab()
      requires Apart() && Valid()
      modifies this`currentLocation, this`lengthKey, video, keyboardBuffer
      ensures old(lengthKey) < KEYBOARD_BUFFER_SIZE - 1 ==> Valid()
      ensures LiveAs(currTerm) == TabTyped(old(LiveAs(currTerm)))
    {
      ghost var s := LiveAs(currTerm).screen;
      CursorAt(s, video[..], currentLocation);
      HandleTab(s);
      CursorAt(BlankCells(s, 4), video[..], currentLocation);
      keyboardBuffer[lengthKey] := TAB;
      lengthKey := lengthKey + 1;
    }

    /** handle_scroll() */
    method HandleScroll()
      requires video.Length == SCREEN_SIZE
      modifies this`currentLocation, video
      ensures video[..] == Scrolled(old(video[..]))
      ensures currentLocation == SCREEN_SIZE - ROW_SIZE
    {
      ScrollUp(video);
      currentLocation := (NUM_ROWS - 1) * NUM_COLS * 2;
    }

    /** handle_enter(), and the newline that process_char() then puts into the key buffer. */
    method HandleEnter()
      requires Apart() && Valid()
      modifies this`currentLocation, this`lengthKey, video, keyboardBuffer, term[currTerm]
      ensures old(lengthKey) < KEYBOARD_BUFFER_SIZE - 1 ==> Valid()
      ensures LiveAs(currTerm) == Entered(old(LiveAs(currTerm)))
      ensures term[currTerm].Saved() == old(term[currTerm].Saved()).(entered := true)
    {
      var curY := currentLocation / (NUM_COLS * 2);
      if curY + 1 == NUM_ROWS {
        HandleScroll();
      } else {
        currentLocation := (curY + 1) * NUM_COLS * 2;
      }
      LocationOf(video[..], 0, currentLocation / ROW_SIZE);
      term[currTerm].hasEnter := true;
      keyboardBuffer[lengthKey] := NEWLINE;
      lengthKey := lengthKey + 1;
    }

    /** The default case of process_char() and the echo that follows it. */
    method TypeChar(scode: nat)
      requires Apart() && Valid() && scode < KEY_COUNT
      modifies this`currentLocation, this`screenX, this`screenY, this`lengthKey, video, keyboardBuffer
      ensures Valid()
      ensures LiveAs(currTerm) == Typed(old(LiveAs(currTerm)), Attribute(currTerm), ScancodeMap(keyMode, scode))
    {
      var c := ScancodeMap(keyMode, scode);
      if lengthKey == KEYBOARD_BUFFER_SIZE - 1 {
        return;
      }
      keyboardBuffer[lengthKey] := c;
      lengthKey := lengthKey + 1;
      // The scrolling around putc() is for a cursor behind the last cell, which never occurs.
      if currentLocation < SCREEN_SIZE {
        Putc(c);
        if currentLocation == SCREEN_SIZE {
          assert false;
        }
      } else {
        assert false;
      }
    }

    /** The cases of process_char() that touch neither the screen nor the line. */
    method PressModifier(scode: nat) returns (action: Action)
      requires keyMode < 4
      requires IsModifier(scode) || (scode == LETTER_C && ctrlPressed)
      modifies this`keyMode, this`capOn, this`altPressed, this`ctrlPressed
      ensures Mods() == KeyModifiers(old(Mods()), scode) && keyMode < 4
      ensures action == KeyAction(old(Mods()), scode)
    {
      action := Nothing;
      if scode == CAP {
        if capOn {
          capOn := false;
          keyMode := if keyMode == 2 then 0 else 1;
        } else {
          capOn := true;
          keyMode := if keyMode == 0 then 2 else 3;
        }
      } else if scode == LSHIFT_DOWN || scode == RSHIFT_DOWN {
        if keyMode == 3 || keyMode == 1 {
          return;
        }
        keyMode := if keyMode == 2 then 3 else 1;
      } else if scode == ALT_DOWN {
        altPressed := true;
      } else if scode == F1 || scode == F2 || scode == F3 {
        if altPressed {
          action := Action.LaunchTerm(scode - F1);
        }
      } else if scode == CTRL_DOWN {
        ctrlPressed := true;
      } else {
        ctrlPressed := false;
        action := Halt;
      }
    }

    /** The modes are no part of what a terminal shows. */
    method ChangeModes(scode: nat) returns (action: Action)
      requires Apart() && Valid() && (IsModifier(scode) || (scode == LETTER_C && ctrlPressed))
      modifies this`keyMode, this`capOn, this`altPressed, this`ctrlPressed
      ensures Valid() && LiveAs(currTerm) == old(LiveAs(currTerm))
      ensures term[currTerm].Saved() == old(term[currTerm].Saved())
      ensures Mods() == KeyModifiers(old(Mods()), scode) && action == KeyAction(old(Mods()), scode)
    {
      action := PressModifier(scode);
    }

    /** Control-L in process_char(). */
    method ClearScreenAndLine()
      requires Apart() && Valid()
      modifies this`currentLocation, this`screenX, this`screenY, this`lengthKey, this`ctrlPressed
      modifies video, keyboardBuffer
      ensures Valid() && !ctrlPressed
      ensures LiveAs(currTerm) == Wiped(old(LiveAs(currTerm)), Attribute(currTerm))
    {
      Clear();
      ctrlPressed := false;
      ClearLine(currTerm);
    }

    /** The releases that keyboard_interrupt_handler() handles itself. */
    method ReleaseKey(scode: nat)
      requires KEY_COUNT <= scode && keyMode < 4
      modifies this`keyMode, this`altPressed, this`ctrlPressed
      ensures Mods() == KeyModifiers(old(Mods()), scode) && keyMode < 4
    {
      if scode == LSHIFT_UP || scode == RSHIFT_UP {
        if keyMode == 2 || keyMode == 0 {
          return;
        }
        keyMode := if keyMode == 3 then 2 else 0;
      } else if scode == CTRL_UP {
        ctrlPressed := false;
      } else if scode == ALT_UP {
        altPressed := false;
      }
    }

    /** The keys that change the line whatever the modifiers are. */
    method LineKey(scode: nat)
      requires Apart() && Valid() && scode in {BACKSPACE, TAB_KEY, ENTER} && Handled(LiveAs(currTerm), scode)
      modifies this`currentLocation, this`lengthKey, video, keyboardBuffer, term[currTerm]
      ensures FitsLine(old(LiveAs(currTerm)), scode) ==> Valid()
      ensures LiveAs(currTerm) == KeyView(Mods(), old(LiveAs(currTerm)), Attribute(currTerm), scode)
      ensures term[currTerm].Saved() == old(term[currTerm].Saved()).(entered := term[currTerm].hasEnter)
    {
      if scode == BACKSPACE {
        HandleBackspace();
      } else if scode == TAB_KEY {
        TypeTab();
      } else {
        HandleEnter();
      }
    }

    /** The cases of process_char() that change the line. */
    method EditLine(scode: nat)
      requires Apart() && Valid()
      requires scode < KEY_COUNT && Handled(LiveAs(currTerm), scode)
      requires !IsModifier(scode) && !(scode == LETTER_C && ctrlPressed)
      modifies this`currentLocation, this`screenX, this`screenY, this`lengthKey, this`ctrlPressed
      modifies video, keyboardBuffer, term[currTerm]
      ensures FitsLine(old(LiveAs(currTerm)), scode) ==> Valid()
      ensures ctrlPressed == (old(ctrlPressed) && scode != LETTER_L)
      ensures LiveAs(currTerm) == KeyView(old(Mods()), old(LiveAs(currTerm)), Attribute(currTerm), scode)
      ensures term[currTerm].Saved() == old(term[currTerm].Saved()).(entered := term[currTerm].hasEnter)
    {
      if scode in {BACKSPACE, TAB_KEY, ENTER} {
        LineKey(scode);
      } else if scode == LETTER_L && ctrlPressed {
        ClearScreenAndLine();
      } else {
        TypeChar(scode);
      }
    }

    /** process_char() */
    method ProcessChar(scode: nat) returns (action: Action)
      requires Apart() && Valid()
      requires scode < KEY_COUNT && Handled(LiveAs(currTerm), scode)
      modifies this, video, keyboardBuffer, term[currTerm]
      ensures currTerm == old(currTerm)
      ensures FitsLine(old(LiveAs(currTerm)), scode) ==> Valid()
      ensures action == KeyAction(old(Mods()), scode)
      ensures Mods() == KeyModifiers(old(Mods()), scode)
      ensures LiveAs(currTerm) == KeyView(old(Mods()), old(LiveAs(currTerm)), Attribute(currTerm), scode)
      ensures term[currTerm].Saved() == old(term[currTerm].Saved()).(entered := term[currTerm].hasEnter)
    {
      action := Nothing;
      if IsModifier(scode) || (scode == LETTER_C && ctrlPressed) {
        ModifierKeepsView(Mods(), LiveAs(currTerm), Attribute(currTerm), scode);
        action := ChangeModes(scode);
      } else {
        EditKeepsModes(Mods(), scode);
        EditLine(scode);
      }
    }

    /** keyboard_interrupt_handler() up to the point where it acts on the key. */
    method KeyboardInterruptHandler(c: nat) returns (action: Action)
      requires Apart() && Valid() && OpOk(Key(c), currTerm, LiveAs(currTerm))
      modifies this, video, keyboardBuffer, term[currTerm]
      ensures Valid()
      ensures action == KeyAction(old(Mods()), c)
      ensures Model() == MuxStep(old(Model()), Key(c))
    {
      if c >= KEY_COUNT {
        action := Nothing;
        ReleaseKey(c);
      } else {
        action := ProcessChar(c);
      }
      assert forall t | 0 <= t < NUM_TERMS && t != currTerm :: term[t].Saved() == old(term[t].Saved());
      KeyRefines(c);
    }

    /** The two states around a key, put together. */
    twostate lemma KeyRefines(c: nat)
      requires Apart() && old(Valid()) && Valid() && currTerm == old(currTerm)
      requires OpOk(Key(c), currTerm, old(LiveAs(currTerm)))
      requires Mods() == KeyModifiers(old(Mods()), c)
      requires LiveAs(currTerm) == KeyView(old(Mods()), old(LiveAs(currTerm)), Attribute(currTerm), c)
      requires term[currTerm].Saved() == old(term[currTerm].Saved()).(entered := term[currTerm].hasEnter)
      requires forall t | 0 <= t < NUM_TERMS && t != currTerm :: term[t].Saved() == old(term[t].Saved())
      ensures Model() == MuxStep(old(Model()), Key(c))
    {
    }

    /** read_buffer() once Enter has been hit. */
    method ReadBuffer(runningTerm: nat)
      requires Apart() && Valid() && runningTerm < NUM_TERMS
      modifies term[runningTerm]
      ensures Valid() && Model() == EnterTaken(old(Model()), runningTerm)
    {
      term[runningTerm].hasEnter := false;
      assert forall t | 0 <= t < NUM_TERMS && t != runningTerm :: term[t].Saved() == old(term[t].Saved());
      EnterRefines(runningTerm);
    }

    twostate lemma EnterRefines(id: nat)
      requires Apart() && old(Valid()) && Valid() && id < NUM_TERMS && currTerm == old(currTerm) && Mods() == old(Mods())
      requires LiveAs(currTerm) == old(LiveAs(currTerm)).(entered := term[currTerm].hasEnter)
      requires forall t | 0 <= t < NUM_TERMS && t != id :: term[t].Saved() == old(term[t].Saved())
      requires term[id].Saved() == old(term[id].Saved()).(entered := false)
      ensures Model() == EnterTaken(old(Model()), id)
    {
    }

    /** The copy of the line on display into the caller's buffer. */
    method DeliverLine(buf: array<byte>, nbytes: int) returns (r: int)
      requires Apart() && Valid() && buf !in Buffers()
      requires -0x8000_0000 <= nbytes < 0x8000_0000 && nbytes <= buf.Length
      modifies buf
      ensures Valid() && Model() == old(Model())
      ensures r == if nbytes < 0 || lengthKey < nbytes then lengthKey else nbytes
      ensures if nbytes < 0 then buf[..] == old(buf[..])
              else buf[..] == Delivered(LiveAs(currTerm), nbytes) + old(buf[..])[r..]
    {
      r := CopyLine(buf, nbytes, keyboardBuffer, lengthKey);
      Unchanged();
    }

    /** The copy and the clearing of the line on display. */
    method TakeLine(buf: array<byte>, nbytes: int) returns (r: int)
      requires Apart() && Valid() && buf !in Buffers()
      requires -0x8000_0000 <= nbytes < 0x8000_0000 && nbytes <= buf.Length
      modifies this`lengthKey, keyboardBuffer, buf
      ensures Valid() && Model() == LineTaken(old(Model()))
      ensures r == if nbytes < 0 || old(lengthKey) < nbytes then old(lengthKey) else nbytes
      ensures if nbytes < 0 then buf[..] == old(buf[..])
              else buf[..] == Delivered(old(LiveAs(currTerm)), nbytes) + old(buf[..])[r..]
    {
      r := DeliverLine(buf, nbytes);
      ClearLine(currTerm);
      LiveLineRefines();
    }

    /** The two states around a change of the line on display, put together. */
    twostate lemma LiveLineRefines()
      requires Apart() && old(Valid()) && Valid() && currTerm == old(currTerm) && Mods() == old(Mods())
      requires unchanged({term[0], term[1], term[2], term[0].vidBackup, term[1].vidBackup, term[2].vidBackup})
      requires unchanged({term[0].termKeyBuf, term[1].termKeyBuf, term[2].termKeyBuf})
      ensures Model() == old(Model()).(live := LiveAs(currTerm))
    {
    }

    /** A read into a buffer. */
    method ReadLine(runningTerm: nat, buf: array<byte>, nbytes: int) returns (r: int)
      requires Apart() && Valid() && runningTerm < NUM_TERMS && buf !in Buffers()
      requires -0x8000_0000 <= nbytes < 0x8000_0000 && nbytes <= buf.Length
      modifies this`lengthKey, keyboardBuffer, term[runningTerm], buf
      ensures Valid()
      ensures r == if nbytes < 0 || old(lengthKey) < nbytes then old(lengthKey) else nbytes
      ensures if nbytes < 0 then buf[..] == old(buf[..])
              else buf[..] == Delivered(old(LiveAs(currTerm)), nbytes) + old(buf[..])[r..]
      ensures Model() == ReadBy(old(Model()), runningTerm)
    {
      ReadBuffer(runningTerm);
      r := TakeLine(buf, nbytes);
      ReadIsBoth(old(Model()), runningTerm);
    }

    /**
     terminal_read() by the running terminal once Enter has been hit there.  It takes the line of the
     terminal on display, and compares the count that it was asked for as an unsigned word.
     */
    method TerminalRead(runningTerm: nat, buf: array?<byte>, nbytes: int) returns (r: int)
      requires Apart() && Valid() && runningTerm < NUM_TERMS && -0x8000_0000 <= nbytes < 0x8000_0000
      requires buf != null ==> nbytes <= buf.Length && buf !in Buffers() && term[runningTerm].hasEnter
      modifies this`lengthKey, keyboardBuffer, term[runningTerm]
      modifies if buf == null then {} else {buf}
      ensures Valid()
      ensures buf == null ==> r == -1 && Model() == old(Model())
      ensures buf != null ==> r == if nbytes < 0 || old(lengthKey) < nbytes then old(lengthKey) else nbytes
      ensures buf != null && nbytes < 0 ==> buf[..] == old(buf[..])
      ensures buf != null && nbytes >= 0 ==>
                buf[..] == Delivered(old(LiveAs(currTerm)), nbytes) + old(buf[..])[r..]
      ensures buf != null ==> Model() == ReadBy(old(Model()), runningTerm)
    {
      r := -1;
      if buf != null {
        r := ReadLine(runningTerm, buf, nbytes);
      }
    }

    /** init_term() once its loop has reset the three entries; the first shell is not part of this model. */
    constructor (terms: seq<Terminal>)
      requires |terms| == NUM_TERMS
      requires forall t | 0 <= t < NUM_TERMS :: terms[t].Valid() && terms[t].termId == t && terms[t].Saved() == FreshView(t)
      requires forall t, u | 0 <= t < u < NUM_TERMS ::
                 && terms[t] != terms[u]
                 && terms[t].vidBackup != terms[u].vidBackup
                 && terms[t].termKeyBuf != terms[u].termKeyBuf
      ensures Apart() && term == terms && fresh(video) && fresh(keyboardBuffer)
      ensures Valid()
      ensures Model() == Booted()
    {
      video := new byte[SCREEN_SIZE](_ => NUL);
      keyboardBuffer := new byte[KEYBOARD_BUFFER_SIZE](_ => NUL);
      term := terms;
      currTerm := 0;
      currentLocation, screenX, screenY, lengthKey := 0, 0, 0, 0;
      keyMode, capOn, ctrlPressed, altPressed := 0, false, false, false;
      new;
      Boot();
    }

    /** The end of init_term(), but for the first shell: the first terminal comes on display. */
    method Boot()
      requires Apart() && Valid() && currTerm == 0 && Mods() == Modifiers(0, false, false, false)
      requires forall t | 0 <= t < NUM_TERMS :: term[t].Saved() == FreshView(t)
      modifies this`screenX, this`screenY, this`currentLocation, this`lengthKey, video, keyboardBuffer
      ensures Valid() && Model() == Booted()
    {
      FreshIsBooted(Model());
      RestoreTermInfo(0);
    }
  }
}
