/**
 What programs read.  Whatever the terminals print meanwhile, the line that a read delivers is the
 edit of the keys that went to its terminal, and the newline.
 */
module TypedLines {
  import opened Types
  import opened TextMode
  import opened Keyboard
  import opened Echo
  import opened Multiplexer

  /** The typed lines of the terminals without their screens. */
  datatype Desk = Desk(mods: Modifiers, focus: nat, lines: seq<seq<byte>>)

  predicate DeskOk(d: Desk) {
    d.mods.mode < 4 && d.focus < NUM_TERMS && |d.lines| == NUM_TERMS
  }

  function EditAny(m: Modifiers, line: seq<byte>, code: nat): seq<byte>
    requires m.mode < 4
  {
    if code == ENTER then line + [NEWLINE] else if code == TAB_KEY then line + [TAB] else Edit(m, line, code)
  }

  /** Output has no tabs, and a backspace does not take back an Enter: either may move the cursor back too far. */
  predicate DeskOpOk(d: Desk, op: Op)
    requires DeskOk(d)
  {
    match op
    case Write(_, bytes) => TAB !in bytes
    case Switch(t) => t < NUM_TERMS
    case Read(_) => true
    case Key(code) => code == BACKSPACE ==> !Complete(d.lines[d.focus])
  }

  predicate Complete(line: seq<byte>) {
    line != [] && line[|line| - 1] == NEWLINE
  }

  /** A write concerns no line, a key the one in focus, and a read empties it. */
  function DeskStep(d: Desk, op: Op): (r: Desk)
    requires DeskOk(d) && DeskOpOk(d, op)
    ensures DeskOk(r)
  {
    match op
    case Write(_, _) => d
    case Switch(t) => d.(focus := t)
    case Read(_) => d.(lines := d.lines[d.focus := []])
    case Key(code) =>
      d.(mods := KeyModifiers(d.mods, code), lines := d.lines[d.focus := EditAny(d.mods, d.lines[d.focus], code)])
  }

  predicate DeskRunOk(d: Desk, ops: seq<Op>)
    requires DeskOk(d)
    decreases ops
  {
    ops == [] || (DeskOpOk(d, ops[0]) && DeskRunOk(DeskStep(d, ops[0]), ops[1..]))
  }

  function DeskRun(d: Desk, ops: seq<Op>): (r: Desk)
    requires DeskOk(d) && DeskRunOk(d, ops)
    ensures DeskOk(r)
    decreases ops
  {
    if ops == [] then d else DeskRun(DeskStep(d, ops[0]), ops[1..])
  }

  /** The cells that a line takes at least: a tab takes four. */
  function Width(line: seq<byte>): (w: nat)
    ensures |line| <= w <= 4 * |line|
  {
    if line == [] then 0 else Width(line[..|line| - 1]) + if line[|line| - 1] == TAB then 4 else 1
  }

  lemma WidthLast(line: seq<byte>, c: byte)
    ensures Width(line + [c]) == Width(line) + if c == TAB then 4 else 1
  {
    assert (line + [c])[..|line|] == line;
  }

  function LineOf(v: View): seq<byte>
    requires Wf(v)
  {
    v.keys[..v.len]
  }

  /** The cursor is behind the line, and the key buffer clear behind it. */
  ghost predicate Anchored(v: View) {
    && Wf(v)
    && Width(LineOf(v)) <= CursorCell(v.screen)
    && forall i: nat | v.len <= i < KEYBOARD_BUFFER_SIZE :: v.keys[i] == NUL
  }

  lemma PutStaysBehind(s: Screen, attr: byte, c: byte, width: nat)
    requires OnScreen(s) && c != TAB && width <= CursorCell(s) && width <= 4 * KEYBOARD_BUFFER_SIZE
    ensures width <= CursorCell(Put(s, attr, c))
    ensures !IsBreak(c) && width < 4 * KEYBOARD_BUFFER_SIZE ==> width + 1 <= CursorCell(Put(s, attr, c))
  {
  }

  lemma {:induction false} OutputKeepsLine(s: Screen, attr: byte, bytes: seq<byte>, width: nat)
    requires OnScreen(s) && TAB !in bytes && width <= CursorCell(s) && width <= 4 * KEYBOARD_BUFFER_SIZE
    ensures width <= CursorCell(PutAll(s, attr, bytes))
    decreases bytes
  {
    if bytes != [] {
      var front := bytes[..|bytes| - 1];
      OutputKeepsLine(s, attr, front, width);
      PutStaysBehind(PutAll(s, attr, front), attr, bytes[|bytes| - 1], width);
    }
  }

  /** A character stored into the key buffer behind the line. */
  lemma LineGrows(v: View, w: View, c: byte)
    requires Wf(v) && Wf(w) && w.len == v.len + 1 && w.keys == v.keys[v.len := c]
    ensures LineOf(w) == LineOf(v) + [c] && Width(LineOf(w)) == Width(LineOf(v)) + if c == TAB then 4 else 1
  {
    assert LineOf(w) == LineOf(v) + [c];
    WidthLast(LineOf(v), c);
  }

  lemma TypedKeepsAnchor(v: View, attr: byte, c: byte)
    requires Anchored(v) && c != TAB && !IsBreak(c)
    ensures Anchored(Typed(v, attr, c))
    ensures LineOf(Typed(v, attr, c)) == if v.len < KEYBOARD_BUFFER_SIZE - 1 then LineOf(v) + [c] else LineOf(v)
  {
    if v.len < KEYBOARD_BUFFER_SIZE - 1 {
      LineGrows(v, Typed(v, attr, c), c);
      PutStaysBehind(v.screen, attr, c, Width(LineOf(v)));
    }
  }

  lemma EnteredKeepsAnchor(v: View)
    requires Anchored(v) && v.len < KEYBOARD_BUFFER_SIZE - 1
    ensures Anchored(Entered(v)) && LineOf(Entered(v)) == LineOf(v) + [NEWLINE]
  {
    LineGrows(v, Entered(v), NEWLINE);
  }

  lemma TabKeepsAnchor(v: View)
    requires Anchored(v) && v.len < KEYBOARD_BUFFER_SIZE - 1
    ensures Anchored(TabTyped(v)) && LineOf(TabTyped(v)) == LineOf(v) + [TAB]
  {
    LineGrows(v, TabTyped(v), TAB);
    BlanksMoveOn(v.screen, 4);
  }

  lemma {:induction false} BlanksMoveOn(s: Screen, n: nat)
    requires OnScreen(s)
    ensures CursorCell(BlankCells(s, n)) >= if CursorCell(s) + n < CELLS - NUM_COLS then CursorCell(s) + n else CELLS - NUM_COLS
  {
    if n > 0 {
      BlanksMoveOn(s, n - 1);
    }
  }

  lemma EraseKeepsAnchor(v: View, attr: byte)
    requires Anchored(v) && Erasable(v) && !Complete(LineOf(v))
    ensures Anchored(Erase(v, attr))
    ensures LineOf(Erase(v, attr)) == if v.len == 0 then [] else LineOf(v)[..v.len - 1]
  {
    if v.len > 0 {
      var w := Erase(v, attr);
      assert LineOf(v)[..v.len - 1] == LineOf(w);
      assert LineOf(v)[v.len - 1] == v.keys[v.len - 1];
    }
  }

  /** On any screen a backspace takes the last key back exactly if the cursor is not on the first cell. */
  lemma EraseEditsLineIff(v: View, attr: byte)
    requires Wf(v) && Erasable(v) && v.len > 0
    ensures LineOf(Erase(v, attr)) == LineOf(v)[..v.len - 1] <==> CursorCell(v.screen) > 0
  {
    var w := Erase(v, attr);
    if CursorCell(v.screen) > 0 {
      assert LineOf(w) == LineOf(v)[..v.len - 1];
    } else {
      assert |LineOf(w)| == v.len;
    }
  }

  /** Control-L leaves a terminal as it was at boot. */
  lemma WipedIsFresh(v: View, t: nat)
    requires Anchored(v)
    ensures Wiped(v, Attribute(t)) == FreshView(t).(entered := v.entered)
  {
    assert Wiped(v, Attribute(t)).keys == FreshView(t).keys;
  }

  /** A key edits the line of the terminal that gets it, wherever output has moved its cursor. */
  lemma KeyEditsLine(m: Modifiers, v: View, attr: byte, code: nat)
    requires m.mode < 4 && Anchored(v) && Handled(v, code) && FitsLine(v, code)
    requires code == BACKSPACE ==> !Complete(LineOf(v))
    ensures Anchored(KeyView(m, v, attr, code))
    ensures LineOf(KeyView(m, v, attr, code)) == EditAny(m, LineOf(v), code)
  {
    if code == BACKSPACE {
      EraseKeepsAnchor(v, attr);
    } else if code == TAB_KEY {
      TabKeepsAnchor(v);
    } else if code == ENTER {
      EnteredKeepsAnchor(v);
    } else if Prints(m, code) {
      TypedKeepsAnchor(v, attr, ScancodeMap(m.mode, code));
    }
  }

  ghost predicate AllAnchored(s: Three)
    requires ThreeOk(s)
  {
    forall t: nat | t < NUM_TERMS :: Anchored(s.views[t])
  }

  ghost function DeskOf(s: Three): (r: Desk)
    requires ThreeOk(s)
    ensures DeskOk(r)
  {
    Desk(s.mods, s.focus, seq(NUM_TERMS, t requires 0 <= t < NUM_TERMS => LineOf(s.views[t])))
  }

  /** The view that an operation leaves of one terminal. */
  lemma StepFollows(s: Three, op: Op, t: nat)
    requires ThreeOk(s) && AllAnchored(s) && OpOk(op, s.focus, s.views[s.focus]) && t < NUM_TERMS
    requires DeskOpOk(DeskOf(s), op)
    ensures Anchored(ThreeStep(s, op).views[t])
    ensures LineOf(ThreeStep(s, op).views[t]) == DeskStep(DeskOf(s), op).lines[t]
  {
    var v := s.views[t];
    assert Anchored(v);
    match op
    case Write(u, bytes) =>
      if u == t {
        OutputKeepsLine(v.screen, Attribute(t), bytes, Width(LineOf(v)));
      }
    case Key(code) =>
      if s.focus == t {
        KeyEditsLine(s.mods, v, Attribute(t), code);
      }
    case Switch(_) =>
    case Read(_) =>
  }

  lemma DeskFollows(s: Three, op: Op) returns (r: Three)
    requires ThreeOk(s) && AllAnchored(s) && OpOk(op, s.focus, s.views[s.focus]) && DeskOpOk(DeskOf(s), op)
    ensures r == ThreeStep(s, op) && AllAnchored(r) && DeskOf(r) == DeskStep(DeskOf(s), op)
  {
    r := ThreeStep(s, op);
    forall t: nat | t < NUM_TERMS
      ensures Anchored(r.views[t]) && LineOf(r.views[t]) == DeskStep(DeskOf(s), op).lines[t]
    {
      StepFollows(s, op, t);
    }
    assert DeskOf(r).lines == DeskStep(DeskOf(s), op).lines;
  }

  /** Over every run of writes, keys, switches and reads, each terminal's line is the one of the desk. */
  lemma {:induction false} LinesFollowDesk(s: Three, ops: seq<Op>)
    requires ThreeOk(s) && AllAnchored(s) && ThreeRunOk(s, ops) && DeskRunOk(DeskOf(s), ops)
    ensures AllAnchored(ThreeRun(s, ops)) && DeskOf(ThreeRun(s, ops)) == DeskRun(DeskOf(s), ops)
    decreases ops
  {
    if ops != [] {
      var r := FirstOfThree(s, ops);
      var q := DeskFollows(s, ops[0]);
      LinesFollowDesk(r, ops[1..]);
    }
  }

  /** What a read delivers at the end of a run is the start of the line on the desk. */
  lemma ReadDeliversLine(s: Three, ops: seq<Op>, n: nat)
    requires ThreeOk(s) && AllAnchored(s) && ThreeRunOk(s, ops) && DeskRunOk(DeskOf(s), ops)
    ensures var r, d := ThreeRun(s, ops), DeskRun(DeskOf(s), ops);
      var line := d.lines[d.focus];
      Delivered(r.views[r.focus], n) == if n < |line| then line[..n] else line
  {
    LinesFollowDesk(s, ops);
    var r := ThreeRun(s, ops);
    assert DeskOf(r).lines[r.focus] == LineOf(r.views[r.focus]);
  }

  // ----- one line, from its first key to its read -----

  /** The keys among some writes and keys. */
  function KeysOf(ops: seq<Op>): seq<nat> {
    if ops == [] then []
    else KeysOf(ops[..|ops| - 1]) + if ops[|ops| - 1].Key? then [ops[|ops| - 1].code] else []
  }

  /** The line that some keys leave of an empty one. */
  function LineAfter(m: Modifiers, codes: seq<nat>): seq<byte>
    requires m.mode < 4
  {
    if codes == [] then []
    else
      var front := codes[..|codes| - 1];
      EditAny(ModifiersAfter(m, front), LineAfter(m, front), codes[|codes| - 1])
  }

  predicate WritesAndKeys(ops: seq<Op>) {
    forall i | 0 <= i < |ops| :: (ops[i].Write? && TAB !in ops[i].bytes) || (ops[i].Key? && ops[i].code != ENTER)
  }

  lemma {:induction false} DeskRunLast(d: Desk, ops: seq<Op>, op: Op)
    requires DeskOk(d) && DeskRunOk(d, ops) && DeskOpOk(DeskRun(d, ops), op)
    ensures DeskRunOk(d, ops + [op]) && DeskRun(d, ops + [op]) == DeskStep(DeskRun(d, ops), op)
    decreases ops
  {
    if ops == [] {
      assert [] + [op] == [op] && [op][1..] == [];
    } else {
      assert (ops + [op])[1..] == ops[1..] + [op];
      DeskRunLast(DeskStep(d, ops[0]), ops[1..], op);
    }
  }

  lemma KeyAddsNoNewline(m: Modifiers, line: seq<byte>, code: nat)
    requires m.mode < 4 && NEWLINE !in line && code != ENTER
    ensures NEWLINE !in EditAny(m, line, code)
  {
  }

  lemma LastKeyOf(m: Modifiers, front: seq<nat>, code: nat)
    requires m.mode < 4
    ensures ModifiersAfter(m, front + [code]) == KeyModifiers(ModifiersAfter(m, front), code)
    ensures LineAfter(m, front + [code]) == EditAny(ModifiersAfter(m, front), LineAfter(m, front), code)
  {
    assert (front + [code])[..|front|] == front;
  }

  /** One more write or key after some that left the line q of the one in focus. */
  lemma OneMoreKey(m: Modifiers, q: Desk, codes: seq<nat>, op: Op) returns (r: Desk, all: seq<nat>)
    requires m.mode < 4 && DeskOk(q) && q.mods == ModifiersAfter(m, codes)
    requires q.lines[q.focus] == LineAfter(m, codes) && NEWLINE !in q.lines[q.focus]
    requires (op.Write? && TAB !in op.bytes) || (op.Key? && op.code != ENTER)
    ensures DeskOpOk(q, op) && r == DeskStep(q, op) && r.focus == q.focus
    ensures all == codes + (if op.Key? then [op.code] else []) && r.mods == ModifiersAfter(m, all)
    ensures r.lines[q.focus] == LineAfter(m, all) && NEWLINE !in r.lines[q.focus]
  {
    r := DeskStep(q, op);
    all := codes + if op.Key? then [op.code] else [];
    if op.Key? {
      LastKeyOf(m, codes, op.code);
      KeyAddsNoNewline(q.mods, q.lines[q.focus], op.code);
    } else {
      assert all == codes;
    }
  }

  lemma LastOf(ops: seq<Op>) returns (front: seq<Op>, op: Op)
    requires ops != [] && WritesAndKeys(ops)
    ensures ops == front + [op] && |front| < |ops| && WritesAndKeys(front)
    ensures (op.Write? && TAB !in op.bytes) || (op.Key? && op.code != ENTER)
    ensures KeysOf(ops) == KeysOf(front) + if op.Key? then [op.code] else []
  {
    front, op := ops[..|ops| - 1], ops[|ops| - 1];
    assert forall i | 0 <= i < |front| :: front[i] == ops[i];
  }

  lemma {:induction false} KeysEditLine(d: Desk, ops: seq<Op>) returns (r: Desk)
    requires DeskOk(d) && d.lines[d.focus] == [] && WritesAndKeys(ops)
    ensures DeskRunOk(d, ops) && r == DeskRun(d, ops) && r.focus == d.focus
    ensures r.mods == ModifiersAfter(d.mods, KeysOf(ops))
    ensures r.lines[d.focus] == LineAfter(d.mods, KeysOf(ops)) && NEWLINE !in r.lines[d.focus]
    decreases |ops|
  {
    r := d;
    if ops != [] {
      var front, op := LastOf(ops);
      var q := KeysEditLine(d, front);
      var codes: seq<nat>;
      r, codes := OneMoreKey(d.mods, q, KeysOf(front), op);
      DeskRunLast(d, front, op);
    }
  }

  /**
   From an empty line, any keys with any output in between and then Enter: a read that asks for
   enough delivers exactly the edited line and its newline, and leaves an empty line that waits for Enter.
   */
  lemma TypedLineIsRead(s: Three, ops: seq<Op>, n: nat)
    requires ThreeOk(s) && AllAnchored(s) && s.views[s.focus].len == 0 && WritesAndKeys(ops)
    requires ThreeRunOk(s, ops + [Key(ENTER)])
    ensures var r, line := ThreeRun(s, ops + [Key(ENTER)]), LineAfter(s.mods, KeysOf(ops)) + [NEWLINE];
      && r.focus == s.focus && OpOk(Read(n), r.focus, r.views[r.focus])
      && (n >= |line| ==> Delivered(r.views[r.focus], n) == line)
      && (n < |line| ==> Delivered(r.views[r.focus], n) == line[..n])
      && ThreeStep(r, Read(n)).views[r.focus].len == 0 && !ThreeStep(r, Read(n)).views[r.focus].entered
  {
    var all, d := ops + [Key(ENTER)], DeskOf(s);
    assert d.lines[d.focus] == [];
    var q := KeysEditLine(d, ops);
    DeskRunLast(d, ops, Key(ENTER));
    ReadDeliversLine(s, all, n);
    LinesFollowDesk(s, all);
    EnterIsSeen(s, ops);
  }

  // ----- a read by a hidden terminal -----

  const KEY_A := 0x1E
  const KEY_B := 0x30

  lemma Letters()
    ensures ScancodeMap(0, KEY_A) == 97 && ScancodeMap(0, KEY_B) == 98
  {
  }

  /** Some operations lead from one state to another, whatever follows them. */
  ghost predicate LeadsTo(m: Mux, ops: seq<Op>, r: Mux, rest: seq<Op>) {
    MuxOk(m) && MuxOk(r) && (RunOk(r, rest) ==> RunOk(m, ops + rest) && MuxRun(m, ops + rest) == MuxRun(r, rest))
  }

  lemma StepLeadsTo(m: Mux, op: Op, rest: seq<Op>)
    requires MuxOk(m) && OpOk(op, m.curr, m.live)
    ensures LeadsTo(m, [op], MuxStep(m, op), rest)
  {
    if RunOk(MuxStep(m, op), rest) {
      FirstOfMux(m, op, rest, [op] + rest);
    }
  }

  /** A letter typed without modifiers on the terminal on display. */
  lemma LetterTyped(m: Mux, code: nat, rest: seq<Op>) returns (r: Mux)
    requires MuxOk(m) && m.mods == Booted().mods && code in {KEY_A, KEY_B} && m.live.len < KEYBOARD_BUFFER_SIZE - 1
    ensures LeadsTo(m, [Key(code)], r, rest)
    ensures r.mods == m.mods && r.curr == m.curr && r.live.len == m.live.len + 1
    ensures r.live.keys == m.live.keys[m.live.len := ScancodeMap(0, code)]
    ensures forall t: nat | t < NUM_TERMS && t != m.curr :: r.saved[t] == m.saved[t]
  {
    r := MuxStep(m, Key(code));
    StepLeadsTo(m, Key(code), rest);
  }

  /** Enter on a first terminal whose line is one letter. */
  lemma LineEntered(m: Mux, rest: seq<Op>) returns (r: Mux)
    requires MuxOk(m) && m.live.len == 1 && m.live.keys[0] == 97
    ensures LeadsTo(m, [Key(ENTER)], r, rest)
    ensures r.mods == m.mods && r.curr == m.curr && r.live.entered && LineOf(r.live) == [97, NEWLINE]
    ensures forall t: nat | t < NUM_TERMS && t != m.curr :: r.saved[t] == m.saved[t]
  {
    r := MuxStep(m, Key(ENTER));
    StepLeadsTo(m, Key(ENTER), rest);
  }

  /** "a" and Enter on the first terminal, and "b" on the second one before the first program gets its turn. */
  const TYPED_AHEAD := [Key(KEY_A)] + ([Key(ENTER)] + ([Switch(1)] + ([Key(KEY_B)] + [])))

  /** The program on the first terminal then reads "b", and not its own line. */
  lemma HiddenReadTakesAnotherLine()
    ensures RunOk(Booted(), TYPED_AHEAD)
    ensures var m := MuxRun(Booted(), TYPED_AHEAD);
      && m.curr == 1 && m.saved[0].entered
      && Delivered(m.saved[0], 2) == [97, NEWLINE] && Delivered(m.live, 2) == [98]
      && LineTaken(EnterTaken(m, 0)) == ReadHidden(m, 0)
  {
    Letters();
    var m1 := LetterTyped(Booted(), KEY_A, [Key(ENTER)] + ([Switch(1)] + ([Key(KEY_B)] + [])));
    var m2 := LineEntered(m1, [Switch(1)] + ([Key(KEY_B)] + []));
    var m3 := MuxStep(m2, Switch(1));
    StepLeadsTo(m2, Switch(1), [Key(KEY_B)] + []);
    var m4 := LetterTyped(m3, KEY_B, []);
    assert LineOf(m4.live) == [98];
    ReadIsBoth(m4, 0);
  }

  lemma {:induction false} EnterIsSeen(s: Three, ops: seq<Op>)
    requires ThreeOk(s) && ThreeRunOk(s, ops + [Key(ENTER)])
    ensures var r := ThreeRun(s, ops + [Key(ENTER)]); r.views[r.focus].entered
    decreases ops
  {
    if ops == [] {
      assert [] + [Key(ENTER)] == [Key(ENTER)] && [Key(ENTER)][1..] == [];
    } else {
      var r := FirstOfThree(s, ops + [Key(ENTER)]);
      assert (ops + [Key(ENTER)])[1..] == ops[1..] + [Key(ENTER)];
      EnterIsSeen(r, ops[1..]);
    }
  }
}
