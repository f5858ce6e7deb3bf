/**
 Three terminals on one display.  The kernel keeps one live view and a saved copy per
 terminal and swaps them; seen from outside that is three independent terminals.
 */
module Multiplexer {
  import opened Types
  import opened TextMode
  import opened Keyboard
  import opened Layout

  /** The kernel's representation: the saved copy of the terminal on display is stale. */
  datatype Mux = Mux(mods: Modifiers, curr: nat, live: View, saved: seq<View>)

  predicate MuxOk(m: Mux) {
    && m.mods.mode < 4
    && m.curr < NUM_TERMS
    && Wf(m.live)
    && |m.saved| == NUM_TERMS
    && (forall t: nat | t < NUM_TERMS :: Wf(m.saved[t]))
    && m.saved[m.curr].entered == m.live.entered
  }

  function ViewOf(m: Mux, t: nat): View
    requires MuxOk(m) && t < NUM_TERMS
  {
    if t == m.curr then m.live else m.saved[t]
  }

  datatype Op =
    | Write(term: nat, bytes: seq<byte>)
    | Key(code: nat)
    | Switch(term: nat)
    | Read(nbytes: int)

  function Written(v: View, t: nat, bytes: seq<byte>): (r: View)
    requires Wf(v)
    ensures Wf(r)
  {
    v.(screen := PutAll(v.screen, Attribute(t), bytes))
  }

  /** What an operation asks of terminal t on display, which shows v and whose program does the reading. */
  predicate OpOk(op: Op, t: nat, v: View)
    requires Wf(v)
  {
    match op
    case Write(u, bytes) => u < NUM_TERMS && (u == t ==> StaysOnScreen(v.screen, Attribute(t), bytes))
    case Switch(u) => u < NUM_TERMS
    case Read(_) => v.entered
    case Key(code) => Handled(v, code) && FitsLine(v, code)
  }

  function MuxStep(m: Mux, op: Op): (r: Mux)
    requires MuxOk(m) && OpOk(op, m.curr, m.live)
    ensures MuxOk(r)
  {
    match op
    case Write(t, bytes) =>
      if t == m.curr then m.(live := Written(m.live, t, bytes))
      else m.(saved := m.saved[t := Written(m.saved[t], t, bytes)])
    case Key(code) =>
      var live := KeyView(m.mods, m.live, Attribute(m.curr), code);
      m.(mods := KeyModifiers(m.mods, code),
         live := live,
         saved := m.saved[m.curr := m.saved[m.curr].(entered := live.entered)])
    case Switch(t) =>
      if t == m.curr then m
      else m.(curr := t, live := m.saved[t], saved := m.saved[m.curr := m.live])
    case Read(_) => ReadShown(m)
  }

  /** A read by the program of the terminal on display. */
  function ReadShown(m: Mux): (r: Mux)
    requires MuxOk(m)
    ensures MuxOk(r)
  {
    m.(live := Consumed(m.live), saved := m.saved[m.curr := m.saved[m.curr].(entered := false)])
  }

  /** A read by the program of a hidden terminal takes the line on display away. */
  function ReadHidden(m: Mux, reader: nat): (r: Mux)
    requires MuxOk(m) && reader < NUM_TERMS && reader != m.curr
    ensures MuxOk(r)
  {
    m.(live := Consumed(m.live).(entered := m.live.entered), saved := m.saved[reader := m.saved[reader].(entered := false)])
  }

  /** A read by a program of either kind. */
  function ReadBy(m: Mux, reader: nat): (r: Mux)
    requires MuxOk(m) && reader < NUM_TERMS
    ensures MuxOk(r)
  {
    if reader == m.curr then ReadShown(m) else ReadHidden(m, reader)
  }

  lemma HiddenWrite(m: Mux, t: nat, bytes: seq<byte>, v: View)
    requires MuxOk(m) && t < NUM_TERMS && t != m.curr && v == Written(m.saved[t], t, bytes)
    ensures MuxStep(m, Write(t, bytes)) == m.(saved := m.saved[t := v])
  {
  }

  /** The two parts of a read: it waits for its own terminal's Enter, and takes the line on display. */
  function EnterTaken(m: Mux, reader: nat): (r: Mux)
    requires MuxOk(m) && reader < NUM_TERMS
    ensures MuxOk(r)
  {
    m.(live := if reader == m.curr then m.live.(entered := false) else m.live,
       saved := m.saved[reader := m.saved[reader].(entered := false)])
  }

  function LineTaken(m: Mux): (r: Mux)
    requires MuxOk(m)
    ensures MuxOk(r)
  {
    m.(live := m.live.(keys := ClearedKeys(m.live.keys, m.live.len), len := 0))
  }

  lemma ReadIsBoth(m: Mux, reader: nat)
    requires MuxOk(m) && reader < NUM_TERMS
    ensures LineTaken(EnterTaken(m, reader)) == ReadBy(m, reader)
  {
  }

  predicate RunOk(m: Mux, ops: seq<Op>)
    requires MuxOk(m)
    decreases ops
  {
    ops == [] || (OpOk(ops[0], m.curr, m.live) && RunOk(MuxStep(m, ops[0]), ops[1..]))
  }

  function MuxRun(m: Mux, ops: seq<Op>): (r: Mux)
    requires MuxOk(m) && RunOk(m, ops)
    ensures MuxOk(r)
    decreases ops
  {
    if ops == [] then m else MuxRun(MuxStep(m, ops[0]), ops[1..])
  }

  lemma FirstOfMux(m: Mux, op: Op, rest: seq<Op>, ops: seq<Op>)
    requires MuxOk(m) && OpOk(op, m.curr, m.live) && RunOk(MuxStep(m, op), rest) && ops == [op] + rest
    ensures RunOk(m, ops) && MuxRun(m, ops) == MuxRun(MuxStep(m, op), rest)
  {
    assert ops[0] == op && ops[1..] == rest;
  }

  /** Three terminals that share nothing but the keyboard, which goes to the one in focus. */
  datatype Three = Three(mods: Modifiers, focus: nat, views: seq<View>)

  predicate ThreeOk(s: Three) {
    && s.mods.mode < 4
    && s.focus < NUM_TERMS
    && |s.views| == NUM_TERMS
    && forall t: nat | t < NUM_TERMS :: Wf(s.views[t])
  }

  function ThreeStep(s: Three, op: Op): (r: Three)
    requires ThreeOk(s) && OpOk(op, s.focus, s.views[s.focus])
    ensures ThreeOk(r)
  {
    match op
    case Write(t, bytes) => s.(views := s.views[t := Written(s.views[t], t, bytes)])
    case Key(code) =>
      s.(mods := KeyModifiers(s.mods, code),
         views := s.views[s.focus := KeyView(s.mods, s.views[s.focus], Attribute(s.focus), code)])
    case Switch(t) => s.(focus := t)
    case Read(_) => s.(views := s.views[s.focus := Consumed(s.views[s.focus])])
  }

  predicate ThreeRunOk(s: Three, ops: seq<Op>)
    requires ThreeOk(s)
    decreases ops
  {
    ops == [] || (OpOk(ops[0], s.focus, s.views[s.focus]) && ThreeRunOk(ThreeStep(s, ops[0]), ops[1..]))
  }

  function ThreeRun(s: Three, ops: seq<Op>): (r: Three)
    requires ThreeOk(s) && ThreeRunOk(s, ops)
    ensures ThreeOk(r)
    decreases ops
  {
    if ops == [] then s else ThreeRun(ThreeStep(s, ops[0]), ops[1..])
  }

  /** What the representation stands for. */
  function Shown(m: Mux): (r: Three)
    requires MuxOk(m)
    ensures ThreeOk(r)
  {
    Three(m.mods, m.curr, seq(NUM_TERMS, t requires 0 <= t < NUM_TERMS => ViewOf(m, t)))
  }

  /** A view whose line is empty and clear. */
  predicate NothingTyped(v: View)
    requires Wf(v)
  {
    v.len == 0 && v.keys[0] == NUL
  }

  /** A read by a hidden terminal is one of its own line if and only if there is nothing in its line nor in
      the one on display, which it takes away. */
  lemma HiddenReadIsOwnIff(m: Mux, reader: nat)
    requires MuxOk(m) && reader < NUM_TERMS && reader != m.curr
    ensures var s := Shown(m);
      (Shown(ReadHidden(m, reader)) == s.(views := s.views[reader := Consumed(s.views[reader])])) <==>
        (NothingTyped(m.live) && NothingTyped(m.saved[reader]))
    ensures NothingTyped(m.live) && NothingTyped(m.saved[reader]) ==> forall n: nat :: Delivered(m.live, n) == Delivered(m.saved[reader], n)
  {
    var s, r := Shown(m), Shown(ReadHidden(m, reader));
    var own := s.(views := s.views[reader := Consumed(s.views[reader])]);
    assert r.views[m.curr] == Consumed(m.live).(entered := m.live.entered) && own.views[m.curr] == m.live;
    assert r.views[reader] == m.saved[reader].(entered := false) && own.views[reader] == Consumed(m.saved[reader]);
    CleanLineIff(m.live);
    CleanLineIff(m.saved[reader]);
    if NothingTyped(m.live) && NothingTyped(m.saved[reader]) {
      assert r.views == own.views;
    }
  }

  /** Clearing a line changes nothing exactly if there is nothing in it. */
  lemma CleanLineIff(v: View)
    requires Wf(v)
    ensures Consumed(v) == v.(entered := false) <==> NothingTyped(v)
  {
    var keys := ClearedKeys(v.keys, v.len);
    assert keys[0] == NUL;
    if NothingTyped(v) {
      assert keys == v.keys;
    }
  }

  lemma {:induction false} StepRefines(m: Mux, op: Op)
    requires MuxOk(m) && OpOk(op, m.curr, m.live)
    ensures Shown(MuxStep(m, op)) == ThreeStep(Shown(m), op)
  {
  }

  /** Every run of writes, keys and switches is a run of three independent terminals. */
  lemma {:induction false} RunRefines(m: Mux, ops: seq<Op>)
    requires MuxOk(m)
    ensures RunOk(m, ops) == ThreeRunOk(Shown(m), ops)
    ensures RunOk(m, ops) ==> Shown(MuxRun(m, ops)) == ThreeRun(Shown(m), ops)
    decreases ops
  {
    if ops != [] && OpOk(ops[0], m.curr, m.live) {
      StepRefines(m, ops[0]);
      RunRefines(MuxStep(m, ops[0]), ops[1..]);
    }
  }

  /** Writing in the background and then switching is switching and then writing. */
  lemma {:induction false} WriteCommutesWithSwitch(m: Mux, writer: nat, bytes: seq<byte>, target: nat)
    requires MuxOk(m) && writer < NUM_TERMS && target < NUM_TERMS
    requires writer in {m.curr, target} ==> StaysOnScreen(ViewOf(m, writer).screen, Attribute(writer), bytes)
    ensures var a, b := Write(writer, bytes), Switch(target);
      Shown(MuxStep(MuxStep(m, a), b)) == Shown(MuxStep(MuxStep(m, b), a))
  {
    var a, b := Write(writer, bytes), Switch(target);
    StepRefines(m, a);
    StepRefines(MuxStep(m, a), b);
    StepRefines(m, b);
    StepRefines(MuxStep(m, b), a);
  }

  /** Everything a terminal's programs wrote during a run. */
  function Output(t: nat, ops: seq<Op>): seq<byte> {
    if ops == [] then []
    else (if ops[0].Write? && ops[0].term == t then ops[0].bytes else []) + Output(t, ops[1..])
  }

  /** Writes and switches. */
  predicate OutputOnly(ops: seq<Op>) {
    forall i | 0 <= i < |ops| :: ops[i].Write? || ops[i].Switch?
  }

  lemma {:induction false} OutputReachesScreen(s: Three, ops: seq<Op>, t: nat)
    requires ThreeOk(s) && ThreeRunOk(s, ops) && t < NUM_TERMS
    requires OutputOnly(ops)
    ensures ThreeRun(s, ops).views[t] == Written(s.views[t], t, Output(t, ops))
    decreases ops
  {
    if ops != [] {
      var next := ThreeStep(s, ops[0]);
      OutputReachesScreen(next, ops[1..], t);
      assert ops[0].Write? || ops[0].Switch?;
      if ops[0].Write? && ops[0].term == t {
        PutAllConcat(s.views[t].screen, Attribute(t), ops[0].bytes, Output(t, ops[1..]));
      } else {
        assert next.views[t] == s.views[t];
        assert [] + Output(t, ops[1..]) == Output(t, ops[1..]);
      }
    }
  }

  function FreshView(t: nat): (r: View)
    ensures Wf(r)
  {
    View(Cleared(Attribute(t)), seq(KEYBOARD_BUFFER_SIZE, i => NUL), 0, false)
  }

  /** Terminal 0 on display and three empty terminals. */
  function Booted(): (r: Mux)
    ensures MuxOk(r)
  {
    Mux(Modifiers(0, false, false, false), 0, FreshView(0), seq(NUM_TERMS, t requires 0 <= t => FreshView(t)))
  }

  lemma FirstOfThree(s: Three, ops: seq<Op>) returns (r: Three)
    requires ThreeOk(s) && ThreeRunOk(s, ops) && ops != []
    ensures ThreeOk(r) && OpOk(ops[0], s.focus, s.views[s.focus]) && r == ThreeStep(s, ops[0])
    ensures ThreeRunOk(r, ops[1..]) && ThreeRun(s, ops) == ThreeRun(r, ops[1..])
  {
    r := ThreeStep(s, ops[0]);
  }

  /** A run whose first step leads to r; the run of the rest from r gives all of it, whatever follows. */
  lemma RunFrom(s: Three, ops: seq<Op>, more: seq<Op>) returns (r: Three)
    requires ThreeOk(s) && ThreeRunOk(s, ops) && ops != []
    ensures ThreeOk(r) && ThreeRunOk(r, ops[1..]) && ThreeRun(s, ops) == ThreeRun(r, ops[1..])
    ensures ThreeRunOk(r, ops[1..] + more) ==>
              ThreeRunOk(s, ops + more) && ThreeRun(s, ops + more) == ThreeRun(r, ops[1..] + more)
  {
    r := ThreeStep(s, ops[0]);
    var all := ops + more;
    assert all[0] == ops[0] && all[1..] == ops[1..] + more;
  }

  lemma {:induction false} ThreeRunConcat(s: Three, a: seq<Op>, b: seq<Op>)
    requires ThreeOk(s) && ThreeRunOk(s, a) && ThreeRunOk(ThreeRun(s, a), b)
    ensures ThreeRunOk(s, a + b) && ThreeRun(s, a + b) == ThreeRun(ThreeRun(s, a), b)
    decreases a
  {
    if a == [] {
      assert a + b == b;
    } else {
      var r := RunFrom(s, a, b);
      ThreeRunConcat(r, a[1..], b);
    }
  }

  // ----- a switch that the timer interrupts -----

  /** The outgoing terminal's copy is v, its line is cleared, and it is still the current one. */
  function SaveAs(m: Mux, v: View): (r: Mux)
    requires MuxOk(m) && Wf(v) && v.entered == m.live.entered
    ensures MuxOk(r)
  {
    m.(saved := m.saved[m.curr := v], live := m.live.(keys := ClearedKeys(m.live.keys, m.live.len), len := 0))
  }

  /** A screen with the cursor of another one. */
  function WithCursor(s: Screen, c: Screen): Screen {
    Screen(s.mem, c.col, c.row)
  }

  /** The first part of save_term_info(): the cursor is saved and the saved line cleared, and interrupts are on again. */
  function SavePlace(m: Mux): (r: Mux)
    requires MuxOk(m)
    ensures MuxOk(r)
  {
    var v := m.saved[m.curr];
    m.(saved := m.saved[m.curr := v.(screen := WithCursor(v.screen, m.live.screen), keys := ClearedKeys(v.keys, m.live.len), len := 0)])
  }

  /** What the second part saves: everything as it is then, but for the cursor. */
  function Copied(m: Mux): (r: View)
    requires MuxOk(m)
    ensures Wf(r) && r.entered == m.live.entered
  {
    m.live.(screen := WithCursor(m.live.screen, m.saved[m.curr].screen))
  }

  /** The second part of save_term_info(): the copies. */
  function SaveScreen(m: Mux): (r: Mux)
    requires MuxOk(m)
    ensures MuxOk(r)
  {
    SaveAs(m, Copied(m))
  }

  /** What restore_term_info() and the change of the current terminal leave. */
  function RestoreHalf(m: Mux, t: nat): (r: Mux)
    requires MuxOk(m) && t < NUM_TERMS
    ensures MuxOk(r)
  {
    m.(curr := t, live := m.saved[t])
  }

  lemma SavedWhole(m: Mux)
    requires MuxOk(m)
    ensures SaveScreen(SavePlace(m)) == SaveAs(m, m.live)
  {
  }

  /** Between the save and the restore there is nothing to read. */
  lemma NothingToRead(m: Mux, n: nat)
    requires MuxOk(m)
    ensures Delivered(SaveScreen(m).live, n) == [] && NothingTyped(SaveScreen(m).live)
  {
  }

  /** Uninterrupted, the parts are a switch. */
  lemma PartsAreSwitch(m: Mux, t: nat)
    requires MuxOk(m) && t < NUM_TERMS && t != m.curr
    ensures RestoreHalf(SaveScreen(SavePlace(m)), t) == MuxStep(m, Switch(t))
  {
    SavedWhole(m);
  }

  lemma FreshIsBooted(m: Mux)
    requires MuxOk(m) && m.curr == 0 && m.mods == Modifiers(0, false, false, false)
    requires forall t: nat | t < NUM_TERMS :: m.saved[t] == FreshView(t)
    ensures RestoreHalf(m, 0) == Booted()
  {
    assert m.saved == Booted().saved;
  }

  predicate Writes(ops: seq<Op>) {
    forall i | 0 <= i < |ops| :: ops[i].Write?
  }

  lemma {:induction false} WritesRun(m: Mux, ops: seq<Op>)
    requires MuxOk(m) && Writes(ops) && RunOk(m, ops)
    ensures var r := MuxRun(m, ops); r.curr == m.curr && r.mods == m.mods && r.saved[m.curr] == m.saved[m.curr]
    decreases ops
  {
    if ops != [] {
      assert ops[0].Write?;
      WritesRun(MuxStep(m, ops[0]), ops[1..]);
    }
  }

  lemma {:induction false} WritesRunThree(s: Three, ops: seq<Op>)
    requires ThreeOk(s) && Writes(ops) && ThreeRunOk(s, ops)
    ensures ThreeRun(s, ops).focus == s.focus && ThreeRun(s, ops).mods == s.mods
    decreases ops
  {
    if ops != [] {
      assert ops[0].Write?;
      WritesRunThree(ThreeStep(s, ops[0]), ops[1..]);
    }
  }

  /** The writes and then a whole switch, on three independent terminals. */
  ghost function WholeSwitch(s: Three, t: nat, ops: seq<Op>): (r: Three)
    requires ThreeOk(s) && t < NUM_TERMS && ThreeRunOk(s, ops)
    ensures ThreeOk(r)
  {
    ThreeStep(ThreeRun(s, ops), Switch(t))
  }

  /** The writes that come after a copy v of the outgoing terminal is saved, and before the restore. */
  predicate GapOk(m: Mux, v: View, gap: seq<Op>)
    requires MuxOk(m) && Wf(v) && v.entered == m.live.entered
  {
    Writes(gap) && RunOk(SaveAs(m, v), gap)
  }

  ghost function Resumed(m: Mux, v: View, t: nat, gap: seq<Op>): (r: Mux)
    requires MuxOk(m) && Wf(v) && v.entered == m.live.entered && t < NUM_TERMS && GapOk(m, v, gap)
    ensures MuxOk(r)
  {
    RestoreHalf(MuxRun(SaveAs(m, v), gap), t)
  }

  ghost predicate SameScreens(s: Three, q: Three) {
    && ThreeOk(s) && ThreeOk(q) && s.focus == q.focus
    && forall t: nat | t < NUM_TERMS :: s.views[t].screen == q.views[t].screen
  }

  /** Whether writes stay on the screens depends on nothing else. */
  lemma {:induction false} SameWrites(s: Three, q: Three, ops: seq<Op>)
    requires SameScreens(s, q) && Writes(ops) && ThreeRunOk(s, ops)
    ensures ThreeRunOk(q, ops)
    decreases ops
  {
    if ops != [] {
      assert ops[0].Write?;
      SameWrites(ThreeStep(s, ops[0]), ThreeStep(q, ops[0]), ops[1..]);
    }
  }

  lemma GapRuns(m: Mux, v: View, gap: seq<Op>)
    requires MuxOk(m) && Wf(v) && v.entered == m.live.entered && GapOk(m, v, gap)
    ensures ThreeRunOk(Shown(SaveAs(m, v)), gap) && ThreeRunOk(Shown(m), gap)
  {
    RunRefines(SaveAs(m, v), gap);
    SameWrites(Shown(SaveAs(m, v)), Shown(m), gap);
  }

  lemma ResumedAt(m: Mux, v: View, t: nat, gap: seq<Op>, u: nat)
    requires MuxOk(m) && Wf(v) && v.entered == m.live.entered && GapOk(m, v, gap)
    requires t < NUM_TERMS && t != m.curr && u < NUM_TERMS
    ensures ThreeRunOk(Shown(m), gap)
    ensures Shown(Resumed(m, v, t, gap)).views[u] == if u == m.curr then v else WholeSwitch(Shown(m), t, gap).views[u]
  {
    var n := SaveAs(m, v);
    GapRuns(m, v, gap);
    WritesRun(n, gap);
    if u != m.curr {
      RunRefines(n, gap);
      WritesRunThree(Shown(m), gap);
      WritesRunThree(Shown(n), gap);
      OutputReachesScreen(Shown(m), gap, u);
      OutputReachesScreen(Shown(n), gap, u);
      assert Shown(MuxRun(n, gap)).views[u] == ViewOf(MuxRun(n, gap), u);
    }
  }

  /** Everything happens as with a whole switch, but the outgoing terminal is what was saved of it. */
  lemma ResumedIs(m: Mux, v: View, t: nat, gap: seq<Op>)
    requires MuxOk(m) && Wf(v) && v.entered == m.live.entered && GapOk(m, v, gap) && t < NUM_TERMS && t != m.curr
    ensures ThreeRunOk(Shown(m), gap)
    ensures var whole := WholeSwitch(Shown(m), t, gap);
      Shown(Resumed(m, v, t, gap)) == whole.(views := whole.views[m.curr := v])
  {
    GapRuns(m, v, gap);
    WritesRun(SaveAs(m, v), gap);
    WritesRunThree(Shown(m), gap);
    var split, whole := Shown(Resumed(m, v, t, gap)), WholeSwitch(Shown(m), t, gap);
    forall u: nat | u < NUM_TERMS ensures split.views[u] == if u == m.curr then v else whole.views[u] {
      ResumedAt(m, v, t, gap, u);
    }
    assert split.views == whole.views[m.curr := v];
  }

  /** What other programs write in the middle of the save, and between it and the restore. */
  predicate Interrupts(m: Mux, early: seq<Op>, late: seq<Op>)
    requires MuxOk(m)
  {
    && Writes(early) && RunOk(SavePlace(m), early)
    && var n := MuxRun(SavePlace(m), early); GapOk(n, Copied(n), late)
  }

  /** A switch in whose gaps other programs get the processor and write. */
  ghost function SplitSwitch(m: Mux, t: nat, early: seq<Op>, late: seq<Op>): (r: Mux)
    requires MuxOk(m) && t < NUM_TERMS && Interrupts(m, early, late)
    ensures MuxOk(r)
  {
    RestoreHalf(MuxRun(SaveScreen(MuxRun(SavePlace(m), early)), late), t)
  }

  /** What is saved of the outgoing terminal: its early output, but the cursor from before it. */
  function Kept(m: Mux, early: seq<Op>): (r: View)
    requires MuxOk(m)
    ensures Wf(r)
  {
    m.live.(screen := WithCursor(PutAll(m.live.screen, Attribute(m.curr), Output(m.curr, early)), m.live.screen))
  }

  /** The state in the middle of the save, after the early writes. */
  lemma EarlyWrites(m: Mux, early: seq<Op>) returns (n: Mux)
    requires MuxOk(m) && Writes(early) && RunOk(SavePlace(m), early)
    ensures MuxOk(n) && n == MuxRun(SavePlace(m), early) && n.curr == m.curr && Copied(n) == Kept(m, early)
    ensures ThreeRunOk(Shown(m), early) && Shown(n) == ThreeRun(Shown(m), early)
  {
    n := MuxRun(SavePlace(m), early);
    assert Shown(SavePlace(m)) == Shown(m);
    RunRefines(SavePlace(m), early);
    WritesRun(SavePlace(m), early);
    OutputReachesScreen(Shown(m), early, m.curr);
    assert Shown(n).views[m.curr] == n.live;
  }

  /** A switch that other programs interrupt is as whole after all their writes, but for the outgoing terminal. */
  lemma SplitSwitchKeeps(m: Mux, t: nat, early: seq<Op>, late: seq<Op>)
    requires MuxOk(m) && t < NUM_TERMS && t != m.curr && Interrupts(m, early, late)
    ensures ThreeRunOk(Shown(m), early + late)
    ensures var whole := WholeSwitch(Shown(m), t, early + late);
      Shown(SplitSwitch(m, t, early, late)) == whole.(views := whole.views[m.curr := Kept(m, early)])
  {
    var n := EarlyWrites(m, early);
    ResumedIs(n, Copied(n), t, late);
    ThreeRunConcat(Shown(m), early, late);
  }

  /** It is a whole one if and only if what the outgoing terminal writes in all leaves its screen as what
      it writes in the middle of the save would with the cursor put back. */
  lemma SplitSwitchRefinesIff(m: Mux, t: nat, early: seq<Op>, late: seq<Op>)
    requires MuxOk(m) && t < NUM_TERMS && t != m.curr && Interrupts(m, early, late)
    ensures ThreeRunOk(Shown(m), early + late)
    ensures Shown(SplitSwitch(m, t, early, late)) == WholeSwitch(Shown(m), t, early + late)
       <==> PutAll(m.live.screen, Attribute(m.curr), Output(m.curr, early + late)) == Kept(m, early).screen
  {
    var ops := early + late;
    SplitSwitchKeeps(m, t, early, late);
    OutputReachesScreen(Shown(m), ops, m.curr);
    ReplacesIff(WholeSwitch(Shown(m), t, ops).views, m.curr, Kept(m, early));
  }

  lemma ReplacesIff(views: seq<View>, t: nat, v: View)
    requires t < |views|
    ensures views[t := v] == views <==> views[t] == v
  {
    assert views[t := v][t] == v;
  }

  lemma PutMovesCursor(s: Screen, attr: byte, c: byte)
    requires OnScreen(s) && c != TAB && !IsBreak(c)
    ensures Put(s, attr, c).col == if s.col == NUM_COLS - 1 then 0 else s.col + 1
  {
  }

  lemma OneMoreCharacter(s: Screen, attr: byte, c: byte, col: nat)
    requires OnScreen(s) && c != TAB && !IsBreak(c) && s.col == col % NUM_COLS
    ensures Put(s, attr, c).col == (col + 1) % NUM_COLS
  {
    PutMovesCursor(s, attr, c);
    ModSuccessor(col, NUM_COLS);
  }

  predicate OnlyCharacters(bytes: seq<byte>) {
    forall i | 0 <= i < |bytes| :: bytes[i] != TAB && !IsBreak(bytes[i])
  }

  lemma {:induction false} PrintingMovesCursor(s: Screen, attr: byte, bytes: seq<byte>)
    requires OnScreen(s) && OnlyCharacters(bytes)
    ensures PutAll(s, attr, bytes).col == (s.col + |bytes|) % NUM_COLS
    decreases bytes
  {
    if bytes != [] {
      var front, c := bytes[..|bytes| - 1], bytes[|bytes| - 1];
      PrintingMovesCursor(s, attr, front);
      OneMoreCharacter(PutAll(s, attr, front), attr, c, s.col + |front|);
    }
  }

  /** In particular it is not if the outgoing terminal writes any part of a line in between. */
  lemma PartOfALineIsLost(m: Mux, t: nat, early: seq<Op>, late: seq<Op>)
    requires MuxOk(m) && t < NUM_TERMS && t != m.curr && Interrupts(m, early, late)
    requires var out := Output(m.curr, early + late); |out| < NUM_COLS && OnlyCharacters(out)
    ensures ThreeRunOk(Shown(m), early + late)
    ensures Shown(SplitSwitch(m, t, early, late)) == WholeSwitch(Shown(m), t, early + late)
       <==> Output(m.curr, early + late) == []
  {
    SplitSwitchRefinesIff(m, t, early, late);
    OutputConcat(m.curr, early, late);
    PartOfALineIsVisible(m.live.screen, Attribute(m.curr), Output(m.curr, early), Output(m.curr, early + late));
  }

  lemma ColumnMoves(col: nat, n: nat)
    requires col < NUM_COLS && n < NUM_COLS
    ensures (col + n) % NUM_COLS == if col + n < NUM_COLS then col + n else col + n - NUM_COLS
  {
  }

  lemma PartOfALineMovesCursor(s: Screen, attr: byte, part: seq<byte>)
    requires OnScreen(s) && 0 < |part| < NUM_COLS && OnlyCharacters(part)
    ensures PutAll(s, attr, part).col != s.col
  {
    PrintingMovesCursor(s, attr, part);
    ColumnMoves(s.col, |part|);
  }

  lemma PartOfALineIsVisible(s: Screen, attr: byte, early: seq<byte>, all: seq<byte>)
    requires OnScreen(s) && |early| <= |all| < NUM_COLS && OnlyCharacters(all)
    ensures PutAll(s, attr, all) == WithCursor(PutAll(s, attr, early), s) <==> all == []
  {
    var t := WithCursor(PutAll(s, attr, early), s);
    if all == [] {
      assert early == [] && t == s;
    } else {
      PartOfALineMovesCursor(s, attr, all);
      assert t.col == s.col;
    }
  }

  lemma {:induction false} OutputConcat(t: nat, a: seq<Op>, b: seq<Op>)
    ensures Output(t, a + b) == Output(t, a) + Output(t, b)
    decreases a
  {
    if a == [] {
      assert a + b == b;
    } else {
      assert (a + b)[0] == a[0] && (a + b)[1..] == a[1..] + b;
      OutputConcat(t, a[1..], b);
    }
  }

  /** An operation, or a switch with other programs' writes in the middle of its save and behind it. */
  datatype Timed = Whole(op: Op) | Split(term: nat, early: seq<Op>, late: seq<Op>)

  /** The operations in the order in which they begin to have an effect, each of them whole. */
  function Flat(xs: seq<Timed>): seq<Op> {
    if xs == [] then [] else FlatOne(xs[0]) + Flat(xs[1..])
  }

  function FlatOne(x: Timed): seq<Op> {
    if x.Whole? then [x.op] else x.early + x.late + [Switch(x.term)]
  }

  /** A switch is interrupted harmlessly: the outgoing terminal shows nothing new in between. */
  ghost predicate TimedOk(m: Mux, x: Timed)
    requires MuxOk(m)
  {
    match x
    case Whole(op) => OpOk(op, m.curr, m.live)
    case Split(t, early, late) =>
      && t < NUM_TERMS && t != m.curr && Interrupts(m, early, late)
      && PutAll(m.live.screen, Attribute(m.curr), Output(m.curr, early + late)) == Kept(m, early).screen
  }

  ghost function TimedStep(m: Mux, x: Timed): (r: Mux)
    requires MuxOk(m) && TimedOk(m, x)
    ensures MuxOk(r)
  {
    match x
    case Whole(op) => MuxStep(m, op)
    case Split(t, early, late) => SplitSwitch(m, t, early, late)
  }

  ghost predicate TimedRunOk(m: Mux, xs: seq<Timed>)
    requires MuxOk(m)
    decreases xs
  {
    xs == [] || (TimedOk(m, xs[0]) && TimedRunOk(TimedStep(m, xs[0]), xs[1..]))
  }

  ghost function TimedRun(m: Mux, xs: seq<Timed>): (r: Mux)
    requires MuxOk(m) && TimedRunOk(m, xs)
    ensures MuxOk(r)
    decreases xs
  {
    if xs == [] then m else TimedRun(TimedStep(m, xs[0]), xs[1..])
  }

  lemma OneStep(s: Three, op: Op)
    requires ThreeOk(s) && OpOk(op, s.focus, s.views[s.focus])
    ensures ThreeRunOk(s, [op]) && ThreeRun(s, [op]) == ThreeStep(s, op)
  {
    assert [op][1..] == [];
  }

  lemma TimedStepRefines(m: Mux, x: Timed)
    requires MuxOk(m) && TimedOk(m, x)
    ensures ThreeRunOk(Shown(m), FlatOne(x)) && Shown(TimedStep(m, x)) == ThreeRun(Shown(m), FlatOne(x))
  {
    var s := Shown(m);
    match x
    case Whole(op) =>
      StepRefines(m, op);
      OneStep(s, op);
    case Split(t, early, late) =>
      var ops := early + late;
      SplitSwitchRefinesIff(m, t, early, late);
      OneStep(ThreeRun(s, ops), Switch(t));
      ThreeRunConcat(s, ops, [Switch(t)]);
  }

  /** Runs whose switches are interrupted harmlessly are runs of three independent terminals too. */
  lemma {:induction false} TimedRunRefines(m: Mux, xs: seq<Timed>)
    requires MuxOk(m) && TimedRunOk(m, xs)
    ensures ThreeRunOk(Shown(m), Flat(xs)) && Shown(TimedRun(m, xs)) == ThreeRun(Shown(m), Flat(xs))
    decreases xs
  {
    if xs != [] {
      var q := FirstTimed(m, xs);
      TimedRunRefines(q, xs[1..]);
      ThreeRunConcat(Shown(m), FlatOne(xs[0]), Flat(xs[1..]));
    }
  }

  lemma FirstTimed(m: Mux, xs: seq<Timed>) returns (q: Mux)
    requires xs != [] && MuxOk(m) && TimedRunOk(m, xs)
    ensures MuxOk(q) && TimedRunOk(q, xs[1..]) && TimedRun(m, xs) == TimedRun(q, xs[1..])
    ensures ThreeRunOk(Shown(m), FlatOne(xs[0])) && Shown(q) == ThreeRun(Shown(m), FlatOne(xs[0]))
  {
    TimedStepRefines(m, xs[0]);
    q := TimedStep(m, xs[0]);
  }

  /**
   However writes of the three terminals and switches between them interleave, even inside a switch
   as long as the outgoing terminal shows nothing new there, every terminal, shown or hidden, shows
   the layout of its own output, if that has no tabs, and nothing else.
   */
  lemma {:induction false} EveryTerminalShowsItsOwnOutput(xs: seq<Timed>, t: nat)
    requires TimedRunOk(Booted(), xs) && OutputOnly(Flat(xs)) && t < NUM_TERMS && TAB !in Output(t, Flat(xs))
    ensures Shows(ViewOf(TimedRun(Booted(), xs), t).screen, Attribute(t), Rows(Output(t, Flat(xs))))
  {
    var start, ops := Shown(Booted()), Flat(xs);
    assert start.views[t] == FreshView(t);
    TimedRunRefines(Booted(), xs);
    OutputReachesScreen(start, ops, t);
    StreamShowsLayout(Attribute(t), Output(t, ops));
    assert Shown(TimedRun(Booted(), xs)).views[t] == ViewOf(TimedRun(Booted(), xs), t);
  }
}
