/**
 Terminals, scheduler and video window together: which video frame a user program finds at
 132 MBytes while the user switches terminals and the timer switches processes.
 */
module System {
  import opened Types
  import opened TextMode
  import opened Keyboard
  import opened Multiplexer
  import RoundRobin
  import opened Scheduler
  import Paging

  /** The display's frame; the backup of terminal t is in the frame t places behind the next. */
  const VIDEO := Paging.VIDEO_ADDR
  const VIDEO_BACKUPS := Paging.VIDEO_ADDR + 1

  /** What is done of a switch: the cursor is saved, or the whole terminal, or the target is on display
      and the window still to be mapped. */
  datatype Stage = Placed | Saved | Restored

  /** A terminal switch under way in the program of terminal `runner`, with interrupts on between its parts. */
  datatype Launching = Launching(runner: nat, target: nat, stage: Stage)

  datatype State = State(mux: Mux, sched: Sched, window: Option<Paging.bits20>, launch: Option<Launching>)

  ghost predicate Ok(s: State) {
    && MuxOk(s.mux) && SchedOk(s.sched)
    && (s.launch.Some? ==> s.launch.value.target < NUM_TERMS)
    && (Gap(s) ==> s.launch.value.target != s.mux.curr)
  }

  predicate At(s: State, stage: Stage) {
    s.launch.Some? && s.launch.value.stage == stage
  }

  /** The outgoing terminal is still the current one. */
  predicate Gap(s: State) {
    At(s, Placed) || At(s, Saved)
  }

  /** The running program is itself in the middle of the switch. */
  predicate Switching(s: State) {
    s.launch.Some? && s.sched.running == s.launch.value.runner
  }

  /** What terminal t shows or will show again: a saved cursor counts at once, and a copy once it is made. */
  function Seen(s: State, t: nat): View
    requires MuxOk(s.mux) && t < NUM_TERMS
  {
    if t != s.mux.curr then s.mux.saved[t]
    else if At(s, Placed) then Copied(s.mux)
    else if At(s, Saved) then s.mux.saved[t]
    else s.mux.live
  }

  /** Where a program of terminal `running` must draw while terminal `shown` is on display. */
  function VideoFrame(running: nat, shown: nat): Paging.bits20
    requires running < NUM_TERMS
  {
    if running == shown then VIDEO else VIDEO_BACKUPS + running
  }

  predicate WindowOk(s: State)
    requires s.sched.running < NUM_TERMS
  {
    s.window == Some(VideoFrame(s.sched.running, s.mux.curr))
  }

  function ActiveFlags(s: Sched): (r: seq<bool>)
    requires |s.tasks| == NUM_TERMS
    ensures |r| == NUM_TERMS
  {
    seq(NUM_TERMS, t requires 0 <= t < NUM_TERMS => s.tasks[t].runningPid != NO_PROCESS)
  }

  function NextTerm(s: Sched): (r: nat)
    requires SchedOk(s)
    ensures IsActive(s, r)
  {
    RoundRobin.NextIsActiveIff(ActiveFlags(s), s.running);
    assert ActiveFlags(s)[s.running];
    RoundRobin.Next(ActiveFlags(s), s.running)
  }

  /** pit_interrupt_handler() looks at two of the three terminals to see whether there is anything to do. */
  predicate Guard(s: Sched)
    requires |s.tasks| == NUM_TERMS
  {
    s.tasks[1].runningPid != NO_PROCESS || s.tasks[2].runningPid != NO_PROCESS
  }

  function TickedSched(s: Sched): Sched
    requires SchedOk(s)
  {
    if Guard(s) then Switched(s, NextTerm(s)) else s
  }

  function TickedWindow(s: Sched, shown: nat, window: Option<Paging.bits20>): Option<Paging.bits20>
    requires SchedOk(s)
  {
    if Guard(s) then Some(VideoFrame(NextTerm(s), shown)) else window
  }

  function Ticked(s: State): State
    requires Ok(s)
  {
    s.(sched := TickedSched(s.sched), window := TickedWindow(s.sched, s.mux.curr, s.window))
  }

  /** launch_term() of a terminal that has a process, when nothing comes in between. */
  function Launched(s: State, t: nat): State
    requires Ok(s) && IsActive(s.sched, t)
  {
    if t == s.mux.curr then s
    else s.(mux := MuxStep(s.mux, Multiplexer.Op.Switch(t)), window := Some(VideoFrame(s.sched.running, t)))
  }

  /** A byte stored into a video frame: the display's memory or a terminal's backup. */
  function Stored(m: Mux, frame: Paging.bits20, offset: nat, b: byte): Mux
    requires MuxOk(m) && offset < SCREEN_SIZE
  {
    if frame == VIDEO then
      m.(live := m.live.(screen := m.live.screen.(mem := m.live.screen.mem[offset := b])))
    else if VIDEO_BACKUPS <= frame < VIDEO_BACKUPS + NUM_TERMS then
      var t := frame - VIDEO_BACKUPS;
      m.(saved := m.saved[t := m.saved[t].(screen := m.saved[t].screen.(mem := m.saved[t].screen.mem[offset := b]))])
    else m
  }

  /** A tick, the four parts of a terminal switch, and what programs and the user do. */
  datatype Event =
    | Tick
    | Begin(term: nat)
    | Copy
    | Restore
    | MapWindow
    | Work(cpu: Cpu)
    | Print(bytes: seq<byte>)
    | Press(code: nat)
    | Draw(offset: nat, b: byte)
    | Take(nbytes: int)

  ghost predicate EventOk(s: State, e: Event)
    requires Ok(s)
  {
    match e
    case Tick => true
    case Begin(t) => s.launch.None? && IsActive(s.sched, t) && t != s.mux.curr
    case Copy => At(s, Placed) && Switching(s)
    case Restore => At(s, Saved) && Switching(s)
    case MapWindow => At(s, Restored) && Switching(s)
    case Work(_) => true
    case Print(bytes) =>
      !Switching(s) && Multiplexer.OpOk(Multiplexer.Op.Write(s.sched.running, bytes), s.mux.curr, s.mux.live)
    case Press(code) => s.launch.None? && Multiplexer.OpOk(Multiplexer.Op.Key(code), s.mux.curr, s.mux.live)
    case Draw(offset, _) => !Switching(s) && offset < SCREEN_SIZE
    case Take(_) => !Switching(s) && s.sched.running == s.mux.curr && s.mux.live.entered
  }

  function Step(s: State, e: Event): State
    requires Ok(s) && EventOk(s, e)
  {
    match e
    case Tick => Ticked(s)
    case Begin(t) => s.(mux := SavePlace(s.mux), launch := Some(Launching(s.sched.running, t, Placed)))
    case Copy => s.(mux := SaveScreen(s.mux), launch := Some(s.launch.value.(stage := Saved)))
    case Restore =>
      s.(mux := RestoreHalf(s.mux, s.launch.value.target), launch := Some(s.launch.value.(stage := Restored)))
    case MapWindow => s.(window := Some(VideoFrame(s.sched.running, s.mux.curr)), launch := None)
    case Work(cpu) => s.(sched := s.sched.(cpu := cpu))
    case Print(bytes) => s.(mux := MuxStep(s.mux, Multiplexer.Op.Write(s.sched.running, bytes)))
    case Press(code) => s.(mux := MuxStep(s.mux, Multiplexer.Op.Key(code)))
    case Draw(offset, b) => if s.window.Some? then s.(mux := Stored(s.mux, s.window.value, offset, b)) else s
    case Take(n) => s.(mux := MuxStep(s.mux, Multiplexer.Op.Read(n)))
  }

  /** Uninterrupted, the four parts are the switch. */
  lemma PartsAreLaunch(s: State, t: nat)
    requires Ok(s) && s.launch.None? && IsActive(s.sched, t) && t != s.mux.curr
    ensures var s1 := Step(s, Begin(t));
      Ok(s1) && var s2 := Step(s1, Copy);
      Ok(s2) && var s3 := Step(s2, Restore);
      Ok(s3) && Step(s3, MapWindow) == Launched(s, t)
  {
    PartsAreSwitch(s.mux, t);
  }

  lemma TickKeepsOk(s: State)
    requires Ok(s)
    ensures Ok(Ticked(s)) && (Guard(s.sched) ==> WindowOk(Ticked(s)))
  {
    if Guard(s.sched) {
      if NextTerm(s.sched) == s.sched.running {
        SwitchToItselfIff(s.sched);
      } else {
        SwitchKeepsContexts(s.sched, NextTerm(s.sched), s.sched.running);
      }
    }
  }

  /** The window is right, unless the running program is about to map it. */
  predicate Settled(s: State)
    requires s.sched.running < NUM_TERMS
  {
    WindowOk(s) || (Switching(s) && At(s, Restored))
  }

  /** What programs and the user do to the terminals leaves everything else as it is. */
  lemma OnlyTerminalsChange(s: State, e: Event)
    requires Ok(s) && EventOk(s, e) && (e.Print? || e.Press? || e.Draw? || e.Take?)
    ensures var m := Step(s, e).mux; MuxOk(m) && m.curr == s.mux.curr && Step(s, e) == s.(mux := m)
  {
  }

  lemma StepKeepsOk(s: State, e: Event)
    requires Ok(s) && EventOk(s, e)
    ensures Ok(Step(s, e))
    ensures Settled(s) ==> Settled(Step(s, e))
  {
    if e.Tick? {
      TickKeepsOk(s);
    } else if e.Print? || e.Press? || e.Draw? || e.Take? {
      OnlyTerminalsChange(s, e);
    }
  }

  ghost predicate RunOk(s: State, events: seq<Event>)
    requires Ok(s)
    decreases events
  {
    events == [] ||
    (EventOk(s, events[0]) && (StepKeepsOk(s, events[0]); RunOk(Step(s, events[0]), events[1..])))
  }

  ghost function Run(s: State, events: seq<Event>): (r: State)
    requires Ok(s) && RunOk(s, events)
    ensures Ok(r)
    decreases events
  {
    if events == [] then s
    else
      StepKeepsOk(s, events[0]);
      Run(Step(s, events[0]), events[1..])
  }

  lemma FirstEvent(s: State, events: seq<Event>) returns (q: State)
    requires Ok(s) && RunOk(s, events) && events != []
    ensures EventOk(s, events[0]) && Ok(q) && q == Step(s, events[0])
    ensures RunOk(q, events[1..]) && Run(s, events) == Run(q, events[1..])
    ensures Settled(s) ==> Settled(q)
  {
    StepKeepsOk(s, events[0]);
    q := Step(s, events[0]);
  }

  /**
   Once a schedule or a switch has mapped the window, every program that is not itself switching finds
   there the display if its terminal is shown and that terminal's backup if it is not, however ticks
   and the parts of switches interleave.
   */
  lemma {:induction false} WindowFollows(s: State, events: seq<Event>)
    requires Ok(s) && RunOk(s, events) && Settled(s)
    ensures Settled(Run(s, events))
    ensures !Switching(Run(s, events)) ==> WindowOk(Run(s, events))
    decreases events
  {
    if events != [] {
      var q := FirstEvent(s, events);
      WindowFollows(q, events[1..]);
    }
  }

  /** A schedule maps the window, and so does the end of a switch. */
  lemma ScheduleAndSwitchMapTheWindow(s: State)
    requires Ok(s)
    ensures Guard(s.sched) ==> WindowOk(Ticked(s))
    ensures EventOk(s, MapWindow) ==> WindowOk(Step(s, MapWindow))
  {
    TickKeepsOk(s);
  }

  /** A view with one byte of its screen stored. */
  function DrawnView(v: View, offset: nat, b: byte): View
    requires OnScreen(v.screen) && offset < SCREEN_SIZE
  {
    v.(screen := v.screen.(mem := v.screen.mem[offset := b]))
  }

  /** The running program's output is lost: its terminal is saved already, and still the current one. */
  predicate Loses(s: State) {
    At(s, Saved) && s.sched.running == s.mux.curr
  }

  /** The running program's output is kept, but not where it ends: its terminal is in the middle of the save. */
  predicate Slips(s: State) {
    At(s, Placed) && s.sched.running == s.mux.curr
  }

  /** Drawing through the window changes one byte of the running terminal's own screen and no other view,
      unless that terminal is being switched away from, when it changes nothing that will be seen again. */
  lemma DrawingStaysOnOwnScreen(s: State, offset: nat, b: byte, t: nat)
    requires Ok(s) && WindowOk(s) && !Switching(s) && offset < SCREEN_SIZE && t < NUM_TERMS
    ensures MuxOk(Step(s, Draw(offset, b)).mux)
    ensures Seen(Step(s, Draw(offset, b)), t)
         == if t == s.sched.running && !Loses(s) then DrawnView(Seen(s, t), offset, b) else Seen(s, t)
  {
  }

  /** What the running program's terminal is to show after a print. */
  function PrintedView(s: State, bytes: seq<byte>): View
    requires Ok(s)
  {
    var t := s.sched.running;
    if Loses(s) then Seen(s, t)
    else if Slips(s) then
      Seen(s, t).(screen := WithCursor(PutAll(s.mux.live.screen, Attribute(t), bytes), Seen(s, t).screen))
    else Written(Seen(s, t), t, bytes)
  }

  /** So does printing, which leaves the cursor behind in the middle of a save. */
  lemma PrintingStaysOnOwnScreen(s: State, bytes: seq<byte>, t: nat)
    requires Ok(s) && EventOk(s, Print(bytes)) && t < NUM_TERMS
    ensures Seen(Step(s, Print(bytes)), t) == if t == s.sched.running then PrintedView(s, bytes) else Seen(s, t)
  {
  }

  /** The terminal whose screen or line an event may change. */
  function Target(s: State, e: Event): int {
    match e
    case Print(_) => s.sched.running
    case Draw(_, _) => s.sched.running
    case Take(_) => s.sched.running
    case Press(_) => s.mux.curr
    case _ => -1
  }

  lemma OnlyTheTargetChanges(s: State, e: Event, t: nat)
    requires Ok(s) && EventOk(s, e) && t < NUM_TERMS && t != Target(s, e) && Settled(s)
    ensures Ok(Step(s, e)) && Seen(Step(s, e), t) == Seen(s, t)
  {
    StepKeepsOk(s, e);
    match e
    case Draw(offset, b) => DrawingStaysOnOwnScreen(s, offset, b, t);
    case Print(bytes) => PrintingStaysOnOwnScreen(s, bytes, t);
    case _ =>
  }

  ghost predicate Bystander(s: State, events: seq<Event>, t: nat)
    requires Ok(s) && RunOk(s, events)
    decreases events
  {
    events == [] ||
    (t != Target(s, events[0]) && (StepKeepsOk(s, events[0]); Bystander(Step(s, events[0]), events[1..], t)))
  }

  /** However ticks and the parts of switches interleave, a terminal that nobody prints, draws, types or reads on stays as it is. */
  lemma {:induction false} BystanderKeepsItsView(s: State, events: seq<Event>, t: nat)
    requires Ok(s) && RunOk(s, events) && t < NUM_TERMS && Settled(s) && Bystander(s, events, t)
    ensures Seen(Run(s, events), t) == Seen(s, t)
    decreases events
  {
    if events != [] {
      var q := FirstEvent(s, events);
      OnlyTheTargetChanges(s, events[0], t);
      BystanderKeepsItsView(q, events[1..], t);
    }
  }

  // ----- whose turn it is -----

  function Ticks(k: nat): seq<Event> {
    seq(k, i => Tick)
  }

  /** Every tick runs the next active terminal, also when the handler finds nothing to do: then only the first one is active. */
  lemma TickPicks(s: State)
    requires Ok(s)
    ensures Ok(Step(s, Tick))
    ensures Step(s, Tick).sched.running == RoundRobin.Next(ActiveFlags(s.sched), s.sched.running)
    ensures ActiveFlags(Step(s, Tick).sched) == ActiveFlags(s.sched)
    ensures !ActiveFlags(s.sched)[1] && !ActiveFlags(s.sched)[2] ==> Step(s, Tick) == s
  {
    TickKeepsOk(s);
    var flags := ActiveFlags(s.sched);
    if !Guard(s.sched) {
      assert flags[s.sched.running] && !flags[1] && !flags[2];
      RoundRobin.NextIsActiveIff(flags, s.sched.running);
    } else {
      assert ActiveFlags(Step(s, Tick).sched) == flags;
    }
  }

  /** A run that begins with a tick. */
  lemma TickFirst(s: State, events: seq<Event>, all: seq<Event>) returns (q: State)
    requires Ok(s) && all == [Tick] + events
    ensures q == Ticked(s) && Ok(q) && ActiveFlags(q.sched) == ActiveFlags(s.sched)
    ensures q.sched.running == RoundRobin.Next(ActiveFlags(s.sched), s.sched.running)
    ensures (RunOk(q, events) <==> RunOk(s, all)) && (RunOk(q, events) ==> Run(s, all) == Run(q, events))
  {
    TickPicks(s);
    q := Step(s, Tick);
    assert all[0] == Tick && all[1..] == events;
  }

  predicate OnlyTicks(events: seq<Event>) {
    forall i | 0 <= i < |events| :: events[i] == Tick
  }

  /** Ticks can always come, and each of them is a pick. */
  lemma {:induction false} TicksRun(s: State, flags: seq<bool>, events: seq<Event>)
    requires Ok(s) && flags == ActiveFlags(s.sched) && OnlyTicks(events)
    ensures RunOk(s, events)
    ensures Run(s, events).sched.running == RoundRobin.PickAfter(flags, s.sched.running, |events|)
    decreases events
  {
    if events != [] {
      var rest := events[1..];
      assert events == [Tick] + rest;
      var q := TickFirst(s, rest, events);
      TicksRun(q, flags, rest);
    }
  }

  /** Ticks run the terminals that the round robin picks. */
  lemma {:induction false} TicksFollowPicks(s: State, k: nat)
    requires Ok(s) && k > 0
    ensures RunOk(s, Ticks(k))
    ensures Run(s, Ticks(k)).sched.running == RoundRobin.Picks(ActiveFlags(s.sched), s.sched.running, k)[k - 1]
  {
    TicksRun(s, ActiveFlags(s.sched), Ticks(k));
    RoundRobin.PickAfterIsLast(ActiveFlags(s.sched), s.sched.running, k);
  }

  /** Among as many ticks as there are active terminals, each of them has its turn. */
  lemma EveryTerminalRuns(s: State, t: nat) returns (k: nat)
    requires Ok(s) && IsActive(s.sched, t)
    ensures 1 <= k <= |RoundRobin.Active(ActiveFlags(s.sched))|
    ensures RunOk(s, Ticks(k)) && Run(s, Ticks(k)).sched.running == t
  {
    var flags := ActiveFlags(s.sched);
    var n := |RoundRobin.Active(flags)|;
    RoundRobin.EveryActiveTerminalGetsItsTurn(flags, s.sched.running);
    var picks := RoundRobin.Picks(flags, s.sched.running, n);
    assert flags[t] && t in picks;
    var i: nat :| i < n && picks[i] == t;
    k := i + 1;
    TicksFollowPicks(s, k);
    RoundRobin.PicksPrefix(flags, s.sched.running, k, n);
  }
}
