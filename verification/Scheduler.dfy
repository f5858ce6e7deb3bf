/**
 The context switch as a step on saved and live processor state.  Seen from outside every
 active terminal has a processor of its own, which a switch does not disturb.
 */
module Scheduler {
  import opened Types

  const NO_PROCESS := -1

  /** The processor state that a switch saves and loads. */
  datatype Cpu = Cpu(esp: u32, ebp: u32, esp0: u32, ss0: u16)

  /** The registers in a process control block. */
  datatype Regs = Regs(currEsp: u32, currEbp: u32)

  /** The scheduling half of one entry of the terminal table: its process, and the stack it takes interrupts on. */
  datatype Task = Task(runningPid: int, ss0: u16, esp0: u32)

  /** The scheduler's variables; `mapped` is the process whose frame is mapped at 128 MBytes. */
  datatype Sched = Sched(running: nat, cpu: Cpu, tasks: seq<Task>, regs: seq<Regs>, curPid: int, mapped: int)

  predicate IsActive(s: Sched, t: nat)
    requires |s.tasks| == NUM_TERMS
  {
    t < NUM_TERMS && s.tasks[t].runningPid != NO_PROCESS
  }

  /** Active terminals run different processes, and the running terminal is active. */
  ghost predicate SchedOk(s: Sched) {
    && |s.tasks| == NUM_TERMS
    && |s.regs| == MAX_PROCESSES
    && IsActive(s, s.running)
    && (forall t: nat | t < NUM_TERMS && s.tasks[t].runningPid != NO_PROCESS :: 0 <= s.tasks[t].runningPid < MAX_PROCESSES)
    && (forall t, u | 0 <= t < u < NUM_TERMS && s.tasks[t].runningPid != NO_PROCESS :: s.tasks[t].runningPid != s.tasks[u].runningPid)
  }

  /** What schedule() does: the stack of the new terminal is read before that of the old one is saved. */
  function Switched(s: Sched, next: nat): Sched
    requires SchedOk(s) && IsActive(s, next)
  {
    var newTerminal := s.tasks[next];
    var regs := s.regs[s.tasks[s.running].runningPid := Regs(s.cpu.esp, s.cpu.ebp)];
    var pid := s.tasks[next].runningPid;
    Sched(next, Cpu(regs[pid].currEsp, regs[pid].currEbp, newTerminal.esp0, newTerminal.ss0),
          s.tasks[s.running := s.tasks[s.running].(esp0 := s.cpu.esp0, ss0 := s.cpu.ss0)], regs, pid, pid)
  }

  /** The state that the process of an active terminal resumes with or is running with. */
  function Context(s: Sched, t: nat): Cpu
    requires SchedOk(s) && IsActive(s, t)
  {
    if t == s.running then s.cpu
    else
      var r := s.regs[s.tasks[t].runningPid];
      Cpu(r.currEsp, r.currEbp, s.tasks[t].esp0, s.tasks[t].ss0)
  }

  /** A switch between two terminals gives every process the state it had, the resumed one included. */
  lemma SwitchKeepsContexts(s: Sched, next: nat, t: nat)
    requires SchedOk(s) && IsActive(s, next) && next != s.running && IsActive(s, t)
    ensures SchedOk(Switched(s, next)) && IsActive(Switched(s, next), t)
    ensures Context(Switched(s, next), t) == Context(s, t)
  {
  }

  /** A switch of a terminal to itself keeps its state exactly if the saved stack is still the current one. */
  lemma SwitchToItselfIff(s: Sched)
    requires SchedOk(s)
    ensures SchedOk(Switched(s, s.running))
    ensures Context(Switched(s, s.running), s.running) == Context(s, s.running)
        <==> s.tasks[s.running].esp0 == s.cpu.esp0 && s.tasks[s.running].ss0 == s.cpu.ss0
  {
  }

  /** The running process computes, or a tick takes the processor away from it. */
  datatype Op = Work(cpu: Cpu) | Switch(next: nat)

  predicate OpOk(s: Sched, op: Op)
    requires SchedOk(s)
  {
    op.Switch? ==> IsActive(s, op.next) && op.next != s.running
  }

  function Step(s: Sched, op: Op): Sched
    requires SchedOk(s) && OpOk(s, op)
  {
    match op
    case Work(cpu) => s.(cpu := cpu)
    case Switch(next) => Switched(s, next)
  }

  ghost predicate SamePids(r: Sched, s: Sched) {
    |r.tasks| == |s.tasks| && forall t | 0 <= t < |s.tasks| :: r.tasks[t].runningPid == s.tasks[t].runningPid
  }

  lemma StepOk(s: Sched, op: Op)
    requires SchedOk(s) && OpOk(s, op)
    ensures SchedOk(Step(s, op)) && SamePids(Step(s, op), s)
  {
  }

  ghost predicate RunOk(s: Sched, ops: seq<Op>)
    requires SchedOk(s)
    decreases ops
  {
    ops == [] || (OpOk(s, ops[0]) && (StepOk(s, ops[0]); RunOk(Step(s, ops[0]), ops[1..])))
  }

  ghost function Run(s: Sched, ops: seq<Op>): (r: Sched)
    requires SchedOk(s) && RunOk(s, ops)
    ensures SchedOk(r) && SamePids(r, s)
    decreases ops
  {
    if ops == [] then s
    else
      StepOk(s, ops[0]);
      Run(Step(s, ops[0]), ops[1..])
  }

  /** One processor for each terminal; only the running one computes. */
  function OwnContext(c: Cpu, running: nat, ops: seq<Op>, t: nat): Cpu
    decreases ops
  {
    if ops == [] then c
    else match ops[0]
      case Work(cpu) => OwnContext(if t == running then cpu else c, running, ops[1..], t)
      case Switch(next) => OwnContext(c, next, ops[1..], t)
  }

  /**
   Over every run of work and switches, the state of every terminal's process is what that
   process computed itself: a resumed process gets what it had when it was switched out.
   */
  lemma {:induction false} EveryProcessHasItsOwnProcessor(s: Sched, ops: seq<Op>, t: nat)
    requires SchedOk(s) && RunOk(s, ops) && IsActive(s, t)
    ensures IsActive(Run(s, ops), t)
    ensures Context(Run(s, ops), t) == OwnContext(Context(s, t), s.running, ops, t)
    decreases ops
  {
    if ops != [] {
      StepOk(s, ops[0]);
      if ops[0].Switch? {
        SwitchKeepsContexts(s, ops[0].next, t);
      }
      EveryProcessHasItsOwnProcessor(Step(s, ops[0]), ops[1..], t);
    }
  }

  /** The current process, the running terminal's process and the mapped program are one. */
  predicate NamesAgree(s: Sched)
    requires |s.tasks| == NUM_TERMS && s.running < NUM_TERMS
  {
    s.curPid == s.tasks[s.running].runningPid == s.mapped
  }

  lemma {:induction false} NamesAlwaysAgree(s: Sched, ops: seq<Op>)
    requires SchedOk(s) && RunOk(s, ops)
    requires NamesAgree(s) || exists i :: 0 <= i < |ops| && ops[i].Switch?
    ensures NamesAgree(Run(s, ops))
    decreases ops
  {
    if ops != [] {
      StepOk(s, ops[0]);
      if !NamesAgree(s) && !ops[0].Switch? {
        var i :| 0 <= i < |ops| && ops[i].Switch?;
        assert ops[1..][i - 1].Switch?;
      }
      NamesAlwaysAgree(Step(s, ops[0]), ops[1..]);
    }
  }
}
