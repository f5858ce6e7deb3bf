/** The timer interrupt and the terminal switch, over the console, the page tables and the saved contexts. */
module Kernel {
  import opened Types
  import opened Multiplexer
  import opened Console
  import opened Scheduler
  import Paging
  import PageTables
  import RoundRobin
  import System

  const PHYSICAL_VIDEO := 0xB8000
  const PHYSICAL_BACKUPS := 0xB9000

  class Kernel {
    const console: Console
    const paging: PageTables.PageTables
    const tasks: array<Task>
    const pcbs: array<Regs>
    var runningTerm: nat
    var nextTerm: nat
    var curPid: int
    var esp: u32
    var ebp: u32
    var tssEsp0: u32
    var tssSs0: u16

    constructor (terminals: Console, tables: PageTables.PageTables)
      ensures console == terminals && paging == tables && fresh(pcbs) && fresh(tasks)
      ensures pcbs.Length == MAX_PROCESSES && tasks.Length == NUM_TERMS
      ensures runningTerm == nextTerm == 0 && curPid == 0
      ensures forall t | 0 <= t < NUM_TERMS :: tasks[t].runningPid == NO_PROCESS
    {
      console, paging := terminals, tables;
      tasks := new Task[NUM_TERMS](_ => Task(NO_PROCESS, 0, 0));
      pcbs := new Regs[MAX_PROCESSES](_ => Regs(0, 0));
      runningTerm, nextTerm, curPid, esp, ebp, tssEsp0, tssSs0 := 0, 0, 0, 0, 0, 0, 0;
    }

    ghost function Sched(): Sched
      reads this, this`runningTerm, tasks, pcbs, paging`program
    {
      Scheduler.Sched(runningTerm, Cpu(esp, ebp, tssEsp0, tssSs0), tasks[..], pcbs[..], curPid,
                      if paging.program.Some? then paging.program.value else NO_PROCESS)
    }

    /** The terminals, the schedule and the window, between two switches of the display. */
    ghost function State(): System.State
      requires console.Apart() && console.Valid()
      reads this, this`runningTerm, tasks, pcbs, paging`program, paging`window, console.Repr()
    {
      System.State(console.Model(), Sched(), paging.window, None)
    }

    /** get_next_process() */
    method GetNextProcess() returns (pid: int)
      requires SchedOk(Sched())
      modifies this`nextTerm
      ensures nextTerm == RoundRobin.Next(System.ActiveFlags(Sched()), runningTerm)
      ensures pid == tasks[nextTerm].runningPid
    {
      ghost var active := System.ActiveFlags(Sched());
      nextTerm := runningTerm;
      var i := 0;
      while i < NUM_TERMS
        invariant i <= NUM_TERMS && nextTerm < NUM_TERMS
        invariant RoundRobin.Next(active, runningTerm)
               == RoundRobin.Search(active, nextTerm, NUM_TERMS - i)
      {
        RoundRobin.AfterIsModulo(NUM_TERMS, nextTerm);
        nextTerm := (nextTerm + 1) % NUM_TERMS;
        if tasks[nextTerm].runningPid != NO_PROCESS {
          break;
        }
        i := i + 1;
      }
      pid := tasks[nextTerm].runningPid;
    }

    /** vidmap(), and remap_vid() to the backup of terminal t if another one is shown. */
    method MapWindowFor(t: nat, shown: nat)
      requires paging.Valid() && t < NUM_TERMS
      modifies paging`tlb, paging`window, paging.pageDirectory, paging.pageTable
      ensures paging.Valid()
      ensures paging.window == Some(System.VideoFrame(t, shown))
    {
      paging.MapWindow(PHYSICAL_VIDEO);
      if t != shown {
        paging.MapWindow(PHYSICAL_BACKUPS + 0x1000 * t);
      }
    }

    /** The console's storage is none of the kernel's other storage. */
    lemma StoredApart()
      requires console.Apart()
      ensures console.Repr() !! {this, tasks, pcbs, paging, paging.pageDirectory, paging.pageTable}
    {
    }

    /** The mapping leaves the console as it is. */
    method MapShownWindow(t: nat)
      requires console.Apart() && console.Valid() && paging.Valid() && t < NUM_TERMS
      modifies paging`tlb, paging`window, paging.pageDirectory, paging.pageTable
      ensures paging.Valid() && paging.window == Some(System.VideoFrame(t, console.currTerm))
      ensures console.Valid() && console.Model() == old(console.Model())
    {
      StoredApart();
      MapWindowFor(t, console.currTerm);
      console.Unchanged();
    }

    /** The stores of schedule() into the old terminal's entry and control block. */
    method SaveContext(t: nat)
      requires t < tasks.Length && 0 <= tasks[t].runningPid < pcbs.Length
      modifies tasks, pcbs
      ensures tasks[..] == old(tasks[..])[t := old(tasks[t]).(esp0 := tssEsp0, ss0 := tssSs0)]
      ensures pcbs[..] == old(pcbs[..])[old(tasks[t]).runningPid := Regs(esp, ebp)]
    {
      tasks[t] := tasks[t].(esp0 := tssEsp0);
      tasks[t] := tasks[t].(ss0 := tssSs0);
      pcbs[tasks[t].runningPid] := Regs(esp, ebp);
    }

    /** The first half of schedule(): the window, and the old context. */
    method SwitchOut() returns (newTerminal: Task)
      requires paging.Valid() && tasks.Length == NUM_TERMS && nextTerm < NUM_TERMS && runningTerm < NUM_TERMS
      requires 0 <= tasks[runningTerm].runningPid < pcbs.Length
      modifies tasks, pcbs, paging`tlb, paging`window, paging.pageDirectory, paging.pageTable
      ensures paging.Valid() && paging.window == Some(System.VideoFrame(nextTerm, console.currTerm))
      ensures newTerminal == old(tasks[nextTerm])
      ensures tasks[..] == old(tasks[..])[runningTerm := old(tasks[runningTerm]).(esp0 := tssEsp0, ss0 := tssSs0)]
      ensures pcbs[..] == old(pcbs[..])[old(tasks[runningTerm]).runningPid := Regs(esp, ebp)]
    {
      MapWindowFor(nextTerm, console.currTerm);
      newTerminal := tasks[nextTerm];
      SaveContext(runningTerm);
    }

    /** The second half: the address space, and the new context. */
    method SwitchIn(newTerminal: Task, process: nat)
      requires paging.Valid() && process < MAX_PROCESSES && process < pcbs.Length
      modifies this`esp, this`ebp, this`tssEsp0, this`tssSs0, this`curPid, this`runningTerm
      modifies paging`tlb, paging`program, paging.pageDirectory
      ensures paging.Valid() && paging.program == Some(process) && runningTerm == nextTerm
      ensures esp == pcbs[process].currEsp && ebp == pcbs[process].currEbp
      ensures tssEsp0 == newTerminal.esp0 && tssSs0 == newTerminal.ss0 && curPid == process
    {
      runningTerm := nextTerm;
      paging.MapProgram(process);
      tssSs0 := newTerminal.ss0;
      tssEsp0 := newTerminal.esp0;
      curPid := process;
      esp, ebp := pcbs[process].currEsp, pcbs[process].currEbp;
    }

    /** schedule(), as far as the two stack pointers; the return on the new stack is the resumed process. */
    method Schedule(process: nat)
      requires paging.Valid() && SchedOk(Sched())
      requires nextTerm < NUM_TERMS && tasks[nextTerm].runningPid == process
      modifies this`esp, this`ebp, this`tssEsp0, this`tssSs0, this`curPid, this`runningTerm, tasks, pcbs
      modifies paging`tlb, paging`program, paging`window, paging.pageDirectory, paging.pageTable
      ensures paging.Valid()
      ensures paging.window == Some(System.VideoFrame(nextTerm, console.currTerm))
      ensures Sched() == Switched(old(Sched()), nextTerm)
    {
      var newTerminal := SwitchOut();
      SwitchIn(newTerminal, process);
    }

    /** The body of pit_interrupt_handler(). */
    method Dispatch()
      requires paging.Valid() && SchedOk(Sched())
      modifies this, tasks, pcbs
      modifies paging`tlb, paging`program, paging`window, paging.pageDirectory, paging.pageTable
      ensures paging.Valid()
      ensures Sched() == System.TickedSched(old(Sched()))
      ensures paging.window == System.TickedWindow(old(Sched()), console.currTerm, old(paging.window))
    {
      if tasks[1].runningPid != NO_PROCESS || tasks[2].runningPid != NO_PROCESS {
        ghost var next := System.NextTerm(Sched());
        var process := GetNextProcess();
        Schedule(process);
      }
    }

    /** It leaves the console as it is. */
    method DispatchApart()
      requires console.Apart() && console.Valid() && paging.Valid() && SchedOk(Sched())
      modifies this, tasks, pcbs
      modifies paging`tlb, paging`program, paging`window, paging.pageDirectory, paging.pageTable
      ensures paging.Valid()
      ensures Sched() == System.TickedSched(old(Sched()))
      ensures paging.window == System.TickedWindow(old(Sched()), console.currTerm, old(paging.window))
      ensures console.Valid() && console.Model() == old(console.Model())
    {
      StoredApart();
      Dispatch();
      console.Unchanged();
    }

    /** pit_interrupt_handler() */
    method PitInterruptHandler()
      requires console.Apart() && console.Valid() && paging.Valid() && SchedOk(Sched())
      modifies this, tasks, pcbs
      modifies paging`tlb, paging`program, paging`window, paging.pageDirectory, paging.pageTable
      ensures paging.Valid() && console.Valid()
      ensures State() == System.Step(old(State()), System.Tick)
    {
      DispatchApart();
      StateTicks();
    }

    /** The two states around a tick, put together. */
    twostate lemma StateTicks()
      requires console.Apart() && old(console.Valid()) && console.Valid() && console.Model() == old(console.Model())
      requires old(SchedOk(Sched())) && Sched() == System.TickedSched(old(Sched()))
      requires paging.window == System.TickedWindow(old(Sched()), old(console.Model()).curr, old(paging.window))
      ensures State() == System.Step(old(State()), System.Tick)
    {
    }

    /** The branch of launch_term() for a terminal without a process, up to execute(): the process that is
        running is left where it can be resumed, and the window as it is. */
    method FirstLaunch(id: nat)
      requires console.Apart() && console.Valid() && id < NUM_TERMS && id != console.currTerm && HasBlock()
      modifies console, console.video, console.keyboardBuffer
      modifies console.term[console.currTerm], console.term[console.currTerm].vidBackup
      modifies console.term[console.currTerm].termKeyBuf, pcbs
      ensures console.Valid()
      ensures console.Model() == MuxStep(old(console.Model()), Multiplexer.Op.Switch(id))
      ensures HasBlock() && pcbs[..] == old(pcbs[..])[tasks[runningTerm].runningPid := Regs(esp, ebp)]
    {
      var switched := console.LaunchTerm(id);
      SaveStack();
    }

    /** The running terminal has a process, and this has a control block. */
    ghost predicate HasBlock()
      reads this, tasks
    {
      runningTerm < tasks.Length && 0 <= tasks[runningTerm].runningPid < pcbs.Length
    }

    method SaveStack()
      requires console.Apart() && console.Valid() && HasBlock()
      modifies pcbs
      ensures pcbs[..] == old(pcbs[..])[tasks[runningTerm].runningPid := Regs(esp, ebp)]
      ensures console.Valid() && console.Model() == old(console.Model())
    {
      pcbs[tasks[runningTerm].runningPid] := Regs(esp, ebp);
      console.Unchanged();
    }

    /** launch_term() of a terminal that has a process, with nothing in between. */
    method LaunchTerm(id: nat)
      requires console.Apart() && console.Valid() && paging.Valid() && SchedOk(Sched()) && IsActive(Sched(), id)
      modifies console, console.video, console.keyboardBuffer
      modifies console.term[console.currTerm], console.term[console.currTerm].vidBackup
      modifies console.term[console.currTerm].termKeyBuf
      modifies paging`tlb, paging`window, paging.pageDirectory, paging.pageTable
      ensures paging.Valid() && console.Valid()
      ensures State() == System.Launched(old(State()), id)
    {
      SwitchDisplay(id);
      StateLaunches(id);
    }

    /** The console's part of the switch, which leaves the page tables as they are. */
    method SwitchConsole(id: nat) returns (switched: bool)
      requires console.Apart() && console.Valid() && paging.Valid() && id < NUM_TERMS
      modifies console, console.video, console.keyboardBuffer
      modifies console.term[console.currTerm], console.term[console.currTerm].vidBackup
      modifies console.term[console.currTerm].termKeyBuf
      ensures paging.Valid() && paging.window == old(paging.window)
      ensures console.Valid() && console.currTerm == id && switched == (id != old(console.currTerm))
      ensures console.Model() == MuxStep(old(console.Model()), Multiplexer.Op.Switch(id))
    {
      switched := console.LaunchTerm(id);
    }

    /** The console's part of the switch, and the mapping of the window. */
    method SwitchDisplay(id: nat)
      requires console.Apart() && console.Valid() && paging.Valid()
      requires id < NUM_TERMS && runningTerm < NUM_TERMS
      modifies console, console.video, console.keyboardBuffer
      modifies console.term[console.currTerm], console.term[console.currTerm].vidBackup
      modifies console.term[console.currTerm].termKeyBuf
      modifies paging`tlb, paging`window, paging.pageDirectory, paging.pageTable
      ensures paging.Valid() && console.Valid()
      ensures console.Model() == MuxStep(old(console.Model()), Multiplexer.Op.Switch(id))
      ensures paging.window == if id == old(console.currTerm) then old(paging.window)
                               else Some(System.VideoFrame(runningTerm, id))
    {
      StoredApart();
      var switched := SwitchConsole(id);
      if switched {
        MapShownWindow(runningTerm);
      }
    }

    twostate lemma StateLaunches(id: nat)
      requires console.Apart() && old(console.Valid()) && console.Valid() && old(SchedOk(Sched())) && old(IsActive(Sched(), id))
      requires Sched() == old(Sched()) && id < NUM_TERMS
      requires console.Model() == MuxStep(old(console.Model()), Multiplexer.Op.Switch(id))
      requires paging.window == if id == old(console.Model()).curr then old(paging.window)
                                else Some(System.VideoFrame(old(Sched()).running, id))
      ensures State() == System.Launched(old(State()), id)
    {
    }
  }
}
