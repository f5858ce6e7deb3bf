/**
 32-bit paging as the kernel uses it: one page directory with 4-MByte pages and one page
 table that two directory entries share.  Translation follows the Intel 64 and IA-32
 Architectures Software Developer's Manual, Volume 3A, sections 4.3 and 4.6.
 */
module Paging {
  import opened Types

  const NUMBER_ENTRIES := 1024
  const FOUR_MB := 0x40_0000
  const VIDEO_ADDR := 0xB8
  const PROGRAM := 32
  const VIDEO_WINDOW := 33
  const KERNEL := 1

  type bit = x: int | 0 <= x < 2
  type bits3 = x: int | 0 <= x < 8
  type bits9 = x: int | 0 <= x < 512
  type bits10 = x: int | 0 <= x < 1024
  type bits20 = x: int | 0 <= x < 0x10_0000

  /** The bit-fields of a directory entry in the layout of a 4-MByte page, lowest first. */
  datatype Pde = Pde(p: bit, rw: bit, us: bit, pwt: bit, pcd: bit, a: bit, d: bit, ps: bit, g: bit,
                     avail: bits3, pat: bit, reserved: bits9, base: bits10)

  datatype Pte = Pte(p: bit, rw: bit, us: bit, pwt: bit, pcd: bit, a: bit, d: bit, pat: bit, g: bit,
                     avail: bits3, base: bits20)

  /** The 32-bit word that the fields make up: a field and, above it, the rest of the word. */
  function Word(e: Pde): int {
    e.p + 2 * (e.rw + 2 * (e.us + 2 * (e.pwt + 2 * (e.pcd + 2 * (e.a + 2 * (e.d + 2 * (e.ps + 2 * (e.g
    + 2 * (e.avail + 8 * (e.pat + 2 * (e.reserved + 512 * e.base)))))))))))
  }

  function OfWord(w: u32): Pde {
    var w1 := w / 2;
    var w2 := w1 / 2;
    var w3 := w2 / 2;
    var w4 := w3 / 2;
    var w5 := w4 / 2;
    var w6 := w5 / 2;
    var w7 := w6 / 2;
    var w8 := w7 / 2;
    var w9 := w8 / 2;
    var w12 := w9 / 8;
    var w13 := w12 / 2;
    Pde(w % 2, w1 % 2, w2 % 2, w3 % 2, w4 % 2, w5 % 2, w6 % 2, w7 % 2, w8 % 2, w9 % 8, w12 % 2, w13 % 512, w13 / 512)
  }

  /** The upper 20 bits, which the other layout of the entry calls the page table's base address. */
  function TableBase(e: Pde): (f: bits20) {
    e.pat + 2 * e.reserved + 1024 * e.base
  }

  function WithTableBase(e: Pde, f: bits20): (r: Pde)
    ensures TableBase(r) == f
    ensures r.(pat := e.pat, reserved := e.reserved, base := e.base) == e
  {
    e.(pat := f % 2, reserved := f / 2 % 512, base := f / 1024)
  }

  /** The page directory, the one page table and the frame that holds it. */
  datatype Tables = Tables(pd: seq<Pde>, pt: seq<Pte>, ptFrame: bits20)

  predicate TablesOk(t: Tables) {
    |t.pd| == NUMBER_ENTRIES && |t.pt| == NUMBER_ENTRIES
  }

  /** What a page walk reads as page tables in frames other than the kernel's table. */
  type Memory = (bits20, bits10) -> Pte

  /** A translation of one 4-KByte page: the frame, and who may use it how. */
  datatype Mapping = Mapping(frame: nat, user: bool, write: bool, global: bool)

  function Leaf(e: Pde, pte: Pte): Option<Mapping> {
    if pte.p == 0 then None
    else Some(Mapping(pte.base, e.us == 1 && pte.us == 1, e.rw == 1 && pte.rw == 1, pte.g == 1))
  }

  /** The walk for the page with the given directory and table index. */
  function Walk(t: Tables, other: Memory, dir: nat, table: nat): Option<Mapping>
    requires TablesOk(t) && dir < NUMBER_ENTRIES && table < NUMBER_ENTRIES
  {
    var e := t.pd[dir];
    if e.p == 0 then None
    else if e.ps == 1 then
      Some(Mapping(0x10_0000 * (e.reserved % 256) + 1024 * e.base + table, e.us == 1, e.rw == 1, e.g == 1))
    else
      Leaf(e, if TableBase(e) == t.ptFrame then t.pt[table] else other(TableBase(e), table))
  }

  function ProgramEntry(base: bits10): Pde {
    Pde(1, 1, 1, 0, 0, 0, 0, 1, 0, 0, 0, 0, base)
  }

  function TableEntry(us: bit, ptFrame: bits20): Pde {
    WithTableBase(Pde(1, 1, us, 0, 0, 0, 0, 0, 0, 0, 0, 0, 0), ptFrame)
  }

  /** What remap() leaves. */
  function Remapped(t: Tables, pde: nat, base: bits10): Tables
    requires TablesOk(t) && pde < NUMBER_ENTRIES
  {
    t.(pd := t.pd[pde := ProgramEntry(base)])
  }

  /** What remap_vid() leaves. */
  function RemappedVid(t: Tables, pde: nat, frame: bits20): Tables
    requires TablesOk(t) && pde < NUMBER_ENTRIES
  {
    t.(pd := t.pd[pde := TableEntry(1, t.ptFrame)],
       pt := t.pt[0 := t.pt[0].(rw := 1, us := 1, p := 1, base := frame)])
  }

  function InitialPde(i: nat, ptFrame: bits20): Pde
    requires i < NUMBER_ENTRIES
  {
    if i == 0 then TableEntry(0, ptFrame)
    else if i == KERNEL then Pde(1, 1, 0, 0, 0, 0, 0, 1, 1, 0, 0, 0, 1)
    else Pde(0, 1, 0, 0, 0, 0, 0, 0, 0, 0, 0, 0, i)
  }

  function InitialPte(i: nat): Pte
    requires i < NUMBER_ENTRIES
  {
    Pte(if VIDEO_ADDR <= i <= VIDEO_ADDR + 3 then 1 else 0, 1, 0, 0, 0, 0, 0, 0, 0, 0, i)
  }

  /** What set_up_PD_PT() leaves. */
  function Initial(ptFrame: bits20): (t: Tables)
    ensures TablesOk(t)
  {
    Tables(seq(NUMBER_ENTRIES, i requires 0 <= i < NUMBER_ENTRIES => InitialPde(i, ptFrame)),
           seq(NUMBER_ENTRIES, i requires 0 <= i < NUMBER_ENTRIES => InitialPte(i)),
           ptFrame)
  }

  /** Every 32-bit word is the word of its fields, so the record has the whole entry. */
  lemma FieldsAreTheWord(w: u32)
    ensures Word(OfWord(w)) == w
  {
  }

  lemma ProgramEntryWord(base: bits10)
    ensures Word(ProgramEntry(base)) == base * 0x40_0000 + 0x87
  {
  }

  /** remap() maps its 4 MBytes to consecutive frames for the user, and changes no other translation. */
  lemma RemapChangesOnlyItsPages(t: Tables, other: Memory, pde: nat, base: bits10, dir: nat, table: nat)
    requires TablesOk(t) && pde < NUMBER_ENTRIES && dir < NUMBER_ENTRIES && table < NUMBER_ENTRIES
    ensures Walk(Remapped(t, pde, base), other, dir, table)
         == if dir == pde then Some(Mapping(1024 * base + table, true, true, false))
            else Walk(t, other, dir, table)
  {
  }

  /** A directory entry that walks through the kernel's page table. */
  predicate UsesTable(t: Tables, dir: nat)
    requires TablesOk(t) && dir < NUMBER_ENTRIES
  {
    t.pd[dir].p == 1 && t.pd[dir].ps == 0 && TableBase(t.pd[dir]) == t.ptFrame
  }

  /** remap_vid() changes its own 4 MBytes, and page 0 of every directory entry that shares the table. */
  lemma RemapVidChangesOnly(t: Tables, other: Memory, pde: nat, frame: bits20, dir: nat, table: nat)
    requires TablesOk(t) && pde < NUMBER_ENTRIES && dir < NUMBER_ENTRIES && table < NUMBER_ENTRIES
    ensures var u := RemappedVid(t, pde, frame);
      Walk(u, other, dir, table)
      == if dir == pde then Leaf(TableEntry(1, t.ptFrame), u.pt[table])
         else if table == 0 && UsesTable(t, dir) then Leaf(t.pd[dir], u.pt[0])
         else Walk(t, other, dir, table)
  {
  }

  datatype Op = Remap(pid: nat) | RemapVid(frame: bits20)

  predicate OpOk(op: Op) {
    op.Remap? ==> op.pid < MAX_PROCESSES
  }

  /** The 4-MByte frame of a process: the first is at 8 MBytes. */
  function ProgramBase(pid: nat): (b: bits10)
    requires pid < MAX_PROCESSES
  {
    2 + pid
  }

  function Step(t: Tables, op: Op): (r: Tables)
    requires TablesOk(t) && OpOk(op)
    ensures TablesOk(r)
  {
    match op
    case Remap(pid) => Remapped(t, PROGRAM, ProgramBase(pid))
    case RemapVid(frame) => RemappedVid(t, VIDEO_WINDOW, frame)
  }

  function Run(t: Tables, ops: seq<Op>): (r: Tables)
    requires TablesOk(t) && forall i | 0 <= i < |ops| :: OpOk(ops[i])
    ensures TablesOk(r)
  {
    if ops == [] then t
    else
      assert OpOk(ops[|ops| - 1]);
      Step(Run(t, ops[..|ops| - 1]), ops[|ops| - 1])
  }

  /** The process that the last remap() of a run mapped. */
  function LastPid(ops: seq<Op>): Option<nat> {
    if ops == [] then None
    else if ops[|ops| - 1].Remap? then Some(ops[|ops| - 1].pid)
    else LastPid(ops[..|ops| - 1])
  }

  /** The frame that the last remap_vid() of a run mapped. */
  function LastFrame(ops: seq<Op>): Option<bits20> {
    if ops == [] then None
    else if ops[|ops| - 1].RemapVid? then Some(ops[|ops| - 1].frame)
    else LastFrame(ops[..|ops| - 1])
  }

  /** The tables that the last mappings of a run determine. */
  function Configured(ptFrame: bits20, pid: Option<nat>, frame: Option<bits20>): (r: Tables)
    requires pid.Some? ==> pid.value < MAX_PROCESSES
    ensures TablesOk(r)
  {
    var t := Initial(ptFrame);
    var u := if pid.Some? then Remapped(t, PROGRAM, ProgramBase(pid.value)) else t;
    if frame.Some? then RemappedVid(u, VIDEO_WINDOW, frame.value) else u
  }

  lemma {:induction false} RunIsConfigured(ptFrame: bits20, ops: seq<Op>)
    requires forall i | 0 <= i < |ops| :: OpOk(ops[i])
    ensures LastPid(ops).Some? ==> LastPid(ops).value < MAX_PROCESSES
    ensures Run(Initial(ptFrame), ops) == Configured(ptFrame, LastPid(ops), LastFrame(ops))
  {
    if ops != [] {
      var front, op := ops[..|ops| - 1], ops[|ops| - 1];
      assert OpOk(op);
      RunIsConfigured(ptFrame, front);
      StepConfigures(ptFrame, LastPid(front), LastFrame(front), op);
    }
  }

  lemma StepConfigures(ptFrame: bits20, pid: Option<nat>, frame: Option<bits20>, op: Op)
    requires OpOk(op) && (pid.Some? ==> pid.value < MAX_PROCESSES)
    ensures Step(Configured(ptFrame, pid, frame), op)
         == Configured(ptFrame, if op.Remap? then Some(op.pid) else pid, if op.RemapVid? then Some(op.frame) else frame)
  {
  }

  /**
   After any run of remap() and remap_vid() a user program reaches exactly the 4 MBytes of
   the last process mapped and the one page of the last video frame mapped.
   */
  lemma {:induction false} UserReachesExactly(ptFrame: bits20, other: Memory, ops: seq<Op>, dir: nat, table: nat)
    requires forall i | 0 <= i < |ops| :: OpOk(ops[i])
    requires dir < NUMBER_ENTRIES && table < NUMBER_ENTRIES
    ensures LastPid(ops).Some? ==> LastPid(ops).value < MAX_PROCESSES
    ensures var m := Walk(Run(Initial(ptFrame), ops), other, dir, table);
      if dir == PROGRAM && LastPid(ops).Some? then
        m == Some(Mapping(1024 * ProgramBase(LastPid(ops).value) + table, true, true, false))
      else if dir == VIDEO_WINDOW && table == 0 && LastFrame(ops).Some? then
        m == Some(Mapping(LastFrame(ops).value, true, true, false))
      else
        m.Some? ==> !m.value.user
  {
    RunIsConfigured(ptFrame, ops);
  }

  lemma ConfiguredPde(ptFrame: bits20, pid: Option<nat>, frame: Option<bits20>, dir: nat)
    requires (pid.Some? ==> pid.value < MAX_PROCESSES) && dir < NUMBER_ENTRIES
    ensures Configured(ptFrame, pid, frame).pd[dir]
         == if dir == VIDEO_WINDOW && frame.Some? then TableEntry(1, ptFrame)
            else if dir == PROGRAM && pid.Some? then ProgramEntry(ProgramBase(pid.value))
            else InitialPde(dir, ptFrame)
  {
  }

  lemma ConfiguredPte(ptFrame: bits20, pid: Option<nat>, frame: Option<bits20>, table: nat)
    requires (pid.Some? ==> pid.value < MAX_PROCESSES) && table < NUMBER_ENTRIES
    ensures Configured(ptFrame, pid, frame).pt[table]
         == if table == 0 && frame.Some? then Pte(1, 1, 1, 0, 0, 0, 0, 0, 0, 0, frame.value) else InitialPte(table)
  {
  }

  /** What the tables of a run map, outside of the program's 4 MBytes: the kernel's 4 MBytes and the four video
      pages are where they are in physical memory, and one page is the last video frame mapped. */
  function SystemMap(frame: Option<bits20>, dir: nat, table: nat): Option<Mapping> {
    if dir == 1 then Some(Mapping(1024 + table, false, true, true))
    else if dir != 0 && !(dir == 33 && frame.Some?) then None
    else if table == 0 && frame.Some? then Some(Mapping(frame.value, dir == 33, true, false))
    else if 0xB8 <= table <= 0xBB then Some(Mapping(table, false, true, false))
    else None
  }

  /** After any run every page of the address space is mapped as it should be. */
  lemma {:induction false} MapIsExactly(ptFrame: bits20, other: Memory, ops: seq<Op>, dir: nat, table: nat)
    requires forall i | 0 <= i < |ops| :: OpOk(ops[i])
    requires dir < NUMBER_ENTRIES && table < NUMBER_ENTRIES
    ensures LastPid(ops).Some? ==> LastPid(ops).value < 6
    ensures Walk(Run(Initial(ptFrame), ops), other, dir, table)
         == if dir == 32 && LastPid(ops).Some? then Some(Mapping(2048 + 1024 * LastPid(ops).value + table, true, true, false))
            else SystemMap(LastFrame(ops), dir, table)
  {
    var pid, frame := LastPid(ops), LastFrame(ops);
    RunIsConfigured(ptFrame, ops);
    ConfiguredPde(ptFrame, pid, frame, dir);
    ConfiguredPte(ptFrame, pid, frame, table);
  }

  /** Only the first 4 MBytes and the video window ever walk through the shared table. */
  lemma {:induction false} TableIsSharedByTwo(ptFrame: bits20, ops: seq<Op>, dir: nat)
    requires (forall i | 0 <= i < |ops| :: OpOk(ops[i])) && dir < NUMBER_ENTRIES
    ensures UsesTable(Run(Initial(ptFrame), ops), dir) <==> dir == 0 || (dir == VIDEO_WINDOW && LastFrame(ops).Some?)
  {
    RunIsConfigured(ptFrame, ops);
  }

  /** The 4-MByte frames of the kernel, of the six processes, and the video frames do not meet. */
  lemma FramesAreApart(p: nat, q: nat, i: nat, j: nat)
    requires p < MAX_PROCESSES && q < MAX_PROCESSES && i < 1024 && j < 1024
    ensures 1024 * ProgramBase(p) + i == 1024 * ProgramBase(q) + j ==> p == q && i == j
    ensures 1024 * ProgramBase(p) + i != 1024 * KERNEL + j
    ensures !(VIDEO_ADDR <= 1024 * ProgramBase(p) + i < VIDEO_ADDR + 1 + NUM_TERMS)
  {
  }

  // ----- the translation lookaside buffer, section 4.10 of the manual -----

  /** A cached translation of one page. */
  datatype Cached = Cached(dir: bits10, table: bits10, mapping: Mapping)

  ghost predicate Agrees(t: Tables, other: Memory, c: Cached)
    requires TablesOk(t)
  {
    Walk(t, other, c.dir, c.table) == Some(c.mapping)
  }

  ghost predicate AllAgree(t: Tables, other: Memory, tlb: set<Cached>)
    requires TablesOk(t)
  {
    forall c | c in tlb :: Agrees(t, other, c)
  }

  /** A TLB that has grown by translations of the current tables. */
  ghost predicate Filled(t: Tables, other: Memory, before: set<Cached>, after: set<Cached>)
    requires TablesOk(t)
  {
    before <= after && forall c | c in after :: c in before || Agrees(t, other, c)
  }

  /** No page table in the frame holds a present global entry. */
  ghost predicate Quiet(other: Memory, frame: bits20) {
    forall table: bits10 :: other(frame, table).p == 1 ==> other(frame, table).g == 0
  }

  /** A walk through the entry finds no global page. */
  ghost predicate NoGlobal(ptFrame: bits20, other: Memory, e: Pde) {
    || e.p == 0
    || (e.ps == 1 && e.g == 0)
    || (e.ps == 0 && (TableBase(e) == ptFrame || Quiet(other, TableBase(e))))
  }

  /** The kernel's 4 MBytes are the only global pages. */
  ghost predicate OnlyKernelGlobal(t: Tables, other: Memory)
    requires TablesOk(t)
  {
    && t.pd[KERNEL].p == 1 && t.pd[KERNEL].ps == 1
    && (forall dir: nat | dir < NUMBER_ENTRIES && dir != KERNEL :: NoGlobal(t.ptFrame, other, t.pd[dir]))
    && (forall i | 0 <= i < NUMBER_ENTRIES :: t.pt[i].g == 0)
  }

  /** The cached global entries are the kernel's, and agree. */
  ghost predicate GlobalsAgree(t: Tables, other: Memory, tlb: set<Cached>)
    requires TablesOk(t)
  {
    forall c | c in tlb && c.mapping.global :: c.dir == KERNEL && Agrees(t, other, c)
  }

  lemma CachedGlobalIsKernel(t: Tables, other: Memory, c: Cached)
    requires TablesOk(t) && OnlyKernelGlobal(t, other) && Agrees(t, other, c) && c.mapping.global
    ensures c.dir == KERNEL
  {
  }

  /** In the tables of a run only the kernel's pages are global, but for what lies in the two stray frames. */
  lemma ConfiguredIsQuiet(ptFrame: bits20, pid: Option<nat>, frame: Option<bits20>, other: Memory)
    requires pid.Some? ==> pid.value < MAX_PROCESSES
    ensures OnlyKernelGlobal(Configured(ptFrame, pid, frame), other)
  {
  }

  /** The entry that remap() makes of a directory entry with its first store: present, otherwise as it was. */
  function FirstStore(e: Pde): Pde {
    e.(p := 1)
  }

  /**
   Between the stores of the first remap() of an entry, a walk can reach a global page exactly
   if the frame that the half-written entry names as its page table holds one; a copy cached
   then disagrees with the tables that remap() leaves.
   */
  lemma StrayGlobalIff(t: Tables, other: Memory, pde: nat, base: bits10)
    requires TablesOk(t) && 2 <= pde < NUMBER_ENTRIES && t.pd[pde] == InitialPde(pde, t.ptFrame)
    requires 1024 * pde != t.ptFrame
    ensures var half := t.(pd := t.pd[pde := FirstStore(t.pd[pde])]);
      Quiet(other, 1024 * pde)
      <==> forall table: bits10 :: Walk(half, other, pde, table).Some? ==> !Walk(half, other, pde, table).value.global
    ensures forall table: bits10 ::
      Walk(Remapped(t, pde, base), other, pde, table).Some? && !Walk(Remapped(t, pde, base), other, pde, table).value.global
  {
    var half := t.(pd := t.pd[pde := FirstStore(t.pd[pde])]);
    forall table: bits10
      ensures Walk(half, other, pde, table) == Leaf(half.pd[pde], other(1024 * pde, table))
    {
      assert TableBase(half.pd[pde]) == 1024 * pde;
    }
  }
}
