/**
 The paging driver: bit-field stores into the page directory and the page table, and a TLB
 that may cache any current translation at any moment, also between two stores.
 */
module PageTables {
  import opened Types
  import opened Paging

  class PageTables {
    const pageDirectory: array<Pde>
    const pageTable: array<Pte>
    const ptFrame: bits20
    ghost const other: Memory
    /** Whether the processor honours global entries when CR3 is reloaded. */
    ghost const pge: bool
    ghost var tlb: set<Cached>
    /** The process and the video frame mapped last, if any. */
    ghost var program: Option<nat>
    ghost var window: Option<bits20>

    ghost predicate Sized() {
      pageDirectory.Length == NUMBER_ENTRIES && pageTable.Length == NUMBER_ENTRIES
    }

    ghost function Model(): (t: Tables)
      requires Sized()
      reads pageDirectory, pageTable
      ensures TablesOk(t)
    {
      Tables(pageDirectory[..], pageTable[..], ptFrame)
    }

    /** What holds between any two stores: global translations, if they matter, are the kernel's. */
    ghost predicate Steady()
      requires Sized()
      reads this, pageDirectory, pageTable
    {
      pge ==> OnlyKernelGlobal(Model(), other) && GlobalsAgree(Model(), other, tlb)
    }

    /** The processor caches any current translations it likes. */
    ghost method Fill()
      requires Sized() && Steady()
      modifies this`tlb
      ensures Steady()
      ensures Filled(Model(), other, old(tlb), tlb)
    {
      assert Filled(Model(), other, tlb, tlb);
      var filled: set<Cached> :| Filled(Model(), other, tlb, filled);
      assert Filled(Model(), other, tlb, filled);
      assert forall c: Cached | c in filled :: c in tlb || Agrees(Model(), other, c);
      forall c | c in filled && c.mapping.global && pge
        ensures c.dir == KERNEL && Agrees(Model(), other, c)
      {
        if c !in tlb {
          CachedGlobalIsKernel(Model(), other, c);
        }
      }
      tlb := filled;
    }

    /** One store into the page directory, and whatever the processor caches after it. */
    method StorePde(i: nat, e: Pde)
      requires Sized() && Steady() && 2 <= i < NUMBER_ENTRIES
      requires pge ==> NoGlobal(ptFrame, other, e)
      modifies pageDirectory, this`tlb
      ensures pageDirectory[..] == old(pageDirectory[..])[i := e]
      ensures Steady()
    {
      ghost var before := Model();
      pageDirectory[i] := e;
      assert Model() == before.(pd := before.pd[i := e]);
      assert forall c | c in tlb && c.mapping.global && pge :: Agrees(before, other, c);
      Fill();
    }

    /** One store into the page table. */
    method StorePte(i: nat, e: Pte)
      requires Sized() && Steady() && i < NUMBER_ENTRIES && e.g == 0
      modifies pageTable, this`tlb
      ensures pageTable[..] == old(pageTable[..])[i := e]
      ensures Steady()
    {
      ghost var before := Model();
      pageTable[i] := e;
      assert Model() == before.(pt := before.pt[i := e]);
      assert forall c | c in tlb && c.mapping.global && pge :: Agrees(before, other, c);
      Fill();
    }

    /** flush_TLB(): reloading CR3 drops all entries but the global ones, of which some may survive. */
    method FlushTLB()
      requires Sized() && Steady()
      modifies this`tlb
      ensures Steady() && AllAgree(Model(), other, tlb)
    {
      ghost var kept: set<Cached> :| kept <= if pge then set c | c in tlb && c.mapping.global else {};
      tlb := kept;
      Fill();
    }

    /** What remap() and remap_vid() need of the old entry while they overwrite it field by field. */
    ghost predicate Replaceable(e: Pde) {
      pge ==> e.g == 0 && (TableBase(e) == ptFrame || Quiet(other, TableBase(e)))
    }

    /** An entry that finds no global page, present or not. */
    ghost predicate Harmless(e: Pde) {
      (e.ps == 1 && (pge ==> e.g == 0)) || Replaceable(e)
    }

    /** Two entries that lead to the same place. */
    predicate SamePlace(e: Pde, f: Pde) {
      e.ps == f.ps && e.g == f.g && e.pat == f.pat && e.reserved == f.reserved && e.base == f.base && e.avail == f.avail
    }

    lemma HarmlessAlike(e: Pde, f: Pde)
      requires Harmless(e) && SamePlace(e, f)
      ensures Harmless(f) && (pge ==> NoGlobal(ptFrame, other, f))
    {
    }

    /** A store that does not change where the entry leads. */
    method StoreBits(pde: nat, e: Pde)
      requires Sized() && Steady() && 2 <= pde < NUMBER_ENTRIES
      requires Harmless(pageDirectory[pde]) && SamePlace(pageDirectory[pde], e)
      modifies pageDirectory, this`tlb
      ensures pageDirectory[..] == old(pageDirectory[..])[pde := e]
      ensures Steady() && Harmless(e)
    {
      HarmlessAlike(pageDirectory[pde], e);
      StorePde(pde, e);
    }

    /** The stores of the access rights, which leave a half-written entry. */
    method StoreRights(pde: nat)
      requires Sized() && Steady() && 2 <= pde < NUMBER_ENTRIES && Harmless(pageDirectory[pde])
      modifies pageDirectory, this`tlb
      ensures pageDirectory[..] == old(pageDirectory[..])[pde := old(pageDirectory[pde]).(p := 1, rw := 1, us := 1, pwt := 0)]
      ensures Steady() && Harmless(pageDirectory[pde])
    {
      StoreBits(pde, pageDirectory[pde].(p := 1));
      StoreBits(pde, pageDirectory[pde].(rw := 1));
      StoreBits(pde, pageDirectory[pde].(us := 1));
      StoreBits(pde, pageDirectory[pde].(pwt := 0));
    }

    /** The stores up to the page size, which remap() makes while the entry may still name a page table. */
    method StoreFlags(pde: nat, ps: bit)
      requires Sized() && Steady() && 2 <= pde < NUMBER_ENTRIES
      requires var e := pageDirectory[pde]; (e.ps == ps == 1 && (pge ==> e.g == 0)) || Replaceable(e)
      modifies pageDirectory, this`tlb
      ensures pageDirectory[..] == old(pageDirectory[..])[pde :=
                old(pageDirectory[pde]).(p := 1, rw := 1, us := 1, pwt := 0, pcd := 0, a := 0, d := 0, ps := ps)]
      ensures Steady()
    {
      StoreRights(pde);
      StoreBits(pde, pageDirectory[pde].(pcd := 0));
      StoreBits(pde, pageDirectory[pde].(a := 0));
      StoreBits(pde, pageDirectory[pde].(d := 0));
      StorePde(pde, pageDirectory[pde].(ps := ps));
    }

    /** remap() */
    method Remap(virtualAddr: int, physicalAddr: int)
      requires Sized() && Steady()
      requires 2 * FOUR_MB <= virtualAddr < 0x8000_0000
      requires var e := pageDirectory[virtualAddr / FOUR_MB]; (e.ps == 1 && (pge ==> e.g == 0)) || Replaceable(e)
      modifies pageDirectory, this`tlb
      ensures Model() == Remapped(old(Model()), virtualAddr / FOUR_MB, physicalAddr / FOUR_MB % 1024)
      ensures Steady() && AllAgree(Model(), other, tlb)
    {
      var pde := virtualAddr / FOUR_MB;
      StoreFlags(pde, 1);
      StorePde(pde, pageDirectory[pde].(g := 0));
      StorePde(pde, pageDirectory[pde].(avail := 0));
      StorePde(pde, pageDirectory[pde].(pat := 0));
      StorePde(pde, pageDirectory[pde].(reserved := 0));
      StorePde(pde, pageDirectory[pde].(base := physicalAddr / FOUR_MB % 1024));
      FlushTLB();
    }

    /** The stores of remap_vid() into the page table. */
    method StoreWindowPage(frame: bits20)
      requires Sized() && Steady() && pageTable[0].g == 0
      modifies pageTable, this`tlb
      ensures pageTable[..] == old(pageTable[..])[0 := old(pageTable[0]).(rw := 1, us := 1, p := 1, base := frame)]
      ensures Steady()
    {
      StorePte(0, pageTable[0].(rw := 1));
      StorePte(0, pageTable[0].(us := 1));
      StorePte(0, pageTable[0].(p := 1));
      StorePte(0, pageTable[0].(base := frame));
    }

    /** remap_vid() */
    method RemapVid(virtualAddr: int, physicalAddr: int)
      requires Sized() && Steady()
      requires 2 * FOUR_MB <= virtualAddr < 0x8000_0000
      requires Replaceable(pageDirectory[virtualAddr / FOUR_MB])
      requires pageTable[0].g == 0
      modifies pageDirectory, pageTable, this`tlb
      ensures Model() == RemappedVid(old(Model()), virtualAddr / FOUR_MB, physicalAddr / FOUR_KB % 0x10_0000)
      ensures Steady() && AllAgree(Model(), other, tlb)
    {
      var pde := virtualAddr / FOUR_MB;
      StoreFlags(pde, 0);
      StorePde(pde, pageDirectory[pde].(g := 0));
      StorePde(pde, pageDirectory[pde].(avail := 0));
      StorePde(pde, WithTableBase(pageDirectory[pde], ptFrame));
      StoreWindowPage(physicalAddr / FOUR_KB % 0x10_0000);
      FlushTLB();
    }

    /** The loop body of set_up_PD_PT() that fills the page table. */
    method SetUpPte(i: nat)
      requires Sized() && i < NUMBER_ENTRIES
      modifies pageTable
      ensures pageTable[..] == old(pageTable[..])[i := InitialPte(i)]
    {
      if VIDEO_ADDR <= i <= VIDEO_ADDR + 3 {
        pageTable[i] := pageTable[i].(p := 1);
      } else {
        pageTable[i] := pageTable[i].(p := 0);
      }
      pageTable[i] := pageTable[i].(rw := 1);
      pageTable[i] := pageTable[i].(us := 0);
      pageTable[i] := pageTable[i].(pwt := 0);
      pageTable[i] := pageTable[i].(pcd := 0);
      pageTable[i] := pageTable[i].(a := 0);
      pageTable[i] := pageTable[i].(d := 0);
      pageTable[i] := pageTable[i].(pat := 0);
      pageTable[i] := pageTable[i].(g := 0);
      pageTable[i] := pageTable[i].(avail := 0);
      pageTable[i] := pageTable[i].(base := i);
    }

    /** The stores of set_up_PD_PT() into one entry in the layout of a 4-MByte page. */
    method SetUpMb(i: nat, e: Pde)
      requires Sized() && i < NUMBER_ENTRIES
      modifies pageDirectory
      ensures pageDirectory[..] == old(pageDirectory[..])[i := e]
    {
      pageDirectory[i] := pageDirectory[i].(p := e.p);
      pageDirectory[i] := pageDirectory[i].(rw := e.rw);
      pageDirectory[i] := pageDirectory[i].(us := e.us);
      pageDirectory[i] := pageDirectory[i].(pwt := e.pwt);
      pageDirectory[i] := pageDirectory[i].(pcd := e.pcd);
      pageDirectory[i] := pageDirectory[i].(a := e.a);
      pageDirectory[i] := pageDirectory[i].(d := e.d);
      pageDirectory[i] := pageDirectory[i].(ps := e.ps);
      pageDirectory[i] := pageDirectory[i].(g := e.g);
      pageDirectory[i] := pageDirectory[i].(avail := e.avail);
      pageDirectory[i] := pageDirectory[i].(pat := e.pat);
      pageDirectory[i] := pageDirectory[i].(reserved := e.reserved);
      pageDirectory[i] := pageDirectory[i].(base := e.base);
    }

    /** set_up_PD_PT(), which runs before paging is on, so nothing is cached. */
    method SetUpPdPt()
      requires Sized() && tlb == {}
      modifies pageDirectory, pageTable
      ensures Model() == Initial(ptFrame)
      ensures Steady()
      ensures program == None && window == None && (pge ==> Quiet(other, 1024 * PROGRAM) && Quiet(other, 1024 * VIDEO_WINDOW))
              ==> Valid()
    {
      for i := 0 to NUMBER_ENTRIES
        invariant forall j | 0 <= j < i :: pageTable[j] == InitialPte(j)
      {
        SetUpPte(i);
      }
      pageDirectory[0] := pageDirectory[0].(p := 1, rw := 1, us := 0, pwt := 0, pcd := 0, a := 0, d := 0, ps := 0, g := 0, avail := 0);
      pageDirectory[0] := WithTableBase(pageDirectory[0], ptFrame);
      SetUpMb(KERNEL, Pde(1, 1, 0, 0, 0, 0, 0, 1, 1, 0, 0, 0, 1));
      for i := 2 to NUMBER_ENTRIES
        invariant forall j | 0 <= j < i :: pageDirectory[j] == InitialPde(j, ptFrame)
        invariant pageTable[..] == Initial(ptFrame).pt
      {
        SetUpMb(i, Pde(0, 1, 0, 0, 0, 0, 0, 0, 0, 0, 0, 0, i));
      }
      assert pageDirectory[..] == Initial(ptFrame).pd;
    }

    /** What holds between two calls once set_up_PD_PT() has run. */
    ghost predicate Valid()
      reads this, pageDirectory, pageTable
    {
      && Sized()
      && (program.Some? ==> program.value < MAX_PROCESSES)
      && Model() == Configured(ptFrame, program, window)
      && AllAgree(Model(), other, tlb)
      && (pge ==> Quiet(other, 1024 * PROGRAM) && Quiet(other, 1024 * VIDEO_WINDOW))
    }

    lemma ValidIsSteady()
      requires Valid()
      ensures Steady()
      ensures var e := pageDirectory[PROGRAM]; (e.ps == 1 && e.g == 0) || Replaceable(e)
      ensures Replaceable(pageDirectory[VIDEO_WINDOW]) && pageTable[0].g == 0
    {
    }

    /** remap() of a program's 4 MBytes. */
    method MapProgram(pid: nat)
      requires Valid() && pid < MAX_PROCESSES
      modifies this`tlb, this`program, pageDirectory
      ensures Valid() && program == Some(pid)
    {
      ValidIsSteady();
      Remap(0x800_0000, 0x80_0000 + pid * 0x40_0000);
      StepConfigures(ptFrame, program, window, Op.Remap(pid));
      program := Some(pid);
    }

    /** remap_vid() of the video window. */
    method MapWindow(physicalAddr: nat)
      requires Valid() && physicalAddr < 0x8000_0000
      modifies this`tlb, this`window, pageDirectory, pageTable
      ensures Valid() && window == Some(physicalAddr / FOUR_KB)
    {
      ValidIsSteady();
      RemapVid(0x840_0000, physicalAddr);
      StepConfigures(ptFrame, program, window, Op.RemapVid(physicalAddr / FOUR_KB));
      window := Some(physicalAddr / FOUR_KB);
    }

    /** Memory at boot: paging is off and nothing is cached. */
    constructor (frame: bits20, ghost memory: Memory, ghost honoured: bool)
      ensures Sized() && fresh(pageDirectory) && fresh(pageTable)
      ensures ptFrame == frame && other == memory && pge == honoured && tlb == {}
      ensures program == None && window == None
    {
      pageDirectory := new Pde[NUMBER_ENTRIES](_ => Pde(0, 0, 0, 0, 0, 0, 0, 0, 0, 0, 0, 0, 0));
      pageTable := new Pte[NUMBER_ENTRIES](_ => Pte(0, 0, 0, 0, 0, 0, 0, 0, 0, 0, 0));
      ptFrame, other, pge, tlb, program, window := frame, memory, honoured, {}, None, None;
    }
  }
}
