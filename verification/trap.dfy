/**
 * Trap handling (kernel/trap.c).
 *
 * devintr classifies the RISC-V scause register; usertrap dispatches a trap
 * taken from user mode (system call, copy-on-write page fault, device
 * interrupt, anything else kills the process); kerneltrap checks a trap taken
 * in supervisor mode; usertrapret prepares sstatus for the return to user
 * mode; clockintr counts timer ticks.
 *
 * sstatus, scause, sepc and the PTE flags are 64-bit bit-vectors; the
 * faulting address stval and virtual addresses are numbers. A page table is
 * a map from page-aligned virtual address to its leaf PTE, split into the
 * physical page number (as an address) and the ten flag bits. Physical memory and the free lists are
 * the ones of the allocator in module KAlloc. syscall(), yield(), exit() and
 * the PLIC/UART/virtio handlers are not modelled: they become outcomes or
 * disappear.
 */
module Trap {
  import opened Wrappers
  import opened KAlloc

  // sstatus bits (RISC-V privileged architecture, section 4.1.1)
  const SSTATUS_SPP: bv64 := 0x100
  const SSTATUS_SPIE: bv64 := 0x20

  // scause values (RISC-V privileged architecture, section 4.1.9)
  const INTERRUPT_BIT: bv64 := 0x8000_0000_0000_0000
  const SOFTWARE_INTR: bv64 := 0x8000_0000_0000_0001
  const ECALL_FROM_U: bv64 := 8
  const INSTR_PAGE_FAULT: bv64 := 12
  const STORE_PAGE_FAULT: bv64 := 15

  // Sv39 PTE flag bits (section 4.4.1); PTE_COW is a bit of the RSW field
  const PTE_V: bv64 := 0x1
  const PTE_W: bv64 := 0x4
  const PTE_U: bv64 := 0x10
  const PTE_COW: bv64 := 0x100

  /** One past the highest Sv39 virtual address xv6 uses: 1 << 38. */
  const MAXVA: nat := 0x40_0000_0000

  /** The ten flag bits PTE_FLAGS extracts from a PTE. */
  type Flags = f: bv64 | f <= 0x3ff

  datatype Pte = Pte(pa: nat, flags: Flags)

  /** Keyed by the page-aligned virtual address, as a number. */
  type PageTable = map<nat, Pte>

  // ---------------------------------------------------------------------------
  // devintr

  /** devintr's result: 1 for a supervisor external interrupt (via the PLIC),
      2 for the supervisor software interrupt the machine-mode timer handler
      forwards, 0 for anything else. */
  function DevIntrClass(scause: bv64): (r: nat)
    ensures r <= 2
    ensures r != 0 ==> scause & INTERRUPT_BIT != 0
  {
    if scause & INTERRUPT_BIT != 0 && scause & 0xff == 9 then 1
    else if scause == SOFTWARE_INTR then 2
    else 0
  }

  /** devintr by interrupt bit and exception code: exceptions are never device
      interrupts; interrupt code 9 (supervisor external) gives 1, code 1
      (supervisor software) gives 2, code 5 (supervisor timer) gives 0. */
  lemma DevIntrByCode(interrupt: bool, code: bv64)
    requires code < INTERRUPT_BIT
    ensures var scause := (if interrupt then INTERRUPT_BIT else 0) | code;
      DevIntrClass(scause) ==
        if !interrupt then 0
        else if code & 0xff == 9 then 1
        else if code == 1 then 2
        else 0
    ensures interrupt && code == 5 ==> DevIntrClass(INTERRUPT_BIT | code) == 0
  {
  }

  /** The clock: the global ticks counter (a C uint, so it wraps). */
  class Clock {
    var ticks: bv32

    constructor ()
      ensures ticks == 0
    {
      ticks := 0;
    }

    /** clockintr: one more tick. */
    method ClockIntr()
      modifies this
      ensures ticks == old(ticks) + 1
    {
      ticks := ticks + 1;
    }

    /** devintr on CPU cpu: classify scause; a timer interrupt on CPU 0 ticks the clock. */
    method DevIntr(scause: bv64, cpu: nat) returns (which: nat)
      modifies this
      ensures which == DevIntrClass(scause)
      ensures ticks == if which == 2 && cpu == 0 then old(ticks) + 1 else old(ticks)
    {
      if scause & INTERRUPT_BIT != 0 && scause & 0xff == 9 {
        // plic_claim, the device handler and plic_complete are not modelled
        return 1;
      } else if scause == SOFTWARE_INTR {
        if cpu == 0 {
          ClockIntr();
        }
        return 2;
      } else {
        return 0;
      }
    }
  }

  // ---------------------------------------------------------------------------
  // Copy-on-write page faults

  /** PGROUNDDOWN: the start of the page holding va. */
  function PgRoundDown(va: nat): (r: nat)
    ensures r % PGSIZE == 0 && r <= va < r + PGSIZE
  {
    va - va % PGSIZE
  }

  /** The flags a split page is mapped with: writable, no longer copy-on-write. */
  function CowFlags(f: Flags): (g: Flags)
    ensures g & PTE_W != 0 && g & PTE_COW == 0
    ensures g & !(PTE_W | PTE_COW) == f & !(PTE_W | PTE_COW)
  {
    (f | PTE_W) & !PTE_COW
  }

  /** The split keeps PTE_V, so mappages adding it changes nothing. */
  lemma KeepsValid(f: Flags)
    requires f & PTE_V != 0
    ensures CowFlags(f) | PTE_V == CowFlags(f)
  {
    var g := CowFlags(f);
    assert g & PTE_V != 0;
  }

  /** What usertrap decides for a page fault at va, before allocating. */
  datatype Fault = Kill | Split(va0: nat, oldpa: nat, flags: Flags)

  /** A fault is split only below MAXVA, on a valid user page marked COW. */
  function CowFault(pt: PageTable, va: nat): (r: Fault)
    ensures r.Split? <==>
      && va < MAXVA
      && PgRoundDown(va) in pt
      && pt[PgRoundDown(va)].flags & PTE_V != 0
      && pt[PgRoundDown(va)].flags & PTE_U != 0
      && pt[PgRoundDown(va)].flags & PTE_COW != 0
    ensures r.Split? ==> r.va0 == PgRoundDown(va) && pt[r.va0] == Pte(r.oldpa, r.flags)
  {
    if va >= MAXVA then Kill
    else
      var va0 := PgRoundDown(va);
      if va0 !in pt || pt[va0].flags & PTE_V == 0 || pt[va0].flags & PTE_U == 0 then Kill
      else if pt[va0].flags & PTE_COW == 0 then Kill
      else Split(va0, pt[va0].pa, pt[va0].flags)
  }

  /** Everything usertrap reads or writes: the saved user pc, the killed flag,
      the process's page table, the free lists, physical memory and ticks. */
  datatype Machine = Machine(
    epc: bv64, killed: bool, pt: PageTable,
    lists: seq<seq<nat>>, mem: map<nat, Page>, ticks: bv32)

  /** The COW split of the page at va0, mapped to oldpa with the given flags:
      the new machine and, when the kernel panics, the panic message. */
  function SplitSpec(m: Machine, kernelEnd: nat, cpu: nat, va0: nat, oldpa: nat, flags: Flags, mapOk: bool)
    : (r: (Machine, Option<string>))
    requires cpu < |m.lists|
    ensures r.0.epc == m.epc && r.0.ticks == m.ticks
    ensures AllocSpec(m.lists, cpu).0.None? ==> r == (m.(killed := true), None)
    ensures AllocSpec(m.lists, cpu).0.Some? ==> r.0.killed == m.killed
    ensures AllocSpec(m.lists, cpu).0.Some? && PageOk(kernelEnd, oldpa) ==> (r.1.Some? <==> va0 !in r.0.pt)
    ensures !PageOk(kernelEnd, oldpa) ==> r.0.pt == m.pt
    ensures forall v :: v != va0 ==> (v in r.0.pt <==> v in m.pt) && (v in m.pt ==> r.0.pt[v] == m.pt[v])
    ensures AllocSpec(m.lists, cpu).0.Some? && r.1.None? ==>
      r.0.lists == FreeSpec(AllocSpec(m.lists, cpu).1, cpu, oldpa)
  {
    var (page, lists1) := AllocSpec(m.lists, cpu);
    if page.None? then (m.(killed := true), None)
    else
      // kalloc fills the page with 5s
      RemapSpec(m.(lists := lists1, mem := m.mem[page.value := Fill(5)]), kernelEnd, cpu, va0, oldpa, flags,
                page.value, mapOk)
  }

  /** The split after kalloc returned newpa: copy the old page, unmap and
      kfree it, map the new page. */
  function RemapSpec(m: Machine, kernelEnd: nat, cpu: nat, va0: nat, oldpa: nat, flags: Flags, newpa: nat, mapOk: bool)
    : (r: (Machine, Option<string>))
    requires cpu < |m.lists|
    ensures r.0.epc == m.epc && r.0.ticks == m.ticks && r.0.killed == m.killed
    ensures !PageOk(kernelEnd, oldpa) ==> r.1 == Some("kfree") && r.0.pt == m.pt && r.0.lists == m.lists
    ensures PageOk(kernelEnd, oldpa) ==> (r.1.Some? <==> va0 !in r.0.pt)
    ensures forall v :: v != va0 ==> (v in r.0.pt <==> v in m.pt) && (v in m.pt ==> r.0.pt[v] == m.pt[v])
    ensures r.1.None? ==> r.0.lists == FreeSpec(m.lists, cpu, oldpa)
  {
    // memmove copies the old page over the new one
    var mem2 := m.mem[newpa := PageAt(m.mem, oldpa)];
    // uvmunmap(pagetable, va0, 1, 1) kfrees the old page, then clears its PTE
    if !PageOk(kernelEnd, oldpa) then
      (m.(mem := mem2), Some("kfree"))
    else
      var pt1 := m.pt - {va0};
      var lists2 := FreeSpec(m.lists, cpu, oldpa);
      var mem3 := mem2[oldpa := Fill(1)];
      if mapOk then
        (m.(pt := pt1[va0 := Pte(newpa, CowFlags(flags) | PTE_V)], lists := lists2, mem := mem3), None)
      else
        // kfree(mem), then panic
        (m.(pt := pt1, lists := FreeSpec(lists2, cpu, newpa), mem := mem3[newpa := Fill(1)]),
         Some("cowhandler: mappages failed"))
  }

  /** What the split after kalloc does to memory: the old page, once kfree
      accepts it, reads as 1s; the new page holds the old page's contents
      unless mappages fails and it is freed again; no other page changes. */
  lemma RemapMemory(m: Machine, kernelEnd: nat, cpu: nat, va0: nat, oldpa: nat, flags: Flags, newpa: nat,
                    mapOk: bool)
    requires cpu < |m.lists|
    ensures var m' := RemapSpec(m, kernelEnd, cpu, va0, oldpa, flags, newpa, mapOk).0;
      && PageAt(m'.mem, oldpa) == (if PageOk(kernelEnd, oldpa) then Fill(1) else PageAt(m.mem, oldpa))
      && (newpa != oldpa ==>
            PageAt(m'.mem, newpa) == if PageOk(kernelEnd, oldpa) && !mapOk then Fill(1) else PageAt(m.mem, oldpa))
      && forall q :: q != newpa && q != oldpa ==> PageAt(m'.mem, q) == PageAt(m.mem, q)
  {
  }

  /** What the whole split does to memory: only the allocated page and the
      old page change, and the old page, once kfree accepts it, reads as 1s. */
  lemma SplitMemory(m: Machine, kernelEnd: nat, cpu: nat, va0: nat, oldpa: nat, flags: Flags, mapOk: bool)
    requires cpu < |m.lists|
    ensures var (page, _) := AllocSpec(m.lists, cpu);
      var m' := SplitSpec(m, kernelEnd, cpu, va0, oldpa, flags, mapOk).0;
      && (page.Some? && PageOk(kernelEnd, oldpa) ==> PageAt(m'.mem, oldpa) == Fill(1))
      && forall q :: q != oldpa && (page.None? || q != page.value) ==> PageAt(m'.mem, q) == PageAt(m.mem, q)
  {
    var (page, lists1) := AllocSpec(m.lists, cpu);
    if page.Some? {
      var m1 := m.(lists := lists1, mem := m.mem[page.value := Fill(5)]);
      RemapMemory(m1, kernelEnd, cpu, va0, oldpa, flags, page.value, mapOk);
    }
  }

  /** The page-fault branch of usertrap for the faulting address va. */
  function PageFaultSpec(m: Machine, kernelEnd: nat, cpu: nat, va: nat, mapOk: bool): (r: (Machine, Option<string>))
    requires cpu < |m.lists|
    ensures r.0.epc == m.epc && r.0.ticks == m.ticks
    ensures CowFault(m.pt, va).Kill? ==> r == (m.(killed := true), None)
  {
    match CowFault(m.pt, va)
    case Kill => (m.(killed := true), None)
    case Split(va0, oldpa, flags) => SplitSpec(m, kernelEnd, cpu, va0, oldpa, flags, mapOk)
  }

  /** A fault that is not a COW split, or finds every free list empty, kills
      the process and changes nothing else; the process is killed in no other
      case. */
  lemma FaultKillsIff(m: Machine, kernelEnd: nat, cpu: nat, va: nat, mapOk: bool)
    requires cpu < |m.lists| && !m.killed
    ensures var (m', panic) := PageFaultSpec(m, kernelEnd, cpu, va, mapOk);
      && (m'.killed <==> CowFault(m.pt, va).Kill? || AllocSpec(m.lists, cpu).0.None?)
      && (m'.killed ==> m' == m.(killed := true) && panic.None?)
  {
  }

  /** The kernel panics in the page-fault branch exactly when, after a
      successful kalloc, kfree rejects the old page or mappages fails. */
  lemma FaultPanicsIff(m: Machine, kernelEnd: nat, cpu: nat, va: nat, mapOk: bool)
    requires cpu < |m.lists|
    ensures PageFaultSpec(m, kernelEnd, cpu, va, mapOk).1.Some? <==>
      && CowFault(m.pt, va).Split?
      && AllocSpec(m.lists, cpu).0.Some?
      && (!PageOk(kernelEnd, CowFault(m.pt, va).oldpa) || !mapOk)
  {
  }

  /** A completed split maps the faulting page, and only it, to the freshly
      allocated page with CowFlags of its old flags (writable, no longer COW,
      every other bit kept); the old page goes back on this CPU's free list. */
  lemma SplitRemaps(m: Machine, kernelEnd: nat, cpu: nat, va: nat)
    requires cpu < |m.lists|
    requires CowFault(m.pt, va).Split? && AllocSpec(m.lists, cpu).0.Some?
    requires PageOk(kernelEnd, CowFault(m.pt, va).oldpa)
    ensures var (m', panic) := PageFaultSpec(m, kernelEnd, cpu, va, true);
      var f := CowFault(m.pt, va);
      var newpa := AllocSpec(m.lists, cpu).0.value;
      && panic.None? && m'.killed == m.killed && m'.epc == m.epc
      && m'.pt == m.pt[f.va0 := Pte(newpa, CowFlags(f.flags))]
      && m'.lists[cpu] == [f.oldpa] + AllocSpec(m.lists, cpu).1[cpu]
      && m'.lists == FreeSpec(AllocSpec(m.lists, cpu).1, cpu, f.oldpa)
      && PageAt(m'.mem, f.oldpa) == Fill(1)
      && forall q :: q != newpa && q != f.oldpa ==> PageAt(m'.mem, q) == PageAt(m.mem, q)
  {
    var f := CowFault(m.pt, va);
    SplitSpecRemaps(m, kernelEnd, cpu, f.va0, f.oldpa, f.flags);
  }

  /** SplitRemaps, for the split of a given mapping. */
  lemma SplitSpecRemaps(m: Machine, kernelEnd: nat, cpu: nat, va0: nat, oldpa: nat, flags: Flags)
    requires cpu < |m.lists| && va0 in m.pt && flags & PTE_V != 0
    requires AllocSpec(m.lists, cpu).0.Some? && PageOk(kernelEnd, oldpa)
    ensures var (m', panic) := SplitSpec(m, kernelEnd, cpu, va0, oldpa, flags, true);
      var newpa := AllocSpec(m.lists, cpu).0.value;
      && panic.None? && m'.killed == m.killed && m'.epc == m.epc
      && m'.pt == m.pt[va0 := Pte(newpa, CowFlags(flags))]
      && m'.lists[cpu] == [oldpa] + AllocSpec(m.lists, cpu).1[cpu]
  {
    KeepsValid(flags);
    var newpa := AllocSpec(m.lists, cpu).0.value;
    assert (m.pt - {va0})[va0 := Pte(newpa, CowFlags(flags))] == m.pt[va0 := Pte(newpa, CowFlags(flags))];
  }

  /** The split moves pages between the free lists and the process: the new
      page leaves the pool and the old page joins it. */
  lemma SplitMovesPages(m: Machine, kernelEnd: nat, cpu: nat, va: nat)
    requires cpu < |m.lists|
    requires CowFault(m.pt, va).Split? && AllocSpec(m.lists, cpu).0.Some?
    requires PageOk(kernelEnd, CowFault(m.pt, va).oldpa)
    ensures var m' := PageFaultSpec(m, kernelEnd, cpu, va, true).0;
      var newpa := AllocSpec(m.lists, cpu).0.value;
      Pool(m'.lists) + multiset{newpa} == Pool(m.lists) + multiset{CowFault(m.pt, va).oldpa}
  {
    var f := CowFault(m.pt, va);
    var (page, lists1) := AllocSpec(m.lists, cpu);
    AllocConserves(m.lists, cpu);
    FreeConserves(lists1, cpu, f.oldpa);
  }

  /** The new page gets exactly the old page's contents, unless kalloc
      handed back the old page itself (it was on a free list), which kfree
      then fills with 1s. */
  lemma SplitCopies(m: Machine, kernelEnd: nat, cpu: nat, va: nat)
    requires cpu < |m.lists|
    requires CowFault(m.pt, va).Split? && AllocSpec(m.lists, cpu).0.Some?
    requires PageOk(kernelEnd, CowFault(m.pt, va).oldpa)
    ensures var m' := PageFaultSpec(m, kernelEnd, cpu, va, true).0;
      var newpa := AllocSpec(m.lists, cpu).0.value;
      var oldpa := CowFault(m.pt, va).oldpa;
      PageAt(m'.mem, newpa) == if newpa != oldpa then PageAt(m.mem, oldpa) else Fill(1)
  {
  }

  /** When the old page is still in use (on no free list), kalloc cannot hand
      it back: the free lists stay duplicate-free and the new page is on none
      of them afterwards. */
  lemma SplitKeepsDistinct(m: Machine, kernelEnd: nat, cpu: nat, va: nat)
    requires cpu < |m.lists| && Distinct(m.lists)
    requires CowFault(m.pt, va).Split? && AllocSpec(m.lists, cpu).0.Some?
    requires PageOk(kernelEnd, CowFault(m.pt, va).oldpa)
    requires CowFault(m.pt, va).oldpa !in Pool(m.lists)
    ensures var m' := PageFaultSpec(m, kernelEnd, cpu, va, true).0;
      var newpa := AllocSpec(m.lists, cpu).0.value;
      && newpa != CowFault(m.pt, va).oldpa
      && Distinct(m'.lists)
      && newpa !in Pool(m'.lists)
  {
    var f := CowFault(m.pt, va);
    var (page, lists1) := AllocSpec(m.lists, cpu);
    var newpa := page.value;
    AllocConserves(m.lists, cpu);
    AllocKeepsDistinct(m.lists, cpu);
    assert newpa != f.oldpa;
    var m' := SplitSpec(m, kernelEnd, cpu, f.va0, f.oldpa, f.flags, true).0;
    assert PageFaultSpec(m, kernelEnd, cpu, va, true).0 == m';
    assert m'.lists == FreeSpec(lists1, cpu, f.oldpa);
    FreeConserves(lists1, cpu, f.oldpa);
    assert f.oldpa !in Pool(lists1) by {
      assert Pool(lists1) + multiset{newpa} == Pool(m.lists);
      assert Pool(lists1)[f.oldpa] <= Pool(m.lists)[f.oldpa];
    }
    FreeDistinctIff(lists1, cpu, f.oldpa);
    InPool(lists1, newpa);
    assert (Pool(lists1) + multiset{f.oldpa})[newpa] == 0;
  }

  // ---------------------------------------------------------------------------
  // usertrap

  /** How a trap handler ends: a kernel panic, exit(-1) of the process, or a
      return to the interrupted code, after yield() when yielding is set. */
  datatype Outcome = Panic(msg: string) | Exit | Resume(yielding: bool)

  /** usertrap's dispatch on scause. */
  datatype Cause = Syscall | PageFault | Device(which: nat) | Unexpected

  function Classify(scause: bv64): (c: Cause)
    ensures c == Syscall <==> scause == ECALL_FROM_U
    ensures c == PageFault <==> scause == INSTR_PAGE_FAULT || scause == STORE_PAGE_FAULT
    ensures c.Device? ==> c.which == DevIntrClass(scause) && (c.which == 1 || c.which == 2)
    ensures c == Unexpected <==>
      scause != ECALL_FROM_U && scause != INSTR_PAGE_FAULT && scause != STORE_PAGE_FAULT
      && DevIntrClass(scause) == 0
  {
    if scause == ECALL_FROM_U then Syscall
    else if scause == INSTR_PAGE_FAULT || scause == STORE_PAGE_FAULT then PageFault
    else if DevIntrClass(scause) != 0 then Device(DevIntrClass(scause))
    else Unexpected
  }

  /** usertrap on machine m. */
  function UserTrapSpec(m: Machine, kernelEnd: nat, cpu: nat, sstatus: bv64, scause: bv64,
                        sepc: bv64, stval: nat, mapOk: bool): (r: (Machine, Outcome))
    requires cpu < |m.lists|
    ensures sstatus & SSTATUS_SPP != 0 ==> r == (m, Panic("usertrap: not from user mode"))
    ensures sstatus & SSTATUS_SPP == 0 ==>
      r.0.epc == if Classify(scause) == Syscall && !m.killed then sepc + 4 else sepc
  {
    if sstatus & SSTATUS_SPP != 0 then (m, Panic("usertrap: not from user mode"))
    else DispatchSpec(m.(epc := sepc), kernelEnd, cpu, scause, stval, mapOk)
  }

  /** usertrap after it has saved sepc in the trapframe. */
  function DispatchSpec(m: Machine, kernelEnd: nat, cpu: nat, scause: bv64, stval: nat, mapOk: bool)
    : (r: (Machine, Outcome))
    requires cpu < |m.lists|
    ensures r.1.Panic? ==> Classify(scause) == PageFault
    ensures Classify(scause) != PageFault ==> r.0.pt == m.pt && r.0.lists == m.lists && r.0.mem == m.mem
    ensures Classify(scause) != Syscall ==> r.0.epc == m.epc
    ensures !Classify(scause).Device? ==> r.0.ticks == m.ticks
  {
    match Classify(scause)
    case Syscall =>
      if m.killed then (m, Exit) else (m.(epc := m.epc + 4), Resume(false))
    case PageFault => FaultOutcome(PageFaultSpec(m, kernelEnd, cpu, stval, mapOk))
    case Device(which) =>
      var m' := m.(ticks := if which == 2 && cpu == 0 then m.ticks + 1 else m.ticks);
      (m', if m'.killed then Exit else Resume(which == 2))
    case Unexpected => (m.(killed := true), Exit)
  }

  /** How usertrap ends after the page-fault branch. */
  function FaultOutcome(r: (Machine, Option<string>)): (o: (Machine, Outcome))
    ensures o.0 == r.0
    ensures o.1.Panic? <==> r.1.Some?
    ensures o.1 == Exit <==> r.1.None? && r.0.killed
  {
    if r.1.Some? then (r.0, Panic(r.1.value))
    else (r.0, if r.0.killed then Exit else Resume(false))
  }

  /** A system call from a live process resumes at the instruction after the
      ecall and changes nothing else here. */
  lemma EcallAdvancesPc(m: Machine, kernelEnd: nat, cpu: nat, sstatus: bv64, sepc: bv64, stval: nat, mapOk: bool)
    requires cpu < |m.lists| && sstatus & SSTATUS_SPP == 0 && !m.killed
    ensures UserTrapSpec(m, kernelEnd, cpu, sstatus, ECALL_FROM_U, sepc, stval, mapOk)
         == (m.(epc := sepc + 4), Resume(false))
  {
  }

  /** usertrap ends in exit(-1) exactly when the process is killed afterwards,
      and never panics unless it came from supervisor mode or a COW split
      failed in kfree or mappages. */
  lemma ExitIffKilled(m: Machine, kernelEnd: nat, cpu: nat, sstatus: bv64, scause: bv64,
                      sepc: bv64, stval: nat, mapOk: bool)
    requires cpu < |m.lists| && sstatus & SSTATUS_SPP == 0
    ensures var (m', out) := UserTrapSpec(m, kernelEnd, cpu, sstatus, scause, sepc, stval, mapOk);
      && (out.Panic? ==> Classify(scause) == PageFault)
      && (!out.Panic? ==> (out == Exit <==> m'.killed))
      && (Classify(scause) == Unexpected ==> out == Exit)
  {
  }

  /** Only the timer interrupt makes usertrap yield, and only a live process. */
  lemma YieldIffTimer(m: Machine, kernelEnd: nat, cpu: nat, sstatus: bv64, scause: bv64,
                      sepc: bv64, stval: nat, mapOk: bool)
    requires cpu < |m.lists|
    ensures UserTrapSpec(m, kernelEnd, cpu, sstatus, scause, sepc, stval, mapOk).1 == Resume(true) <==>
      sstatus & SSTATUS_SPP == 0 && scause == SOFTWARE_INTR && !m.killed
  {
  }

  /** A load page fault (scause 13) is not handled as a COW fault: the
      process is killed. */
  lemma LoadFaultKills(m: Machine, kernelEnd: nat, cpu: nat, sstatus: bv64, sepc: bv64, stval: nat, mapOk: bool)
    requires cpu < |m.lists| && sstatus & SSTATUS_SPP == 0
    ensures UserTrapSpec(m, kernelEnd, cpu, sstatus, 13, sepc, stval, mapOk)
         == (m.(epc := sepc, killed := true), Exit)
  {
  }

  /** A process, as myproc() returns it: the saved user pc in its trapframe,
      its killed flag and its page table, whatever they hold. */
  class Proc {
    var epc: bv64
    var killed: bool
    var pagetable: PageTable

    constructor (e: bv64, k: bool, pt: PageTable)
      ensures epc == e && killed == k && pagetable == pt
    {
      epc := e;
      killed := k;
      pagetable := pt;
    }
  }

  /** The machine state the trap handlers read and write, as a value. */
  function Snap(p: Proc, a: Allocator, clock: Clock): Machine
    reads p, a, a.kmem, clock
  {
    Machine(p.epc, p.killed, p.pagetable, a.Lists(), a.mem, clock.ticks)
  }

  /** The COW split itself: allocate, copy, unmap and free the old page, map
      the new one; mapOk is whether mappages succeeds. */
  method CowSplit(p: Proc, a: Allocator, clock: Clock, cpu: nat, va0: nat, oldpa: nat, flags: Flags, mapOk: bool)
      returns (panic: Option<string>)
    requires a.Valid() && cpu < NCPU
    modifies p, a, a.kmem
    ensures a.Valid()
    ensures (Snap(p, a, clock), panic) == SplitSpec(old(Snap(p, a, clock)), a.end, cpu, va0, oldpa, flags, mapOk)
  {
    var newpa := a.Kalloc(cpu);
    if newpa == 0 {
      p.killed := true;
      return None;
    }
    panic := Remap(p, a, clock, cpu, va0, oldpa, flags, newpa, mapOk);
  }

  /** The split once kalloc has returned newpa. */
  method Remap(p: Proc, a: Allocator, clock: Clock, cpu: nat, va0: nat, oldpa: nat, flags: Flags,
               newpa: nat, mapOk: bool)
      returns (panic: Option<string>)
    requires a.Valid() && cpu < NCPU && PageOk(a.end, newpa)
    modifies p, a, a.kmem
    ensures a.Valid()
    ensures (Snap(p, a, clock), panic) == RemapSpec(old(Snap(p, a, clock)), a.end, cpu, va0, oldpa, flags, newpa, mapOk)
  {
    a.mem := a.mem[newpa := a.Read(oldpa)];
    var newFlags := CowFlags(flags);
    // uvmunmap(p->pagetable, va0, 1, 1)
    var freed := a.Free(cpu, oldpa);
    if !freed {
      return Some("kfree");
    }
    p.pagetable := p.pagetable - {va0};
    if !mapOk {
      freed := a.Free(cpu, newpa);
      return Some("cowhandler: mappages failed");
    }
    p.pagetable := p.pagetable[va0 := Pte(newpa, newFlags | PTE_V)];
    return None;
  }

  /** The page-fault branch of usertrap (stval holds the faulting address). */
  method HandlePageFault(p: Proc, a: Allocator, clock: Clock, cpu: nat, va: nat, mapOk: bool)
      returns (panic: Option<string>)
    requires a.Valid() && cpu < NCPU
    modifies p, a, a.kmem
    ensures a.Valid()
    ensures (Snap(p, a, clock), panic) == PageFaultSpec(old(Snap(p, a, clock)), a.end, cpu, va, mapOk)
  {
    if va >= MAXVA {
      p.killed := true;
      return None;
    }
    var va0 := PgRoundDown(va);
    if va0 !in p.pagetable || p.pagetable[va0].flags & PTE_V == 0 || p.pagetable[va0].flags & PTE_U == 0 {
      p.killed := true;
      return None;
    }
    if p.pagetable[va0].flags & PTE_COW == 0 {
      p.killed := true;
      return None;
    }
    var pte := p.pagetable[va0];
    panic := CowSplit(p, a, clock, cpu, va0, pte.pa, pte.flags, mapOk);
  }

  /** usertrap's system-call branch and its exit; syscall() itself is not
      modelled. */
  method SyscallTrap(p: Proc, a: Allocator, clock: Clock, cpu: nat, scause: bv64, stval: nat, mapOk: bool)
      returns (out: Outcome)
    requires cpu < |a.Lists()| && scause == ECALL_FROM_U
    modifies p
    ensures (Snap(p, a, clock), out) == DispatchSpec(old(Snap(p, a, clock)), a.end, cpu, scause, stval, mapOk)
  {
    if p.killed {
      return Exit;
    }
    p.epc := p.epc + 4;
    // intr_on() and syscall()
    return Resume(false);
  }

  /** usertrap's page-fault branch and its exit. */
  method FaultTrap(p: Proc, a: Allocator, clock: Clock, cpu: nat, scause: bv64, stval: nat, mapOk: bool)
      returns (out: Outcome)
    requires a.Valid() && cpu < NCPU
    requires scause == INSTR_PAGE_FAULT || scause == STORE_PAGE_FAULT
    modifies p, a, a.kmem
    ensures a.Valid()
    ensures (Snap(p, a, clock), out) == DispatchSpec(old(Snap(p, a, clock)), a.end, cpu, scause, stval, mapOk)
  {
    var panic := HandlePageFault(p, a, clock, cpu, stval, mapOk);
    if panic.Some? {
      return Panic(panic.value);
    }
    return if p.killed then Exit else Resume(false);
  }

  /** usertrap's devintr branch and its exit. */
  method DeviceTrap(p: Proc, a: Allocator, clock: Clock, cpu: nat, scause: bv64, stval: nat, mapOk: bool)
      returns (out: Outcome)
    requires cpu < |a.Lists()|
    requires Classify(scause).Device? || Classify(scause).Unexpected?
    modifies p, clock
    ensures (Snap(p, a, clock), out) == DispatchSpec(old(Snap(p, a, clock)), a.end, cpu, scause, stval, mapOk)
  {
    var which := clock.DevIntr(scause, cpu);
    if which == 0 {
      p.killed := true;
      return Exit;
    }
    return if p.killed then Exit else Resume(which == 2);
  }

  /** usertrap on CPU cpu, with the trap registers sstatus, scause, sepc and
      stval; mapOk is whether mappages succeeds if a COW split gets that far. */
  method UserTrap(p: Proc, a: Allocator, clock: Clock, cpu: nat,
                  sstatus: bv64, scause: bv64, sepc: bv64, stval: nat, mapOk: bool)
      returns (out: Outcome)
    requires a.Valid() && cpu < NCPU
    modifies p, a, a.kmem, clock
    ensures a.Valid()
    ensures (Snap(p, a, clock), out)
         == UserTrapSpec(old(Snap(p, a, clock)), a.end, cpu, sstatus, scause, sepc, stval, mapOk)
  {
    if sstatus & SSTATUS_SPP != 0 {
      return Panic("usertrap: not from user mode");
    }
    p.epc := sepc;
    if scause == ECALL_FROM_U {
      out := SyscallTrap(p, a, clock, cpu, scause, stval, mapOk);
    } else if scause == INSTR_PAGE_FAULT || scause == STORE_PAGE_FAULT {
      out := FaultTrap(p, a, clock, cpu, scause, stval, mapOk);
    } else {
      out := DeviceTrap(p, a, clock, cpu, scause, stval, mapOk);
    }
  }

  // ---------------------------------------------------------------------------
  // usertrapret and kerneltrap

  /** The sstatus usertrapret writes: SPP cleared (return to user mode), SPIE
      set (interrupts on in user mode), every other bit as it was. */
  function UserRetStatus(x: bv64): (r: bv64)
    ensures r & SSTATUS_SPP == 0 && r & SSTATUS_SPIE == SSTATUS_SPIE
    ensures r & !(SSTATUS_SPP | SSTATUS_SPIE) == x & !(SSTATUS_SPP | SSTATUS_SPIE)
  {
    (x & !SSTATUS_SPP) | SSTATUS_SPIE
  }

  /** kerneltrap's outcome; running says whether the CPU runs a process in
      state RUNNING. sepc and sstatus are written back unchanged. */
  function KernelTrapSpec(sstatus: bv64, intrOn: bool, scause: bv64, running: bool): (out: Outcome)
    ensures out != Exit
    ensures out.Resume? ==> sstatus & SSTATUS_SPP != 0 && !intrOn && DevIntrClass(scause) != 0
  {
    if sstatus & SSTATUS_SPP == 0 then Panic("kerneltrap: not from supervisor mode")
    else if intrOn then Panic("kerneltrap: interrupts enabled")
    else if DevIntrClass(scause) == 0 then Panic("kerneltrap")
    else Resume(DevIntrClass(scause) == 2 && running)
  }

  /** kerneltrap panics unless it came from supervisor mode with interrupts off
      and devintr recognises the cause; it yields only on a timer interrupt
      while a process runs; it never kills. */
  lemma KernelTrapChecks(sstatus: bv64, intrOn: bool, scause: bv64, running: bool)
    ensures var out := KernelTrapSpec(sstatus, intrOn, scause, running);
      && (out.Panic? <==> sstatus & SSTATUS_SPP == 0 || intrOn || DevIntrClass(scause) == 0)
      && (out == Resume(true) <==>
            sstatus & SSTATUS_SPP != 0 && !intrOn && scause == SOFTWARE_INTR && running)
      && out != Exit
  {
  }

  /** kerneltrap on CPU cpu. */
  method KernelTrap(clock: Clock, cpu: nat, sstatus: bv64, intrOn: bool, scause: bv64, running: bool)
      returns (out: Outcome)
    modifies clock
    ensures out == KernelTrapSpec(sstatus, intrOn, scause, running)
    ensures clock.ticks ==
      if sstatus & SSTATUS_SPP != 0 && !intrOn && scause == SOFTWARE_INTR && cpu == 0
      then old(clock.ticks) + 1 else old(clock.ticks)
  {
    if sstatus & SSTATUS_SPP == 0 {
      return Panic("kerneltrap: not from supervisor mode");
    }
    if intrOn {
      return Panic("kerneltrap: interrupts enabled");
    }
    var which := clock.DevIntr(scause, cpu);
    if which == 0 {
      return Panic("kerneltrap");
    }
    return Resume(which == 2 && running);
  }
}
