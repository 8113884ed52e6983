# xv6 lab kernel core, modelled in Dafny

A Dafny model of the bookkeeping and decision code of a RISC-V xv6 teaching
kernel and two of its user-level lab programs:

- `kalloc.dfy` (module `KAlloc`): the per-CPU physical page allocator.
  Each CPU has a LIFO free list. `kfree` checks the address, fills the page
  with 1s and pushes it on the calling CPU's list. `kalloc` pops the local
  list or steals from the lowest-indexed non-empty list of another CPU, and
  fills the page with 5s. `freerange`/`kinit` free every whole page from
  the end of the kernel image to `PHYSTOP`.
- `bio.dfy` (module `Bio`): the hashed buffer cache. `NBUF` slots are
  shared by `NBUCKET` bucket lists keyed by `blockno % NBUCKET`. The module
  models `bget`, `bread`, `bwrite`, `brelse`, `bpin` and `bunpin`, and the
  cache invariant they keep.
- `trap.dfy` (module `Trap`): the `devintr` classification of `scause`;
  `usertrap`'s dispatch (system call, copy-on-write page fault, device
  interrupt, kill); the COW page split over the allocator of `KAlloc`;
  `kerneltrap`'s checks; `usertrapret`'s sstatus update; `clockintr`.
- `uthread.dfy` (module `UThread`): the cooperative user-level thread table.
  It models `thread_init`, `thread_create`, the wrap-around round-robin
  `thread_schedule`, and `thread_yield`.
- `ph.dfy` (module `PH`): the chained hash table of the `ph` lab (`insert`,
  `put`, `get`).
- `wrappers.dfy` (module `Wrappers`): an `Option` type.

Each source file with state becomes a class. Its fields are the state
the source updates: its globals (the free lists, the buffer array and
bucket heads, the thread table, the hash table), and the parts of the
machine it reads and writes. `Trap.Proc` stands for the process's
`struct proc` (saved pc, killed flag, page table). `KAlloc.Allocator.mem`
stands for physical memory and `Bio.BCache.disk` for the disk. The methods run the source's loops and are proved against pure
specification functions over a snapshot of that state, for example
`Lists() == AllocSpec(old(Lists()), id).1`. The properties of those
functions are proved as lemmas:
- kalloc: conservation of pages and absence of duplicates;
- bio: the cache invariant and the write/release/read round trip;
- trap: COW split remapping and page movement;
- uthread: scan order and that yielding never exits;
- ph: the put/get round trip.

Linked lists are modelled as sequences in list order, head first: the
free lists, the bucket lists and the hash chains.

`kernel/kalloc.c` keeps no page reference count, although the comment at
`kernel/trap.c:98` speaks of one: `kfree` always puts the page back on a
free list. `hash_v` uses only the block number. `kalloc`'s steal scans
CPUs 0 to NCPU-1 in order.

## Model

| member | source | states |
|---|---|---|
| KAlloc.PgRoundUp | kernel/kalloc.c:44 | PGROUNDUP gives the first page boundary at or above the address |
| KAlloc.Victim | kernel/kalloc.c:97-108 | the steal loop picks the lowest index at or above i, other than the caller, whose list is non-empty; every index skipped before it is empty or the caller's |
| KAlloc.Donor | kernel/kalloc.c:89-109 | kalloc takes from the local list when non-empty, otherwise from the lowest-indexed non-empty other list; it has no donor iff every list is empty |
| KAlloc.AllocTakesHead | kernel/kalloc.c:89-109 | a non-empty local list loses its head, which is returned; otherwise the first non-empty other list loses its head; nothing else changes |
| KAlloc.FreeSpec | kernel/kalloc.c:68-75 | kfree pushes pa on the calling CPU's list, the old list its tail; every other CPU's list is unchanged |
| KAlloc.AllocSpec | kernel/kalloc.c:86-109 | kalloc either fails with the lists unchanged, or returns the head of the donor's list, which keeps its tail; every other list is unchanged |
| KAlloc.FreeAll | kernel/kalloc.c:44-46 | freeing pages one after another on one CPU leaves them on its list in reverse order above the old list; other lists unchanged |
| KAlloc.PagesFrom | kernel/kalloc.c:44-45 | the pages freerange visits lie wholly in [start, end); there are none iff not even one page fits |
| KAlloc.AllocFailsIffAllEmpty | kernel/kalloc.c:91-114 | kalloc returns 0 exactly when every CPU's free list is empty |
| KAlloc.AllocTouchesOnlyDonor | kernel/kalloc.c:91-108 | kalloc leaves every list other than the one it pops unchanged |
| KAlloc.AllocConserves | kernel/kalloc.c:91-103 | a successful kalloc returns a page that was free and removes exactly that page from the pool of free pages (count minus one); a failed one changes nothing |
| KAlloc.AllocKeepsDistinct | kernel/kalloc.c:91-103 | kalloc never duplicates a free page, and the page it returns is on no free list afterwards |
| KAlloc.FreeConserves | kernel/kalloc.c:68-75 | kfree adds exactly pa to the pool (count plus one) and leaves every other CPU's list unchanged |
| KAlloc.FreeDistinctIff | kernel/kalloc.c:54-75 | kfree keeps the free lists duplicate-free exactly when pa was not already free: a double free is not detected |
| KAlloc.FreeAllConserves | kernel/kalloc.c:44-46 | freeing a run of pages on one CPU adds exactly those pages to the pool and touches no other CPU's list |
| KAlloc.PagesFromAre | kernel/kalloc.c:44-46 | freerange visits exactly the pages start + k*PGSIZE that fit wholly below the end, in increasing order, all page-aligned |
| KAlloc.Allocator.constructor | kernel/kalloc.c:21-24 | the statically zeroed kmem array: every free list empty |
| KAlloc.Allocator.KInit | kernel/kalloc.c:32-38 | kinit frees every whole page from PGROUNDUP(end) up to PHYSTOP onto the calling CPU's list; those pages read as 1s and every other page is unchanged |
| KAlloc.Allocator.Free | kernel/kalloc.c:53-76 | kfree panics unless pa is page-aligned, at or above end and below PHYSTOP; otherwise it fills the page with 1s and pushes it on the calling CPU's list |
| KAlloc.Allocator.Kalloc | kernel/kalloc.c:81-115 | kalloc returns the page AllocSpec picks, filled with 5s, or 0 with memory unchanged when every list is empty; the lists become AllocSpec's |
| KAlloc.Allocator.FreeRange | kernel/kalloc.c:40-47 | freerange frees the pages PGROUNDUP(start) + k*PGSIZE below the end in order; it succeeds iff kfree accepts every one, and then each reads as 1s and every other page is unchanged |
| Bio.Hash | kernel/bio.c:40-42 | the bucket of a block is below NBUCKET and depends on the block number only |
| Bio.Empty | kernel/bio.c:50-57 | after binit every slot is unused, every bucket list is empty and the cache invariant holds |
| Bio.UniqueKeys | kernel/bio.c:63-93 | under the cache invariant no two slots in use, on any lists, cache the same (dev, blockno) |
| Bio.Inv | kernel/bio.c:63-93 | under the cache invariant the cache has NBUF slots and NBUCKET lists, an unused slot is on no list, and no list holds a slot twice |
| Bio.Lookup | kernel/bio.c:67-74 | the lookup loop finds a slot of the bucket list caching (dev, blockno), or none exists on that list |
| Bio.FirstUnused | kernel/bio.c:78-80 | the claim loop picks the lowest slot whose used flag is clear, or every slot is in use |
| Bio.Unlink | kernel/bio.c:137-138 | unlinking s leaves exactly the other slots of the list, and a list with no slot twice stays so |
| Bio.UnlinkAbsent | kernel/bio.c:137-138 | unlinking a slot not on the list leaves the list as it was |
| Bio.UnlinkAt | kernel/bio.c:137-138 | on a list with no slot twice, unlinking the slot at position i leaves the list before and after it, in order |
| Bio.Get | kernel/bio.c:60-96 | any slot bget returns is in use and caches (dev, blockno) |
| Bio.GetKeepsInv | kernel/bio.c:60-96 | bget keeps the cache invariant: linked slots are used and hash to their bucket, keys are unique per bucket, every used slot is linked, refcnt fits a uint |
| Bio.GetHit | kernel/bio.c:67-72 | a hit returns the slot already caching the block and adds exactly one reference; the slot's sleeplock goes to the caller iff it was free, and its key, valid flag and data are kept; no list, no used flag and no other slot changes |
| Bio.GetMiss | kernel/bio.c:78-92 | a miss claims the lowest unused slot with the block's key, valid 0, refcnt 1, its sleeplock held by the caller, and puts it at the head of the bucket list; the slot keeps its data, and no other slot or list changes |
| Bio.GetPanicsIff | kernel/bio.c:78-95 | bget panics "bget: no buffers" exactly when no slot in use caches the block and every slot is in use |
| Bio.ReadFills | kernel/bio.c:99-110 | bread returns a valid buffer for the block whose data comes from disk exactly when it was not valid before |
| Bio.ReadSpec | kernel/bio.c:99-110 | bread returns what bget returns with the same lists; a buffer it returns is valid and caches the block |
| Bio.WriteSpec | kernel/bio.c:113-119 | bwrite succeeds iff the caller holds the sleeplock; then the block reads back as the buffer's data, otherwise the disk is unchanged; no other block changes |
| Bio.Release | kernel/bio.c:123-143 | brelse succeeds iff the caller holds the sleeplock, and then frees it; otherwise nothing changes; no other slot changes; the cache invariant is kept |
| Bio.Pin | kernel/bio.c:145-162 | bpin and bunpin change only the slot's refcnt: no list and no other field or slot |
| Bio.ReadKeepsInv | kernel/bio.c:99-110 | bread keeps the cache invariant |
| Bio.UnlinkKeepsInv | kernel/bio.c:128-139 | the last brelse, which unlinks the slot and marks it unused, keeps the cache invariant |
| Bio.ReleaseEffect | kernel/bio.c:123-143 | brelse frees the sleeplock and drops one reference; at zero the slot leaves its bucket list and becomes unused, otherwise no list changes; the slot's list keeps the other slots in order; other bucket lists, the slot's key, valid flag and data, and every other slot are kept |
| Bio.PinKeepsInv | kernel/bio.c:145-162 | bpin and bunpin keep the invariant, change only the slot's refcnt, by +1 and -1, and leave every other slot unchanged |
| Bio.WriteReleaseRead | kernel/bio.c:99-143 | writing a held buffer, releasing it and reading the block again yields the data written, whether or not the slot was reclaimed in between |
| Bio.BCache.constructor | kernel/bio.c:50-57 | binit leaves the empty cache |
| Bio.BCache.Bget | kernel/bio.c:60-96 | bget's two loops compute Get and keep the invariant |
| Bio.BCache.Bread | kernel/bio.c:99-110 | bread computes ReadSpec and does not change the disk |
| Bio.BCache.Bwrite | kernel/bio.c:113-119 | bwrite panics unless the caller holds the sleeplock, otherwise writes the buffer's data to its block; the cache is unchanged |
| Bio.BCache.Brelse | kernel/bio.c:123-143 | brelse panics unless the caller holds the sleeplock, otherwise computes Release |
| Bio.BCache.Bpin | kernel/bio.c:145-153 | bpin adds one reference |
| Bio.BCache.Bunpin | kernel/bio.c:155-162 | bunpin drops one reference and never unlinks |
| Trap.DevIntrClass | kernel/trap.c:219-262 | devintr returns 1 for an interrupt with low byte 9, 2 for scause 0x8000000000000001, else 0; a non-zero result needs the interrupt bit |
| Trap.DevIntrByCode | kernel/trap.c:224-261 | exceptions are never device interrupts; interrupt code 9 gives 1, code 1 gives 2, the timer code 5 gives 0 |
| Trap.Clock.constructor | kernel/trap.c:12 | ticks starts at 0 |
| Trap.Proc.constructor | kernel/trap.c:48 | the process `myproc()` returns, with any saved pc, killed flag and page table |
| Trap.Clock.ClockIntr | kernel/trap.c:205-212 | clockintr adds one tick (modulo 2^32) |
| Trap.Clock.DevIntr | kernel/trap.c:219-262 | devintr returns DevIntrClass and ticks the clock exactly on a software interrupt on CPU 0 |
| Trap.PgRoundDown | kernel/trap.c:74 | PGROUNDDOWN gives the page-aligned start of the page holding va |
| Trap.CowFlags | kernel/trap.c:99 | the split page's flags have W set and COW clear, every other bit kept |
| Trap.KeepsValid | kernel/trap.c:99-103 | mappages adding PTE_V to the split flags changes nothing, as V was set |
| Trap.CowFault | kernel/trap.c:68-88 | a fault is split iff va < MAXVA and PGROUNDDOWN(va) maps a PTE with V, U and COW set; the split names that PTE's pa and flags |
| Trap.FaultKillsIff | kernel/trap.c:68-93 | a page fault kills the process iff the fault is not a COW split or kalloc fails, and then nothing else changes: page table, free lists and memory untouched |
| Trap.FaultPanicsIff | kernel/trap.c:89-106 | the page-fault branch panics iff the split gets a page and then kfree rejects the old page or mappages fails |
| Trap.SplitRemaps | kernel/trap.c:88-106 | a completed split maps PGROUNDDOWN(va), and nothing else, to the new page with W set and COW cleared in its old flags; the free lists are kalloc's followed by kfree of the old page; the old page is filled with 1s and every page other than the two is unchanged |
| Trap.SplitMovesPages | kernel/trap.c:89-100 | a completed split takes the new page out of the free pool and puts the old page in |
| Trap.SplitCopies | kernel/trap.c:89-100 | when kalloc returns a page other than the old one, that page holds exactly the old page's contents; if it returns the old page itself, that page ends filled with 1s |
| Trap.SplitKeepsDistinct | kernel/trap.c:89-100 | when the old page was on no free list, kalloc returns a different page, the free lists stay duplicate-free and the new page is on none |
| Trap.RemapMemory | kernel/trap.c:95-106 | memmove copies the old page into the new one; kfree of an acceptable old page fills it with 1s; no other page changes |
| Trap.SplitMemory | kernel/trap.c:88-106 | after the split, an acceptable old page is filled with 1s and no page other than the old and the new one changes |
| Trap.SplitSpec | kernel/trap.c:88-106 | the split kills the process with nothing else changed iff kalloc fails; otherwise it panics iff va0 ends up unmapped, and a rejected old page leaves the page table as it was; a completed split leaves the lists of kalloc followed by kfree; no other mapping, nor epc or ticks, changes |
| Trap.RemapSpec | kernel/trap.c:96-106 | kfree rejecting the old page panics with page table and free lists unchanged; otherwise the split panics iff va0 is left unmapped, and on success the lists are kfree's; no other mapping, nor epc, ticks or killed, changes |
| Trap.PageFaultSpec | kernel/trap.c:64-108 | a fault that is not a COW split kills the process with nothing else changed; epc and ticks are kept |
| Trap.DispatchSpec | kernel/trap.c:53-118 | only the page-fault branch can panic or touch page table, free lists and memory; only a system call moves epc; only a device interrupt ticks |
| Trap.FaultOutcome | kernel/trap.c:120-127 | after the page-fault branch, usertrap panics iff the split panicked, and exits iff it did not and the process is killed |
| Trap.Classify | kernel/trap.c:53-118 | usertrap takes the syscall branch iff scause is 8, the page-fault branch iff 12 or 15, the device branch iff devintr is non-zero, otherwise the unexpected branch |
| Trap.EcallAdvancesPc | kernel/trap.c:51-59 | a system call from a live process resumes at sepc + 4 |
| Trap.ExitIffKilled | kernel/trap.c:43-127 | from user mode usertrap panics only in the page-fault branch, otherwise exits iff the process ends up killed; an unexpected cause always exits |
| Trap.YieldIffTimer | kernel/trap.c:110-125 | usertrap yields iff it came from user mode on a timer (software) interrupt and the process is live |
| Trap.LoadFaultKills | kernel/trap.c:64-118 | a load page fault (scause 13) is not handled: the process is killed with nothing else changed |
| Trap.CowSplit | kernel/trap.c:88-108 | the split's allocate, copy, unmap-and-kfree and mappages steps compute SplitSpec |
| Trap.Remap | kernel/trap.c:96-108 | the copy, unmap-and-kfree and mappages steps compute RemapSpec |
| Trap.HandlePageFault | kernel/trap.c:64-108 | the page-fault branch computes PageFaultSpec |
| Trap.SyscallTrap | kernel/trap.c:53-62 | the system-call branch computes DispatchSpec |
| Trap.FaultTrap | kernel/trap.c:64-108 | the page-fault branch with its exit computes DispatchSpec |
| Trap.DeviceTrap | kernel/trap.c:110-118 | the devintr and unexpected branches compute DispatchSpec |
| Trap.UserTrap | kernel/trap.c:38-128 | usertrap computes UserTrapSpec: panic if SPP is set, else save sepc and dispatch |
| Trap.UserTrapSpec | kernel/trap.c:38-128 | usertrap panics with nothing changed if SPP is set; otherwise epc becomes sepc, plus 4 for a system call of a live process |
| Trap.UserRetStatus | kernel/trap.c:156-159 | usertrapret clears SPP, sets SPIE and keeps every other sstatus bit |
| Trap.KernelTrapChecks | kernel/trap.c:184-197 | kerneltrap panics iff SPP is clear, interrupts are on, or devintr returns 0; it yields iff a timer interrupt arrives while a process runs; it never kills |
| Trap.KernelTrapSpec | kernel/trap.c:176-203 | kerneltrap never exits a process, and resumes only from supervisor mode with interrupts off after a device interrupt |
| Trap.KernelTrap | kernel/trap.c:176-203 | kerneltrap computes KernelTrapSpec and ticks the clock only for a timer interrupt on CPU 0 after the checks pass |
| UThread.Candidate | user/uthread.c:49-52 | the slot examined at each step of the scan is a valid slot |
| UThread.FirstRunnable | user/uthread.c:48-58 | the scan stops at the first RUNNABLE candidate; every earlier candidate is not RUNNABLE |
| UThread.Next | user/uthread.c:48-58 | the scan finds a RUNNABLE slot, or every candidate slot is not RUNNABLE |
| UThread.CandidatesCover | user/uthread.c:49-58 | the scan visits current+1, ..., MAX_THREAD-1, 0, ..., current, each slot exactly once, the current one last |
| UThread.CandidateWraps | user/uthread.c:51-52 | the scan wraps to slot 0 at most once |
| UThread.NextIsFirstRunnable | user/uthread.c:48-63 | thread_schedule exits iff no slot is RUNNABLE; otherwise it picks a RUNNABLE slot with none earlier in scan order |
| UThread.ScheduleSwitches | user/uthread.c:65-76 | a switch makes the chosen RUNNABLE slot RUNNING and current and leaves every other slot's state, including the previous thread's; Stay iff the pick is current |
| UThread.ScheduleSpec | user/uthread.c:44-77 | thread_schedule exits iff Next finds no RUNNABLE slot, and otherwise picks Next's slot; it changes nothing when it exits or stays; a switch goes from the current slot to a RUNNABLE one, made RUNNING and current |
| UThread.YieldNeverExits | user/uthread.c:94-99 | after thread_yield the scheduler never exits, and stays iff no other thread is RUNNABLE |
| UThread.YieldSpec | user/uthread.c:94-99 | thread_yield leaves the old thread RUNNABLE and a switched-to thread RUNNING; staying keeps the current slot, now RUNNABLE |
| UThread.FirstFree | user/uthread.c:83-85 | thread_create's loop stops at the lowest FREE slot |
| UThread.Threads.constructor | user/uthread.c:28 | the zeroed all_thread table: every slot FREE |
| UThread.Threads.ThreadInit | user/uthread.c:32-42 | thread_init makes slot 0 current and RUNNING |
| UThread.Threads.ThreadCreate | user/uthread.c:80-91 | thread_create marks the lowest FREE slot RUNNABLE with ra = func and sp at its stack top; a FREE slot must exist |
| UThread.Threads.ThreadSchedule | user/uthread.c:44-77 | thread_schedule's scan loop computes ScheduleSpec |
| UThread.Threads.ThreadYield | user/uthread.c:94-99 | thread_yield computes YieldSpec |
| PH.CRem | notxv6/ph.c:39 | C's % agrees with mathematical modulo for non-negative operands; for a negative one it lies in (-n, 0] and equals a + (-a / n) * n, the truncated remainder |
| PH.Bucket | notxv6/ph.c:39 | key % NBUCKET lies strictly between -NBUCKET and NBUCKET and is congruent to key modulo NBUCKET |
| PH.BucketRange | notxv6/ph.c:39 | a non-negative key lands in bucket key mod NBUCKET, inside the table; a negative key not a multiple of NBUCKET would index before it |
| PH.FindFrom | notxv6/ph.c:43-46 | the chain walk stops at the first entry holding the key, or no entry holds it |
| PH.PutChain | notxv6/ph.c:43-56 | put on a chain keeps its length for a present key and grows it by one otherwise; the result holds (key, value) and otherwise only old entries |
| PH.PutSpec | notxv6/ph.c:38-57 | put leaves (key, value) in the key's bucket and changes no other bucket |
| PH.GetSpec | notxv6/ph.c:59-66 | get returns an entry of the key's chain holding the key; it returns none iff no entry of that chain holds it |
| PH.PutShape | notxv6/ph.c:38-57 | put on a present key overwrites that entry's value and adds no node; on a new key it prepends (key, value) with the old chain as tail |
| PH.PutThenGet | notxv6/ph.c:38-66 | after put(k, v), get(k) returns an entry with key k and value v |
| PH.PutOtherKeys | notxv6/ph.c:38-57 | put(k, v) changes what get returns for no other key and modifies no other bucket |
| PH.PutNoDup | notxv6/ph.c:38-57 | put never creates a second entry for a key in a chain |
| PH.Table.constructor | notxv6/ph.c:17 | the zeroed table: every chain empty |
| PH.Table.Insert | notxv6/ph.c:30-36 | insert makes (key, value) the new head of chain i, the old chain its tail |
| PH.Table.Put | notxv6/ph.c:38-57 | put's walk and its update or insert compute PutSpec |
| PH.Table.Get | notxv6/ph.c:59-66 | get's walk returns GetSpec: the first entry of the key's chain holding the key, or none |

## Left out

- Locks and atomics are not modelled: spinlocks, sleeplock waiting, `push_off`/`pop_off`, `__atomic_test_and_set`/`__atomic_clear` and the pthread mutexes. Operations run one at a time. A sleeplock is modelled by its holder. A `bget` hit on a buffer whose sleeplock is held, by any process, the caller included, ends in the outcome `Sleeps` instead of waiting (for the caller itself, `acquiresleep` would deadlock).
- Device I/O is not modelled: `virtio_disk_rw` becomes reads and writes of a map from (dev, blockno) to block contents, and a block never written reads as zeros. `plic_claim`, `plic_complete`, `uartintr` and `virtio_disk_intr` are omitted from `devintr`.
- Register and trampoline plumbing is not modelled: `w_stvec`, `r_satp`, `MAKE_SATP`, the trapframe kernel fields, the jump to `userret`, `sfence_vma`, `intr_on`/`intr_off`, `w_sip` and `thread_switch` with the saved `s0`..`s11` registers. The register reads become parameters. `usertrapret` is modelled only through its sstatus update.
- `syscall()` is a no-op: its effects, including a system call that kills or exits its own process (after which `usertrap` would exit), are not modelled. `exit(-1)` becomes the outcome Exit and `yield()` becomes Resume(true). `wakeup(&ticks)` in `clockintr` and `printf` are dropped.
- `walk`, `uvmunmap` and `mappages` are not part of this model. The page table is a map from page-aligned virtual address to (pa, flags). Unmapping removes the entry and calls kfree on the old page. Whether `mappages` succeeds is a parameter.
- Page reference counts are not modelled. `kernel/kalloc.c` keeps none, and the COW split calls kfree on the old page unconditionally.
- Trap.SplitCopies: states the copy only when kalloc returns a page other than the old one. When the old page was itself free, kalloc may return it, and the split then maps a page that kfree has just filled with 1s. Without reference counts, nothing in the code rules this out.
- The constants from headers not part of this model are:
  - NCPU = 8, NBUF = 30, the bio NBUCKET = 13, BSIZE = 1024;
  - PGSIZE = 4096, KERNBASE = 0x80000000, PHYSTOP = KERNBASE + 128 MiB;
  - PTE_V = 1, PTE_W = 4, PTE_U = 0x10, PTE_COW = 0x100;
  - MAXVA = 2^38, SSTATUS_SPP = 0x100, SSTATUS_SPIE = 0x20.

  Most are the usual xv6 RISC-V values. PTE_COW = 0x100 (the first of the
  bits RISC-V leaves to software) and the bio NBUCKET = 13 are this lab's
  own choices. The end of the kernel image is a parameter.
- The `next` pointer kfree writes into the freed page is not modelled: a freed page reads as all 1s. Memory never written reads as zeros.
- KAlloc.PgRoundUp: addresses are unbounded numbers, so the 64-bit overflow of PGROUNDUP near 2^64 is not modelled. stval is an unbounded number too; a fault address at or above MAXVA is killed either way.
- Bio lists: the doubly-linked bucket lists, with their prev/next pointers and head sentinel, are modelled by their order as a sequence of slot indices.
- UThread: `current_thread` before `thread_init` (a null pointer) is not modelled. The table always has a current slot, 0 at first.
- UThread.Threads.ThreadCreate: the thread table's address is a parameter. Stack tops are computed from an assumed `sizeof(struct thread)` of 8312 bytes.
- PH.Table.Put, PH.Table.Get: require InTable(key). A negative key that is not a multiple of NBUCKET gives a negative C remainder and would index before the table; such keys are excluded rather than modelled.
- PH.Table.Get: returns a copy of the entry rather than a pointer to it, so later updates through that pointer are not modelled. A `malloc` failure in `insert` is not modelled.
- `main`, `put_thread`, `get_thread`, `now()` and the random keys of the ph benchmark are not modelled, nor the test threads `thread_a`, `thread_b` and `thread_c` and `main` of uthread.
- `trapinit`, `trapinithart` and the lock initialisation in `binit`/`kinit` only set up locks or vectors and are not modelled.
