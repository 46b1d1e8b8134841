# JOS kernel and library: a Dafny model with proofs

JOS is a small multiprocessor exokernel: the kernel hands out page frames, address spaces, CPUs and
one-slot messages, and a library in each program builds fork on top.  This project models its hard core
in Dafny and proves it against the promises of its documentation.  `dafny verify dfyconfig.toml` checks
everything.  Nothing was executed.

| module | what it models |
|---|---|
| Mmu | address arithmetic and the hardware walk of 32-bit two-level page tables (Intel SDM volume 3A, section 4.3), with the self-map |
| Pmap, EnvVm, KernMap | physical memory as a value: `mem` (the page tables live inside the frames), `pp_ref`, the free list; the functions of kern/pmap.c and the address space half of kern/env.c on it; their invariant |
| FreeList, PhysMem | the same operations in place, on arrays and linked lists, each proved to do what the function does |
| Envs, Sched, Syscalls | environments, ids, the scheduler's choice and the system calls, as functions on physical memory plus `envs[]` |
| Kernel | the same in place |
| Machine | N CPUs, the big lock, user stores, traps, scheduling, environment ids and IPC as a step machine |
| Returns | what a program finds in its registers after a trap, over runs of Machine |
| Limits | for each call that does not check what it needs, a state or run of the kernel in which it goes wrong |
| Cow, ForkLib | copy-on-write fork as a step machine over all environments, refined to an eager copy; fork, the fault handler and dumbfork in place |
| CowKernel, SieveKernel | the joints: the system calls that the fork and sieve machines stand for, on the kernel's own page tables and `envs[]` |
| Upcall | the user page fault frame and the assembly that unwinds it, with nested faults |
| Sieve | the concurrent prime sieve |
| Stab, Number, Console | stab_binsearch, printnum and strtol, the console ring |

## How to read it

* **Memory.** `Pmap.Valid` says that `pp_ref` of every frame outside the boot code's equals the number of
  slots (env_pgdir, directory entry below UTOP, table entry below UTOP) that refer to it, that the free
  list has no duplicate, referenced or reserved frame, that page tables are not shared or mapped, and
  that every address space above UTOP is kern_pgdir's but for its own self-map.  `InsertCorrect`,
  `RemovePresent`, `SetupCorrect` and `TeardownCorrect` say what each operation does to the flat map from
  pages to frames; `EnvVm.RunCorrect` is about every run.
* **CPUs.** One step of `Machine` is what one CPU does between two points at which another could notice:
  a user instruction, which may store to a page mapped writable, one `xchg`, one system call under the
  lock, a scheduling decision, the unlock, the `iret` after it.  `Machine.Inv` is kept by every step
  (`StepKeepsInv`); `OneEnvOneCpu`, `ReturnWindow`, `BoundedWaitingInRun`, `StaleIdInRun`,
  `ExactlyOnceInOrder` and `Returns.TrapReturns` are about every run, and `SysKeepsInvIff` says that a
  system call keeps it exactly when its caller respects what the code does not check.
* **Fork.** One step of `Cow` is one memory access, one system call, or one word of pgfault's memcpy, of
  any environment.  `Meaning` gives the eager machine's operation for it: the child's copy of a page is
  taken at the second map of duppage if the page was writable, because the parent still writes to the
  shared frame between the two maps, and at the first map otherwise; without a write in between that is
  the same (`CopiedAtCompletion`).  `ForkRefinesEagerCopy` equates
  what all programs see with the eager machine's memory after every step of every run, and
  `CowKernel.KernelForkRefinesEagerCopy` says so of the kernel's page tables and page contents.
* **In place.** `PhysMem.Memory`, `Kernel.Kernel`, `ForkLib.Library`, `Upcall.Cpu`, `Number.Output` and
  `Console.Cons` have the fields that the C code and assembly update; a method's `ensures` equates the
  whole new state with a function of the old one, and the lemmas are about that function.

## Where the code and its promises differ

* page_lookup does not test PTE_P (kern/pmap.c:525-536), so page_remove of an unmapped page of an existing
  page table puts frame 0 on the free list (`Pmap.RemoveValidIff`, `Syscalls.SysPageUnmapCorrect`), and
  sys_page_map and sys_ipc_try_send map frame 0 (`Syscalls.SysPageMapCorrect`, `Pmap.InsertReserved`):
  `Limits.AbsentPageBreaksSomewhere`.
* `pp_ref` is 16 bits wide and page_insert does not look: `Pmap.InsertCorrect`,
  `Limits.InsertBreaksSomewhere`.
* sys_page_map's read-only test never fires (kern/syscall.c:273): `Syscalls.SysPageMapGrantsWrite`,
  `Limits.GrantsWriteSomewhere`.
* sys_env_set_status does not look at the old status, and env_destroy can be applied to a dying
  environment: `Machine.SetStatusKeepsInvIff`, `Machine.DestroyKeepsInvIff`, with two CPUs
  `Limits.SetStatusBreaksSomewhere`, `Limits.DestroyBreaksSomewhere`.
* sys_ipc_try_send leaves env_ipc_perm as it was when no page goes (kern/syscall.c:386-394), so it is not
  nonzero exactly if a page came, as lib/ipc.c:11-12 says: `Syscalls.PermTellsTransferIff`,
  `Limits.StalePermSomewhere`.
* The rounded end of user_mem_check's range wraps at the last page: `KernMap.MemCheckWraps`.  Of an empty
  range that is not aligned it checks a page all the same: `KernMap.EmptyRangeRefused`.
* mmio_map_region's limit is tested in 32 bits, which may wrap: `KernMap.MmioAccepts`.
* Nothing keeps a program from mapping the page below its exception stack (inc/memlayout.h:57, 80-81).  The
  exception stack is bounded, and live outer frames are kept, exactly if that page is not writable:
  `Upcall.GuardIff`, `Upcall.OuterFramesLost`.
* A fault with esp exactly at UXSTACKTOP is taken for one on another stack, and the upcall then
  overwrites its own frame: `Upcall.TakeRestores`.
* stab_binsearch increments `addr` on an exact match, so entries with neighbouring values are confused,
  and an address below all entries of the type is not reported as contained in none:
  `Stab.NeighboursConfused`, `Stab.BelowAllReported`.
* sched_yield on a CPU without an environment always starts at slot 0, so there the wait of a runnable
  environment has no bound: `Sched.NeverChosenIff`, `Sched.Starved`.

## Model

| member | source | states |
|---|---|---|
| Mmu.AddressFields | inc/mmu.h:29-43 | PDX, PTX and PGOFF undo PGADDR, and PGNUM numbers pages in address order |
| Mmu.AddressRebuilt | inc/mmu.h:29-43 | PGADDR of its three fields is the address |
| Mmu.UserIndexes | inc/memlayout.h:112-138 | an address is below UTOP exactly if its directory index is below UTOP's; UVPT has a directory slot of its own |
| Mmu.UvptReadsPageTable | kern/env.c:195-197 | self-map: the hardware walk of `uvpt[n]`, with the PTE_U tests of a user access, reads the page table entry of page n exactly if page n has a page table that the access may see, and faults otherwise |
| Mmu.UvpdReadsDirectory | kern/env.c:195-197 | self-map: the hardware walk of `uvpd[d]` reads directory entry d and never faults |
| Pmap.Retarget | kern/pmap.c:491-565 | a change of one page table slot changes the reference count of each frame by exactly what that slot gains or loses |
| Pmap.AddTableValid | kern/pmap.c:431-438 | creating a page table keeps the invariant, takes exactly one frame and changes no mapping |
| Pmap.WritePte | kern/pmap.c:508-509 | with unshared page tables, writing one entry changes one page of one address space and no other |
| Pmap.RemovePresent | kern/pmap.c:553-565 | page_remove of a mapped page unmaps exactly it, and frees its frame exactly if that was the last reference |
| Pmap.RemoveValidIff | kern/pmap.c:525-565 | page_remove keeps the invariant if and only if the page is mapped or has no page table; otherwise frame 0 ends on the free list, because page_lookup does not test PTE_P |
| Pmap.InsertFails | kern/pmap.c:491-498 | page_insert fails only for want of a page table frame, and then changes nothing |
| Pmap.InsertCorrect | kern/pmap.c:491-512 | page_insert changes exactly one entry of the flat map; frames move between free list and tables as counted; the invariant is kept if and only if the 16-bit pp_ref has room or the frame is the one mapped there |
| Pmap.InsertSame | kern/pmap.c:499-511 | inserting again the frame mapped there changes only permissions, no count and no free list |
| Pmap.InsertOver | kern/pmap.c:500-511 | inserting over another page frees that page's frame exactly if nothing else holds it |
| Pmap.InsertKeepsContents | kern/pmap.c:491-512 | page_insert does not touch the contents of any data page |
| Pmap.InsertPermits | kern/pmap.c:508-511 | page_insert adds its permissions to the directory entry, which keeps its page table, or has a new one with all three permissions |
| Pmap.GrantsEntry | kern/pmap.c:508-511 | the permissions the hardware grants, through both levels, are those of the page table entry |
| Pmap.InsertReserved | kern/pmap.c:491-512 | page_insert of a frame of the boot code maps it like any other, and never keeps the invariant |
| Pmap.UserWritesData | inc/mmu.h:57-60 | user code may write exactly the pages whose entry has PTE_P, PTE_W and PTE_U, and these hold no page table and no page directory |
| Pmap.DataWrite | kern/pmap.c:491-565 | a store to such a page changes no mapping, no reference and none of the invariant |
| Pmap.UserSeesTables | kern/env.c:195-197 | in every valid state user code reads through `uvpd` and `uvpt` the directory entry and the page table entry that pgdir_walk finds |
| EnvVm.SetupCorrect | kern/env.c:165-200 | env_setup_vm takes one frame, makes it an empty self-mapped address space, and leaves the others alone |
| EnvVm.TeardownCorrect | kern/env.c:414-462 | env_free returns exactly the frames whose references were all the dying environment's, lowers every other count by exactly its own mappings, and leaves every other address space as it was |
| EnvVm.StepValid | kern/pmap.c:355-565 | every call of the allocator, page tables and address spaces, and every user store, keeps all invariants |
| EnvVm.RunCorrect | inc/memlayout.h:174-190 | over every run of such calls and of user stores, pp_ref counts the references, the free list holds no referenced or reserved frame, and no frame leaks if each allocation is followed by its insertion or release |
| KernMap.AddKernTableValid | kern/pmap.c:421-441 | a page table made for kern_pgdir keeps the invariant and every kernel mapping |
| KernMap.MemCheckExact | kern/pmap.c:641-664 | user_mem_check accepts exactly the ranges whose every byte is below ULIM, present and permitted, and otherwise reports the first other byte; of an empty unaligned range it looks at the byte at `va` |
| KernMap.EmptyRangeRefused | kern/pmap.c:641-664 | an empty range is refused exactly if it starts inside a page the user may not access |
| KernMap.MemCheckWraps | kern/pmap.c:641-664 | a range that reaches the last page is never accessible, and is refused exactly if the wrapped end is above `va` and the byte at `va` is not accessible |
| KernMap.MmioAccepts | kern/pmap.c:611-613 | the test against MMIOLIM passes exactly if the region fits, or the rounded size or the sum with `base` wraps |
| FreeList.SpellsDistinct | kern/pmap.c:289-294 | following the links of a free list meets every element once and ends |
| PhysMem.Memory.constructor | kern/pmap.c:129-177 | mem_init up to page_init, whatever memory held: kern_pgdir is cleared and self-mapped, the invariant holds, and the free list holds every frame but frame 0, that of MPENTRY_PADDR, and those from IOPHYSMEM up to the kernel's end |
| PhysMem.Memory.PageInit | kern/pmap.c:294-341 | the list in place holds exactly the frames but 0 and that of MPENTRY_PADDR that are below the end of base memory or outside the I/O hole and the kernel; the counts are 0 for these and for MPENTRY_PADDR, and 1 for the others |
| PhysMem.Memory.PageAlloc | kern/pmap.c:355-370 | in place: the head of the list, zeroed if asked for, or nothing and no change |
| PhysMem.Memory.PageFree | kern/pmap.c:376-386 | in place: the frame becomes the head of the list |
| PhysMem.Memory.PageDecref | kern/pmap.c:392-397 | in place: the count falls by one in 16 bits, and a frame that reaches 0 becomes the head of the list |
| PhysMem.Memory.PgdirWalk | kern/pmap.c:421-441 | in place: points at the entry of the address, or makes the page table, or fails and changes nothing |
| PhysMem.Memory.PageLookup | kern/pmap.c:525-536 | in place: returns a frame whenever there is a page table, mapped or not, and changes nothing |
| PhysMem.Memory.PageRemove | kern/pmap.c:553-565 | in place: does what Remove does to the whole state |
| PhysMem.Memory.PageInsert | kern/pmap.c:491-512 | in place: does what Insert does to the whole state, and reports it |
| PhysMem.Memory.EnvSetupVm | kern/env.c:165-200 | in place: does what Setup does and keeps the invariant |
| PhysMem.Memory.FreeTable | kern/env.c:438-450 | in place: one page table and all its pages are given up, and no other reference changes |
| PhysMem.Memory.EnvFreeVm | kern/env.c:430-457 | in place: the nested loops do what Teardown does and keep the invariant |
| PhysMem.Memory.BootMapRegion | kern/pmap.c:453-464 | in place: exactly the pages of the region are mapped, to consecutive frames, across page tables made on the way |
| PhysMem.Memory.MmioMapRegion | kern/pmap.c:584-619 | in place: each call maps a range of its own below MMIOLIM, uncached, right after the one before, or panics exactly if it would pass MMIOLIM |
| PhysMem.Memory.UserMemCheck | kern/pmap.c:641-664 | in place: the loop computes MemCheck |
| Envs.IdClosedForm | kern/env.c:224-228 | the id of a slot after n allocations, through every 32-bit wrap |
| Envs.IdsFresh | kern/env.c:224-228 | ids are positive and name their slot, and no slot repeats one within 2^19 - 1 allocations; after exactly that many it does |
| Envs.LookupExact | kern/env.c:75-109 | envid2env finds the caller for the id 0, and else exactly the live environment with that id now, with checkperm only the caller or its child |
| Envs.SameIdIff | kern/env.c:224-228 | two allocations of a slot give the same id exactly if a multiple of 2^19 - 1 apart |
| Envs.OldIdFinds | kern/env.c:75-109 | an id the slot had m allocations in finds it, n allocations in, exactly if n - m is such a multiple (and it is live and permitted), and never another slot |
| Envs.EnvAllocValid | kern/env.c:210-272 | env_alloc takes the first free slot and makes it a runnable environment with the next id, its parent, initial registers, no upcall and a page directory of its own, keeping slots, ids, page directories and the free list consistent; or changes nothing |
| Envs.EnvFreeValid | kern/env.c:414-462 | env_free keeps them consistent: a slot is on env_free_list exactly if its status is ENV_FREE |
| Sched.SearchFirst | kern/sched.c:38-45 | the loop of sched_yield stops at the first runnable slot in circular order, or there is none |
| Sched.PickFirst | kern/sched.c:32-45 | the chosen environment is exactly the first RUNNABLE one in circular order after the CPU's own |
| Sched.BoundedWaiting | kern/sched.c:31-52 | an environment that stays RUNNABLE runs after at most NENV calls made while the CPU has an environment |
| Sched.PickLeast | kern/sched.c:32-45 | a CPU without an environment chooses exactly the least RUNNABLE slot |
| Sched.NeverChosenIff | kern/sched.c:32-45 | over any number of such choices, an environment RUNNABLE at each is never chosen exactly if at each a smaller slot is RUNNABLE |
| Sched.Starved | kern/sched.c:32-45 | for every slot but 0 there are such runs of any length |
| Syscalls.PermOkBits | kern/syscall.c:194-203 | the permissions that are accepted: present and user, and besides only write and the three software bits |
| Syscalls.SysPageAllocCorrect | kern/syscall.c:173-216 | maps one fresh zeroed page at one address; or reports which error exactly when, and every mapping, count, environment and free list is as before |
| Syscalls.SysPageMapCorrect | kern/syscall.c:234-283 | shares one page at one address, or reports the right error and changes nothing; keeps the invariant if and only if the source is mapped and its count has room; a source that is not mapped gives frame 0 |
| Syscalls.SysPageMapGrantsWrite | kern/syscall.c:271-276 | the promise not to give write access to a read-only page is kept exactly when the caller does not ask for it: the test compares `perm & PTE_W` with 1 |
| Syscalls.SysPageUnmapCorrect | kern/syscall.c:292-311 | unmaps one page; keeps the invariant if and only if the page is mapped or has no page table |
| Syscalls.SysExoforkCorrect | kern/syscall.c:79-100 | makes a blocked child with the caller's registers, result 0, a fresh id and an empty address space, or reports an error and changes nothing |
| Syscalls.SysEnvSetStatusCorrect | kern/syscall.c:109-132 | -E_INVAL exactly for a status that is neither ENV_RUNNABLE nor ENV_NOT_RUNNABLE, -E_BAD_ENV exactly when envid2env finds nothing; else that status is set and nothing else, and receivers stay blocked if and only if none is made runnable |
| Syscalls.SysIpcTrySendCorrect | kern/syscall.c:351-403 | which error is returned exactly when, with no change; else the receiver has the value and the sender's id, is runnable, no longer receiving, with 0 in eax, and otherwise as before; the page is mapped, env_ipc_perm keeps its old value when no page goes, and the invariant is kept if and only if the page was mapped and its count has room |
| Syscalls.PermTellsTransferIff | lib/ipc.c:11-12 | env_ipc_perm is nonzero exactly if a page came, if and only if a page came or the field was zero before |
| Syscalls.SysIpcRecvCorrect | kern/syscall.c:416-430 | refuses exactly an unaligned address below UTOP; else blocks the caller with its receive slot open, changes nothing else, and keeps all invariants |
| Syscalls.EnvDestroyCorrect | kern/env.c:469-486 | an environment that runs elsewhere is marked as dying and nothing else changes; any other is freed, its id found no more, its slot at the head of the list, and every other environment keeps every mapping |
| Kernel.Kernel.constructor | kern/env.c:117-132 | env_init in place: all slots free, and the list in the order of the array |
| Kernel.Kernel.Envid2env | kern/env.c:75-109 | in place: computes Lookup |
| Kernel.Kernel.EnvAlloc | kern/env.c:210-272 | in place: does what EnvAlloc does to the whole kernel state and keeps its invariant |
| Kernel.Kernel.EnvFree | kern/env.c:414-462 | in place: does what EnvFree does to the whole kernel state and keeps its invariant |
| Kernel.Kernel.EnvDestroy | kern/env.c:469-486 | in place: does what EnvDestroy does and keeps the invariant |
| Kernel.Kernel.SysPageAlloc | kern/syscall.c:173-216 | in place: does what SysPageAlloc does to the whole kernel state |
| Kernel.Kernel.SysPageMap | kern/syscall.c:234-283 | in place: does what SysPageMap does to the whole kernel state |
| Kernel.Kernel.SysPageUnmap | kern/syscall.c:292-311 | in place: does what SysPageUnmap does to the whole kernel state |
| Kernel.Kernel.SysExofork | kern/syscall.c:79-100 | in place: does what SysExofork does to the whole kernel state |
| Kernel.Kernel.SysEnvSetStatus | kern/syscall.c:109-132 | in place: does what SysEnvSetStatus does to the whole kernel state |
| Kernel.Kernel.SysIpcTrySend | kern/syscall.c:351-403 | in place: does what SysIpcTrySend does to the whole kernel state |
| Kernel.Kernel.SysIpcRecv | kern/syscall.c:416-430 | in place: does what SysIpcRecv does to the whole kernel state |
| Kernel.Kernel.EnvRun | kern/env.c:517-548 | in place: changes the statuses as the step machine's env_run does |
| Kernel.Kernel.SchedYield | kern/sched.c:11-52 | in place: chooses the first RUNNABLE slot in circular order after curenv, or from slot 0 without one, else the environment that still runs; changes the environments as the step machine's scheduling step does |
| Machine.StepKeepsInv | kern/trap.c:294-352 | every step of every CPU, user stores to mapped pages among them, keeps the invariant of lock, CPUs, environments, memory and IPC |
| Machine.SysKeepsInvIff | kern/syscall.c:432-477 | a system call or exception made under the lock keeps it if and only if the caller respects the guards that the code does not have |
| Machine.LeaveKeepsInv | kern/sched.c:11-99 | so does every scheduling decision, including halting |
| Machine.LeaveChooses | kern/sched.c:11-99 | at the end of a trap a CPU goes on with its environment; if that gave up, is gone or was stopped, with the first RUNNABLE slot in circular order after its own, or from slot 0; if there is none, with its own if still RUNNING; else it halts, or enters the monitor exactly if nothing is alive |
| Machine.BoundedWaitingInRun | kern/sched.c:31-52 | over every run, an environment RUNNABLE at each call of sched_yield on a CPU, made while the CPU has an environment, is run by that CPU after one of the first NENV of them |
| Machine.XchgKeepsInv | kern/spinlock.c:60-82 | so does every attempt on the lock, whether it spins, enters, or collects a zombie |
| Machine.InitInv | kern/env.c:117-132 | the invariant holds when the CPUs start |
| Machine.OneEnvOneCpu | kern/trap.c:294-352 | in every reachable state at most one CPU is inside the kernel, and when none is, the environments on CPUs are all different and are exactly the RUNNING and DYING ones |
| Machine.OnlyHolderWrites | kern/spinlock.c:60-120 | only the CPU that holds the big lock, or takes it in that step, changes any kernel data; any other change is a user store, to the contents of one page that its environment maps writable |
| Machine.ReturnWindow | kern/env.c:517-548 | between unlock_kernel and iret nobody else writes the saved registers: the CPU returns with what it saved at the unlock |
| Machine.StepIds | kern/env.c:224-228 | sys_exofork gives the slot it fills the next id, and no other step changes any id |
| Machine.IdsInRun | kern/env.c:224-228 | over every run, the id of a slot is the one after as many allocations as the run made of it |
| Machine.StaleIdInRun | kern/env.c:75-109 | over every run, an id seen in a slot earlier finds that slot later exactly if it is live, permitted, and was filled a multiple of 2^19 - 1 times in between; otherwise it is rejected |
| Machine.InboxStep | kern/syscall.c:351-403 | what counts as sent to an environment grows by exactly the value of each successful send to it, and what counts as received by the field that ipc_recv reads |
| Machine.ExactlyOnceInOrder | kern/syscall.c:351-430 | what an environment has received is a prefix, at most one behind, of what was sent to it |
| Machine.SetStatusKeepsInvIff | kern/syscall.c:109-132 | setting the status of an environment keeps the invariant if and only if it is the caller or on no CPU, and no receiver is made runnable |
| Machine.DestroyKeepsInvIff | kern/env.c:469-486 | destroying keeps the invariant if and only if the target is the caller or not already dying |
| Returns.TrapServed | kern/syscall.c:432-477 | each system call does what its function says and returns the result in the caller's eax, other registers as saved, and the CPU goes on with the caller; sys_yield, a blocked receive and the end of an environment call sched_yield |
| Returns.TrapReturns | kern/trap.c:240-262 | over every run, from the trap to the program's next iret, on whichever CPU: its registers are those it trapped with, but for the result of its call in eax, which for a receive is the sender's 0; sys_yield changes none, and a page fault goes to the upcall |
| Limits.RemoveBreaks | kern/pmap.c:553-565 | in every valid state with a free frame, once a page table is added, page_remove of a page it does not map frees frame 0 |
| Limits.InsertBreaksSomewhere | kern/pmap.c:491-512 | from boot, 65535 insertions of one frame keep the invariant, and the next succeeds and loses it |
| Limits.SelfMapGrantsWrite | kern/syscall.c:271-276 | every environment can make every page it maps writable by mapping it onto itself |
| Limits.GrantsWriteSomewhere | kern/syscall.c:271-276 | from boot, a page allocated read-only is made writable |
| Limits.AbsentPageBreaksSomewhere | kern/syscall.c:234-311 | from boot, sys_page_unmap and sys_page_map succeed on a page that is not mapped, free and map frame 0, and lose the invariant |
| Limits.StalePermSomewhere | kern/syscall.c:386-394 | a receiver finds a permission left in env_ipc_perm nonzero although no page came |
| Limits.SetStatusBreaksSomewhere | kern/syscall.c:109-132 | with two CPUs, a run from boot in which a parent sets the status of its running child loses the invariant |
| Limits.DestroyBreaksSomewhere | kern/env.c:469-486 | with two CPUs, a run from boot in which a parent destroys its child twice loses the invariant |
| Cow.PageNumbers | inc/memlayout.h:124-150 | the page numbers of PFTEMP, USTACKTOP and the exception stack |
| Cow.FaultMapStep | lib/fork.c:46-47 | after the copy, mapping the private page over the shared one changes nothing any program sees |
| Cow.ShareStep | lib/fork.c:72-89 | the first map of duppage takes the child's copy, unless the page was writable, when the copy is taken at the second |
| Cow.ProtectStep | lib/fork.c:78-81 | the second map of duppage takes a pending copy and else changes nothing any program sees |
| Cow.DieStep | lib/fork.c:41-49 | an environment that panics in the middle of fork or pgfault leaves all others as they were |
| Cow.StepRefines | lib/fork.c:14-146 | every memory access, fault, word copied and system call of fork and pgfault keeps the sharing invariant and does to what programs see what the eager machine does |
| Cow.ForkRefinesEagerCopy | lib/fork.c:14-146 | copy-on-write fork refines eager copying: over every interleaved run, each environment sees exactly the memory of the eager machine |
| Cow.WritableUnshared | lib/fork.c:54-92 | a frame that an environment outside fork and pgfault may write to is mapped nowhere else |
| Cow.ChildIsCopy | lib/fork.c:110-146 | when a fork is done, whatever others did meanwhile, every page below the stack top that the parent did not write meanwhile is in the child as it was when the fork began |
| Cow.ForkRunStarts | lib/fork.c:140-143 | the last step of fork lets the child run, with no page changed |
| Cow.CopiedAtCompletion | lib/fork.c:65-92 | if the parent does not write a page between duppage's two maps of it, completing duppage is the eager copy of the page as it is then |
| CowKernel.StepAgrees | kern/syscall.c:79-311 | when the kernel performs the store or system call that a step of the fork machine stands for, page tables, flags and contents of every mapped page agree with the machine's again |
| CowKernel.FreeIsUnmapped | kern/pmap.c:355-370 | a frame on the kernel's free list is one the fork machine may allocate |
| CowKernel.KernelForkRefinesEagerCopy | lib/fork.c:14-146 | over every run of the kernel under fork, what a program finds in the kernel's memory at each of its pages is what the eager machine has there |
| ForkLib.Library.PgFault | lib/fork.c:14-52 | in place: the page becomes writable and private, its contents and every other page stay, or no memory is left |
| ForkLib.Library.CopyPageWords | lib/fork.c:45 | in place: the word by word copy completes and no program sees it |
| ForkLib.Library.DupPage | lib/fork.c:65-92 | in place: what programs see changes as by one eager page copy |
| ForkLib.Library.DupPages | lib/fork.c:126-133 | in place: the loop gives the child exactly the parent's pages below the stack top |
| ForkLib.Library.Fork | lib/fork.c:110-146 | in place: parent unchanged, child with the same contents on every page below the stack top and a zeroed exception stack |
| ForkLib.Library.DumbDupPage | user/dumbfork.c:25-38 | in place: the child's page is writable and holds what the parent's does, and nothing else changes |
| ForkLib.Library.DumbFork | user/dumbfork.c:40-79 | in place: the child, runnable at the end, holds what its parent holds on the program's pages and the stack page, as after fork |
| Upcall.TakeRestores | lib/pfentry.S:34-90 | with the page below the exception stack not writable, the upcall restores all registers if and only if trap-time esp is not exactly UXSTACKTOP (or eip happens to be that address less 4), for any nesting of faults, and writes outside its frame only the word below trap-time esp |
| Upcall.HandlerFinds | kern/trap.c:411-431 | when the C handler starts, its argument is the address of a frame that holds the faulting address, the error code and all registers of the fault, each at its offset, and no other word of memory has changed |
| Upcall.HandleKeeps | kern/trap.c:411-431 | a handler that keeps to its own stack, with all faults inside it, leaves every live frame alone |
| Upcall.RetryKeeps | lib/pfentry.S:68-71 | faults taken by the upcall's own store are transparent |
| Upcall.FramesFit | kern/trap.c:411-421 | with that page not writable, at most 73 frames are ever on the exception stack of an environment that survives |
| Upcall.TowerFits | kern/trap.c:411-421 | 73 nested faults survive and 74 destroy the environment if that page is not writable; if it is, any number survive |
| Upcall.OuterFramesLost | kern/trap.c:411-421 | if it is writable, 74 nested faults overwrite the outermost frames, and the first upcall returns elsewhere |
| Upcall.GuardIff | kern/trap.c:411-421 | the frames are bounded, and every fault on the exception stack comes back with live outer frames untouched, if and only if that page is not writable |
| Upcall.LowStackOverwrites | kern/trap.c:411-421 | a handler that faults with esp below the exception page has its own frame overwritten |
| Upcall.Cpu.PageFaultHandler | kern/trap.c:410-431 | in place: if user_mem_assert finds the frame writable, the faulting address, the error code and every register are at their offsets in it, no other word changes, and esp and eip are those of the frame and the upcall; otherwise the environment is destroyed |
| Upcall.Cpu.PageFault | lib/pfentry.S:34-90 | in place, instruction by instruction: from the trap to the ret, memory and registers are those of Take |
| Sieve.StepKeepsInv | user/primes.c:23-71 | every step of every process keeps the relation between what neighbours have passed on |
| Sieve.NextPrime | user/primes.c:41-51 | the least number that the first primes do not divide is the next prime |
| Sieve.InputSieved | user/primes.c:41-51 | the input of a process is a prefix of the increasing integers from 2 on that the earlier primes do not divide |
| Sieve.PrintsPrimes | user/primes.c:23-71 | in every interleaving, the k-th process prints the k-th prime |
| Sieve.RunChained | user/primes.c:34-38 | in every interleaving, a process has a right neighbour exactly from its fork on |
| SieveKernel.SendDelivers | lib/ipc.c:64-88 | sys_ipc_try_send without a page delivers exactly when the sieve's receiver is receiving, and then fills the fields the sieve says; otherwise it changes nothing |
| SieveKernel.RecvOpens | lib/ipc.c:22-54 | sys_ipc_recv without a page opens the slot of the process that calls it |
| Stab.StabBinsearch | kern/kdebug.c:59-103 | the search terminates; it answers for the address, or for one that follows it through values of the type only; it says there is no entry exactly if the range has none of the type |
| Stab.NoDrift | kern/kdebug.c:84-90 | without a value at the address and one right after it, the search answers for the address itself |
| Stab.NeighboursConfused | kern/kdebug.c:84-90 | two entries with neighbouring values: the search for the first gives the second |
| Stab.NeighboursHarmless | kern/kdebug.c:84-90 | three entries with neighbouring values searched for the first, and answered rightly: neighbours need not confuse the search |
| Stab.BelowAllReported | kern/kdebug.c:93-102 | an address below every entry is not reported as contained in none |
| Number.Output.PrintNum | lib/printfmt.c:37-52 | in place: prints the digits, padded from the left to the width |
| Number.Strtol | lib/string.c:239-284 | the loops find where blanks and digits end and compute the signed value |
| Number.PrefixIs | lib/string.c:245-262 | blanks, then a sign, then 0x or 0 as the base allows: which base results, and where the digits begin |
| Number.DigitsEndIs | lib/string.c:264-281 | the digits go on to the first character that is none in the base, letters of both cases standing for ten and more |
| Number.DigitsValue | lib/printfmt.c:51 | the digits of n in any base from 2 to 16 spell n, in lower case and without leading zeros |
| Number.RoundTrip | lib/string.c:239-284 | strtol of what printnum prints, with any width and zeros or spaces, is the number, consumes everything, and does not overflow on the way |
| Console.Cons.ConsIntr | kern/console.c:395-407 | in place: the ring stores what KeptPlaces describes |
| Console.KeptPlaces | kern/console.c:395-407 | what an interrupt stores: the nonzero characters before the first -1, all of them, in order, each cut to a byte |
| Console.Cons.ConsGetc | kern/console.c:410-429 | in place: returns the first readable character, after polling, or 0 |
| Console.GotReadable | kern/console.c:420-428 | reading takes the first readable character and leaves the others |
| Console.InterruptedReadable | kern/console.c:395-407 | storing appends to what is readable while fewer than 512 are pending; otherwise whole rounds of 512 are lost |
| Console.Fifo | kern/console.c:395-429 | over every run with fewer than 512 pending, characters come out in the order they came in, each once |

## Left out

- Machine.StepKeepsInv: a system call is a step only if its caller respects the guards the code does not have (`Machine.Respects`); SysKeepsInvIff shows that these are exact, and what happens after one is violated is not modelled.
- Machine.ExactlyOnceInOrder: for programs that read a received value before they receive again, as ipc_recv does.
- Syscalls.SysPageMapCorrect: a call that gets as far as a source without a page table is left out (`Syscalls.MapReady`): the code reads through a pointer that was never set.
- Stab.StabBinsearch: one direction only for neighbouring values: whether they are confused depends on which entries the search happens to probe (NeighboursConfused, NeighboursHarmless); values are below the largest address, so that `addr++` does not wrap.
- Upcall.TakeRestores: for word-aligned stacks below or at UXSTACKTOP, and for handlers that leave the live part of the exception stack alone and whose own esp stays in its writable pages (LowStackOverwrites is what happens otherwise); the pushed frame is not part of the memory in Machine, where a fault is an upcall's registers or the end of the environment.
- Number.Strtol: `val` is unbounded; for printed numbers the round trip shows that a `long` never overflows.
- PhysMem.Memory.BootMapRegion: for regions above UTOP outside the self-map, before there is any environment, as at boot; on memory exhaustion the C code writes through NULL.
- PhysMem.Memory.constructor: mem_init from page_init on, its boot_map_region calls and self-checks, is not run by it.
- PhysMem.Memory.MmioMapRegion: what the loop does to memory once the sum of base and size has wrapped (MmioAccepts says when it has); the static base is an in-out parameter.
- CowKernel.StepAgrees: takes as given that the kernel call succeeds and that a count has room; the frame pushed by page_fault_handler is so many stores to the exception page.
- SieveKernel.SendDelivers: the chain's phases between system calls are the sieve's own.
- Cow.ForkRunStarts: fork's call of sys_env_set_pgfault_upcall for the child is not a step of the fork machine; the kernel's side of that call is in Returns.TrapServed.
- Cow.ForkRefinesEagerCopy: programs do not share pages explicitly or use PFTEMP, and all user pages carry PTE_U; frames come from the allocator as any unmapped frame; a write that may not be done ends the environment.
- Sieve.PrintsPrimes: integers stay below 2^31; a process that runs out of environments simply takes no more steps.
- The endless loops of spin_lock, primeproc, umain and ipc_send have no method: their iterations are steps of Machine and Sieve, and whether another process makes them end is not modelled.
- ipc_recv's stores through its out-parameters, and ipc_find_env.
- TLB contents: tlb_invalidate and lcr3 do nothing in a model that always walks the tables.
- Permission bits above the low twelve, which the system calls refuse; the accessed and dirty bits.
- Environment fields that only count or name (env_runs, env_type, env_cpunum), and segment registers.
- load_icode, env_create and region_alloc: embedded binaries; an initial address space is taken as given.
- boot_alloc and the physical placement of kernel memory: the boot code's frames are a parameter.
- Devices, boot code, GDT, IDT and TSS setup, the monitor, formatted output, and the kernel's self-checks.
- The remaining string helpers, which would only add easy members.
