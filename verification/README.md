# A verified model of the PKE teaching kernel

This project models a small RISC-V kernel (physical page allocator, Sv39 page tables,
processes and fork, a round-robin scheduler, system calls and traps) together with its
device-tree scanner, its bounded formatter and its block copies, and proves what they keep
and compute. Code that works by changing things in place is modelled by classes, arrays and
methods with loops; what is promised about it is stated on values beside them.

The layers, bottom up:

* `Words`, `Sv39`: 64-bit words as numbers with explicit shifts, masks and wrap-around, and
  the layout of page-table entries (RISC-V Privileged Architecture, version 20211203,
  section 4.4).
* `Layout`: physical memory as frames of 512 words. The free list runs through word 0 of the
  free frames; the page tables of the kernel and of all processes live in frames of the
  same memory. `Well` says that the list is a list, that tables are distinct and off the
  list, and that interior entries are exactly the pointers to the existing tables.
* `Pmm`, `Conservation`: the allocator, and what it keeps over every run.
* `Vmm`, `Hardware`, `KernelMap`: the walker, mapping and unmapping as map updates; the
  translation process of section 4.3.2 of the same manual and its agreement with the
  kernel's lookups; the kernel's identity map.
* `Ownership`, `UserMemory`, `Spaces`, `Release`, `Shape`, `Birth`, `Fork`, `Load`, `Kernel`:
  process memories. `Spaces.Inv` is the invariant that every service keeps; `Shape` tracks
  exactly which pages a process maps while it is built and what they cost, which decides
  when a service succeeds. `Uses` reads the invariant as a statement about each page of the
  pool, `ForkMeaning` reads a fork as a statement about what the hart translates, and
  `Failures` gives inputs on which the code does less than one may expect.
* `Schedule`, `Scheduler`: the process life cycle as a step machine, its safety, bounded
  waiting and process forest, and the queue linked through the process table that refines it.
* `Traps`, `Print`, `Steps`, `System`, `Runs`, `Boot`: both halves and the saved contexts joined
  into one machine driven by traps; what one trap does to everything, when it panics, and what
  every run keeps, starting from reset: ownership of frames, the kernel's map, the heap, the words
  of every user page.
* `Calls`: the same step of the whole machine read call by call, in the numbers that user
  programs use: who runs next, what is in a0, and which addresses can be used.
* `DeviceTree`, `Scanner`, `Narration`, `Discovery`: flattened device trees (Devicetree
  Specification, sections 5.4 and 2.3.5), the scan with deletion in place, the tree rebuilt from
  its callbacks, and the search for memory.
* `Format`, `Bytes`: the formatter and the number parser, and the block copies.

A `panic`, a failed assertion or a wild access is the outcome `Halted` (or `Panicked`); after
it nothing is claimed. A trap is one step, because `schedule` never returns to its caller.

Where the code does something else than its comments or its callers expect, the model follows the
code:

* `user_va_to_pa` is documented to give NULL for an unmapped address; it does not look at
  the valid bit (kernel/vmm.c:158-164). `UserVaToPaOnUnmapped` gives the exact condition, and
  `BelowTheStack` an address in every new process for which the answer is not NULL.
* `free_process` is documented to destruct the address space (kernel/process.h:82); it only
  marks the process (kernel/process.c:160).
* Status RUNNING is never set: kernel/sched.c:70 is a comparison. The process that runs
  stays READY.
* `wait` never polls: its loop stands behind `schedule` (kernel/process.c:250-265).
  A process that yields or waits with a child resumes with the call number still in a0.
* The stack of a forked child is a copy (kernel/process.c:184-187), although the comment at
  kernel/process.c:165-171 calls it unchanged. Regions of type DATA are copied but not
  recorded in the child (kernel/process.c:188-196), so a grandchild does not receive them
  (`GrandchildLosesData`); and their addresses pass through an int (`HighDataIsMissed`).
* `user_vm_unmap` checks nothing about the page it is given (kernel/vmm.c:189-192).
  `ReleaseKeepsInvIff` says exactly which calls keep the memory in order; `OwnTrapframeFreed`
  and `FreedTwice` are accepted calls that do not.
* `print` takes the user's text as its format (kernel/syscall.c:27), so a conversion in it reads
  arguments that were never passed. `PrintCall` says when print panics and when it returns for
  texts without conversions; `ConversionIsOpen` that with one nothing is promised.
* A loaded segment is mapped with the size of a page from its own address (kernel/elf.c:29), which
  is two pages if it does not start one (`UnalignedSegment`).
* The minimum long is not printed in decimal (its negation overflows, util/snprintf.c:38-41);
  `ShownIsDecimal` shows that it is the only exception.

## Model

| member | source | states |
|---|---|---|
| `Sv39.LeafFields` | kernel/riscv.h:158-182 | a leaf entry built from an address and permission bits gives back exactly that page number and those bits, valid |
| `Sv39.ProtToTypeTable` | kernel/vmm.c:36-44 | the permission bits for each of the eight protections, for user and kernel pages |
| `Sv39.ProtToTypeMeaning` | kernel/vmm.c:36-44 | for every protection the bits are usable by the hart exactly when reading is asked for, writable and dirty exactly when writing is, executable and user likewise |
| `Pmm.Machine.FreePage` | kernel/pmm.c:37-45 | halts exactly on a misaligned or foreign address; otherwise the page becomes the head of the list and its word 0 the old head |
| `Pmm.Machine.AllocPage` | kernel/pmm.c:51-56 | null exactly when the list is empty; otherwise the first page, and the rest stays the list |
| `Layout.GiveWell` | kernel/pmm.c:42-44 | pushing a page that is neither free nor a table keeps list and trees well formed and changes no leaf of any tree |
| `Layout.TakeWell` | kernel/pmm.c:52-53 | so does taking the first page |
| `Pmm.Machine.CreateFreepageList` | kernel/pmm.c:28-32 | the list holds exactly the aligned pages p with start <= p and p + 4096 < end, each once |
| `Pmm.Machine.PmmInit` | kernel/pmm.c:62-87 | bounds of the pool from the kernel's end and the memory size, the exact panic condition, and the resulting list, in its order |
| `Conservation.FreeListConservation` | kernel/pmm.c:28-56 | over every run that frees only outstanding pages, free plus outstanding is the same set, no page is both, and the list stays acyclic |
| `Conservation.ReleaseThenAlloc` | kernel/pmm.c:37-56 | a released page is the next one handed out, which restores list and head |
| `Conservation.DoubleFreeBreaksTheList` | kernel/pmm.c:37-45 | after a release the memory holds some finite list without repetition if and only if the page was not already on it |
| `Vmm.NewTable` | kernel/vmm.c:71-75 | a missing table is taken from the list, cleared and linked; nothing else changes |
| `Layout.AddTableGrows` | kernel/vmm.c:71-75 | a new table changes no leaf of any tree and no frame in use, and every older table stays |
| `Layout.SetLeafChanges` | kernel/vmm.c:28 | storing a leaf word changes that leaf of that tree and no other leaf of any tree |
| `Vmm.PageWalk` | kernel/vmm.c:50-83 | finds the slot of an address exactly when its table exists or can be built, adds only tables on its path, and changes no leaf of any tree |
| `Vmm.MapPage` | kernel/vmm.c:25-28 | one page: halts exactly beyond MAXVA or on a mapped page, fails only with an empty list, and otherwise sets exactly one leaf |
| `Vmm.MapPages` | kernel/vmm.c:19-31 | returns 0 if and only if the pages are unmapped, below MAXVA and the list covers the missing tables; then every page of the range has its successive leaf, and every other leaf of every tree, every frame in use and every older table is unchanged; on failure the same holds of a shorter range |
| `Vmm.VmMap` | kernel/vmm.c:170-174 | mapping that must succeed, for the kernel and for users: it is done exactly when the range can be mapped, and halts otherwise |
| `Vmm.UserVmUnmap` | kernel/vmm.c:180-193 | halts exactly without a table, or on a frame outside the pool; otherwise pushes the frame and flips the valid bit, whatever the page is |
| `Vmm.UnmapPlain` | kernel/vmm.c:180-193 | on a mapped page that is no table and not free, unmapping releases exactly its frame and invalidates exactly its leaf |
| `Hardware.SoftwareAgreesWithHardware` | kernel/vmm.c:88-100 | on a tree with sound leaves the hart translates exactly the mapped addresses it may access, and lookup_pa and user_va_to_pa give the same physical address, for every address below MAXVA |
| `Hardware.UpperHalfFaults` | kernel/vmm.c:51 | the hart translates no address at or above MAXVA, although it walks the uppermost ones: the walker never builds a table there |
| `Hardware.UserVaToPaOnUnmapped` | kernel/vmm.c:150-165 | on an unmapped address the answer is NULL if and only if there is no table, or the entry names frame 0 and the address starts a page |
| `Hardware.EncodedLeaf` | kernel/vmm.c:28-44 | a leaf made by mapping is valid and sound for the hart, names the page, and grants exactly what the protection asks for |
| `KernelMap.TableCount` | kernel/vmm.c:59-79 | n consecutive pages are served by exactly one table per 2 MB region and one per 1 GB region touched |
| `KernelMap.TableFrameBound` | kernel/vmm.c:19-31 | mapping consumes exactly the missing tables, at most one per region touched |
| `KernelMap.EnoughFrames` | kernel/vmm.c:19-31 | with that many free frames mapping unmapped pages below MAXVA succeeds |
| `KernelMap.KernVmInit` | kernel/vmm.c:119-142 | succeeds exactly with 66 free frames, and takes the first 66; then the kernel's leaves are the identity map and nothing else, for every page-aligned etext |
| `KernelMap.IdentityLeafMeaning` | kernel/vmm.c:126-137 | mapped exactly from KERN_BASE to PHYS_TOP, each page to itself, executable exactly below etext, writable exactly above, never for users |
| `Spaces.GrantPrivate` | kernel/strap.c:57-58 | done exactly when the place is vacant and the list, after the page, covers the missing tables; then the page has the words it had, exactly the missing tables follow it off the list, and the invariant stays; a failure costs at most the page taken from the list |
| `Spaces.InvEvolves` | kernel/syscall.c:45-53 | a step that only adds private pages to one process keeps the invariant of all processes |
| `Shape.CanMapNext` | kernel/vmm.c:25-28 | while a process is built, one more page can be mapped exactly when the list of all its pages, without repetition and below MAXVA, with their tables and other frames, still fits the frames there were |
| `Shape.ShapedMap` | kernel/vmm.c:25-28 | and then its leaves, its tables and the length of the free list are exactly those of the longer list of pages |
| `Release.GoodReleaseKeepsInv` | kernel/syscall.c:58-61 | freeing a mapped page that is neither the trapframe nor recorded code keeps the invariant |
| `Release.BadReleaseBreaksInv` | kernel/syscall.c:58-61 | freeing any other page that the call accepts breaks it |
| `Release.ReleaseKeepsInvIff` | kernel/vmm.c:189-192 | so the invariant survives if and only if the page may be freed |
| `Birth.NewFrames` | kernel/process.c:105-119 | succeeds exactly with five free frames; they are fresh and different, the tree is empty, the context zero but for the stack pointer |
| `Birth.NewMaps` | kernel/process.c:121-141 | succeeds exactly when the three pages fit; then exactly three leaves: the stack for the user, trapframe and trap section for the kernel at their own addresses |
| `Birth.NewProcessMemory` | kernel/process.c:105-141 | succeeds exactly when five frames and the tables of the three pages fit; trapframe, root, kernel stack, stack page and region table are five different fresh frames, the trapframe being the first of the list |
| `Birth.BirthKeepsInv` | kernel/process.c:91-149 | adding that process keeps the invariant of all processes |
| `Fork.LookupFinds` | kernel/vmm.c:88-100 | for a process, lookup_pa is the frame of a mapped page, and 0 on every other address |
| `Fork.ForkDataPage` | kernel/process.c:190-195 | one page: done exactly when the parent's page is found and the page fits; the child's page lies in a fresh frame with the parent's contents, mapped read-write for users |
| `Fork.ForkData` | kernel/process.c:188-196 | every page of a recorded data region is copied that way, done exactly when all are found and fit |
| `Fork.ThroughIntIsIdentityIff` | kernel/process.c:192 | the address survives its passage through an int if and only if it lies in the lowest or the topmost 2 GB |
| `Fork.ForkCode` | kernel/process.c:197-218 | done exactly when the page fits; the child's code page maps the parent's own frame read-execute and is recorded |
| `Fork.ShareKeepsInv` | kernel/process.c:209-217 | sharing a code page with a child keeps the invariant |
| `Fork.ForkStack` | kernel/process.c:184-187 | done exactly when the parent's stack page is found; the stack page of the child then holds the parent's words, in the child's own frame |
| `Fork.ForkRegion` | kernel/process.c:180-219 | each kind of region advances the fork by one region, and halts exactly when that region is what no longer fits |
| `Fork.ForkRegions` | kernel/process.c:177-220 | done exactly when everything fits and is found; all regions are treated, exactly the code regions are recorded in the child, and its leaves and tables are exactly those of the listed pages |
| `Fork.ClearA0` | kernel/process.c:223 | completes the fork: contexts agree except for a0, which is 0 |
| `ForkMeaning.TranslationsStay` | kernel/process.c:172-228 | a step on behalf of one process, a fork among them, changes no translation of any address of any other process, for any access |
| `ForkMeaning.CopiedPageReads` | kernel/process.c:193-194 | through the child's tree the hart loads from a copied page the words the parent had, out of a frame that was free, and may store to it |
| `ForkMeaning.SharedPageRuns` | kernel/process.c:209-210 | through the child's tree the hart fetches and loads code from the parent's own frame and faults on a store |
| `ForkMeaning.ForkPreservesMeaning` | kernel/process.c:172-228 | for every address in every page a region gives the child, data and stack read as they did for the parent at that address, from fresh frames; code is the parent's and cannot be stored to |
| `ForkMeaning.ChildMapsExactly` | kernel/process.c:172-228 | the child maps exactly the three pages of a new process and the pages its parent's regions give it |
| `ForkMeaning.InheritedIff` | kernel/process.c:177-220 | a page the parent maps is mapped at the same address in the child if and only if a recorded region gives it; heap pages and pages of store faults are not |
| `ForkMeaning.OwnAddressIff` | kernel/process.c:192 | a page of a data region is copied at its own address if and only if that lies in the lowest or the topmost 2 GB |
| `Failures.BelowTheStack` | kernel/vmm.c:161-164 | in every new process the page below the stack is unmapped, and user_va_to_pa answers the offset in the page instead of NULL |
| `Failures.OwnTrapframeFreed` | kernel/vmm.c:189-192 | freeing the address of one's own trapframe is accepted, and the invariant is gone |
| `Failures.FreedTwice` | kernel/vmm.c:189-192 | after any lawful free the same free is accepted again, and the invariant is gone |
| `Failures.HighDataIsMissed` | kernel/process.c:192-194 | for a data region at 4 GB the child gets a copy of page 0 and nothing at 4 GB; without page 0 the fork panics |
| `Failures.GrandchildLosesData` | kernel/process.c:188-196 | a grandchild maps no data page of its grandparent |
| `Failures.UnalignedSegment` | kernel/elf.c:29-30 | a segment that does not start a page maps a second page, to the frame behind the one taken; whatever that frame is used for, the invariant is gone |
| `Fork.ContentKeepsInv` | kernel/process.c:182-186 | overwriting the words of a frame that is no table and not free changes no leaf and keeps the invariant |
| `Load.LoadPage` | kernel/elf.c:21-33 | done exactly when there is a page and it can be mapped; a segment's page lies in a fresh frame with the given contents, is mapped for the user to read, write and execute, and is recorded |
| `Load.SegmentRuns` | kernel/elf.c:29-30 | at every address of a loaded segment's page, for every access, the hart translates in user mode and finds the segment's word |
| `Load.StoreTarget` | kernel/process.c:128-138 | for every address the hart knows, the only frames a user program can write are its private pages and, for the first process, code pages: never a table, a free page, a trapframe, another process's page, or code shared by a fork |
| `Load.UserStore` | kernel/process.c:121-138 | a user store to any address changes nothing if the hart faults, and otherwise one word of the frame it translates to, a page of its own or, for the first process, code; the invariant holds |
| `Kernel.Kernel.constructor` | kernel/kernel.c:57-66 | the invariant holds before there is any process |
| `Kernel.Kernel.AllocProcess` | kernel/process.c:91-149 | succeeds exactly with a free slot and memory for the new process; a new process at the end of the table with its regions and context; keeps the invariant |
| `Kernel.Kernel.DoFork` | kernel/process.c:172-228 | succeeds exactly with a free slot, five frames, a frame for each data page and each table, distinct pages, and every page to copy found; the child's pid, parent, regions and exact leaves; stack and data copied to fresh frames, code shared, context equal but for a0, and every translation and frame of every other process unchanged; keeps the invariant |
| `Kernel.Kernel.LoadSegment` | kernel/elf.c:66-97 | succeeds exactly when the segment is smaller than a page and its page can be taken and mapped; then it is mapped, holds the segment's words and is recorded; keeps the invariant |
| `Kernel.Kernel.SetContext` | kernel/strap.c:97 | writing a saved context changes no table, leaf or use |
| `Kernel.Kernel.SysAllocatePage` | kernel/syscall.c:45-53 | succeeds exactly when the next heap address can be mapped; it was unmapped and now leads to the first page of the list, with the words that had; exactly the missing tables leave the list too; no other leaf changes; addresses handed out are aligned, strictly increasing and never repeated |
| `Kernel.Kernel.HandleStoreFault` | kernel/strap.c:53-64 | halts exactly beyond MAXVA or on a mapped page; maps the first page of the list at the faulting address exactly when the list covers page and tables, and otherwise changes no leaf and loses exactly the page taken; keeps the invariant |
| `Kernel.Kernel.SysFreePage` | kernel/syscall.c:58-61 | the exact halting condition; keeps the invariant if and only if the page may be freed; then the address is unmapped, every other leaf of every tree is unchanged and the frame is the next one handed out |
| `Uses.EveryPageHasOneUse` | kernel/pmm.c:37-56 | in a state where no page was lost, every page of the pool is exactly one of: on the free list, a page table, a trapframe, a kernel stack, a region table, a private page, a code page |
| `Uses.PrivateOnce` | kernel/syscall.c:45-53 | a private page is mapped by one process at one address only |
| `Uses.CodeSharedByAncestors` | kernel/process.c:197-218 | a code page has one address, and is mapped by every ancestor of a process that maps it |
| `Schedule.StepKeepsPartition` | kernel/sched.c:45-73 | every step keeps queue plus current equal to the living processes; the panic and the assertion of schedule are out of reach, the only panic is a fork with a full table, and shutdown happens exactly when the last living process exits |
| `Schedule.RunKeepsPartition` | kernel/sched.c:13-73 | the partition holds after every run that is still going |
| `Schedule.RunEndsExactly` | kernel/sched.c:46-64 | a run ends in shutdown exactly when one of its events was the exit of the last living process, and in a panic exactly when one was a fork with a full table |
| `Schedule.WaiterMovesUp` | kernel/sched.c:26-35 | a call of schedule moves each waiting process up by one, and nothing else moves it |
| `Schedule.DispatchedByCallNumber` | kernel/sched.c:66-68 | the process at position k is dispatched by exactly the (k+1)-th later call of schedule |
| `Schedule.TicksForceCalls` | kernel/strap.c:69-84 | c calls of schedule leave room for at most 3c + 2 timer ticks |
| `Schedule.DispatchedAtSomePoint` | kernel/sched.c:66-68 | a run with at least k+1 calls has a moment, right after call k+1, at which that process runs |
| `Schedule.DispatchedWithinTicks` | kernel/strap.c:69-84 | in a run with 3(k+1) timer ticks the process at position k has run, whatever forks, yields, waits and exits are interleaved |
| `Schedule.NoShutdownWhileWaiting` | kernel/sched.c:46-64 | no run shuts down while a process waits for its first dispatch |
| `Schedule.EveryProcessDescendsFromZero` | kernel/process.c:224 | parent links strictly decrease and end at process 0 |
| `Schedule.ForkPidsIncrease` | kernel/process.c:94-103 | free slots are a suffix of the table, so pids are handed out in order and never reused |
| `Schedule.ExitInFull` | kernel/syscall.c:34-40 | exit: the caller is a zombie, the head of the queue runs and the rest waits; shutdown exactly with an empty queue |
| `Schedule.YieldInFull` | kernel/syscall.c:78-89 | yield: no process changes, the caller goes behind all that wait and the first of them runs |
| `Schedule.WaitInFull` | kernel/process.c:230-250 | wait: as yield exactly when some of the 32 slots has the caller as parent, nothing otherwise |
| `Schedule.ForkInFull` | kernel/process.c:222-227 | fork: the slot behind those in use becomes a ready child of the caller at the tail of the queue; a panic exactly with all 32 in use |
| `Schedule.TickInFull` | kernel/strap.c:74-79 | a tick: with fewer than two ticks charged one is added and nobody else runs; with two the count is zero and the queue turns |
| `Schedule.SlicesAreThreeTicks` | kernel/strap.c:74-79 | over every run and for every process, the ticks charged to it are exactly three for each slice that a tick ended, and those of the slice it is in |
| `Scheduler.Scheduler.constructor` | kernel/process.c:78-86 | an empty table and queue |
| `Scheduler.Scheduler.InsertToReadyQueue` | kernel/sched.c:13-36 | the linked queue gains the process at its tail, unless it is there already |
| `Scheduler.Scheduler.DispatchNext` | kernel/sched.c:45-73 | the head of the linked queue runs; with an empty queue, shutdown or panic as the step machine says |
| `Scheduler.Scheduler.FreeSlot` | kernel/process.c:96-103 | the first free slot |
| `Scheduler.Scheduler.SetStatusOf` | kernel/process.c:160 | one status changes, and no link |
| `Scheduler.Scheduler.Enlist` | kernel/process.c:222-227 | the fork step on the linked queue |
| `Scheduler.Scheduler.SysUserExit` | kernel/syscall.c:34-40 | the exit step |
| `Scheduler.Scheduler.SysUserYield` | kernel/syscall.c:78-89 | the yield step |
| `Scheduler.Scheduler.SysUserWait` | kernel/process.c:230-250 | the wait step: back at once exactly when no slot names the caller as its parent, otherwise a yield |
| `Scheduler.Scheduler.Rrsched` | kernel/strap.c:69-84 | the tick step; before the third tick the process goes on and one tick is counted, and nothing else changes |
| `Scheduler.Scheduler.Start` | kernel/kernel.c:70-71 | the first process is dispatched, the only one of 32 slots in use, and the partition holds |
| `Traps.ForkedContexts` | kernel/process.c:181-183 | after a fork all older contexts are unchanged and the child's is the parent's with a0 zero |
| `Traps.StackPointerAtEnd` | kernel/process.c:51-53 | the kernel stack pointer in the trapframe is the end of the kernel stack page |
| `System.Os.constructor` | kernel/kernel.c:66-71 | memory, scheduler and contexts agree when the first program starts |
| `System.Os.SwitchTo` | kernel/process.c:43-53 | the trapframe of the process that resumes holds its kernel stack, the kernel's page table and handler; the user-visible contexts and all else are unchanged |
| `System.Os.Save` | kernel/strap.c:97 | one process's context is replaced; no other context, leaf, list, frame or scheduling state changes |
| `System.Os.AllocateCall` | kernel/syscall.c:45-53 | panics exactly when the page cannot be granted; otherwise answers the next heap address, records it, sets exactly that leaf, takes exactly the page and its missing tables off the list, and changes no context and no word of any frame in use |
| `System.Os.StoreFault` | kernel/strap.c:110-115 | panics exactly when the place is not vacant; otherwise sets exactly that leaf, or none and the list is empty; says exactly when a page is lost; no word of any frame in use changes |
| `System.Os.FreeCall` | kernel/syscall.c:58-61 | panics exactly as naive_free does; when the page may be freed exactly its leaf is gone, its frame, which was private to the caller, heads the list, no word of any other frame in use changes, and all invariants and contexts stay |
| `System.Os.PrintCall` | kernel/syscall.c:22-29 | panics beyond MAXVA and on a text that runs out of the kernel's map or of memory; returns after a text in user pages without conversions; the address read may be stale or null |
| `Print.ReadText` | util/snprintf.c:16-77 | the loop over the format stops at the first NUL, at the first address outside the kernel's map or memory, or at the first conversion, and nowhere else |
| `Print.BytesMakeWord` | util/snprintf.c:16 | the bytes read are those of the words in memory, the first one counting least |
| `Steps.ConversionIsOpen` | spike_interface/spike_utils.c:73-80 | a conversion in the text, even of a mapped buffer, leaves the outcome of print open: the text is the format and there are no arguments |
| `System.Os.ForkCall` | kernel/syscall.c:66-69 | panics exactly without slot or memory; memory and scheduler agree on the child's pid and parent; the child's pages, tables and cost are exact, stack and data hold the parent's words in frames that were free, code is shared, and no word of any frame in use changes |
| `System.Os.ExitCall` | kernel/syscall.c:34-40 | the exit step, with the kernel following the process picked, never a panic, and no context changed |
| `System.Os.YieldCall` | kernel/syscall.c:78-89 | the same for yield |
| `System.Os.WaitCall` | kernel/syscall.c:71-73 | the same for wait, with the answer -1 exactly when no slot has the caller as its parent |
| `System.Os.TimerTrap` | kernel/strap.c:106-109 | the same for a timer tick |
| `System.Os.DoSyscall` | kernel/syscall.c:95-114 | when each call number panics, exactly, print with a conversion in its text aside; each call does its step, answers its value and touches no context but a new child's |
| `System.Os.HandleSyscall` | kernel/strap.c:19-32 | the caller resumes behind the call with the answer in a0; a fork returns twice, with the pid and with 0 |
| `System.Os.HandleTrap` | kernel/strap.c:90-125 | when each trap panics, exactly, print with a conversion in its text aside; otherwise, unless a page was freed that may not be, the exact effect on leaves, heap, list, contexts and scheduler; no table moves, and every frame in use but a freed one keeps its use and, trapframes apart, its words; the machine is ready for the next trap |
| `System.Os.UserWrite` | kernel/process.c:128-138 | a user store to any address: when it panics, exactly, and its exact effect on memory, all else unchanged |
| `System.Os.Perform` | kernel/strap.c:90-125 | one act of a program does its step, or ends the run for a stated reason: an act that must panic does, and the machine is off exactly after exit, call 65, with an empty queue |
| `System.Os.RunAll` | kernel/strap.c:90-125 | over every run of traps and stores, the states between the acts start with the present one, are all in order, and are connected by the steps of the acts, none of which panics; it ends early only at shutdown, at an act that panics, at a print whose outcome is open, or at a free that may not be made |
| `Runs.ViewsFollow` | kernel/sched.c:13-73 | in every state of a run the scheduler is where the step machine is after the run's events, and there are as many processes as at the start plus forks |
| `Runs.StepKeeps` | kernel/strap.c:90-125 | every act keeps the uses and words of all frames in use, trapframes and the one frame it frees or stores to aside; it moves no table and changes leaves of the current process and a new child only |
| `Runs.GoneIsOwn` | kernel/syscall.c:58-61 | that one frame is private to the process at that page, or, when the first process stores, code |
| `Runs.NothingLost` | kernel/strap.c:57-58 | a page is lost only by an act that leaves the free list empty |
| `Runs.OwnershipOverRuns` | kernel/pmm.c:37-56 | as long as no act leaves the free list empty, every page of the pool has exactly one use in every state of every run |
| `Runs.HeapNeverRepeats` | kernel/syscall.c:45-53 | over a run, whichever processes ask, heap addresses are answered in strictly increasing order and aligned |
| `Runs.KernelMapOverRuns` | kernel/vmm.c:119-142 | in every state of every run the kernel's directory is where it was, and through it the hart, in supervisor mode, translates each address from KERN_BASE to PHYS_TOP to itself, to execute exactly below etext and to write exactly above, and no other address |
| `Runs.EntryOverRuns` | kernel/process.c:121-141 | in every state of every run and for every process, the hart in supervisor mode, through the tables of the process, fetches the trap section and loads and stores the trapframe at their physical addresses |
| `Runs.SleeperUntouched` | kernel/strap.c:90-125 | a process that does not run finds its registers, its leaves and the words of its private pages as it left them |
| `Runs.SleeperTranslates` | kernel/vmm.c:50-83 | and the hart translates every address of it as before |
| `Runs.WordStays` | kernel/strap.c:90-125 | over every run a word of a private page changes only by a store or a free of its owner, and a word of code only by a store of the first process |
| `Runs.MappingStays` | kernel/vmm.c:180-193 | over every run a mapping stays, leaf and all, until its process frees it |
| `Runs.StoredWordReadsBack` | kernel/strap.c:90-125 | over every run a stored word is found at its address, through the same translation, as long as no such store or free concerns it |
| `Runs.ForkOverRuns` | kernel/process.c:172-228 | at every fork of every run the child reads, in every page a region gives it, what its parent had there before the call, and runs its code |
| `Calls.ExitMeans` | kernel/syscall.c:34-40 | call 65: the caller is a zombie and the first process of the queue, which there is, runs |
| `Calls.YieldMeans` | kernel/syscall.c:78-89 | call 69: the caller goes behind all that wait, the first of them runs, and the caller will resume behind the call with its registers as they were |
| `Calls.WaitMeans` | kernel/process.c:230-250 | call 70: with a child as yield; without one the caller resumes at once with -1 in a0 |
| `Calls.ForkMeans` | kernel/process.c:172-228 | call 68: the child is the next process, ready at the tail of the queue; both resume behind the call with the same registers, but for a0: the child's pid in the parent, 0 in the child |
| `Calls.TimerMeans` | kernel/strap.c:69-84 | a timer interrupt is charged to the process; only the third one takes the processor away; registers and pc stay |
| `Calls.PrintMeans` | kernel/syscall.c:22-29 | call 64, when it returns: a0 is 0, the caller goes on, and no word, leaf or list changes |
| `Calls.AllocateMeans` | kernel/syscall.c:45-53 | call 66: a0 is the start of a page that was unmapped; the caller can load and store at every address of it, in the frame that was first on the list |
| `Calls.FreeMeans` | kernel/syscall.c:58-61 | call 67: the page of the address in a1 was mapped and is not, every other leaf stays, the list has one page more, and a0 is 0 |
| `Calls.StoreFaultMeans` | kernel/strap.c:52-64 | cause 15: the program repeats its store with its registers as they were; if page and tables were there, every address of the page can now be loaded and stored, in the frame that was first on the list |
| `Calls.LoadFaultMeans` | kernel/strap.c:60-62 | cause 13: nothing changes and the program repeats its load |
| `Calls.PanicsByNumber` | kernel/strap.c:102-120 | every other cause and every other call number panics; load faults, ticks, exit, yield and wait never do; a store fault does exactly beyond 2 to the 38 or on a mapped page |
| `Boot.InitMemory` | kernel/kernel.c:56-63 | succeeds exactly when the memory holds the kernel and 66 pages of pool; identity map, pool and list in their exact state |
| `Boot.LoadProgram` | kernel/kernel.c:36-45 | succeeds exactly when all segments are small and everything fits; the first process with its segments recorded in order, their words in memory and its stack mapped; all registers zero but the stack pointer, and the entry point |
| `Boot.Start` | kernel/kernel.c:50-74 | user mode with all invariants, exactly when a condition on kernel size, memory size and program holds; a halt otherwise; the state is that of one process that can fetch, load and store at every address of its segments and finds their words there, with a stack below 0x7ffff000, the heap at 4 MB, and nothing lost; satp names the kernel's directory |
| `Boot.BootAndRun` | kernel/kernel.c:50-74 | from reset, for every sequence of acts: the trace starts with the state boot leaves, each act performed is its next step, and the run stops only at the end, exactly when exit, call 65, finds the queue empty, at an act that panics or may, or at a refused free; as long as no act leaves the free list empty, every page of the pool has exactly one use in every state |
| `Boot.FirstFetch` | kernel/kernel.c:36-45 | the first instruction is fetched from the words of the segment that holds the entry point |
| `Boot.FirstChild` | kernel/process.c:188-218 | a child of the first program runs and reads the segments marked as code in its parent's frames and cannot store to them; the others, below 2 GB, it loads and stores in frames of its own, with the segment's words |
| `Boot.SatpFields` | kernel/riscv.h:156 | the word for satp selects mode 8 and the frame of the table, for every table |
| `DeviceTree.BswapReversesBytes` | spike_interface/dts_parse.c:11-15 | the two mask-and-shift steps read the big-endian number that the four bytes in memory spell |
| `DeviceTree.CellIsBigEndian` | spike_interface/dts_parse.c:11-15 | the first of the four bytes of a cell is its highest |
| `DeviceTree.BlankedLength` | spike_interface/dts_parse.c:57-58 | overwriting deleted nodes keeps the length of the block, for every set of nodes |
| `DeviceTree.DeletionIsPruning` | spike_interface/dts_parse.c:50-61 | the overwritten tree makes the same callbacks as the tree without the deleted nodes, for every set of nodes at any depth |
| `DeviceTree.CountsAreLast` | spike_interface/dts_parse.c:40-45 | the counts of a node are the first cells of its last #address-cells and #size-cells properties, or what it started with |
| `DeviceTree.FirstSubnode` | spike_interface/dts_parse.c:23-26 | the first subnode of every node starts with two address cells and one size cell |
| `DeviceTree.NextSubnode` | spike_interface/dts_parse.c:19-26 | a later subnode starts with the counts its predecessor was left with, since the record is shared by the level |
| `DeviceTree.ClosesCounted` | spike_interface/dts_parse.c:56-58 | every node is closed once, and after its subnodes: the order in which deletions are numbered |
| `Narration.CallbacksTellTheTree` | spike_interface/dts_parse.c:17-72 | a listener that knows only the callbacks rebuilds the tree: names, properties and subnodes in order; every callback comes with the path of the open nodes, properties before done, done once, subnodes after it |
| `Scanner.ReadName` | util/string.c:41-45 | on the words of a packed name, exactly the name |
| `Scanner.Blot` | spike_interface/dts_parse.c:58 | the range is no-ops and nothing else changes |
| `Scanner.StepProp` | spike_interface/dts_parse.c:35-49 | a property is consumed whole, may set its node's cell counts, and is passed on |
| `Scanner.ScanSub` | spike_interface/dts_parse.c:50-61 | a node: done of its parent if due, open, contents, close, and deletion of exactly its words |
| `Scanner.ScanLevel` | spike_interface/dts_parse.c:17-72 | on the layout of any body the scan consumes exactly its words and emits its properties in order, done once before any subnode, the subnodes in order; the block then holds the layout of the body with the deleted nodes blanked |
| `Scanner.Scan` | spike_interface/dts_parse.c:98 | the same for a whole structure block, which changes nowhere else |
| `Scanner.FdtScan` | spike_interface/dts_parse.c:89-99 | with another magic number or a newer version nothing is scanned or changed; otherwise the block, at a whole word, and the strings are those the header names |
| `Scanner.Rescan` | spike_interface/dts_parse.c:31-34 | a second scan after deletions emits exactly the callbacks of the pruned tree |
| `Discovery.GetCells` | spike_interface/dts_parse.c:74-87 | the big-endian number of the cells modulo 2 to the 64, for any count, wherever they lie |
| `Discovery.SearchPairs` | spike_interface/spike_memory.c:43-51 | the loop may run beyond the value; the assertion after it holds exactly when the value is a whole number of pairs, and then the size is that of the last pair that contains the probe address, or what was known before |
| `Discovery.LastSizeIsLast` | spike_interface/spike_memory.c:47-49 | that size belongs to the last containing range |
| `Discovery.MemDone` | spike_interface/spike_memory.c:34-52 | one done callback: nothing for other nodes; its assertions and its loop fail exactly when the node is not whole, and a parent is needed only for a reg property that is not empty |
| `Discovery.HearTree` | spike_interface/spike_memory.c:19-52 | although all nodes share one record, the search over a subtree finds the last containing range of its memory nodes in document order, and breaks off exactly when one of them is not whole |
| `Discovery.HearChildren` | spike_interface/spike_memory.c:19-52 | the same for the subnodes of a node, whatever the record held before |
| `Discovery.QueryMem` | spike_interface/spike_memory.c:55-68 | fails on a header that is not understood; otherwise succeeds exactly when all memory nodes are whole and the last range that contains the probe address is not empty, with its size |
| `Discovery.TextReadsBack` | spike_interface/spike_memory.c:26 | a string property reads as the text packed into it, for every text without NUL |
| `Discovery.PropertyTells` | spike_interface/spike_memory.c:24-32 | device_type makes a node memory exactly when its text is "memory", reg alone gives value and length, and no other property counts |
| `Discovery.TwoCells` | spike_interface/dts_parse.c:74-87 | two cells are a 64-bit number, the high half first |
| `Discovery.SimpleTree` | spike_interface/spike_memory.c:19-52 | for every root with two and two cells and one memory node in it, the tree is whole and its only range is the pair of numbers in reg |
| `Discovery.SingleRange` | spike_interface/spike_memory.c:47-49 | one range gives its size exactly for the addresses from its base to its end, both included |
| `Format.ShownIsDecimal` | util/snprintf.c:36-53 | %ld writes decimal notation if and only if the number is not the minimum long |
| `Format.HexSpells` | util/snprintf.c:26-35 | k hexadecimal digits spell the number modulo 16 to the k |
| `Format.OwnArgsIffNoLate` | util/snprintf.c:64-69 | every conversion takes its own argument if and only if none follows a truncated %c |
| `Format.LateConversionFails` | util/snprintf.c:65 | a format and buffer for which a later conversion finds the wrong argument |
| `Format.RenderedIsFullText` | util/snprintf.c:11-83 | without late conversions and without the minimum long the code's text is the text the format stands for |
| `Format.PieceMeans` | util/snprintf.c:22-69 | what each conversion stands for: 16 or 8 lower-case hexadecimal digits that spell the argument modulo 2 to the 64 or 32, with 0x for %p; decimal notation; the string; the character |
| `Format.DigitsSpell` | util/snprintf.c:36-53 | decimal notation is digits that add up to the number, without a leading 0 |
| `Format.PlainThen` | util/snprintf.c:73-76 | characters outside conversions stand for themselves |
| `Format.ConversionThen` | util/snprintf.c:17-72 | a conversion, with l or without, stands for the text of the next argument, and the rest of the format for the rest of the arguments |
| `Format.OtherSkipped` | util/snprintf.c:70-71 | after % a character that is no conversion is passed over |
| `Format.PutDigits` | util/snprintf.c:42-49 | digits written from the last to the first, as far as they fit |
| `Format.CountDigits` | util/snprintf.c:42-44 | the number of digits that the loop after it writes |
| `Format.PutDecimal` | util/snprintf.c:36-53 | sign and digits as far as they fit |
| `Format.PutHex` | util/snprintf.c:26-35 | hexadecimal digits as far as they fit |
| `Format.PutString` | util/snprintf.c:54-63 | a string as far as it fits, counted whole |
| `Format.Finish` | util/snprintf.c:78-81 | the NUL behind what is shown |
| `Format.Vsnprintf` | util/snprintf.c:11-83 | the result is the length of the whole text; the buffer holds its first min(length, n - 1) characters, then NUL; no other index changes |
| `Format.Atol` | util/string.c:65-82 | the number that spaces, sign and digits spell, modulo 2 to the 64 |
| `Format.SpelledForms` | util/string.c:65-82 | leading spaces do not count, a minus sign negates, a plus sign does not |
| `Format.LongReadsBack` | util/string.c:65-82 | what %ld wrote reads back as the number, for every long |
| `Format.PrintedLongReadsBack` | util/snprintf.c:36-53 | the same through a buffer that holds the text |
| `Bytes.MemMove` | util/string.c:84-98 | the destination equals the old source for every overlap, and nothing else changes |
| `Bytes.MemCpy` | util/string.c:8-23 | word copies then bytes equal the plain byte copy on disjoint regions, for every alignment and length |

## Left out

- System.Os.HandleTrap: after a free of a page that may not be freed (`Release.CanFree`) nothing is claimed but that the call was accepted; `System.Os.RunAll` ends a run there.
- System.Os.UserWrite: a store that crosses a word boundary is not modelled; user instructions that neither store nor trap do not appear.
- System.Os.PrintCall: what a conversion in the user's text does, since it takes whatever the argument registers hold, and texts that leave the user pages, such as the caller's own trapframe; the characters that reach the host.
- Kernel.Kernel.LoadSegment: segments are page-aligned, since any other breaks the invariant (`Failures.UnalignedSegment`), and not at address 0, where the record of a segment counts as an empty slot (kernel/elf.c:83-84); reading the ELF file through the host is not modelled.
- Load.LoadPage: page-aligned segments only, for the same reason.
- Boot.LoadProgram: the same restriction on segments.
- Boot.Start: the same restriction on segments.
- Boot.BootAndRun: the same restriction on segments.
- Kernel.Kernel.DoFork: the region table is a sequence in the process record; its frame is owned and never shared, but the bytes in it are not modelled, nor the address that a DATA region leaves behind the recorded ones (kernel/process.c:189).
- Scanner.ScanLevel: covers the layouts of well-formed trees; what happens on a malformed block is not stated. Node records are passed by value, callbacks are recorded as events, and the answers of close are given by the order of closing.
- Scanner.FdtScan: a structure block at an offset that is no multiple of four is not modelled; the strings block is read once; a strings block inside the structure block is not modelled.
- Discovery.QueryMem: a string value is taken to end inside its property; words behind a value are arbitrary.
- Format.Vsnprintf: sizes do not wrap around 2 to the 64; formats and arguments of the wrong type are not modelled.
- Bytes.MemCpy: overlapping regions are not covered, as the C library does not promise them.
- Memory words are natural numbers; bounds of 64 bits are stated where arithmetic can exceed them.
- Control registers, the assembly entry and exit stubs, interrupts of the kernel itself and the tick counter g_ticks.
- The host interface (spike_interface/spike_htif.c, spike_utils.c, spike_file.c, atomic.h), machine mode (kernel/machine) and the user programs.
- Output: what becomes of the text behind sprint, and print_proc_vmspace.
- The loop of wait behind schedule (kernel/process.c:251-265), which no execution reaches.
- strcmp, strcpy, memset and safestrcpy on their own: easy members, present only inside the operations that use them.
