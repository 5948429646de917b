# SonnaOS kernel, modelled in Dafny

This project models the parts of the SonnaOS x86-64 kernel whose correctness is hard to see by reading, and
proves what they promise. `dafny verify dfyconfig.toml` checks all of it. Nothing here runs the kernel.

## What is modelled

**Physical frames** (`kernel/mm/pmm.c`; `Bits`, `FramePool`, `FrameSearch`, `FrameLedger`, `FrameAllocator`,
`MemoryMap`). The bitmap is an array of bytes edited in place by a class; each method is proved against a pure
pool of bits, hint and wrapping 64-bit counters. `MemoryMap.RunFromBoot` is the result: after boot on any memory
map, through any run of allocations and releases, no block overlaps another, frame 0 or the bitmap, no frame is
gained or lost, and free + used = usable, unless the bitmap left no spare frame, when nothing is ever handed out.

**Address spaces** (`kernel/arch/x86_64/mm/vmm.c`; `PageWords`, `PageTables`, `SpaceState`, `PageRanges`,
`RangeUnmapping`, `TableCosts`, `SpaceRuns`, `AddressSpaces`). Page tables live in the frames of one physical memory that all
spaces share. A ghost label per table frame says whose table it is and which indices lead to it; that labelling is
the invariant from which everything else follows. Each operation is described by its effect on every page of every
space and on the number of frames left, and by what the tables it makes grant. `AddressSpaces.Vmm.Run` is the result: any run of map, map-huge, unmap and
unmap-huge is a run of a flat machine with one cell per page and space, holding the translation and how many of the three
tables on the way there are, and a count of frames. The flat machine is a function: from the first cells and the first
count it gives every answer, every later cell and the count in the end. `TableCosts` is the price of mapping a list of
pages: exactly the tables that were missing and not made for an earlier page.

**Programs and tasks** (`kernel/arch/x86_64/usermode/elf.c`, `scheduler.c:51-88`; `PhysicalBytes`, `ElfFormat`,
`ElfImage`, `ElfOutcome`, `ElfLoader`, `ElfWriting`, `TaskBills`, `TaskCreation`, `UserStores`, `FirstEntry`, `BootTasks`,
`BootArchive`). Loading a file copies bytes into frames and maps the frames; `ElfLoader.LoadElf` says what is then read
back through the tables, why a load fails, what a failure leaves behind and how many frames were taken.
`TaskCreation.CreateTasks` says that any sequence of task creations leaves every earlier space and every earlier image
intact, that no two tasks share a frame, and, stock by stock, what each task took or why it was not made.
`UserStores.NoInterference` says that after any interleaving of stores by such tasks each reads what it would read had only
its own happened, and `UserStores.TextIsConstant` that no stores change a program's read-only segments. `BootArchive.BootFrom` joins the archive, creation, the run queue and the first `task_enter`: the protocol
starts at the first program's entry point, with every other task waiting at its own.

**The scheduler and the context switch** (`kernel/arch/x86_64/usermode/scheduler.c`, `usermode.c:71-85`,
`kernel/arch/x86_64/interrupts/isr.S`, `apictimer.c`, `kernel/arch/x86_64/syscalls/syscalls.c:122-141`;
`Scheduling`, `SavedFrames`, `ContextSwitch`, `ContextRuns`, `StackUse`, `Fairness`, `KernelTasks`). The pure protocol has kernel
stacks as words, frames pushed and popped register by register, `tss.rsp0`, `cr3` and the tick counter. Its events are
user steps, ticks and exits, with arbitrary rubbish left on the stack that is in use. `ContextRuns.RunMatches` is the
result: every run shows exactly what an ideal machine shows in which each task owns its registers. `Fairness` bounds
the wait of a ready task, on the machine itself. `StackUse` follows `tss.rsp0` through every run. `KernelTasks` is the same kernel with task records linked into a ring and edited in place;
`KernelTasks.Kernel.Run` ties it to the protocol for every sequence of events.

**Keyboard and console** (`kernel/drivers/keyboard.c:7-33`, `kernel/arch/x86_64/syscalls/syscalls.c:71-115`;
`KeyboardRing`, `LineEditor`, `Console`). In the ring each access to a shared field is a step, and the two sides interleave
freely. `Console.Session` joins the ring and `SYS_READ`: whatever the order of key presses and reads, the texts read are
the lines of the keys accepted.

**Archive, calendar, numbers** (`CpioFormat`, `CpioLookup`, `Calendar`, `Numerals`).

## What the proofs show about the code

- `pmm_init` takes frame 0 off the free counter even if frame 0 was never free. The counters are exact after boot if and
  only if frame 0 is usable or a usable frame is left beside the bitmap (`MemoryMap.InitCountersExact`); otherwise the free
  counter wraps to 2^64 - 1 (`MemoryMap.InitUnderflows`), and the pool is still safe because the bitmap is full.
- The bounds of a memory-map entry are computed in 64 bits; an entry whose end wraps offers what the wrapped end says.
- Clear bits and counters come out right for overlapping usable regions too, apart from the usable total itself.
- `vmm_get_physical` keeps the bits above the address and takes bit 7 of a 4 KiB entry for the 2 MiB flag. It gives the
  processor's translation exactly under the condition of `PageRanges.GetPhysicalExact`. A page mapped with
  `PTE_KERNEL_RW_NX` reads back with bit 63 set (`PageRanges.NxIsReadBack`).
- `vmm_map` on aligned arguments succeeds if and only if the page is unmapped and the frames suffice for the missing tables,
  three at most; a failing one leaves the empty tables it could make (`AddressSpaces.Vmm.Map`).
- `vmm_map_for_pml4` drops NX, so every page of a program and its stack can be run, whatever the segment says; writing is
  as the segment says, over all four entries of the walk (`ElfImage.LoadedIsAccessible`, `TaskCreation.ReadyIsUsable`).
- `vmm_unmap_huge_2mb` may drop a whole table; translations elsewhere are unchanged, the table's frame is not given back.
- `vmm_unmap_range` always reports success. Inside a 2 MiB page it removes the whole of that page
  (`RangeUnmapping.RangeUnmaps`).
- `load_elf` fails at the first loadable segment that has no pages or meets a page already taken, or earlier for want of
  frames (`ElfLoader.LoadElf`). When mapping stops, the segment's frames are freed and the pages mapped so far stay. So a
  failed load, not short of frames, leaves a page that maps a free frame if and only if the first page of the segment it
  stops at was not taken (`ElfOutcome.FailureExact`), which in an empty space is a condition on the file alone
  (`ElfOutcome.LeaksInEmpty`). `ElfWriting` writes out such a file, and `ElfWriting.LoadLeaky`
  says what loading it leaves.
- A task takes exactly the frames of `TaskBills.TaskBill`. It is not made although the file is good and the frames suffice
  only if the allocator has no run long enough for the block that is due (`TaskCreation.CreateTask`).
- `task_enter` sets neither the task's state nor `rsp0`. That is safe: until the next tick `rsp0` names the boot stack or
  the stack of a task that has died, and from then on the running task's own (`StackUse.BorrowedStacks`,
  `StackUse.OwnStackAfterTick`).
- `lapic_timer_isr` saves only when it interrupted ring 3. Every context that a run saves or restores is a ring-3 one, so
  in these runs the test is always passed.
- `lapic_ticks` wraps after 2^64 - 1 with four ticks of its quantum missing, which only shortens a wait.
- A tick forces `ss` to 0x1B and an exit does not (`ContextRuns.ResumesWhereStopped`).
- The padding of a file size in `cpio_lookup` is computed in 32 bits, right exactly up to 2^32 - 4
  (`CpioLookup.PaddingWraps`).
- The date text shows the year modulo 10000, and text order is the order of the dates so shown (`Calendar.TextOrder`). It
  increases with time up to the end of the year 9999 (`Calendar.TextIncreases`) and decreases at the next second
  (`Calendar.TextWraps`).
- An erase key undoes a printable key exactly when the line was not full (`LineEditor.EraseUndoes`).
- `utoa_base` fits its 32 slots in every base from 4 on; in bases 2 and 3 exactly below 2^32 and 3^32
  (`Numerals.FitsBelow`).

## Model

| member | source | states |
|---|---|---|
| `Bits.SetStores` | kernel/mm/pmm.c:38-40 | setting a bit of a byte array that stores a set of frames stores that set with the frame added, and no other |
| `Bits.ClearStores` | kernel/mm/pmm.c:42-44 | clearing a bit stores the set with exactly that frame removed |
| `Bits.AllOnesStore` | kernel/mm/pmm.c:118-119 | bytes of 0xFF store every frame as used |
| `FramePool.FirstFitIsLeast` | kernel/mm/pmm.c:187-206 | the first fit is the least permitted start of a free run, or none exists |
| `FramePool.LeastIsFirstFit` | kernel/mm/pmm.c:187-206 | the least permitted start is what first fit returns |
| `FramePool.NextFitFits` | kernel/mm/pmm.c:181-215 | next fit returns a block that fits and returns none only if no block fits anywhere, whatever the hint |
| `FramePool.AllocComplete` | kernel/mm/pmm.c:176-216 | if the counter allows and an aligned free run exists, the allocation succeeds, including runs that straddle the hint |
| `FramePool.AllocSound` | kernel/mm/pmm.c:254-300 | a success takes one contiguous free block inside the bitmap at a multiple of the alignment and the page size; a failure changes nothing |
| `FramePool.TakeHint` | kernel/mm/pmm.c:195-202 | the hint moves to the frame behind the block taken, or to frame 0 at the end of the bitmap |
| `FramePool.FreeSound` | kernel/mm/pmm.c:230-252 | freeing a held block clears exactly its bits and moves both counters by its size |
| `FramePool.FreeByAddress` | kernel/mm/pmm.c:230-252 | for any address and any count a free clears exactly the frames from the one that holds the byte at the address on, and leaves the hint |
| `FramePool.ClearFramesIsClearBlock` | kernel/mm/pmm.c:236-251 | the frame-by-frame loop of the free is the block-wise free |
| `FramePool.OneFrameFails` | kernel/mm/pmm.c:177-179 | one frame is refused only if the counter is 0 or every bit is set |
| `FramePool.BlockFails` | kernel/mm/pmm.c:177-215 | a block is refused only for count 0, a low counter or want of a free run |
| `FramePool.OneFrameTaken` | kernel/mm/pmm.c:176-216 | a single frame is had exactly when the counter and the bitmap both have one, and both then have one fewer |
| `FramePool.BlockTaken` | kernel/mm/pmm.c:176-216 | a block is had exactly when it is not refused, and counter and clear bits fall by its size |
| `FrameSearch.FoundIsNextFit` | kernel/mm/pmm.c:187-203 | the block at which the cyclic scan stops is the next-fit block |
| `FrameSearch.NothingFits` | kernel/mm/pmm.c:208-215 | a scan that goes twice round without success proves that nothing fits |
| `FrameSearch.AdvanceKeepsSearching` | kernel/mm/pmm.c:208-212 | stepping on, across the end of the bitmap too, keeps the record of starts ruled out; the second return to the hint is after 2 * frames tests and rules out all |
| `FrameAllocator.FrameAllocator.TestFrame` | kernel/mm/pmm.c:46-48 | the bit read is the frame's bit |
| `FrameAllocator.FrameAllocator.SetFrame` | kernel/mm/pmm.c:38-40 | exactly one frame becomes used |
| `FrameAllocator.FrameAllocator.ClearFrame` | kernel/mm/pmm.c:42-44 | exactly one frame becomes free |
| `FrameAllocator.FrameAllocator.FindRun` | kernel/mm/pmm.c:181-215 | the loop returns the next-fit block within 2 * pmm_bitmap_frames tests |
| `FrameAllocator.FrameAllocator.FindAlignedRun` | kernel/mm/pmm.c:259-299 | the aligned loop returns the aligned next-fit block within 2 * pmm_bitmap_frames tests |
| `FrameAllocator.FrameAllocator.Commit` | kernel/mm/pmm.c:195-202 | the block's bits, both counters and the hint change as TakeHint says, nothing else |
| `FrameAllocator.FrameAllocator.AllocFrames` | kernel/mm/pmm.c:176-216 | bitmap, counters, hint and result are those of the pool's allocation, whose places FrameLedger.NextFitOverRuns gives run by run |
| `FrameAllocator.FrameAllocator.AllocFramesAligned` | kernel/mm/pmm.c:254-300 | the same for any alignment, 0 refused |
| `FrameAllocator.FrameAllocator.FreeFrames` | kernel/mm/pmm.c:230-252 | bitmap and counters are those of the pool's free, clipped to the bitmap and skipping free frames |
| `FrameAllocator.FrameAllocator.OpenRegions` | kernel/mm/pmm.c:124-139 | from a full bitmap, the clear bits become exactly the usable frames, counters in step |
| `FrameAllocator.FrameAllocator.ProtectFrameZero` | kernel/mm/pmm.c:141-146 | frame 0 is used, and the counters lag by one exactly if it was used before while another frame was free |
| `FrameAllocator.FrameAllocator.ProtectBitmap` | kernel/mm/pmm.c:148-157 | exactly the bitmap's own frames are taken back, counters in step |
| `FrameAllocator.FrameAllocator.Init` | kernel/mm/pmm.c:50-160 | totals, the bitmap's home and the pool built are those the memory map determines, in 64-bit arithmetic; the bitmap has one bit per frame, in as many frames as that takes; no room for it gives an empty pool |
| `FrameLedger.RunIsSafe` | kernel/mm/pmm.c:176-300 | in every run held blocks are disjoint, avoid reserved frames, clear bits plus held frames stay constant, counters stay balanced |
| `FrameLedger.RunKeepsCountersExact` | kernel/mm/pmm.c:198-199 | exact counters stay exact through every run |
| `FrameLedger.AllocFreeRestores` | kernel/mm/pmm.c:176-252 | giving a block straight back restores bitmap and counters |
| `FrameLedger.DoubleFreeIsNoop` | kernel/mm/pmm.c:240-247 | freeing any range twice is freeing it once |
| `FrameLedger.FreeBalances` | kernel/mm/pmm.c:236-251 | any free, of a held block or not, keeps the counters in step with the bitmap |
| `FrameLedger.ExhaustedPoolIsStuck` | kernel/mm/pmm.c:177-215 | a pool with no clear bit and no held block never changes, whatever its counters say |
| `FrameLedger.HintIsBehind` | kernel/mm/pmm.c:195-202 | after a block was taken the hint is behind it, or at frame 0 if it was the last |
| `FrameLedger.NextFitOverRuns` | kernel/mm/pmm.c:176-300 | after a block was handed out, and however many releases and refusals later, the next one is at the least place that fits behind it, or at the least of all if none fits there |
| `FrameLedger.BalancedExact` | kernel/mm/pmm.c:141-157 | balanced counters are exact if and only if the clear bits cover the lag |
| `MemoryMap.HomeIsUsable` | kernel/mm/pmm.c:90-107 | the place found for the bitmap lies wholly in usable memory |
| `MemoryMap.InitIsSafe` | kernel/mm/pmm.c:118-157 | the pool after boot is safe with frame 0 and the bitmap reserved, and balanced with the lag of frame 0 |
| `MemoryMap.ClearIffSpare` | kernel/mm/pmm.c:124-157 | a frame is free after boot if and only if one is usable, not frame 0 and not of the bitmap |
| `MemoryMap.InitCountersExact` | kernel/mm/pmm.c:121-157 | the counters are exact after boot if and only if frame 0 is usable or a spare frame is left |
| `MemoryMap.InitUnderflows` | kernel/mm/pmm.c:141-157 | one usable page that is not frame 0 leaves the free counter at 2^64 - 1 |
| `MemoryMap.RunFromBoot` | kernel/mm/pmm.c:50-300 | safety, conservation and exact counters for every run from boot on any map; no block handed out has a byte of the bitmap |
| `MemoryMap.FirstFromBoot` | kernel/mm/pmm.c:176-300 | the first block handed out after boot is at the least place of all where it fits |
| `MemoryMap.BitmapFits` | kernel/mm/pmm.c:86-87 | the frames set aside for the bitmap hold its bytes, and one frame fewer would not |
| `MemoryMap.OffersExact` | kernel/mm/pmm.c:129-132 | an entry whose sums do not wrap offers a frame if and only if every byte of the frame lies in the entry |
| `MemoryMap.HomeIsFirst` | kernel/mm/pmm.c:94-107 | the bitmap goes to the start of the first usable entry with room for its bytes, and nowhere only if none has |
| `MemoryMap.TopIsReached` | kernel/mm/pmm.c:62-71 | the bitmap reaches to the end of some RAM entry, the highest |
| `MemoryMap.UsableTotalCounts` | kernel/mm/pmm.c:73-79 | for entries that do not overlap the usable total is the number of usable frames |
| `MemoryMap.RamTotalIsUsableTotal` | kernel/mm/pmm.c:62-67 | the RAM total counts the frames of RAM in the same way |
| `MemoryMap.BitmapIsApart` | kernel/mm/pmm.c:148-157 | a block that keeps off the reserved frames has no byte of the bitmap |
| `PageWords.PageNumberUnique` | kernel/arch/x86_64/mm/vmm.c:16-19 | two quadruples of indices with the same page number are the same, so a walk's indices name one page |
| `PageWords.LeafWord` | kernel/arch/x86_64/mm/vmm.c:93-93 | the entry vmm_map writes decodes to its frame, flags and high bits |
| `PageWords.UserLeafWord` | kernel/arch/x86_64/mm/vmm.c:229-230 | the entry vmm_map_for_pml4 writes decodes to the frame and flags without NX |
| `PageWords.HugeWordPages` | kernel/arch/x86_64/mm/vmm.c:117-117 | a 2 MiB entry maps its 512 pages linearly |
| `PageWords.TableWordDecodes` | kernel/arch/x86_64/mm/vmm.c:67-67 | the entry create_table writes points at the new table and is no huge leaf |
| `PageTables.WalkLabels` | kernel/arch/x86_64/mm/vmm.c:29-57 | every table met on a walk carries the label of its place, so distinct places have distinct frames |
| `PageTables.LowerHalvesAreDisjoint` | kernel/arch/x86_64/mm/vmm.c:199-241 | no table of one space's lower half is on any walk of another space |
| `PageTables.UpperHalfIsShared` | kernel/arch/x86_64/usermode/scheduler.c:58-58 | a space that has an upper-half slot translates below it as the kernel does |
| `PageTables.SharedHole` | kernel/arch/x86_64/mm/vmm.c:29-69 | two walks end at the same absent entry if and only if one space reaches the other and the pages have the missing table in common |
| `PageTables.WriteLeafEffect` | kernel/arch/x86_64/mm/vmm.c:85-95 | writing a 4 KiB entry changes that page alone, in exactly the spaces it reaches, and no table is found or lost |
| `PageTables.WriteRegionEffect` | kernel/arch/x86_64/mm/vmm.c:109-119 | writing a directory entry changes that 2 MiB region alone, in exactly the spaces it reaches, translation and table count |
| `PageTables.GraftWellFormed` | kernel/arch/x86_64/mm/vmm.c:59-69 | hanging a fresh zeroed table keeps the labelling of all tables |
| `PageTables.GraftEffect` | kernel/arch/x86_64/mm/vmm.c:59-69 | hanging a fresh zeroed table changes no translation, and lets exactly the walks that ended at its entry find one table more |
| `PageTables.GraftLinks` | kernel/arch/x86_64/mm/vmm.c:59-69 | hanging a table adds its link to exactly the walks that ended there; every link that was on a walk stays as it was |
| `PageTables.RightsOverEntries` | kernel/arch/x86_64/mm/vmm.c:48-57 | what ring 3 may do with a page is what the links of its walk and the entry that decides it grant together |
| `PageTables.UserWay` | kernel/arch/x86_64/mm/vmm.c:202-223 | every link on every walk in the lower half of a task is present, writable and for the user, whatever the run before |
| `SpaceState.UserRights` | kernel/arch/x86_64/mm/vmm.c:225-229 | what ring 3 may do with a page of a task's lower half, all four entries taken together, is what the page's own entry grants |
| `SpaceState.AddsTogether` | kernel/arch/x86_64/mm/vmm.c:59-69 | a walk with new links grants what it granted before as far as the new links grant it |
| `SpaceState.WaysTransitive` | kernel/arch/x86_64/mm/vmm.c:122-129 | what links added step by step grant, they grant together |
| `SpaceState.NewRootWellFormed` | kernel/arch/x86_64/usermode/scheduler.c:55-59 | a fresh PML4 with the kernel's upper half keeps the labelling |
| `SpaceState.NewRootOpens` | kernel/arch/x86_64/usermode/scheduler.c:55-59 | the new space is empty below and is the kernel above |
| `SpaceState.HangsDeepens` | kernel/arch/x86_64/mm/vmm.c:59-69 | hanging the missing table on the way to a page deepens the walks of the pages that have it in common, in exactly the spaces it reaches |
| `PageRanges.RangeExtends` | kernel/arch/x86_64/mm/vmm.c:122-129 | a range mapped so far and one more page is the range one page longer |
| `PageRanges.GetPhysicalExact` | kernel/arch/x86_64/mm/vmm.c:162-173 | 0 for an unmapped page; for a mapped one the processor's answer if and only if no high bits are set and bit 7 does not mislead |
| `PageRanges.NxIsReadBack` | kernel/arch/x86_64/mm/vmm.c:162-173 | after a page is mapped with PTE_KERNEL_RW_NX every address in it reads back with 2^63 added |
| `RangeUnmapping.UnmapExtends` | kernel/arch/x86_64/mm/vmm.c:155-160 | unmapping one more page extends the unmapped range, taking a 2 MiB page whole |
| `RangeUnmapping.UnmapInvertsMap` | kernel/arch/x86_64/mm/vmm.c:122-160 | mapping a range and unmapping it restores every translation of every space |
| `TableCosts.CostAppend` | kernel/arch/x86_64/mm/vmm.c:122-129 | the price of two lists of pages is the price of the first and, with its tables there, of the second |
| `TableCosts.CostGrows` | kernel/arch/x86_64/mm/vmm.c:122-129 | more pages cost no less, and at most three tables each |
| `TableCosts.CostInEmpty` | kernel/arch/x86_64/mm/vmm.c:236-241 | in a space without tables the price depends on the pages alone |
| `SpaceRuns.UnmapPerforms` | kernel/arch/x86_64/mm/vmm.c:131-141 | unmapping a mapped page, or the 2 MiB page it is in, acts on every cell as the flat rule says |
| `SpaceRuns.MapPerforms` | kernel/arch/x86_64/mm/vmm.c:71-96 | mapping a page, for the kernel or for a task, acts on every cell as the flat rule says, tables included |
| `SpaceRuns.MapHugePerforms` | kernel/arch/x86_64/mm/vmm.c:98-120 | a huge map of a region without directory entry acts on every cell as the flat rule says |
| `SpaceRuns.UnmapHugePerforms` | kernel/arch/x86_64/mm/vmm.c:143-153 | an aligned huge unmap of a present directory entry clears the cells of its region and no other |
| `SpaceRuns.RefusedPerforms` | kernel/arch/x86_64/mm/vmm.c:71-153 | a refusal changes no translation, and every cell sees the tables it made |
| `SpaceRuns.UnusedIsUnmapped` | kernel/arch/x86_64/mm/vmm.c:98-153 | no page of a region without directory entry is mapped, so an accepted huge map finds none mapped and a refused huge unmap found none |
| `SpaceRuns.AgreesOneMore` | kernel/arch/x86_64/mm/vmm.c:71-160 | an operation that acts by the rule keeps the tables in step with the flat machine, answer, cells and count |
| `SpaceRuns.ThreeEach` | kernel/arch/x86_64/mm/vmm.c:76-84 | no run takes more than three frames for each operation |
| `SpaceRuns.EnoughFrames` | kernel/arch/x86_64/mm/vmm.c:71-120 | with three frames for each operation the cells alone decide every answer of a run |
| `AddressSpaces.Vmm.constructor` | kernel/arch/x86_64/mm/vmm.c:192-197 | the manager starts on the tables found through CR3 |
| `AddressSpaces.Vmm.AllocZeroed` | kernel/mm/pmm.c:166-172 | a frame is had if and only if counter and bitmap have one; it was free and nobody's table and is zeroed; else nothing changes |
| `AddressSpaces.Vmm.AllocBlock` | kernel/mm/pmm.c:218-224 | a block of free frames is taken and zeroed, counter and clear bits falling by its size, or refused if and only if the allocator refuses the count |
| `AddressSpaces.Vmm.CreateTable` | kernel/arch/x86_64/mm/vmm.c:59-69 | an existing table is kept, else a fresh empty one is hung for one frame, else there was no frame and nothing changes |
| `AddressSpaces.Vmm.Prepare` | kernel/arch/x86_64/mm/vmm.c:76-84 | the three tables on the way to a page: the missing ones are made for one frame each, and fewer only if no frame is left |
| `AddressSpaces.Vmm.Install` | kernel/arch/x86_64/mm/vmm.c:76-95 | succeeds if and only if the page is unmapped and the frames suffice for the missing tables; takes exactly min(missing, available) frames; maps the page and no other, or moves none |
| `AddressSpaces.Vmm.Map` | kernel/arch/x86_64/mm/vmm.c:71-96 | as Install, with alignment, for the kernel's space and every space sharing the slot; the tables it makes are writable and closed to ring 3, and no link there was changes |
| `AddressSpaces.Vmm.MapHuge` | kernel/arch/x86_64/mm/vmm.c:98-120 | succeeds if and only if aligned, the directory entry absent and the frames enough for the missing upper tables; the region is mapped linearly and nothing else changes, or no translation changes; frames taken exactly; the tables it makes are writable and closed to ring 3 |
| `AddressSpaces.Vmm.MapForPml4` | kernel/arch/x86_64/mm/vmm.c:199-234 | as Install, with alignment, for the page of the task's space, without NX; no page of another space changes; ring 3 can reach the page if and only if the flags say USER and write to it if and only if they say WRITE, all four entries of the walk taken together, and can always run it |
| `AddressSpaces.Vmm.Unmap` | kernel/arch/x86_64/mm/vmm.c:131-141 | succeeds if and only if the page is aligned and mapped; removes that page, or the 2 MiB page it is in, and nothing else |
| `AddressSpaces.Vmm.UnmapHuge` | kernel/arch/x86_64/mm/vmm.c:143-153 | succeeds if and only if the address is aligned and the directory entry present; removes exactly the 2 MiB region, be it one page or a table |
| `AddressSpaces.Vmm.MapRange` | kernel/arch/x86_64/mm/vmm.c:122-129 | all pages mapped in order, or exactly a prefix, stopped at a mapped page or because the frames do not cover the price so far; frames taken exactly the price, or all there were; the tables made are writable and closed to ring 3 |
| `AddressSpaces.Vmm.MapRangeForPml4` | kernel/arch/x86_64/mm/vmm.c:236-241 | the same in a task's space, with the rights that the flags ask for over the whole walk of every page mapped |
| `AddressSpaces.Vmm.UnmapRange` | kernel/arch/x86_64/mm/vmm.c:155-160 | the mapped pages of the range go, with every 2 MiB page touched, and nothing else; always true |
| `AddressSpaces.Vmm.NewSpace` | kernel/arch/x86_64/usermode/scheduler.c:55-59 | a new space for one frame, without tables below and the kernel's above, if and only if there is a frame; no existing space changes |
| `AddressSpaces.Vmm.Perform` | kernel/arch/x86_64/mm/vmm.c:71-153 | each operation answers, changes all cells of all spaces and takes frames exactly as the flat rule says from the state before it |
| `AddressSpaces.Vmm.Run` | kernel/arch/x86_64/mm/vmm.c:71-153 | any run of operations is the run of the flat machine from the same cells and count: the same answers, the same cells, the same count |
| `PhysicalBytes.PutPageByteEffect` | kernel/arch/x86_64/usermode/elf.c:46-46 | storing a byte in physical memory changes that byte alone |
| `ElfFormat.PagesCover` | kernel/arch/x86_64/usermode/elf.c:34-36 | the pages of a segment cover its bytes, are no more than that takes, and stay in the lower half |
| `ElfImage.MappedIsLoaded` | kernel/arch/x86_64/usermode/elf.c:38-52 | frames filled with the segment and mapped in order show the segment at its addresses |
| `ElfImage.ShowsIsRead` | kernel/arch/x86_64/usermode/elf.c:46-52 | a byte shown is the byte read through the tables |
| `ElfImage.LoadedIsAccessible` | kernel/arch/x86_64/usermode/elf.c:48-52 | every byte of a loaded segment can be reached and run from ring 3, and written if and only if the segment is writable, over the whole walk |
| `ElfImage.StoppedPage` | kernel/arch/x86_64/usermode/elf.c:52-57 | the page at which mapping a segment stopped is as it was before the segment |
| `ElfImage.RangeHeld` | kernel/arch/x86_64/usermode/elf.c:38-52 | pages mapped to frames just taken map data that was free before, in this space |
| `ElfImage.SpreadTransitive` | kernel/arch/x86_64/usermode/elf.c:25-58 | pages mapped segment after segment are on frames of their own, no two on one |
| `ElfOutcome.LoadsIfFits` | kernel/arch/x86_64/usermode/elf.c:34-57 | a segment is loaded if and only if there is a block for it, its pages are unmapped and the frames cover the block and the missing tables |
| `ElfOutcome.BadInEmpty` | kernel/arch/x86_64/usermode/elf.c:25-57 | in an empty space a segment cannot be placed if and only if it has no pages or shares one with an earlier loadable segment |
| `ElfOutcome.WholeIsNotBad` | kernel/arch/x86_64/usermode/elf.c:34-58 | a segment that was placed had pages and none of them was taken |
| `ElfOutcome.SegmentStops` | kernel/arch/x86_64/usermode/elf.c:38-57 | what a failing segment leaves: its first pages on frames that are free again, the earlier segments on their data, nothing else |
| `ElfOutcome.SettlesBroke` | kernel/arch/x86_64/usermode/elf.c:25-57 | what a load has taken when it stops: all earlier segments and their tables, and the tables of the failing one as far as the frames went |
| `ElfOutcome.DanglesIffStopped` | kernel/arch/x86_64/usermode/elf.c:52-57 | a failed load leaves a page mapping a free frame if and only if a page of the failing segment had been mapped |
| `ElfOutcome.FailureExact` | kernel/arch/x86_64/usermode/elf.c:52-57 | with frames enough, the load stops at the first bad segment, and a page is left on a free frame if and only if that segment has pages and its first one was not taken |
| `ElfOutcome.LeaksInEmpty` | kernel/arch/x86_64/usermode/elf.c:52-57 | in an empty space that is so if and only if the first segment in conflict has pages and its first page belongs to no earlier loadable segment |
| `ElfLoader.CopyBytes` | kernel/arch/x86_64/usermode/elf.c:44-46 | the bytes are copied to their place in the block and nothing else changes |
| `ElfLoader.StageSegment` | kernel/arch/x86_64/usermode/elf.c:34-46 | fresh frames hold the file's bytes at the page offset and zeros elsewhere; refused if and only if the allocator refuses, and then nothing changes |
| `ElfLoader.MapSegment` | kernel/arch/x86_64/usermode/elf.c:48-52 | exactly the first `done` pages are mapped, in order, only in this space, all of them on success; frames taken exactly the price; on failure the next page was mapped before or the frames did not cover its price |
| `ElfLoader.Unstage` | kernel/arch/x86_64/usermode/elf.c:53-57 | exactly the frames of the failed segment are given back, counter and bits |
| `ElfLoader.LoadSegment` | kernel/arch/x86_64/usermode/elf.c:25-58 | succeeds if and only if the segment fits, judged before the call; on success every byte reads back; on failure exactly the pages mapped so far stay, on frames that are free; frames taken exactly |
| `ElfLoader.LoadElf` | kernel/arch/x86_64/usermode/elf.c:10-61 | on success every byte of every loadable segment reads back, zeros from filesz to memsz, and may be used from ring 3 as its segment says, exactly the segment pages were added, on new frames, and exactly their frames and tables were taken; a bad header changes nothing; any other failure is at the first segment that cannot be placed, or for want of frames, with what it leaves and what it took stated exactly |
| `ElfWriting.HeaderIsWritten` | kernel/arch/x86_64/usermode/elf.c:13-20 | the loader takes a file for a program if and only if it starts, in the ten bytes that say what file it is, as a written one does |
| `ElfWriting.LittleIsMemory` | kernel/arch/x86_64/usermode/elf.c:11-11 | files and memory have the bytes of a number in the same order |
| `ElfWriting.TwoWritten` | kernel/arch/x86_64/usermode/elf.h:13-39 | a file written with two program headers is read back header for header, for all field values that fit |
| `ElfWriting.WrittenIsLeaky` | kernel/arch/x86_64/usermode/elf.c:24-36 | the written file has a segment on page 0x401000 and then one on pages 0x400000 and 0x401000 |
| `ElfWriting.LeakyLeaks` | kernel/arch/x86_64/usermode/elf.c:52-57 | in an empty space its second segment is the first bad one, with its first page not taken |
| `ElfWriting.LoadLeaky` | kernel/arch/x86_64/usermode/elf.c:10-61 | loading it fails, and page 0x400000 then maps a free frame unless twelve frames were not to be had or a block was refused |
| `TaskCreation.MapUserStack` | kernel/arch/x86_64/usermode/scheduler.c:67-71 | fails if and only if the allocator refuses eight frames; else the stack pages before the first mapped one are mapped, as far as frames for tables go; all eight read as zeros if it gets that far; frames taken exactly |
| `TaskCreation.WriteContext` | kernel/arch/x86_64/usermode/scheduler.c:77-84 | the top of the kernel stack holds the first context, the rest of memory is as before |
| `TaskCreation.MakeKernelStack` | kernel/arch/x86_64/usermode/scheduler.c:73-86 | a new primed kernel stack for sixteen frames, refused if and only if the allocator refuses the block; no translation changes |
| `TaskCreation.CreateTask` | kernel/arch/x86_64/usermode/scheduler.c:51-88 | a new task with its image, stack and first context, on frames that were free, sharing the kernel's half, for exactly the frames of its bill; no task only if the file is bad, its segments conflict, the frames do not cover the bill, or the allocator refuses the next block after exactly the frames before it; no page of an existing space changes either way; the image and the 32 KiB below the first stack pointer may be used from ring 3 as they should |
| `TaskCreation.ReadyIsUsable` | kernel/arch/x86_64/usermode/scheduler.c:61-71 | at its creation and ever after every byte of a task's image can be reached from ring 3 and written exactly if its segment is, and so can the 32 KiB below its first stack pointer, unless the image covers a page of the stack |
| `TaskCreation.CreateTasks` | kernel/arch/x86_64/usermode/scheduler.c:51-88 | after any sequence of creations every task made is intact and sees the kernel, no two use a common frame, each creation has paid its bill or has its reason in the stock it met, earlier spaces are untouched |
| `TaskBills.StackBill` | kernel/arch/x86_64/usermode/scheduler.c:67-71 | how far the user stack gets after the image, and what image and stack have taken: their price, or all the frames |
| `TaskBills.LoadDenied` | kernel/arch/x86_64/usermode/scheduler.c:61-65 | a load that stopped means a bad file, too few frames for the task, or a refused block after exactly the frames before it |
| `TaskCreation.NewIsApart` | kernel/arch/x86_64/usermode/scheduler.c:55-86 | a task on frames that were free shares no frame with a task that was ready |
| `UserStores.StoreIsRead` | kernel/arch/x86_64/usermode/scheduler.c:67-71 | a byte stored in a data frame is read by exactly the addresses that map it |
| `UserStores.StoreStaysHome` | kernel/arch/x86_64/usermode/scheduler.c:51-88 | a store by one task changes nothing that another task reads in its lower half, whatever was stored before |
| `UserStores.StoreIsReadBack` | kernel/arch/x86_64/usermode/scheduler.c:67-71 | what a task stores where it may, it reads back |
| `UserStores.StoreHitsOneByte` | kernel/arch/x86_64/usermode/scheduler.c:51-88 | a store changes what the task reads at that one place of its lower half, and only if the whole walk allows it |
| `UserStores.SameTarget` | kernel/arch/x86_64/mm/vmm.c:225-229 | where a store goes, or that it faults, depends on the task's own map alone, though every entry of the walk has to allow it |
| `UserStores.RunKeeps` | kernel/arch/x86_64/usermode/scheduler.c:51-88 | every run of stores keeps the tasks on data of their own, apart from each other, and moves no page |
| `UserStores.NoInterference` | kernel/arch/x86_64/usermode/scheduler.c:51-88 | after any interleaving of stores each task reads, all over its lower half, what it would read had only its own stores happened |
| `UserStores.ReadOnlyStays` | kernel/arch/x86_64/usermode/scheduler.c:51-88 | what the walk does not let ring 3 write reads the same after any interleaving of stores by all tasks |
| `UserStores.TextIsConstant` | kernel/arch/x86_64/usermode/elf.c:46-52 | after any stores by it and by others, every byte of a segment of a task that is not writable reads as its file says |
| `UserStores.StacksAreUntouched` | kernel/arch/x86_64/usermode/scheduler.c:73-86 | no run of stores changes a kernel stack |
| `UserStores.MadeAreIsolated` | kernel/arch/x86_64/usermode/scheduler.c:51-88 | the tasks that CreateTasks has made are isolated in this sense |
| `FirstEntry.FirstFrame` | kernel/arch/x86_64/usermode/scheduler.c:77-86 | restoring the first context starts the program at its entry point, ring 3, interrupts on, stack empty, registers zero |
| `BootTasks.CreatedAreMade` | kernel/arch/x86_64/usermode/scheduler.c:51-88 | creations that all succeed leave tasks ready and apart, each with a kernel stack that is not frame 0 |
| `BootTasks.FirstTaskRuns` | kernel/arch/x86_64/usermode/usermode.c:71-85 | entering any of the created tasks starts the protocol at that program's entry point in its own space, and every other task waits at its own entry point |
| `BootTasks.Enqueue` | kernel/arch/x86_64/boot/main.c:338-340 | adding the tasks one by one gives a ring of them in order, all ready, none current |
| `BootTasks.QueueTasks` | kernel/arch/x86_64/boot/main.c:338-340 | with the kernel stacks read from memory the ring is the queued machine of FirstTaskRuns |
| `BootTasks.Boot` | kernel/arch/x86_64/boot/main.c:334-343 | creating tasks from any files, queueing them and entering the first starts the protocol in a valid state, if and only if every task was made |
| `BootArchive.ReadProgram` | kernel/arch/x86_64/boot/main.c:335-337 | the file taken for a name is the first entry of the archive with that name, or none |
| `BootArchive.BootFrom` | kernel/arch/x86_64/boot/main.c:334-343 | from an archive image and any list of names: with every name there and every task made, the kernel is valid and the first program begins; nothing happens if a name is missing |
| `Scheduling.ScanFindsFirst` | kernel/arch/x86_64/usermode/scheduler.c:38-46 | the walk finds the first runnable task from its start, or there is none in reach |
| `Scheduling.NextIsNearest` | kernel/arch/x86_64/usermode/scheduler.c:35-47 | the choice is the nearest runnable task after the current one, which comes last; none if and only if none is runnable |
| `Scheduling.NextWithoutCurrent` | kernel/arch/x86_64/usermode/scheduler.c:35-47 | without a current task the choice is the first runnable one from the head |
| `Scheduling.ScheduleKeeps` | kernel/arch/x86_64/usermode/scheduler.c:90-99 | only the current task can be running; runnability is kept, a state that is not runnable stays, and so does that of every task but the two that change over; a switch runs its choice and takes the processor from the other |
| `Scheduling.ExitKeeps` | kernel/arch/x86_64/syscalls/syscalls.c:132-139 | the dead task is never the choice; halting means nobody else was runnable |
| `Scheduling.ScheduleApproaches` | kernel/arch/x86_64/usermode/scheduler.c:90-99 | each schedule brings the current task strictly nearer to every waiting runnable task |
| `Scheduling.ExitApproaches` | kernel/arch/x86_64/syscalls/syscalls.c:132-139 | so does each exit, and it does not halt while one waits |
| `SavedFrames.PushStores` | kernel/arch/x86_64/interrupts/isr.S:3-19 | pushes store each register at its place and touch nothing else |
| `SavedFrames.PopLoads` | kernel/arch/x86_64/interrupts/isr.S:21-37 | pops load each register from its place |
| `SavedFrames.OrdersAreOpposite` | kernel/arch/x86_64/interrupts/isr.S:3-37 | POP_REGS undoes PUSH_REGS register for register, all fifteen |
| `SavedFrames.SavedContext` | kernel/arch/x86_64/usermode/scheduler.h:17-21 | a saved frame is a cpu_context_t at the top of the stack, each register in its member, and the rest of the stack is as it was |
| `SavedFrames.RestoreSave` | kernel/arch/x86_64/interrupts/isr.S:111-140 | what is restored from a stack that still holds the frame is what was saved |
| `SavedFrames.RestoreForced` | kernel/arch/x86_64/interrupts/isr.S:138-139 | forcing ss in the frame changes ss alone |
| `ContextSwitch.SaveThrough` | kernel/arch/x86_64/interrupts/isr.S:112-121 | saving parks the current task with exactly its registers and disturbs no other frame |
| `ContextSwitch.TimerThrough` | kernel/arch/x86_64/interrupts/apictimer.c:11-22 | the handler keeps everyone parked with the same frames |
| `ContextSwitch.ResumeRuns` | kernel/arch/x86_64/interrupts/isr.S:125-140 | resuming runs the current task from its frame with ss forced, and disturbs no other frame; StackUse.TickMoves says on which stack it then is |
| `ContextSwitch.TickEffect` | kernel/arch/x86_64/interrupts/isr.S:111-140 | a whole tick keeps the invariant, hands over registers and requeues as the scheduler says; rsp0 is in StackUse.TickMoves |
| `ContextSwitch.DeathFreesStack` | kernel/arch/x86_64/syscalls/syscalls.c:132-139 | after an exit rsp0 names a stack that nobody else needs |
| `ContextSwitch.ExitChoice` | kernel/arch/x86_64/syscalls/syscalls.c:134-139 | the task entered after an exit was suspended and has its frame |
| `ContextSwitch.EnterRuns` | kernel/arch/x86_64/usermode/usermode.c:71-85 | task_enter runs the task from its frame, and disturbs no other frame |
| `ContextRuns.StepMatches` | kernel/arch/x86_64/interrupts/isr.S:111-140 | every event keeps the invariant and matches the step of the ideal machine |
| `ContextRuns.RunMatches` | kernel/arch/x86_64/interrupts/isr.S:111-140 | every run shows what the ideal machine shows, in which each task owns its registers |
| `ContextRuns.AwayKeepsRegisters` | kernel/arch/x86_64/interrupts/isr.S:111-140 | a task that is not running keeps its registers through any run |
| `ContextRuns.ResumesWhereStopped` | kernel/arch/x86_64/interrupts/isr.S:111-140 | a preempted task resumes with the registers, rip, rflags and rsp it was stopped with |
| `ContextRuns.StartHolds` | kernel/arch/x86_64/usermode/usermode.c:71-85 | the state after the first task_enter satisfies the invariant |
| `ContextRuns.ReachableStates` | kernel/arch/x86_64/interrupts/isr.S:111-140 | in every reachable state only the current task can be running, the context is a ring-3 one, cr3 is its, and rsp0 names its stack, the boot stack or a dead task's |
| `StackUse.TickMoves` | kernel/arch/x86_64/interrupts/isr.S:111-135 | a tick saves the interrupted task on the stack that was in use and goes over to the own stack of the task that is then current; no task's own stack or page tables change |
| `StackUse.ExitStays` | kernel/arch/x86_64/syscalls/syscalls.c:132-139 | an exit leaves rsp0 where it was |
| `StackUse.HomesStay` | kernel/arch/x86_64/interrupts/isr.S:111-140 | through any run every task keeps its own stack and page tables |
| `StackUse.StackInUse` | kernel/arch/x86_64/interrupts/isr.S:132-135 | after any run rsp0 names the own stack of the task that the last tick chose, or what it named at the start if there was no tick |
| `StackUse.OwnStackAfterTick` | kernel/arch/x86_64/interrupts/isr.S:132-135 | after any run in which a tick came after the last exit the running task is on its own stack |
| `StackUse.BorrowedStacks` | kernel/arch/x86_64/usermode/usermode.c:71-85 | a running task is on another stack only if no tick came since it was entered, and that stack is the boot stack or a dead task's |
| `ContextRuns.DeadNeverRuns` | kernel/arch/x86_64/syscalls/syscalls.c:132-139 | through any run a dead task stays dead and is not current unless the machine has halted |
| `Fairness.StepApproaches` | kernel/arch/x86_64/usermode/scheduler.c:90-99 | every event serves a waiting task, or brings it nearer if it switches, or leaves its distance alone |
| `Fairness.ServedWithinDistance` | kernel/arch/x86_64/usermode/scheduler.c:35-47 | a ready task at distance d is served within d calls of schedule or exit |
| `Fairness.ServedWithinTicks` | kernel/arch/x86_64/interrupts/apictimer.c:17-21 | the wait in ticks is bounded from the tick counter, across its wrap-around |
| `Fairness.ServedWithinTenTimesDistance` | kernel/arch/x86_64/interrupts/apictimer.c:9-21 | a ready task at distance d is served within 10 d ticks |
| `Fairness.RunServes` | kernel/arch/x86_64/interrupts/apictimer.c:9-21 | on the machine with its stacks a ready task becomes current after some prefix of any events with 10 d ticks |
| `KernelTasks.RunQueue.AddTask` | kernel/arch/x86_64/usermode/scheduler.c:22-33 | the ring is one cycle over the added tasks in order, with the new one last and ready, the others as before |
| `KernelTasks.RunQueue.Next` | kernel/arch/x86_64/usermode/scheduler.c:35-47 | the pointer walk ends and returns the task the specification chooses, or null |
| `KernelTasks.RunQueue.Schedule` | kernel/arch/x86_64/usermode/scheduler.c:90-99 | states and current task become those of the specification, with or without a current task |
| `KernelTasks.SwitchedStates` | kernel/arch/x86_64/usermode/scheduler.c:94-98 | the two state writes are the specification's new states |
| `KernelTasks.Kernel.TimerHandler` | kernel/arch/x86_64/interrupts/apictimer.c:11-22 | every tenth tick of the wrapping counter schedules |
| `KernelTasks.Kernel.TimerInterrupt` | kernel/arch/x86_64/interrupts/isr.S:111-140 | the kernel's state after the interrupt is the protocol's tick, and its invariant holds |
| `KernelTasks.Kernel.TaskEnter` | kernel/arch/x86_64/usermode/usermode.c:71-85 | current task, cr3 and registers are the entered task's; its state and rsp0 stay |
| `KernelTasks.Kernel.SysExit` | kernel/arch/x86_64/syscalls/syscalls.c:132-140 | the kernel's state after an exit is the protocol's exit, halting included |
| `KernelTasks.Kernel.Handle` | kernel/arch/x86_64/interrupts/isr.S:111-140 | every event takes the kernel where the protocol goes |
| `KernelTasks.Kernel.Run` | kernel/arch/x86_64/interrupts/isr.S:111-140 | so does every sequence of events |
| `KernelTasks.TickParts` | kernel/arch/x86_64/interrupts/isr.S:111-140 | save, handler and resume in this order are the protocol's tick |
| `KernelTasks.ExitParts` | kernel/arch/x86_64/syscalls/syscalls.c:132-140 | death, choice and entry in this order are the protocol's exit |
| `KernelTasks.FirstEnterStarts` | kernel/arch/x86_64/usermode/usermode.c:71-85 | the first task_enter, with every task ready on its own stack, starts the protocol |
| `KeyboardRing.FullTest` | kernel/drivers/keyboard.c:17-19 | the full test is true exactly when 127 characters are unread |
| `KeyboardRing.EmptyTest` | kernel/drivers/keyboard.c:13-15 | the empty test, with a head read earlier, is true exactly when all accepted by then are popped |
| `KeyboardRing.PushKeeps` | kernel/drivers/keyboard.c:21-26 | every field access of a push keeps the invariant |
| `KeyboardRing.PopKeeps` | kernel/drivers/keyboard.c:28-33 | every field access of a pop keeps the invariant |
| `KeyboardRing.RunKeepsInv` | kernel/drivers/keyboard.c:9-33 | every state of every interleaving satisfies the invariant |
| `KeyboardRing.PoppedIsPrefix` | kernel/drivers/keyboard.c:9-33 | in every interleaving what is popped is a prefix of what is accepted, at most 127 pending |
| `KeyboardRing.UnreadIsNeverOverwritten` | kernel/drivers/keyboard.c:21-26 | no step of any interleaving overwrites an unread character |
| `KeyboardRing.RefusalsAreTrue` | kernel/drivers/keyboard.c:21-33 | a key is dropped exactly when the ring is full, a pop gives nothing exactly when it was empty |
| `KeyboardRing.Keyboard.Push` | kernel/drivers/keyboard.c:21-26 | appends, or drops the key with 127 unread |
| `KeyboardRing.Keyboard.Pop` | kernel/drivers/keyboard.c:28-33 | gives the oldest character and the rest stays in order, or NUL from an empty ring |
| `KeyboardRing.Keyboard.HasData` | kernel/drivers/keyboard.c:119-121 | true exactly when a character is unread |
| `CpioFormat.EncodeIsArchive` | kernel/fs/cpio/cpio.h:9-24 | writing entries in the New ASCII Format, every header field in hexadecimal digits, gives an archive of those entries |
| `CpioFormat.HeaderDigits` | kernel/fs/cpio/cpio.h:9-24 | a written header is the magic and then hexadecimal digits only |
| `CpioFormat.DigitIsHex` | kernel/fs/cpio/cpio.c:7-22 | the digits are those of hexadecimal, in either case, and nothing else |
| `CpioFormat.Padded` | kernel/fs/cpio/cpio.c:38-45 | the next multiple of four, at most three bytes on |
| `CpioLookup.ParseHex` | kernel/fs/cpio/cpio.c:7-19 | the loop gives the digits up to the first character that is none, in 32 bits |
| `CpioLookup.ParseInvertsPrint` | kernel/fs/cpio/cpio.c:7-19 | eight printed digits parse back to every 32-bit number |
| `CpioLookup.SameNames` | kernel/klib/string.c:66-73 | the comparison of an entry's name with a string is equality |
| `CpioLookup.PaddingWraps` | kernel/fs/cpio/cpio.c:45-45 | the 32-bit padding is right if and only if the size is at most 2^32 - 4 |
| `CpioLookup.AtEntry` | kernel/fs/cpio/cpio.c:25-45 | at an entry the lookup returns its data and size if it has the name, else goes on behind it |
| `CpioLookup.Lookup` | kernel/fs/cpio/cpio.c:21-49 | the loop ends with the result of the walk, for any bytes, a missing module included |
| `CpioLookup.FindIsFirst` | kernel/fs/cpio/cpio.c:21-49 | on any archive the result is the first entry with the name, its data in place, or none; sizes are bounded only before that entry |
| `CpioLookup.LookupInvertsEncode` | kernel/fs/cpio/cpio.c:21-49 | what is looked up in a written archive is what was written |
| `Calendar.YearLoop` | kernel/arch/x86_64/time/time.c:40-50 | the loop ends with the year that contains the day |
| `Calendar.MonthLoop` | kernel/arch/x86_64/time/time.c:52-67 | the loop ends with the month that contains the day, its index below 12 |
| `Calendar.GetCurrent` | kernel/arch/x86_64/time/time.c:30-93 | the date is valid, stands for the timestamp, and the buffer holds its text and NUL |
| `Calendar.DaysBeforeMonthClosed` | kernel/arch/x86_64/time/time.c:52-61 | the month lengths add up to a closed formula for the first day of every month |
| `Calendar.TextReadsBack` | kernel/arch/x86_64/time/time.c:71-90 | the text reads back as the date, field by field and separator by separator, with the last four digits of the year |
| `Calendar.SecondsOrder` | kernel/arch/x86_64/time/time.c:34-69 | seconds and calendar order agree, so the date of a timestamp is unique |
| `Calendar.SecondsSinceEpoch` | kernel/arch/x86_64/time/time.c:34-69 | the fields satisfy the formula for Seconds Since the Epoch, section 4.16 of POSIX.1-2017 Base Definitions, the day of the year worked out without the table of months |
| `Calendar.TextOrder` | kernel/arch/x86_64/time/time.c:71-90 | for all valid dates one text is less than another if and only if its date, the year taken modulo 10000, is earlier; texts are equal if and only if those dates are |
| `Calendar.TextIncreases` | kernel/arch/x86_64/time/time.c:71-90 | up to the year 9999 a later timestamp has a greater text |
| `Calendar.TextWraps` | kernel/arch/x86_64/time/time.c:71-74 | one second past the end of the year 9999 the text is less than it was |
| `LineEditor.FoldSplits` | kernel/arch/x86_64/syscalls/syscalls.c:81-114 | it makes no difference how keys are spread over calls |
| `LineEditor.EraseUndoes` | kernel/arch/x86_64/syscalls/syscalls.c:102-113 | an erase undoes a key if and only if the line had room for it |
| `LineEditor.FoldKeepsText` | kernel/arch/x86_64/syscalls/syscalls.c:108-113 | printable text that fits stands in the line as typed |
| `LineEditor.StandsSince` | kernel/arch/x86_64/syscalls/syscalls.c:102-113 | a place of the line has the key that last made the line longer than that, counting up and down only |
| `LineEditor.StandsUntouched` | kernel/arch/x86_64/syscalls/syscalls.c:102-113 | or the character it had, if the line never got that short |
| `LineEditor.LinesMakeUpKeys` | kernel/arch/x86_64/syscalls/syscalls.c:89-101 | the lines with their newlines are the keys, none left out, up to the last newline |
| `LineEditor.CutIsPrefix` | kernel/arch/x86_64/syscalls/syscalls.c:91-94 | a read copies the first bytes of the line, as many as there are or as were asked for |
| `LineEditor.EachReadIsItsLine` | kernel/arch/x86_64/syscalls/syscalls.c:84-101 | there is a read for each line while reads are asked for, and read number i returns the first bytes of the fold of the keys of line number i |
| `LineEditor.Terminal.Read` | kernel/arch/x86_64/syscalls/syscalls.c:71-115 | refusal, waiting, the returned text and what stays in the ring are those of the fold of the ring's characters since the last newline; the position stays below 256 |
| `Console.TextsAreLines` | kernel/arch/x86_64/syscalls/syscalls.c:81-101 | however key presses and reads alternate, the texts read are the lines of the keys accepted, in order |
| `Console.Session` | kernel/arch/x86_64/syscalls/syscalls.c:71-115 | the ring and the line buffer, driven by any events, give exactly those texts |
| `Numerals.ParseInvertsNumeral` | userspace/lib/numfmt.c:3-28 | a printed number parses back, and only 0 starts with a zero |
| `Numerals.DigitCount` | userspace/lib/numfmt.c:18-21 | a number has at most n digits if and only if it is below base^n |
| `Numerals.FitsFromBaseFour` | userspace/lib/numfmt.c:5-21 | every 64-bit number fits 32 slots in bases 4 to 16 |
| `Numerals.FitsBelow` | userspace/lib/numfmt.c:5-21 | in bases 2 and 3 exactly the numbers below 2^32 and 3^32 fit |
| `Numerals.TwentyDigits` | kernel/klib/string.c:45-57 | a 64-bit number has at most 20 decimal digits, so the guard of 21 never stops the loop |
| `Numerals.ToDec` | kernel/klib/string.c:44-64 | the buffer holds the decimal numeral and NUL, the rest is as before |
| `Numerals.ToHex` | kernel/klib/string.c:32-42 | after 0x sixteen digits, capital letters among them, denote the value, then NUL |
| `Numerals.ToBase` | userspace/lib/numfmt.c:3-28 | the buffer holds the numeral, its length is returned; a bad base writes one NUL and returns 0 |
| `Numerals.ToSigned` | userspace/lib/numfmt.c:30-44 | the buffer holds the signed numeral and its length is returned |
| `Numerals.SignedRoundTrip` | userspace/lib/numfmt.c:30-44 | a signed numeral parses back |

## Left out

- `FrameAllocator.FrameAllocator.Init`: not stated for a memory map without one whole frame of RAM but with a usable sliver, where the code would write to a bitmap of no bytes, nor where overlapping entries add up to 2^64 usable frames.
- `AddressSpaces.Vmm.constructor`: the boot loader's tables are taken to form a tree without 1 GiB pages and with their frames marked used, because the code adopts them unseen.
- `PageWords.LeafWord`: flags are the low twelve bits and NX, and the frame is below 2^40; bits 12 to 62 of flags, which the C ORs into the address and the reserved bits, are not modelled.
- `PageWords.UserLeafWord`: the same flags and frames.
- `PageWords.HugeWordPages`: the same flags and frames.
- `AddressSpaces.Vmm.MapHuge`: the same flags, and physical addresses below 2^52.
- `AddressSpaces.Vmm.MapRange`: the same flags, and ranges that end below 2^52.
- `AddressSpaces.Vmm.MapRangeForPml4`: the same, for a task's own space and its lower half.
- `AddressSpaces.Vmm.MapForPml4`: stated for a task's own space and its lower half, the only use the kernel makes of it.
- `AddressSpaces.Vmm.Map`: flags are the low twelve bits and NX, and physical addresses lie below 2^52.
- `AddressSpaces.Vmm.Perform`: the flags and addresses of Map, MapHuge and MapForPml4.
- `ElfLoader.StageSegment`: stated for segments whose bytes lie inside the file, with filesz at most memsz and in the lower half, because the code copies without checking.
- `ElfLoader.MapSegment`: the same, lower half only.
- `ElfLoader.LoadSegment`: the same.
- `ElfLoader.LoadElf`: stated for files whose headers and segment bytes lie inside the file, with filesz at most memsz and segments in the lower half, because the code reads and copies without checking.
- `TaskCreation.MapUserStack`: where no frames can be had the model stops; the code goes on and maps address 0.
- `TaskCreation.CreateTask`: where an allocation fails unchecked the model stops without a task; what the code does with address 0 is not modelled.
- `BootTasks.Boot`: the files of LoadElf; where a task was not made the model stops, while the code would queue a null pointer.
- `BootArchive.BootFrom`: the files of LoadElf; where a name is missing the model stops, while the code would load from a null pointer.
- `KernelTasks.RunQueue.AddTask`: a task already in the queue, which would cut the ring short, is not modelled.
- `KernelTasks.Kernel.TimerInterrupt`: ticks that interrupt the kernel itself are not modelled; system calls run with interrupts off, and ticks before the first task_enter are outside the runs considered.
- `UserStores.NoInterference`: stores are to the lower half.
- `LineEditor.Terminal.Read`: waiting for a key is an outcome; that no key interrupt can arrive while the call waits with interrupts off is not modelled.
- `CpioLookup.Lookup`: reading beyond the module is an outcome of its own, Stray, rather than whatever memory holds there.
- `Numerals.ToBase`: requires the digits to fit the 32 slots, which FitsFromBaseFour and FitsBelow decide exactly.
- `Numerals.ToSigned`: excludes the least long, whose negation C leaves undefined.
- The TLB and invlpg, cache and memory ordering: a table write takes effect at once.
- The higher-half direct map: physical memory is addressed by frame.
- `pmm_alloc_aligned` and the other byte-count and zeroing wrappers, the getters, `vmm_get_flags` and `vmm_dump_pte`: they would only add easy members.
- `runElf_ring3`, a second user of the same pieces with no state of its own.
- Scan codes, shift and caps lock: fixed tables.
- Frame buffer and serial output, interrupt controllers, clocks, ACPI, descriptor tables, exception reports, the kernel shell and printf: device access or printing. The clock and the tick are inputs.
- Concurrency of processors: the kernel runs on one.
