# Titanium kernel: memory and scheduling, modelled in Dafny

This project models the parts of the Titanium kernel that hand out memory and
processor time, and proves what they guarantee over whole runs.

* **Frame allocator** (`src/paging.rs`). A flat bitmap indexes free physical
  memory at 16 levels; a set bit of level l stands for an aligned chunk of 2^l
  free pages. `Bits` and `Chunks` hold the arithmetic of shifts and aligned
  chunks, `BuddyIndex` the theory of the index (a Disjoint and Merged set of
  chunks is the one canonical index of its free pages), `BuddyOps` the operations
  on sets of chunks, `BuddyRuns` sequences of requests, `MemoryMap` the chunks of
  the boot loader's memory map, `BuddyLayout` the flat bitmap, `RawBits` merging on
  its bits, `BootBits` the bits set at boot, `BootRuns` the runs that start from
  them, and `FrameAllocator` the class whose loops update the bitmap in place. The
  level count, the size of the top level and the 2 MiB level are parameters;
  `BuddyLayout.KERNEL` has the kernel's values.
* **Region mapping** (`src/paging/mapall.rs`). `PageRegion` picks frames while the
  mapper draws page-table frames from the same allocator, and follows who has
  which frame over sequences of calls.
* **Scheduler** (`src/scheduler.rs`). `Cpu` has registers, memory and stacks,
  `SchedulerModel` the steps (spawn, start, yield, timer interrupt, dispatch,
  ordinary execution), `SchedulerRuns` the invariant and the theorems about runs,
  `SchedulerWindow` what an interrupt inside `resume_task` does, and
  `SchedulerCode` the routines push by push and pop by pop, each proved to be a
  step of the model.
* **Heap** (`src/heap.rs`). `HeapModel` is the allocator over free lists of
  blocks, with its runs; `HeapCode` threads the lists through the bytes of the
  blocks.
* **Kernel stacks** (`src/stack.rs`, `src/vmem.rs`). `Stacks` has the layout of
  slots and guard pages, `StackCode` the hand-out of slots and their paging, and
  `SpawnCode` the whole of `spawn_task`, stack manager and scheduler together.

`dafny verify dfyconfig.toml` checks everything.

## Where the code and its comments differ

The model follows the code.

* `pick_off_contiguous` is documented to fall back to smaller blocks, but every
  retry asks for the same level (`src/paging.rs:279`). It succeeds exactly when an
  aligned block of the next power of two is free (`BuddyOps.PickOffComplete`);
  the documented fallback exists exactly when there is nothing to fall back to
  (`BuddyOps.PickOffFallsBackIff`). `page_region` therefore maps everything with
  the first pick or nothing at all, though it is documented to map partially.
  It ignores the results of its mappings: all succeed exactly when the free frames
  left over meet their demand for page tables and no page is mapped already
  (`PageRegion.Maps`).
* A pick of zero frames leaves two free buddies unmerged exactly when it had to
  split a chunk (`BuddyOps.PickOffNothing`). An empty 4 KiB region takes that path;
  an empty 2 MiB region is refused.
* Deallocating a 2 MiB frame stores a relative index as an absolute one
  (`src/paging.rs:357-358`). It never returns an outstanding frame
  (`BuddyOps.DeallocateHugeLosesFrame`) and frees an unrelated page instead;
  `BuddyOps.DeallocateHugeKeepsIff` says when the bitmap stays in order.
* MAX_PHYS_MAP is 128 GiB, but level 0 has bits for 64 GiB only
  (`BuddyLayout.KernelNumbers`). A frame beyond has the bit of a chunk of a higher
  level, or none if it is past the end of the bitmap (`BuddyLayout.BeyondCapacity`),
  so `new` panics or frees other pages instead (`BootBits.StrayFrame`), possibly
  two buddies (`BootRuns.StrayBuddies`). It frees the usable frames, and every run
  from boot on accounts for them, exactly when all of them are below the capacity
  (`FrameAllocator.RuneFrameAllocator.New`, `BootRuns.BootConservesIff`). Nor is a
  frame beyond ever returned (`FrameAllocator.RuneFrameAllocator.DeallocateFrame`).
* Memory-map entries that touch can leave buddies unmerged after `new`;
  `BootRuns.BootMergedIff` says when.
* `scheduler_preempt` overwrites r14 and r15 before it saves them, and on its way
  back into an interrupted scheduler also rax. A preempted task gets all other
  registers back (`SchedulerRuns.PreemptRoundTrip`).
* `release_task` disables interrupts before it saves the flags, so a task that
  yielded resumes with interrupts off (`SchedulerRuns.YieldRoundTrip`).
* Making a kernel stack turns interrupts off and then on, whatever they were
  before. So `spawn_task` leaves them on, and a spawned task starts with them on
  even if its spawner had them off (`SchedulerRuns.SpawnEnablesInterrupts`,
  `SchedulerRuns.SpawnRoundTrip`). Without a free slot they stay off, and a stack
  that could not be paged is handed out all the same
  (`StackCode.StackManager.MapSmallStack`).
* `resume_task` turns interrupts on before it has read the flag that tells the form
  of the frame. A timer interrupt in between comes back with the flag clear, so a
  task that had been preempted is then sent to the address in its r11; one that
  had yielded continues where it should (`SchedulerWindow.WindowMisreads`).
* The stack bitmaps are rounded up to 16-bit words with all bits set. The slots
  handed out are all in the space exactly when the numbers of slots are multiples
  of 16, as the kernel's are (`StackCode.WholeWordsIff`).
* The kernel stacks are placed from HHDM_ADDR on, inside the direct map; only the
  scheduler's own stack lies above it (`Stacks.KernelSpace`).
* `make_kernel_stack` speaks of four pages; a large stack has five.

## Model

| member | source | states |
|---|---|---|
| Bits.CeilLog2Spec | src/paging.rs:269-271 | the level computed from `next_power_of_two` and `lowest_one` is the least one with at least n pages |
| Bits.FirstOne | src/paging.rs:209 | the lowest set bit from an index on, or that there is none |
| Bits.HighestOne | src/paging.rs:305-309 | the highest set bit is the power of two within a factor two of the overflow |
| BuddyIndex.FullyFreeIsMarked | src/paging.rs:205-217 | in a Merged index every fully free aligned block is marked or lies inside a marked chunk, by induction over levels |
| BuddyIndex.Completeness | src/paging.rs:205-217 | a chunk of level k or above is marked if and only if some aligned block of 2^k pages is entirely free |
| BuddyIndex.Canonical | src/paging.rs:223-264 | a Disjoint and Merged index marks exactly the maximal fully free aligned blocks, capped at the top level |
| BuddyIndex.CanonicalForm | src/paging.rs:223-264 | two Disjoint and Merged indices with the same free pages are equal bit for bit |
| BuddyOps.SplitDownKeeps | src/paging.rs:221-236 | the split loop takes the start of the chunk, loses no other page and keeps Disjoint and Merged |
| BuddyOps.AllocateChunkTakes | src/paging.rs:205-241 | allocation takes the start of the lowest chunk of the smallest sufficient level, all of whose pages were free, removes exactly its 2^k pages and keeps the invariants |
| BuddyOps.AllocateChunkComplete | src/paging.rs:205-217 | allocation returns None if and only if no aligned block of 2^k pages is free |
| BuddyOps.AllocateChunkSparesLarger | src/paging.rs:209-219 | best fit: every free block larger than the chunk that is split stays entirely free |
| BuddyOps.MergeUpKeeps | src/paging.rs:243-264 | merging upward keeps the free pages and Disjoint, and repairs an index that is Merged everywhere but at the start |
| BuddyOps.DeallocateAdds | src/paging.rs:345-352 | returning a 4 KiB frame that is not free adds exactly its page and keeps the invariants |
| BuddyOps.DeallocateKeepsIff | src/paging.rs:345-352 | the chunks stay disjoint after a return if and only if the frame was not free or was marked by itself, in which case nothing changes |
| BuddyOps.DeallocateMergesMaximally | src/paging.rs:243-264 | the merge ends with the largest aligned block around the frame that is now fully free, capped at the top level |
| BuddyOps.AllocateDeallocate | src/paging.rs:327-352 | allocating a frame and returning it restores the bitmap bit for bit |
| BuddyOps.DeallocateCommutes | src/paging.rs:345-352 | two frames may be returned in either order, with the same bitmap as result |
| BuddyOps.DeallocateHugeFreesOnePage | src/paging.rs:354-361 | the 2 MiB deallocator frees the single page whose number is the frame's relative index |
| BuddyOps.DeallocateHugeCorrectIff | src/paging.rs:354-361 | it frees the 2 MiB frame if and only if all pages of the frame were free before, page 0 of frame 0 excepted, and so was the page it marks |
| BuddyOps.DeallocateHugeLosesFrame | src/paging.rs:354-361 | of an outstanding 2 MiB frame nothing becomes free, except page 0 of frame 0 |
| BuddyOps.DeallocateHugeKeepsIff | src/paging.rs:354-361 | after it the chunks are disjoint if and only if the page it marks was not free or was marked by itself, and Merged if and only if that page's buddy was not marked by itself |
| BuddyOps.GiveBackKeeps | src/paging.rs:293-320 | the overflow walk frees exactly the overflow pages, and Merged survives if the page before them is kept |
| BuddyOps.PickOffTakes | src/paging.rs:268-324 | a successful pick hands out exactly n contiguous free pages, from the start of the lowest chunk of the smallest sufficient level on, aligned to the next power of two, removes exactly these and keeps the invariants for n > 0 |
| BuddyOps.PickOffSparesLarger | src/paging.rs:268-324 | best fit: every free block larger than the chunk a pick starts stays entirely free |
| BuddyOps.PickOffComplete | src/paging.rs:268-285 | a pick succeeds if and only if the unit fits and an aligned block of the next power of two is free |
| BuddyOps.PickOffFallsBackIff | src/paging.rs:266-285 | the documented fallback to the minimum holds for all bitmaps if and only if minimum and target level coincide |
| BuddyOps.PickOffNothing | src/paging.rs:268-324 | a pick of zero frames keeps the free pages, and keeps Merged if and only if a single page was marked by itself |
| BuddyRuns.StepConserves | src/paging.rs:205-352 | one request of any kind grants only free pages and keeps free and outstanding pages a partition |
| BuddyRuns.RunConserves | src/paging.rs:205-352 | over any run, free and outstanding pages partition the pages the run began with |
| BuddyRuns.RunGrants | src/paging.rs:205-352 | after any run, a request is granted only pages nobody holds, and is refused if and only if no block of its size is free |
| BuddyRuns.RunsAgree | src/paging.rs:205-352 | the bitmap after a run is determined by the outstanding pages |
| BuddyRuns.RunRestores | src/paging.rs:205-352 | a run that returns all it took restores the bitmap bit for bit |
| BuddyRuns.FrameRefused | src/paging.rs:327-334 | a 4 KiB frame is refused if and only if no page at all is free, and a refusal changes nothing |
| MemoryMap.EntryRange | src/paging.rs:147-158 | the first and the end frame computed for a usable entry bound exactly the frames all of whose bytes lie in it; a base inside a frame counts as the start of that frame |
| MemoryMap.DecomposeTiles | src/paging.rs:156-186 | at every level the chunks marked for a range tile it: each page of it lies in exactly one, no other page in any |
| MemoryMap.DecomposeMerged | src/paging.rs:159-180 | the chunks of one range contain no pair of buddies below the top level |
| MemoryMap.EntryValid | src/paging.rs:147-186 | one usable entry gives the canonical index of its frames, any other entry nothing |
| MemoryMap.MapFrees | src/paging.rs:142-187 | the chunks computed for any map, overlapping or not, cover exactly the frames of its usable entries |
| MemoryMap.MapMarksUsable | src/paging.rs:142-187 | for entries that do not overlap, the chunks computed are disjoint and cover exactly the usable frames |
| MemoryMap.MapMergedIff | src/paging.rs:142-187 | the chunks computed are Merged if and only if no two usable entries meet at an odd multiple of 2^l, below the top level, with at least 2^l frames each |
| BuddyLayout.LevelBitsHalve | src/paging.rs:53-61 | every level has twice the bits of the next |
| BuddyLayout.OffsetEven | src/paging.rs:53-61 | every level starts at an even absolute index |
| BuddyLayout.ClearLowBit | src/paging.rs:246-262 | clearing the low bit of an absolute index gives the buddy pair, and halving the local index the parent |
| BuddyLayout.InShapeIff | src/paging.rs:53-63 | a chunk has a bit if and only if its pages are below the capacity |
| BuddyLayout.AbsoluteInjective | src/paging.rs:94-98 | different chunks have different absolute indices |
| BuddyLayout.AbsoluteOrder | src/paging.rs:94-98 | absolute indices are ordered by level, then by index |
| BuddyLayout.AbsoluteToRelative | src/paging.rs:84-92 | every absolute index below the total has an in-range pair, and `relative_to_absolute` leads back |
| BuddyLayout.WriteBit | src/paging.rs:67-68 | writing the bit of a chunk adds or removes that chunk and no other |
| BuddyLayout.AddressRoundTrip | src/paging.rs:100-123 | a chunk's address is that of its first page and converts back to its index |
| BuddyLayout.BeyondCapacity | src/paging.rs:45-61 | every frame from the capacity of level 0 to the size of the bitmap has the bit of some chunk of level 1 or above, whose pages are below the capacity |
| BuddyLayout.KernelNumbers | src/paging.rs:45-65 | the kernel's constants: level 0 covers 64 GiB, half of MAX_PHYS_MAP |
| RawBits.MergeBitsMerges | src/paging.rs:243-264 | on the bits, started at the bit of a chunk, merging never leaves the bitmap and does what `MergeUp` does |
| RawBits.FreeBelowCapacity | src/paging.rs:45-61 | no bitmap makes a frame at or past the capacity of level 0 free |
| RawBits.StrayReturn | src/paging.rs:345-352 | returning a frame past the capacity marks the chunk of a higher level that has its bit, unless that one has to merge |
| FrameAllocator.FoundFirst | src/paging.rs:209-219 | the first set bit from the start of a level on is the lowest chunk of the smallest sufficient level |
| FrameAllocator.RuneFrameAllocator.AllocateChunkFromLevel | src/paging.rs:205-241 | the bitmap code does what `AllocateChunk` does to the marked chunks and returns the chunk's address; None leaves every bit as it was |
| FrameAllocator.RuneFrameAllocator.MergeUpFrom | src/paging.rs:243-264 | from any start, the loop sets the bits `MergeBits` says or panics; from a chunk of the bitmap it does what `MergeUp` does |
| FrameAllocator.RuneFrameAllocator.ReturnOverflow | src/paging.rs:293-320 | the walk over the overflow bits with its bound index does what `GiveBack` does |
| FrameAllocator.RuneFrameAllocator.PickOffContiguous | src/paging.rs:268-324 | the bitmap code with its retry loop does what `PickOff` does and reports n frames; None leaves every bit as it was |
| FrameAllocator.RuneFrameAllocator.AllocateFrame | src/paging.rs:327-334 | the 4 KiB request of a run; the address is that of the page granted |
| FrameAllocator.RuneFrameAllocator.AllocateHugeFrame | src/paging.rs:336-343 | the 2 MiB request of a run; the address is 2 MiB aligned and that of the pages granted |
| FrameAllocator.RuneFrameAllocator.DeallocateFrame | src/paging.rs:345-352 | for any address: below the capacity it is the 4 KiB return of a run; a frame that was not free becomes free, and nothing else does, if and only if it is below the capacity; the bits and panics past it |
| FrameAllocator.RuneFrameAllocator.DeallocateHugeFrame | src/paging.rs:354-361 | for any address, the 2 MiB return as written, index mistake included; the bits and panics past the capacity |
| BootBits.DecomposeInShape | src/paging.rs:156-186 | a range within the capacity is marked within the bitmap, by bits of its own chunks only |
| BootBits.InBoundsIff | src/paging.rs:159-186 | marking a range panics if and only if one of its chunks has no bit, or the range reaches the top level and ends past the bitmap |
| BootBits.BootFrees | src/paging.rs:142-187 | the bits set for a map free exactly its usable frames if and only if every usable entry with a frame ends within the capacity of level 0 |
| BootBits.StrayFrame | src/paging.rs:168-171 | past the capacity, an entry of one odd frame frees exactly the pages of some larger chunk below the capacity |
| BootRuns.BootMergedIff | src/paging.rs:142-187 | the bitmap of `new` for a map that fits below the capacity and does not overlap has disjoint chunks, and is Merged if and only if no two usable entries meet in a seam |
| BootRuns.BootConserves | src/paging.rs:142-352 | for such a map, from boot on and over any run on the bitmap, exactly the usable frames are free or outstanding, never both, and the bitmap stays in order |
| BootRuns.BootConservesIff | src/paging.rs:142-352 | every run from boot on accounts for the usable frames if and only if the map fits below the capacity |
| BootRuns.StrayBuddies | src/paging.rs:142-187 | a map that does not fit, without overlap or seam, whose bitmap has two buddies marked |
| FrameAllocator.RuneFrameAllocator.MarkRange | src/paging.rs:156-186 | for any range, the level loop of `new` sets exactly the bits of the decomposition, or panics if and only if one of the indices computed is outside the bitmap |
| FrameAllocator.RuneFrameAllocator.FillTop | src/paging.rs:182-186 | the top-level fill sets exactly the bits of the range, or panics if and only if the range ends outside the bitmap |
| FrameAllocator.RuneFrameAllocator.New | src/paging.rs:131-192 | for any memory map, `new` sets exactly the bits of all usable entries or panics; no panic and exactly the usable frames free if and only if every usable entry with a frame ends within the capacity of level 0 |
| PageRegion.RegionExact | src/paging/mapall.rs:44-56 | the pages of a region are the fewest aligned ones that hold all its bytes |
| PageRegion.DrawsFrame | src/paging.rs:327-334 | drawing one more page-table frame takes one more free frame and keeps the bitmap in order |
| PageRegion.MapsCosts | src/paging/mapall.rs:68-80 | every table the calls find missing costs one free frame until none is left; some call fails if and only if they run out or a page is mapped already |
| PageRegion.RegionTranslates | src/paging/mapall.rs:68-80 | every 4 KiB page of a region lies in the page of its number and gets the frame as far from the first as it is from the start of the region |
| PageRegion.PagedTranslates | src/paging/mapall.rs:35-89 | paging a region makes one call for each of its pages and no other, and each 4 KiB page gets a frame of its own, which was free and is neither free nor one of the tables drawn |
| PageRegion.MapsOn | src/paging/mapall.rs:68-80 | mapping calls add up: their demands for tables, the frames drawn and whether any has failed |
| PageRegion.CallOwns | src/paging/mapall.rs:35-89 | a call maps only free frames, keeps mapped frames, page tables and free frames apart, and loses none |
| PageRegion.RunOwns | src/paging/mapall.rs:20-89 | over any sequence of calls, a frame mapped by one is never mapped by another, drawn as a page table or free again, and mapped, table and free frames are together the frames there were |
| PageRegion.MapperAllocator.MapTo | src/paging/mapall.rs:20-28 | a mapping call draws the tables it finds missing as long as frames remain, each a free frame, changes no other frame, keeps Merged, and fails if and only if fewer are free or the page is mapped already |
| PageRegion.MapperAllocator.MapAll | src/paging/mapall.rs:68-80 | one call for each page, in order, to consecutive frames; no call fails if and only if the free frames meet the total demand for tables and no page is mapped already; Merged survives |
| PageRegion.MapperAllocator.PageRegion | src/paging/mapall.rs:35-89 | Ok: every page mapped once and in order to one run of aligned frames that were free and that no page table shares, all of them successfully if and only if the frames left meet the demand for tables and no page is mapped already; Err: nothing changed; Ok if and only if an aligned block of the next power of two is free; Merged survives a nonempty region |
| SchedulerModel.PackDecodes | src/scheduler.rs:69-72 | a packed id decodes to raw id, priority and options, and is not the scheduler's |
| SchedulerModel.AdmitsIff | src/scheduler.rs:65-70 | `spawn_task` accepts exactly options with bit 63 set, priorities up to 7 and raw ids below 0xffffffffffff |
| SchedulerRuns.SpawnDecodes | src/scheduler.rs:58-83 | the id of a spawned task carries its number in bits 0 to 47, its priority in bits 48 to 50 and its options in bits 61 to 63 |
| SchedulerRuns.TaskNumbers | src/scheduler.rs:69-72 | over every run the tasks are numbered from 0x100 on, in the order of their spawns |
| SchedulerRuns.TaskIdentity | src/scheduler.rs:186-232 | over every run task ids are pairwise distinct and never the scheduler's |
| SchedulerRuns.LongFrameRestores | src/scheduler.rs:311-338 | the frame a preemption pushes is the one an interrupted task pops |
| SchedulerRuns.FrameDetermines | src/scheduler.rs:443-484 | a saved frame determines the context it restores, a long one every register |
| SchedulerRuns.SpawnKeeps | src/scheduler.rs:58-133 | a spawn keeps the invariant: each task held or queued exactly once, pointers, frames, stacks and ids in order |
| SchedulerRuns.YieldKeeps | src/scheduler.rs:376-440 | a yield keeps the invariant |
| SchedulerRuns.PreemptKeeps | src/scheduler.rs:293-374 | a preemption keeps the invariant |
| SchedulerRuns.DismissedKeeps | src/scheduler.rs:354-362 | a timer interrupt inside the scheduler keeps the invariant |
| SchedulerRuns.RequeueKeeps | src/scheduler.rs:500-514 | the stale pointer names the task just released, whose record then matches the frame it pushed |
| SchedulerRuns.StartKeeps | src/scheduler.rs:552-580 | starting the scheduler keeps the invariant |
| SchedulerRuns.DispatchKeeps | src/scheduler.rs:488-536 | a dispatch keeps the invariant |
| SchedulerRuns.TraceKeeps | src/scheduler.rs:488-580 | the invariant holds in every reachable state |
| SchedulerRuns.NeverIdle | src/scheduler.rs:519-536 | once a task exists, no run reaches the halt loop |
| SchedulerRuns.IdleForever | src/scheduler.rs:519-536 | started without a task, the scheduler halts and stays so |
| SchedulerRuns.YieldEnters | src/scheduler.rs:383-440 | a yield leaves the processor at the scheduler's entry, on its stack, selectors 0x08 and 0x10, interrupts off, rdi the stack pointer 88 bytes down and rsi 1 |
| SchedulerRuns.PreemptEnters | src/scheduler.rs:293-374 | a preemption does the same, with the long frame of 168 bytes below the stack pointer rounded down to 16 and rsi 2 |
| SchedulerRuns.DismissLoses | src/scheduler.rs:354-362 | a timer interrupt in the scheduler costs it rax, r14 and r15 and nothing else |
| SchedulerRuns.ParkedNext | src/scheduler.rs:443-514 | whatever step comes next, a waiting task's frame, flag and stack stay as they are until it resumes from that frame |
| SchedulerRuns.SpawnEnablesInterrupts | src/stack.rs:51-103 | a spawn keeps the spawner's stack pointer and callee-saved registers and leaves interrupts on, so it keeps its flags if and only if interrupts were on already |
| SchedulerRuns.SpawnRoundTrip | src/scheduler.rs:74-133 | whatever runs in between, a spawned task starts at its entry with zero callee-saved registers, selectors 0x08 and 0x10, the return to `end_task` on top of its stack, and the spawner's flags with interrupts on, whatever the spawner had |
| SchedulerRuns.YieldRoundTrip | src/scheduler.rs:396-484 | whatever runs in between, a task resumes behind its yield with its callee-saved registers, stack pointer and stack, selectors 0x08 and 0x10, interrupts off; flags and selectors are the ones it had if and only if interrupts were off and the selectors these already |
| SchedulerRuns.PreemptRoundTrip | src/scheduler.rs:311-484 | whatever runs in between, a preempted task resumes with every register except r14 and r15, which hold the two ids; all registers survive if and only if they held these before |
| SchedulerRuns.PlaceNext | src/scheduler.rs:127-130 | a step takes from the front of the queue and moves the others up by one, or leaves the places alone |
| SchedulerRuns.QueueLength | src/scheduler.rs:507-511 | while a task runs or is released, the queue holds all the others |
| SchedulerRuns.BoundedWaiting | src/scheduler.rs:507-530 | the task at place p of the queue is the one the (p + 1)th dispatch resumes, under every mix of events |
| SchedulerRuns.RoundRobin | src/scheduler.rs:500-530 | a task released while there are n tasks is resumed by the n-th dispatch from then on, spawns notwithstanding |
| SchedulerWindow.WindowOpens | src/scheduler.rs:443-453 | every resumption passes through the window, with any stack pointer in the task's stack and the flag as it was |
| SchedulerWindow.WindowRoundTrip | src/scheduler.rs:443-467 | whatever runs in between, a task interrupted in the window comes back to it as after any preemption, but with its flag clear |
| SchedulerWindow.WindowMisreads | src/scheduler.rs:443-484 | interrupted right before the flag is read, it continues with the frame it should if it had yielded; if it had been preempted, with its r11, r10, r9, r8 and rdi taken for instruction pointer, segment, flags, stack pointer and stack segment |
| SchedulerCode.Kernel.PlaceTask | src/scheduler.rs:69-133 | once the stack is made, the code is the spawn step |
| SchedulerCode.Kernel.PrepareStack | src/scheduler.rs:85-123 | the pushes leave the initial frame under the address of `end_task` and nothing else changed |
| SchedulerCode.Kernel.YieldTask | src/scheduler.rs:395-439 | the code is the yield step |
| SchedulerCode.Kernel.EnterScheduler | src/scheduler.rs:417-429 | the jump to the scheduler's stack leaves the saved frame in place |
| SchedulerCode.Kernel.TimerInterrupt | src/scheduler.rs:311-374 | the code is the preemption of a task or the dismissal in the scheduler, told apart by the task id |
| SchedulerCode.Kernel.SaveTask | src/scheduler.rs:323-353 | the rest of the long frame is pushed in the order it is popped |
| SchedulerCode.Kernel.Dismiss | src/scheduler.rs:354-362 | the interrupted scheduler continues with rax, r14 and r15 lost |
| SchedulerCode.Kernel.ResumeTask | src/scheduler.rs:443-484 | the registers come from the frame the flag announces; the flag is cleared and both pointers name the task |
| SchedulerCode.Kernel.RunScheduler | src/scheduler.rs:519-536 | the first queued task resumes, or the processor halts |
| SchedulerCode.Kernel.ResumeScheduler | src/scheduler.rs:488-517 | the code is the dispatch step and keeps the invariant |
| SchedulerCode.Kernel.StartScheduler | src/scheduler.rs:552-580 | the code is the start step and keeps the invariant |
| HeapModel.ListIndexLeast | src/heap.rs:77-80 | the class found is the least whose block size is at least the size and the alignment |
| HeapModel.NoClassIff | src/heap.rs:37-80 | a request has no class if and only if its size or its alignment is beyond 2048 bytes |
| HeapModel.CarveExact | src/heap.rs:99-107 | for class k the fallback is asked for 2^(k + 3) bytes aligned to their size, without a class for the request as it is |
| HeapModel.AllocAnswers | src/heap.rs:91-109 | the first block of the class's list is taken before the fallback is asked, whose answer is returned and whose block is held; null if and only if the list is empty, or there is no class, and the fallback fails |
| HeapModel.DeallocReturns | src/heap.rs:111-135 | a freed block of a class goes to the front of its list and stays held, any other leaves what the fallback has handed out; it is no longer live, and nothing else changes |
| HeapModel.FreeThenAllocate | src/heap.rs:90-135 | the block freed last in a class is the next one allocated in it, whatever the fallback would answer, and the heap is then as before |
| HeapModel.AllocateThenFree | src/heap.rs:90-135 | freeing what was just allocated undoes the allocation, save that a block carved for a class stays on its list |
| HeapModel.CarveSuffices | src/heap.rs:93-108 | what is taken from a list or the fallback covers the size and the alignment |
| HeapModel.LiveAndFreeDisjoint | src/heap.rs:90-135 | live blocks and the blocks on all nine lists are pairwise disjoint |
| HeapModel.AllocKeeps | src/heap.rs:91-109 | allocation returns null and changes nothing, or an unused block of the size and alignment asked for, and keeps the invariant |
| HeapModel.DeallocToList | src/heap.rs:113-127 | freeing a small block keeps the invariant |
| HeapModel.DeallocToFallback | src/heap.rs:128-133 | freeing a large block keeps the invariant |
| HeapModel.StepBalances | src/heap.rs:94-127 | a block is carved for a class only when its list is empty |
| HeapModel.HighWaterMark | src/heap.rs:90-135 | over every lawful run, the blocks carved for a class are its live and listed ones and as many as were ever live at once |
| HeapCode.LoadStore | src/heap.rs:39-41 | a pointer stored byte by byte is loaded back |
| HeapCode.StoredIff | src/heap.rs:39-41 | a number survives being stored if and only if it is below 256^n, which for a pointer is 2^64 |
| HeapCode.ChainKept | src/heap.rs:39-41 | a store of any width that misses the nodes of a list threaded through memory does not disturb it |
| HeapCode.FixedSizeBlockAllocator.Alloc | src/heap.rs:91-109 | the pointer code does what the list model does, asks the fallback for the layout stated or not at all, and leaves the bytes of every live allocation alone |
| HeapCode.FixedSizeBlockAllocator.Dealloc | src/heap.rs:111-135 | the pointer code does what the list model does, goes to the fallback if and only if size or alignment is beyond 2048, and leaves the bytes of the other live allocations alone |
| HeapCode.FixedSizeBlockAllocator.Write | src/heap.rs:39-41 | whatever bytes the program stores anywhere inside its allocations, no list is disturbed |
| Stacks.SlotBetweenGuards | src/stack.rs:59-62 | the computed bounds of a slot fill exactly the gap between two guard pages |
| Stacks.SpaceEnds | src/vmem.rs:88-99 | the last guard page ends where the reserved space does |
| Stacks.SlotLayout | src/stack.rs:51-103 | for any plan, stacks lie in the space, have a guard page on both sides, and meet neither a guard page nor each other |
| Stacks.Init | src/stack.rs:117-159 | the guard pages are mapped at exactly these places |
| Stacks.NewSlotIsFresh | src/scheduler.rs:74-83 | while every task has the stack of a used slot, the stack of an unused one overlaps no task's stack and not the scheduler's, as a spawn needs |
| Stacks.KernelSpace | src/vmem.rs:64-99 | the kernel's own numbers: the ends and sizes of all slots, where the space ends, that it lies inside the direct map and below the scheduler's stack, and that a stack has room for the initial frame |
| StackCode.SlotUnits | src/stack.rs:59-72 | the bounds of a slot are whole pages, as many as the kind of stack has |
| StackCode.WholeWordsIff | src/stack.rs:45-48 | the manager hands out slots of the space only, if and only if both numbers of slots are multiples of 16; it always hands out all of these |
| StackCode.StackPaged | src/stack.rs:59-72 | a stack that could be paged has every one of its pages mapped, each to a frame that was free, in order |
| StackCode.StackManager.MapSmallStack | src/stack.rs:51-77 | the n-th request gets slot n, so no slot is handed out twice; when the bits of the rounded bitmap are used up, the error. Its pages are paged if and only if an aligned block is free, and it is handed out in either case. Interrupts end on after a success and off after an error, the other flags as they were |
| StackCode.StackManager.MapLargeStack | src/stack.rs:79-103 | the same for large slots |
| StackCode.StackManager.MakeKernelStack | src/stack.rs:172-181 | the two kinds of slots are handed out independently |
| SpawnCode.SlotsNext | src/scheduler.rs:74-83 | whatever step comes next, every task has the stack of a used slot |
| SpawnCode.ManagedRun | src/scheduler.rs:58-133 | in every run from boot whose spawns take the stacks the manager hands out, each finds a fresh stack, so the run is one of the scheduler's |
| SpawnCode.ManagedKinds | src/scheduler.rs:74-83 | in such a run a task has the stack of a small slot if and only if bit 61 of its id is set, and of a large one if and only if it is not |
| SpawnCode.Spawner.SpawnTask | src/scheduler.rs:58-133 | the code panics if and only if an assertion fails or no slot is left; otherwise it is the spawn step, on the stack of the next slot of the kind bit 61 of the options asks for, which the code makes and no other task has |

## Left out

- FrameAllocator.RuneFrameAllocator.New: a panic ends the model; which bits it had set by then is not stated. The bitmap has exactly the bits of its levels, as in the kernel, where their number is a multiple of the word size.
- FrameAllocator.RuneFrameAllocator.PickOffContiguous: asks for at most 2^levels frames; past that the code indexes beyond its offset table and panics.
- PageRegion.MapperAllocator.MapTo: the page table is external; what a call finds, missing tables or a page already mapped, is an arbitrary function of the calls before. TLB flushing is left out.
- SchedulerRuns.BoundedWaiting: counts dispatches, not time; timers are not modelled.
- SchedulerCode.Kernel.ResumeTask: one atomic step. An interrupt before the flag is read is treated in `SchedulerWindow`; one between reading it and `iretq` is an ordinary preemption that loses r14 and r15, and is not modelled, nor is one inside the pushes of `spawn_task`.
- SchedulerCode.Kernel.ResumeScheduler: one atomic step; its two arguments survive interrupts taken while the scheduler runs, although these lose rax, r14 and r15.
- SchedulerCode.Kernel.YieldTask, SchedulerCode.Kernel.TimerInterrupt: ask for room on the task's stack; without it the guard page faults, which is not modelled.
- Task return (`end_task`, `finish_stale_task`), wakers, blocked tasks and `wake_on_end`: completion panics and nothing in the kernel uses the rest.
- `OffsetPageTable`, `linked_list_allocator`, `SegQueue` and `bitvec`: external; a mapper that draws frames, a heap of disjoint aligned blocks, a first-in first-out sequence and sequences of bits.
- SpawnCode.Spawner.SpawnTask, SchedulerCode.Kernel.PlaceTask: write the initial frame as if the stack had been paged. The manager hands out a stack that could not be paged as well, and the page fault that follows is not modelled.
- StackCode.StackManager.constructor: asks for whole pages and for stacks of at most 2^levels pages, which the kernel's constants meet.
- Mapping the guard pages and the scheduler's own stack: only addresses are modelled.
- `src/heap/ll.rs`, `src/queue.rs`, user stacks: unused or unimplemented.
- Interrupt tables, APIC, timers, serial port, ACPI, framebuffer and boot loader requests: devices and foreign code.
