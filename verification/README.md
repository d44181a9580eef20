# Lithium OS: memory and process core

A Dafny model of the parts of Lithium OS that hand out memory and processor time, and of a few
user-space companions. The modules build on one another:

- `Blocks` is the list of blocks both heap allocators refine: block headers tile an address range,
  allocation carves the first block that fits, freeing merges with free neighbours on both sides.
- `HeaderMemory` is byte-addressed memory holding 12-byte headers in 32-bit words; a store destroys every
  word it overlaps. It relates linked headers to the block list. `Requests` is what either allocator owes a request.
- `KernelMalloc` and `UserMalloc` are `kmalloc`/`kfree` and `malloc`/`free` as code over those headers, with
  the page mapper and the virtual-allocation system call as oracles (`grants`, `vm`). `HeapRuns` is what
  holds of every sequence of calls in which only live pointers are freed.
- `PhysicalMemory` is the block bitmap, its searches and its counter. `RunSearch` says which runs its multi-block
  search finds.
- `Paging` is 32-bit two-level paging (Intel SDM Vol. 3A, section 4.3) over blocks of 1024 entries, and the
  recursive self-map. `AddressSpaces` is the virtual memory manager on top of `PhysicalMemory`: every
  table edit goes through the self-map, and the invariant says what each allocated block is used for.
- `Scheduling` is the round-robin scheduler as a state machine. `SystemRuns` puts it together with memory: what
  holds after every sequence of mapped, backed and opened pages, ticks, new processes and threads, and exits.
  `Scheduler` is the linked lists of processes and threads, with the directory switch and `process_destroy`, proved
  against `SystemRuns`. `UserPages` is what every such sequence keeps of the pages of programs. `Records` is what a
  process's memory records make an exit free. `Dispatch` is how a new thread starts.
- `ElfImage` and `Loader` are the ELF parser and the loops that back, copy and zero a program's segments
  and a thread's stack through `AddressSpaces`.
- `Numbers`, `Printf` and `Tokenizer` are `strlen`, `strrev`, `itoa`, `printf` and `strtok`; `Formats` is what
  printf's directives print.

Code that changes state in place is a class or a method over an array. Each such method is proved against a
function of the state (`KmallocBlocks`, `MallocBlocks`, `RunScan`, `MapDone`, `AllocDone`, `Tick`, `Exit`, `Render`,
`Strtok`), and the lemmas are about those functions.

`dafny verify dfyconfig.toml` covers the whole project.

## Where the code departs from its evident intent

The model follows the code. Each departure below has a lemma or a contract that says when it bites; most
also have one at a concrete input.

- `kmalloc` writes the new header before it maps the payload's pages. When a page cannot be mapped it returns
  null with the block marked used (`HeapRuns.KmallocLeaks`, an if and only if; `HeapRuns.KmallocLeakExample`), and
  when nothing fits it has the pages of address 0 mapped (the contract of `KernelMalloc.KernelHeap.Kmalloc`).
- `malloc` casts the heap end to 8 bits in the test that is to keep the heap below 0xA0000000. On every heap whose
  free tail is not so large that the test's arithmetic wraps, some request gets past the ceiling; on the others
  even a request that would end below it is refused (`UserMalloc.CeilingExactly`, `UserMalloc.CeilingOpen`;
  `HeapRuns.CeilingExample` and `HeapRuns.CeilingRefusesExample` reach both from `malloc_init`).
- `malloc` rounds a request above 0xFFFFFFFC to zero (`HeapRuns.RequestHonoured`, `HeapRuns.RequestExample`), and a
  growth whose size wraps gives a block that is too small (`HeapRuns.GrownFits`; `HeapRuns.GrowthWrapsExample`
  reaches it from `malloc_init` with one `malloc` and one `free`).
- The frame mask of directory and table entries leaves bit 31 out, so an entry takes on a new frame only if
  its old bit 31 is clear or the new one is set (`Paging.SetFrameExact`, `Paging.SetFrameExample`).
- A region that is not aligned frees blocks outside itself (`PhysicalMemory.RegionInside`,
  `PhysicalMemory.RegionExample`).
- The multi-block search passes over words: after a run that is too short and leaves its word it goes on behind
  the word in which that run ends. It finds a run exactly when one starts in a word it enters, and misses none when
  no run that is too short crosses a word boundary (`RunSearch.RunFoundExactly`, `RunSearch.RunFound`;
  `RunSearch.RunMissed` is a request it fails).
- `mmap_test` reads the bit at the block count, so a multi-block run may end one block too late: only if that bit
  is clear (the contract of `AllocBlocks`), and exactly when no run the search could find ends earlier
  (`RunSearch.RunFoundExactly`; `RunSearch.RunPastEnd` is such a request).
- A process that exits while it is the head of the queue, before its last thread, or before a switch between
  processes has set the predecessor, is not taken out (`Scheduler.Scheduler.RemoveUnsound`,
  `Scheduler.Scheduler.HeadExitExample`).
- A process's memory records hold addresses where the freeing code expects block numbers
  (`Records.RecordFrees`), so an exit frees other blocks than the process's: memory survives it exactly when none of
  them is block 0 or somebody else's (`SystemRuns.ExitStep`, `Scheduler.Scheduler.OnExit`). A segment page in block
  0x200 makes it free block 0, one in block 1 a block of the kernel (`SystemRuns.SegmentExitExample`,
  `SystemRuns.SegmentExitKernel`; `Loader.LoadedExitBreaks` for a program as the loader leaves it).
- `scheduler_add_thread` leaves the new thread's list of memory records as the memory held it
  (`Scheduler.Scheduler.OnAddThread`), and an exit frees for those records too.
- `elf32_parse` counts headers that are not loadable but leaves their slots as they were
  (`ElfImage.Parse`).
- A `%c` can leave `printf`'s index at the buffer's last cell, and the next ordinary character then misses the
  flush (`Printf.OverrunsExactly`, an if and only if, and `Printf.CharacterOverrun` for a format that does it).
- `strtok` comes to its null exactly when the string does not end in a delimiter; on a string that does it returns
  the same empty word for ever (`Tokenizer.LoopEnds`, `Tokenizer.CallsGoOn`, `Tokenizer.NeverEndsExample`).

## Model

| member | source | states |
|---|---|---|
| KernelMalloc.KernelHeap.Init | kernel/memory/kmalloc.c:48-84 | succeeds exactly when both header pages can be mapped, and then lays out one free block and the used sentinel; on failure no header is written |
| KernelMalloc.KernelHeap.Kmalloc | kernel/memory/kmalloc.c:86-200 | with room for the bytes, and for 4 at least, the lowest block that has it is handed out, holding fewer than 16 more, and its payload returned if its pages can be mapped; without, or for 0 bytes, the heap stays as it was and null is returned; the headers in memory are those of that list; the pages mapped are those of the payload up to the first refused one, and those from address 0 on when nothing fits |
| KernelMalloc.KmallocServes | kernel/memory/kmalloc.c:86-200 | the same of the specification |
| KernelMalloc.KernelHeap.Scan | kernel/memory/kmalloc.c:103-186 | the walk along the links ends at the first free block with room, or finds none only if there is none |
| KernelMalloc.KernelHeap.MapPages | kernel/memory/kmalloc.c:188-197 | succeeds exactly when every page touched by the payload can be mapped, and then all of them are |
| KernelMalloc.KernelHeap.Take | kernel/memory/kmalloc.c:111-172 | the in-place split with its minimum-remainder rule leaves the links of the carved list, links back included |
| KernelMalloc.KernelHeap.Kfree | kernel/memory/kmalloc.c:202-270 | freeing leaves the headers of the list with the block released and merged on both sides |
| KernelMalloc.KernelHeap.ClientStore | kernel/memory/kmalloc.c:110-126 | a client's store inside a payload leaves the heap's headers intact |
| Blocks.MergeLeftFirst | kernel/memory/kmalloc.c:213-268 | merging left, then right, as the code does, gives the same list as merging both neighbours of the freed block |
| Blocks.CarveTiled | kernel/memory/kmalloc.c:128-172 | carving keeps the blocks an exact tiling with the minimum gap |
| Blocks.CarveCoalesced | kernel/memory/kmalloc.c:128-172 | carving a free block leaves no two neighbouring free blocks |
| Blocks.ReleaseCoalesced | kernel/memory/kmalloc.c:213-268 | neither does freeing a used one |
| Blocks.Canonical | kernel/memory/kmalloc.c:202-270 | a coalesced tiling is determined by its used ranges alone |
| Blocks.CarveThenRelease | kernel/memory/kmalloc.c:103-270 | freeing the block just carved restores the exact list |
| Blocks.ReleasesCommute | kernel/memory/kmalloc.c:202-270 | freeing two blocks gives the same list in either order |
| HeaderMemory.SplitLinks | kernel/memory/kmalloc.c:152-166 | the five stores of a split turn the stored list into the one with the new block, in byte-addressed memory |
| HeaderMemory.JoinLinks | kernel/memory/kmalloc.c:218-220 | the two stores of a merge take exactly one header off the chain |
| HeaderMemory.AppendLinks | api/stdlib/malloc.c:234-240 | storing a header past the last one appends a block to the null-terminated chain |
| HeaderMemory.DropLinks | api/stdlib/malloc.c:306-309 | ending the chain one header earlier drops the last block |
| HeaderMemory.PayloadStoreLinks | api/stdlib/malloc.c:24-29 | stores inside a payload change no header |
| HeapRuns.KernelRunSafe | kernel/memory/kmalloc.c:48-270 | after any run from the initial heap: strictly rising headers up to the used sentinel, gaps of at least 16 bytes, no two free neighbours, and live payloads of full size that meet no header and no other live payload |
| HeapRuns.KernelLiveUntilFreed | kernel/memory/kmalloc.c:86-270 | along a run an allocation keeps place and size until it is freed |
| HeapRuns.KmallocFresh | kernel/memory/kmalloc.c:86-200 | kmalloc never returns a live pointer |
| HeapRuns.KmallocKfree | kernel/memory/kmalloc.c:103-270 | kfree right after kmalloc restores the whole previous state |
| HeapRuns.KernelAllFree | kernel/memory/kmalloc.c:213-268 | with everything freed the heap is the initial single block |
| HeapRuns.KmallocGivesUp | kernel/memory/kmalloc.c:88-96 | the heap is left alone exactly when no free block has room for the bytes, and for 4 at least; the size limit rejects nothing that would fit |
| HeapRuns.FirstFitLowest | kernel/memory/kmalloc.c:103-112 | the block taken is the lowest-addressed one that fits |
| HeapRuns.KmallocLeaks | kernel/memory/kmalloc.c:188-197 | null with a block already marked used happens exactly when a block fits but one of its pages cannot be mapped |
| HeapRuns.KmallocLeakExample | kernel/memory/kmalloc.c:188-197 | 16 bytes on the fresh heap, with the first page refused, do it |
| UserMalloc.UserHeap.Init | api/stdlib/malloc.c:31-52 | one page, one free block, exactly when the page is granted |
| UserMalloc.UserHeap.Malloc | api/stdlib/malloc.c:54-270 | up to 0xFFFFFFFC bytes: the lowest block with room for them, and for 4 at least, is handed out, else the final block once grown, or a new one, holding fewer than 16 bytes more; links, heap end and pointer are those of the specification on every path whose growth does not wrap; null leaves memory unchanged |
| UserMalloc.MallocHonours | api/stdlib/malloc.c:54-270 | the same of the specification |
| UserMalloc.UserHeap.Scan | api/stdlib/malloc.c:72-191 | finds the first free block with room, else the last header and the free bytes at the end |
| UserMalloc.UserHeap.Take | api/stdlib/malloc.c:84-165 | both split rules, for the last block and for inner ones, give the carved list |
| UserMalloc.UserHeap.Extend | api/stdlib/malloc.c:205-262 | growing a free last block or appending a new one gives the list carved from the grown heap |
| UserMalloc.UserHeap.Grow | api/stdlib/malloc.c:196-269 | the growth path as a whole |
| UserMalloc.UserHeap.Free | api/stdlib/malloc.c:272-345 | freeing releases the block in every merge case, those at the null end included |
| UserMalloc.UserHeap.ClientStore | api/stdlib/malloc.c:24-29 | a client's store inside a payload leaves the heap's headers intact |
| UserMalloc.CeilingExactly | api/stdlib/malloc.c:193-196 | for a request no block fits: it passes the ceiling test though it would end past 0xA0000000, or fails it though it would end below, exactly under the given conditions on heap end and free tail |
| UserMalloc.CeilingOpen | api/stdlib/malloc.c:193-196 | on a well-shaped heap some request gets past the ceiling exactly when the test's arithmetic does not wrap |
| UserMalloc.Rounded | api/stdlib/malloc.c:60-64 | the rounded request is 4-aligned and covers the request by fewer than 4 bytes more, or is 4 for less; requests above 0xFFFFFFFC become zero |
| UserMalloc.Expansion | api/stdlib/malloc.c:198-201 | growth is in whole pages that cover header and request, unless the sum wraps |
| UserMalloc.UserGrow | api/stdlib/malloc.c:198-262 | a growth that does not wrap gives a well-shaped heap whose last block fits the request |
| UserMalloc.WrappedGrowthTooSmall | api/stdlib/malloc.c:198-230 | after a growth that wraps, the block handed out ends before the request does |
| HeapRuns.UserRunSafe | api/stdlib/malloc.c:31-345 | after any run: blocks tile whole pages from heap start to heap end, no two free neighbours, live payloads disjoint and in place, and every live pointer 4-aligned when the heap start is |
| HeapRuns.UserLiveUntilFreed | api/stdlib/malloc.c:54-345 | an allocation keeps place and size until freed, through every growth |
| HeapRuns.UserAllFree | api/stdlib/malloc.c:282-344 | with everything freed the heap is one block |
| HeapRuns.MallocNull | api/stdlib/malloc.c:54-270 | null exactly for an empty request, or when nothing fits and the heap may not or cannot grow; then nothing has changed |
| HeapRuns.GrownFits | api/stdlib/malloc.c:193-262 | the heap grows only when no free block fits, and the grown last block fits exactly when the growth did not wrap |
| HeapRuns.RequestHonoured | api/stdlib/malloc.c:60-64 | the block handed out has room for the request exactly when the request is at most 0xFFFFFFFC |
| HeapRuns.RequestExample | api/stdlib/malloc.c:60-64 | 0xFFFFFFFD bytes on the fresh heap get a block with room for none |
| HeapRuns.CeilingExample | api/stdlib/malloc.c:193-208 | from `malloc_init` on 0x1000, a request for 0x9FFFFFF4 bytes leaves a heap that ends at 0xA0002000 |
| HeapRuns.CeilingRefusesExample | api/stdlib/malloc.c:193-196 | one large malloc and its free lead to a heap on which 0x60002000 is refused below the ceiling |
| HeapRuns.GrowthWrapsExample | api/stdlib/malloc.c:193-230 | one large malloc and its free lead to a heap on which 0xFFFFFFE8 makes the growth wrap to zero |
| HeapRuns.MallocFree | api/stdlib/malloc.c:84-345 | free right after malloc restores the list; if the heap grew, the old list with its free tail extended or one free block appended |
| PhysicalMemory.FrameAllocator.Init | kernel/memory/pmmngr.c:14-23 | all blocks of the bitmap's whole words start out used and the counter is the block count |
| PhysicalMemory.FrameAllocator.Set | kernel/memory/pmmngr.c:30-33 | marks one block and no other |
| PhysicalMemory.FrameAllocator.Unset | kernel/memory/pmmngr.c:35-38 | unmarks one block and no other |
| PhysicalMemory.FrameAllocator.Test | kernel/memory/pmmngr.c:40-45 | blocks past the block count read as used; the block at the count is looked up |
| PhysicalMemory.FrameAllocator.FirstFree | kernel/memory/pmmngr.c:47-64 | the lowest clear bit of the whole words, or 0 when there is none |
| PhysicalMemory.FirstClear | kernel/memory/pmmngr.c:47-64 | everything below the answer is in use and the answer is not |
| PhysicalMemory.FrameAllocator.InitRegion | kernel/memory/pmmngr.c:76-106 | exactly the blocks of the rounded region are freed, then block 0 marked; the counter drops by the region's length |
| PhysicalMemory.FrameAllocator.DeinitRegion | kernel/memory/pmmngr.c:108-127 | exactly the blocks from the rounded-down base on are marked; the counter rises by the region's length |
| PhysicalMemory.RegionInside | kernel/memory/pmmngr.c:78-96 | the blocks a region frees lie inside it exactly when base and size are whole blocks, or when it frees none |
| PhysicalMemory.RegionExample | kernel/memory/pmmngr.c:78-96 | 4096 bytes at address 1 free block 1, which does not lie inside |
| PhysicalMemory.FrameAllocator.AllocBlock | kernel/memory/pmmngr.c:129-145 | a block is handed out exactly when the counter is not at the block count and one of the bitmap's whole words is free; it is the lowest, now marked and counted; on failure nothing changes |
| PhysicalMemory.AllocResultExact | kernel/memory/pmmngr.c:129-145 | the same of the specification |
| PhysicalMemory.FrameAllocator.FreeBlock | kernel/memory/pmmngr.c:147-154 | unmarks and uncounts one block; 0 keeps meaning failure exactly when it is not block 0 |
| PhysicalMemory.FrameAllocator.FirstFreeRun | kernel/memory/pmmngr.c:208-253 | the code's skipping scan, exactly; a run it returns is clear from end to end, never starts at block 0, and stays inside the managed blocks whenever the bit at the block count is set |
| PhysicalMemory.RunScanSound | kernel/memory/pmmngr.c:213-252 | the same of the scan from any word and bit on |
| RunSearch.ScanFindsFirst | kernel/memory/pmmngr.c:213-252 | from any word on, the scan comes up with the first free run that starts in a word it enters, and with none only if there is none |
| RunSearch.RunFoundExactly | kernel/memory/pmmngr.c:177-253 | a request is served exactly when the counter admits it and a free run starts in a word the search enters, and then with the lowest; it ends past the last block exactly when every such run does |
| RunSearch.RunFound | kernel/memory/pmmngr.c:208-253 | when no run too short crosses a word boundary, every free run is found or a lower one is |
| RunSearch.RunPastEnd | kernel/memory/pmmngr.c:40-45 | 64 blocks, 5 and 63 free, the bit at the count clear, the counter 62: a request for two gets blocks 63 and 64 |
| RunSearch.RunMissed | kernel/memory/pmmngr.c:241-247 | 64 blocks, 0..30 and 32 in use, the counter 32: a request for two finds none, though 33 and 34 are free |
| PhysicalMemory.FrameAllocator.AllocBlocks | kernel/memory/pmmngr.c:177-195 | the blocks handed out were all free and are now marked and counted, and are managed ones whenever the bit at the block count is set; on failure nothing changes |
| PhysicalMemory.FrameAllocator.FreeBlocks | kernel/memory/pmmngr.c:197-206 | unmarks and uncounts exactly the run |
| PhysicalMemory.StepKeeps | kernel/memory/pmmngr.c:129-206 | each allocation or free keeps outstanding runs disjoint, marked, off block 0, and the counter's distance from the set bits |
| PhysicalMemory.RunKeeps | kernel/memory/pmmngr.c:129-206 | so does any run of single and multi-block calls |
| Paging.SetFrameExact | kernel/include/pte.h:10-22 | an entry takes on a frame exactly unless its old bit 31 is set and the frame's is not; it reads back exactly below 2 GiB |
| Paging.SetFrameExample | kernel/include/pte.h:10-22 | an entry that holds frame 0x80000 takes on 0x80001 when given 1 |
| Paging.SelfMapTable | kernel/memory/vmmngr.c:170-173 | through the self-map the address of table entry (i, j) reaches word j of the table installed at i, and nothing if none is |
| Paging.SelfMapDirectory | kernel/include/vmmngr.h:12-16 | through the self-map 0xFFFFF000 + 4i reaches directory entry i |
| Paging.SelfSlot | kernel/include/vmmngr.h:12-16 | the table addresses of slot 1023 are the directory's own entries |
| AddressSpaces.BootSpace | kernel/kernel_entry.c:164-192 | the invariant holds of a directory that maps itself and installs given tables in used blocks of their own, with the reserved blocks marked used |
| AddressSpaces.VirtualMemory.NoBlockExactly | kernel/memory/pmmngr.c:129-138 | no block is left exactly when the counter is at the block count or every block of the whole words but block 0 is in use |
| AddressSpaces.NextBlockExact | kernel/memory/pmmngr.c:129-138 | the block that comes next is the lowest free one |
| AddressSpaces.VirtualMemory.MapVideo | kernel/kernel_entry.c:194-198 | unless there was neither a table nor a block for one, the scratch page has a table from here on, and page k of video memory leads to frame 0xB8 + k exactly if it was not mapped from 2 GiB on before |
| AddressSpaces.VirtualMemory.EnsureTable | kernel/memory/vmmngr.c:94-114 | afterwards there is a table for the entry, unless no block was left, and memory is exactly as specified |
| AddressSpaces.NewTableEmpty | kernel/memory/vmmngr.c:104-114 | there is a new table exactly when a block was left, and all its entries are zero |
| AddressSpaces.VirtualMemory.ClearTable | kernel/memory/vmmngr.c:127-130 | zeroes the new table and no other memory |
| AddressSpaces.InstallTable | kernel/memory/vmmngr.c:104-114 | a table in a block nobody owned keeps the invariant and every translation in every address space |
| AddressSpaces.WriteEntry | kernel/memory/vmmngr.c:116-122 | writing one table entry changes that page's translation and no other |
| AddressSpaces.VirtualMemory.MapPage | kernel/memory/vmmngr.c:94-125 | on success the page translates to the frame (exactly when the bit-31 condition holds) with its attributes as they were; every other page outside slot 1023 translates as before, with the same write access, in all address spaces; a new table allows writing and is closed to user mode, and no page opens; fails exactly when a table is needed and no block is left, and then changes nothing |
| AddressSpaces.MapStep | kernel/memory/vmmngr.c:94-125 | the same of the specification, with the invariant kept |
| AddressSpaces.VirtualMemory.AllocPage | kernel/memory/vmmngr.c:132-168 | a mapped page is left as it is; otherwise the page gets a block that was free and its entry allows writing, as a new table's directory entry does; nothing else moves or changes its write access, no page opens to user mode, and none that was open closes; it fails only when no block is left, and then changes no translation; no other directory entry changes |
| AddressSpaces.AllocStep | kernel/memory/vmmngr.c:132-168 | the same of the specification, with the invariant kept |
| AddressSpaces.VirtualMemory.Commit | kernel/memory/vmmngr.c:19-31 | fails exactly when no block is left; otherwise the page gets the lowest free block, now marked used, as specified |
| AddressSpaces.VirtualMemory.GetPhysicalAddress | kernel/memory/vmmngr.c:175-192 | the frame of the translation, short of bit 31, or 0 |
| AddressSpaces.CommittedApart | kernel/memory/vmmngr.c:19-31 | committed pages of all address spaces have blocks of their own, marked used, that are no directory and no table in force |
| AddressSpaces.TablesApart | kernel/memory/vmmngr.c:104-114 | tables at different entries are different blocks |
| AddressSpaces.SwitchDirectory | kernel/process/scheduler.c:78-91 | the incoming directory maps itself and takes over entries 768..1022; no user entry of any directory and no translation changes |
| AddressSpaces.VirtualMemory.SwitchTo | kernel/process/scheduler.c:78-91 | the copy loop through the scratch page has just that effect; no page moves but the scratch page |
| AddressSpaces.VirtualMemory.NewDirectory | kernel/process/process.c:15-32 | a new empty directory in a block that was free; with the scratch page's table in place it fails exactly when no block is left, and then changes nothing |
| AddressSpaces.DropDirectory | kernel/process/scheduler.c:233-240 | without an inactive directory every other address space keeps its invariant and its translations |
| AddressSpaces.FreedKeeps | kernel/process/process.c:229-285 | freeing blocks keeps the invariant exactly when none of them is owned |
| AddressSpaces.ExitStep | kernel/process/scheduler.c:233-240 | after an exit's frees memory is sound exactly when each block freed was not block 0 and nobody else's; no page of the remaining spaces moves |
| AddressSpaces.VirtualMemory.MarkUser | kernel/process/process.c:126-131 | both entries of the page get the user attribute, no translation changes and no other page closes to user mode |
| Scheduling.TickIsCyclic | kernel/process/scheduler.c:28-76 | a tick moves one step along the flattened list of all threads, around its end |
| Scheduling.EveryThreadRuns | kernel/process/scheduler.c:28-76 | in as many ticks as there are threads, every thread gets the processor |
| Scheduling.NoThreadTwice | kernel/process/scheduler.c:28-76 | and none gets it twice |
| Scheduling.ResumesExactly | kernel/process/scheduler.c:43-76 | a preempted thread resumes a round later with exactly the registers it was preempted with |
| Scheduling.QueueHistory | kernel/process/scheduler.c:94-241 | over any run with sound exits the queue holds the processes added less those that exited, in insertion order |
| Scheduling.ExitKeeps | kernel/process/scheduler.c:190-241 | a sound exit leaves a sound queue and a current thread that is in it |
| Dispatch.ExitNext | kernel/process/scheduler.c:43-76 | an exit goes on with the first thread of the process behind, or of the first process, and loads its saved context |
| Dispatch.ProcessStarts | kernel/process/process.c:36-56 | whatever happens after a process has been added, its thread stays until it is dispatched or the process exits, and its first dispatch loads 0xDEADBEEF, selectors 0x1B and 0x23, and flags 0x202 |
| Dispatch.ThreadStarts | kernel/process/process.c:68-88 | the same of a thread added to a process |
| Dispatch.StartsInARound | kernel/process/scheduler.c:28-76 | with ticks alone a new process is dispatched within one round |
| Scheduling.FindId | kernel/process/scheduler.c:166-175 | the first process with the id |
| Scheduler.Scheduler.Switch | kernel/process/scheduler.c:28-76 | on the linked lists, saves the context, goes to the next thread and loads its saved context, as one tick of the state machine |
| Scheduler.Scheduler.OnTick | kernel/process/scheduler.c:21-92 | queue and memory do one tick of the system: the next thread's context is loaded and its directory active, with the kernel half handed over and no page moved but the scratch page; both stay sound |
| Scheduler.Scheduler.Remove | kernel/process/scheduler.c:190-218 | a sound exit takes just the current process out of the chain and goes on with its successor |
| Scheduler.Scheduler.OnExit | kernel/process/scheduler.c:190-241 | the blocks given back are exactly the directory and those that the records of the process and of each of its threads stand for, and the counter drops by one for each record and one more; queue and memory stay sound exactly when every block freed may be freed; the next process's directory takes over the kernel half; no page of a remaining space moves but the scratch page; the stack pointer is kept, the rest of the frame is the next thread's |
| Scheduler.RecordsReleased | kernel/process/process.c:229-285 | the records an exit frees for are all those of the process and of its threads, and no others |
| Scheduler.Scheduler.Destroy | kernel/process/process.c:229-285 | walks threads, blocked threads and records and frees exactly the blocks the records make it free, counting each |
| Scheduler.Scheduler.RemoveUnsound | kernel/process/scheduler.c:42-76 | any other exit after the first switch between processes leaves the process current, or linked, or at the head of the queue |
| Scheduler.Scheduler.HeadExitExample | kernel/process/scheduler.c:190-218 | the only process, after two ticks, exits and stays at the head |
| Scheduler.Scheduler.Enqueue | kernel/process/scheduler.c:104-116 | appends a process to the null-terminated chain |
| Scheduler.Scheduler.OnAddProcess | kernel/process/scheduler.c:94-117 | one process more at the end of the queue, with a directory that was not there before, no records, and one thread with the user start context; without a program or a block, 0 and everything as it was |
| Scheduler.Scheduler.OnAddThread | kernel/process/scheduler.c:164-188 | a new thread with the user start context at the end of the right process's chain, with that process's next thread id, the entry point, and whatever records the memory held; 0 and nothing else when the process id is unknown |
| Scheduling.HousedAfterExit | kernel/process/scheduler.c:190-241 | after an exit the remaining processes still have directories of their own, the freed one not among them |
| SystemRuns.BootSound | kernel/kernel_entry.c:164-198 | what boot leaves, after the first mapping of video memory, is a sound system |
| SystemRuns.StepKeeps | kernel/process/scheduler.c:21-260 | every legal event keeps queue and memory sound together |
| SystemRuns.TickStep | kernel/process/scheduler.c:28-92 | a tick makes the next process's directory active: it maps itself and takes over the outgoing entries 768..1022, no user entry of any directory changes and no page moves but the scratch page |
| SystemRuns.RunKeeps | kernel/process/scheduler.c:21-260 | in every reachable state the active directory is the current process's and maps itself, every process has a directory of its own, and directories, tables and committed pages have blocks of their own |
| SystemRuns.RunVisible | kernel/process/scheduler.c:78-91 | along a run a mapped page that nothing maps again keeps its translation until its address space ends |
| SystemRuns.KernelVisible | kernel/process/scheduler.c:83-89 | a kernel mapping made in one process's slice is there in all later slices, through ticks, new processes and exits, until the page is mapped again |
| SystemRuns.ExitStep | kernel/process/scheduler.c:190-241 | a sound exit of the queue keeps the system sound exactly when every block its records free may be freed; the next directory maps itself and takes over the outgoing entries 768..1022, and no user entry of any directory changes |
| SystemRuns.ExitFrees | kernel/process/scheduler.c:219-240 | it takes just the recorded blocks and its directory out of the used set, and counts each |
| SystemRuns.SegmentExitBreaks | kernel/process/process.c:124-124 | a process with a segment page in a block whose number is a multiple of 256 frees block 0 when it exits |
| SystemRuns.SegmentExitExample | kernel/process/process.c:124-124 | block 0x200 is one |
| SystemRuns.SegmentExitKernel | kernel/process/process.c:124-124 | block 1 makes it free block 0x1000, where the kernel is |
| SystemRuns.StackExitSound | kernel/process/process.c:163-163 | with stack records alone the exit is sound |
| UserPages.StepBacked | kernel/process/scheduler.c:21-260 | every legal event of a kernel that maps no user page itself keeps the user pages of all queued processes backed by vmmngr_alloc_page and writable |
| UserPages.RunBacked | kernel/process/scheduler.c:21-260 | in every state reached from boot by such events the current process's user pages are backed and writable, as the loader requires |
| UserPages.EmptyBacked | kernel/process/process.c:28-32 | a directory without user tables, as a new process has, is backed |
| ElfImage.Parse | kernel/process/elf.c:146-170 | fails exactly on images the header test rejects; fills the slots of loadable headers, leaves the others, counts them all |
| ElfImage.HeaderReads | kernel/process/elf.c:11-35 | an image that begins with the bytes of given header fields is accepted exactly when they are a 32-bit little-endian 80386 executable's with at most five program headers; entry point, table offset and count are read from their fields |
| ElfImage.SegmentReads | kernel/process/elf.c:37-47 | the bytes of a given program header in its place of the table give its offset, sizes and address, loadable exactly for type 1 |
| Loader.Unaliased | kernel/memory/vmmngr.c:132-168 | different user addresses backed by vmmngr_alloc_page are different bytes of physical memory |
| Loader.StoreByte | kernel/process/process.c:134-142 | a store to user memory shows at its address, at no other, and in no other address space, and goes to no directory and no table in force |
| Loader.Loader.BackPage | kernel/process/process.c:114-131 | user mode can read and write the page, or no block is left; the unknown-error branch is never taken |
| Loader.Loader.MapSegment | kernel/process/process.c:104-132 | user mode can read and write every byte of an unaligned segment, or no block is left; no mapped page moves; as many pages as the rounding says are backed, and the records hold the frames' addresses |
| Loader.Loader.FillSegment | kernel/process/process.c:134-142 | the file bytes, then zeros up to the memory size, and no other byte |
| Loader.Loader.Setup | kernel/process/process.c:90-146 | on success user mode can read and write every segment, which holds its contents and has the addresses of its blocks in the records; invalid exactly when the header test fails, out of memory only when no block is left; in every case no mapped page moves and no other space's committed pages change |
| Loader.ContentsAt | kernel/process/process.c:134-142 | byte k of a segment is the file's byte at its offset plus k, or 0 past the file size |
| Loader.LoadedExitBreaks | kernel/process/process.c:124-124 | a program as the loader leaves it, with a page in a block whose number is a multiple of 256, takes memory down when it exits |
| Loader.GrownSound | kernel/process/scheduler.c:140-162 | loading a program or a stack keeps queue and memory sound together, and the user pages of every process backed |
| Loader.OneSegmentMore | kernel/process/process.c:102-143 | loading a segment leaves the ones before it intact |
| Loader.Loader.InitThreadStack | kernel/process/process.c:148-177 | user mode can read and write both stack pages, or no block is left; the top is 8192 bytes below 0xC0000000 for each id before this one; the records hold block numbers |
| Loader.StacksApart | kernel/process/process.c:150-151 | stacks of different threads are disjoint |
| Records.RecordFrees | kernel/process/process.c:229-274 | a thread's record frees the recorded block; a process's record frees the block it stands for only if that is block 0, and frees block 0 exactly when the number is a multiple of 256 |
| Numbers.Strlen | api/string/string.c:3-11 | the length of the text |
| Numbers.Strrev | api/string/string.c:13-27 | the reversed text in place, nothing else touched |
| Numbers.Itoa | api/stdlib/itoa.c:5-41 | writes the text and its NUL and nothing else |
| Numbers.ItoaReadsBack | api/stdlib/itoa.c:5-41 | in base 10 the text reads back as the value, the most negative one included; in base 16 as its 32-bit pattern |
| Numbers.TextNumeral | api/stdlib/itoa.c:26-36 | the text is a minus sign, for negative numbers in base 10, and then digits 0..9, in base 16 also A..F, without a leading zero |
| Numbers.DigitsParse | api/stdlib/itoa.c:26-31 | the digit loop's output, reversed, reads back as the number |
| Numbers.ItoaFits | api/stdio/printf.c:30-71 | at most 12 bytes in base 10 and 9 in base 16 |
| Printf.Print | api/stdio/printf.c:9-118 | stops short exactly when the index would pass the buffer's end; otherwise the chunks emitted, joined, are the unbuffered text, and no chunk holds a NUL |
| Printf.Printer.PutNumber | api/stdio/printf.c:28-50 | adds the number's text to what has been written, flushing only when there is no room; the index is the specified one |
| Printf.Printer.PutChar | api/stdio/printf.c:95-107 | adds the character, flushing when the buffer is full |
| Printf.Printer.PutCharacter | api/stdio/printf.c:52-69 | adds the character of a `%c`, flushing before it but not after it |
| Printf.OverrunsExactly | api/stdio/printf.c:52-107 | for every format and arguments, the index passes the buffer's end exactly when a `%c` fills the last cell but one and the next thing printed is an ordinary character |
| Printf.NoCharacterNoOverrun | api/stdio/printf.c:28-107 | a format without `%c` never overruns |
| Printf.CharacterOverrun | api/stdio/printf.c:63-99 | 62 times `a`, then `%c!`, overruns whatever the character |
| Formats.RenderJoin | api/stdio/printf.c:17-108 | the text of two formats put together is their texts put together |
| Formats.RenderPlain | api/stdio/printf.c:95-107 | text without `%` is printed as it is |
| Formats.HexadecimalReads | api/stdio/printf.c:71-93 | `%x` prints a hexadecimal numeral of the value's 32-bit pattern |
| Formats.DecimalReads | api/stdio/printf.c:28-50 | `%d` and `%i` print a decimal numeral of the value, signed if negative |
| Formats.CharacterIs | api/stdio/printf.c:52-69 | `%c` prints the character of the low byte |
| Formats.UnknownNothing | api/stdio/printf.c:26-94 | any other directive prints nothing and takes no value |
| Tokenizer.StrtokInPlace | api/string/string.c:41-85 | one call does on the array what the specification does on the characters |
| Tokenizer.PiecesRejoin | api/string/string.c:41-85 | a string has one piece more than delimiters, and both together rebuild it |
| Tokenizer.NextCall | api/string/string.c:52-66 | what the next call with null gives: the next piece, null after a last piece that is not empty, the same empty piece again after one that is |
| Tokenizer.LoopEnds | api/string/string.c:41-85 | counted from the first call, null comes back at some call exactly when the string is empty or does not end in a delimiter |
| Tokenizer.EndsAfter | api/string/string.c:52-66 | and then when all pieces have been returned |
| Tokenizer.CallsGoOn | api/string/string.c:54-65 | on a string that ends in a delimiter no call returns null, and from the last piece on each returns the empty word at the end |
| Tokenizer.NeverEnds | api/string/string.c:54-65 | the same from the call after any piece on |
| Tokenizer.NeverEndsExample | api/string/string.c:54-65 | `a,` is such a string: every call after the first returns the word at 2 |
| Tokenizer.Collect | lishell/main.c:9-16 | the loop yields exactly the pieces and stops, with each delimiter overwritten; nothing when there is no delimiter |

## Left out

- KernelMalloc.KernelHeap.Kmalloc: headers are kept in a memory where every address can be stored to; that a new header's own page is mapped is not claimed, because the code writes it before mapping.
- UserMalloc.UserHeap.Malloc: after a growth whose size wraps nothing is claimed of the links, because the code then writes a header over memory below the block it hands out. The system call may grant pages past the ceiling, but none past 0xFFFFF000, where the page directory shows.
- HeapRuns.UserRunSafe: runs in which a growth wraps are excluded for the same reason.
- HeapRuns.UserLiveUntilFreed: runs in which a growth wraps are excluded for the same reason.
- PhysicalMemory.FrameAllocator.FirstFreeRun: that it finds a run whenever there is one is not claimed, because it misses some; `RunSearch.RunFoundExactly` says which.
- PhysicalMemory.FrameAllocator.InitRegion: the counter drops by the region's length even for blocks that were free already; the count of set bits is not claimed to follow.
- AddressSpaces.VirtualMemory.MapPage: slot 1023 is excluded, because a "table entry" there is a directory entry, and the scratch page takes only frames below 2 GiB, as every caller's are.
- AddressSpaces.VirtualMemory.AllocPage: slot 1023 is excluded for the same reason.
- Loader.Loader.InitThreadStack: thread ids so large that the stack would lie below address 0 are excluded.
- Scheduler.Scheduler.OnExit: that a process's page tables and the frames behind its segments are given back is not claimed, because the code does not do it.
- Scheduler.Scheduler.RemoveUnsound: an exit before the first switch between processes is excluded; there the code stores through a null predecessor.
- Loader.Loader.Setup: for images with headers that are not loadable, overlapping segments or more file bytes than memory bytes nothing is claimed beyond the parser's contract.
- Printf.Print: formats that end in `%`, which the code reads past, and NUL characters for `%c`, which cut a chunk short, are excluded.
- Tokenizer.Collect: strings that end in a delimiter are excluded, because the loop does not end; see `Tokenizer.LoopEnds`.
- Numbers.Strrev: the empty text is excluded, because the end index wraps around; no caller passes it.
- Numbers.Itoa: bases other than 10 and 16, which nothing in the repository asks for.
- Page contents are a byte store beside the paging structures; `Loader.StoreByte` says that no store goes to a directory or a table in force.
- `vmmngr_free_page`, which drops a factor of four from an index.
- The failure of `kmalloc` inside process and thread creation, and the records of memory regions as linked lists.
- The page mapper is one answer per page for the length of a `kmalloc` call, and the virtual-allocation call one answer per range; what they do inside is `AddressSpaces`.
- `scheduler_setup_current_thread`, which calls the loader once per process and the stack set-up once per thread, and so puts their records (`processRecords`, `threadRecords`) into the process and the thread (`pmemRegions`).
- Kernel processes, which differ from user ones only in the initial registers.
- The translation look-aside buffer, interrupts, system call traps, devices, descriptor tables and the boot loader; the initial page directory is taken as boot leaves it.
- `vmmngr_switch_pdirectory`'s refusal of directory 0, which no process has.
- `strcmp`, `memset`, `memcpy` and the kernel's copies of `itoa` and `strrev`.
