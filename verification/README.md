# A verified model of Unified-OS

This project models the four parts of the Unified-OS kernel that carry state, and proves what they keep.

1. **Memory.** A bitmap of page frames (`Bitmap.dfy`) under the page frame allocator (`FrameSpec.dfy`, `FrameBoot.dfy`,
   `PageFrameAllocator.dfy`); page table entries as 64-bit words (`Words.dfy`, `PageEntry.dfy`) in a 4-level table built
   from the allocator's frames (`TableSpec.dfy`, `MapSpec.dfy`, `MapExact.dfy`, `PageTableManager.dfy`); a first-fit heap
   whose blocks lie in pages that the other two supply (`BlockSpec.dfy`, `HeapRun.dfy`, `HeapPages.dfy`, `Heap.dfy`); and the
   three together from the firmware's memory map up (`KernelPaging.dfy`, `KernelMemory.dfy`).
2. **Processes.** The round-robin scheduler of one CPU (`SchedSpec.dfy`, `SchedWait.dfy`, `Scheduler.dfy`), the same on many
   CPUs with every lock step interleaved (`SchedSteps.Apply` in `SchedSteps.dfy`), and the start-up of the other CPUs, with
   every store and every stay in an allocator interleaved (`SmpBoot.BootStep` and `SmpBoot.ApStep` in `SmpBoot.dfy`,
   and the frames it obtains in `SmpHolds.dfy`).
3. **Disk.** Unaligned and block transfers through bounce buffers (`DiskDevice.dfy`, `Memory.dfy`).
4. **Vector.** The growable array (`Vector.dfy`).

`Common.dfy` holds what several parts share.

Files come in two kinds. A *specification* file describes each operation as a function on a value and proves theorems about
single steps, whole runs and interleavings. A *class* file rewrites fields, words and headers in place as the source does, and
its methods equate the new state with the specification's function of the old one. Addresses are integers, page tables and
heap headers are maps keyed by frame and by address, 64-bit counters wrap explicitly, and the flags, masks and entries are
bit vectors. The processor's view of an entry is that of the Intel SDM, volume 3A, section 4.5 (4-level paging).

## Where the code departs from its purpose

The model keeps the code as it is. Where a property fails, the condition under which it holds is part of the theorem.

- `Split` writes the back link of a next block that may not exist (src/memory/heap.cpp:53). The model has memory at address
  NULL, and `Split` states exactly when and what is written there.
- `ExpandHeap` counts pages that were not granted (src/memory/heap.cpp:157-171), and a page that was granted is lost when its
  tables are not: `HeapPages.ExpandIff`, `HeapPages.BacksIff`. `InitialiseHeap` maps NULL from the allocator as it maps a
  page (src/memory/heap.cpp:72-76): `HeapPages.InitialBacksIff`.
- The scheduler takes the CPUs to be numbered without gaps (src/process/Scheduler/Scheduler.cpp:39-57, 161), and they are
  stored by APIC number (src/smp/smp.cpp:111): `SmpBoot.NumbersExact`.
- The bitmap's bound tests let one bit past the bitmap through (src/Paging/Bitmap.cpp:14, src/Paging/Bitmap.cpp:37): the
  model's bit sequence has that bit, and `Bitmap.Set` states when the foreign byte changes.
- The bitmap has up to eight bits for frames that do not exist, and some of them can be granted: `FrameBoot.PhantomFrames`.
- `RequestPages` can skip smaller holes and overhang the bitmap (src/Paging/PageFrameAllocator.cpp:124-141):
  `FrameSpec.HintTightIff`, `FrameSpec.GrantLockedIff`, `FrameSpec.GrantedTwiceIff`.
- `GetFlag` parses as `Value & 1` (src/Paging/Paging.cpp:26): `PageEntries.GetFlagOnlyPresent`. `MapMemory` asks for Present only.
- `MapMemory` does not look at NULL from the allocator (src/Paging/PageTableManager.cpp:74): `MapExact.MapExact`,
  `MapExact.MapShows`, `MapExact.RunExact`, `KernelPaging.PagingIff`.
- `acquireLock` gives up after a bounded spin (inc/IO/spinlock.h:12): `SchedSteps.GiveUpBreaks`, `SchedSteps.RunOk`.
- The boot CPU gives up on a core that it has told to start, with a note in the source that the core may start all the same
  (src/smp/smp.cpp:143-147): `SmpBoot.RunSafe` holds if it does not, `SmpBoot.LateReads`,
  `SmpBoot.LateExclusionIff`, `SmpBoot.TwoLate` and `SmpBoot.LateMisleads` say what happens if it does.
- `Write` takes the bytes of the last, partial block from the start of the data (src/fs/DiskDevice.cpp:261):
  `DiskDevices.WriteThenRead`, `DiskDevices.StoredForAll`.
- `ReadBlocks` and `WriteBlocks` never give their buffer back (src/fs/DiskDevice.cpp:273-339): `DiskDevices.BlockCallsIff`.
- `Vector::remove` returns with its lock held when it found the value (inc/common/vector.h:222-227), and the copy constructor
  leaves the copy empty (inc/common/vector.h:87-95): `Vectors.Vector.RemoveFirst`, `Vectors.Vector.Copy`.

## Model

| member | source | states |
|---|---|---|
| `Bitmaps.Bitmap.Get` | src/Paging/Bitmap.cpp:12-32 | the mask and the byte give bit `index` counted from the most significant end, and false past the reach of the bound test |
| `Bitmaps.Bitmap.Set` | src/Paging/Bitmap.cpp:35-59 | exactly one bit of the reach changes; the call fails exactly past the reach; the byte after the bitmap changes exactly when the index is 8 * Size and its bit differs |
| `Bitmaps.BitFromTop` | src/Paging/Bitmap.cpp:16-24 | bit 0 of a byte is the most significant one |
| `Bitmaps.MaskedUpdate` | src/Paging/Bitmap.cpp:43-55 | the masked assignments to one byte are one update of the bit sequence, and rewrite the byte only if the bit changes |
| `PageFrames.PageFrameAllocator.LockPage` | src/Paging/PageFrameAllocator.cpp:162-169 | new bitmap, hint and counters, in 64-bit words |
| `PageFrames.PageFrameAllocator.ReservePage` | src/Paging/PageFrameAllocator.cpp:179-186 | the same for reserving |
| `PageFrames.PageFrameAllocator.FreePage` | src/Paging/PageFrameAllocator.cpp:144-152 | the same for freeing, and the hint falls to the freed frame |
| `PageFrames.PageFrameAllocator.UnreservePage` | src/Paging/PageFrameAllocator.cpp:196-204 | the same for unreserving |
| `PageFrames.PageFrameAllocator.LockPages` | src/Paging/PageFrameAllocator.cpp:172-176 | the page actions on the frames in order, for fewer than 2^19 + 1 pages |
| `PageFrames.PageFrameAllocator.ReservePages` | src/Paging/PageFrameAllocator.cpp:189-193 | the same |
| `PageFrames.PageFrameAllocator.FreePages` | src/Paging/PageFrameAllocator.cpp:155-159 | the same |
| `PageFrames.PageFrameAllocator.UnreservePages` | src/Paging/PageFrameAllocator.cpp:207-211 | the same |
| `PageFrames.PageFrameAllocator.RequestPage` | src/Paging/PageFrameAllocator.cpp:112-121 | the loop finds and locks the first clear bit from the hint on, or leaves the hint at the end and returns NULL |
| `PageFrames.PageFrameAllocator.FindsRun` | src/Paging/PageFrameAllocator.cpp:128-131 | the inner loop answers whether no bit of the run is set, frames past the reach counting as clear |
| `PageFrames.PageFrameAllocator.RequestPages` | src/Paging/PageFrameAllocator.cpp:124-141 | the first clear run from the hint on is locked and the hint left at it, or nothing changes |
| `PageFrames.PageFrameAllocator.InitBitmap` | src/Paging/PageFrameAllocator.cpp:89-98 | the bytes of the bitmap become 0 and no other byte changes |
| `PageFrames.PageFrameAllocator.FindLargestSegment` | src/Paging/PageFrameAllocator.cpp:43-54 | no conventional segment is larger, and the address is that of the first of its size; 0 if none has pages |
| `FrameBoot.LargestIsLargest` | src/Paging/PageFrameAllocator.cpp:39-54 | so does the segment the bitmap is laid over |
| `PageFrames.PageFrameAllocator.GetMemorySize` | src/Paging/PageFrameAllocator.cpp:18-29 | the sum of all descriptors |
| `PageFrames.PageFrameAllocator.ReadEFIMemoryMap` | src/Paging/PageFrameAllocator.cpp:31-86 | once only; the state is that of `FrameBoot.Boot`, described exactly by the `FrameBoot` lemmas |
| `FrameSpec.ActHint` | src/Paging/PageFrameAllocator.cpp:144-211 | the hint moves only when a frame below it becomes clear, and then to that frame |
| `FrameSpec.ManyIsFirst` | src/Paging/PageFrameAllocator.cpp:124-141 | `RequestPages` hands out the address of the first place from the hint on where no bit of the run is set, whatever the counters; if every place up to the limit has a set bit it returns NULL and changes nothing |
| `FrameSpec.StepBits` | src/Paging/PageFrameAllocator.cpp:112-211 | every operation keeps the state valid, sets exactly the bits it grants, which were clear, and clears only what it releases |
| `FrameSpec.BitsAreOutstanding` | src/Paging/PageFrameAllocator.cpp:112-211 | over any run the bitmap equals the set of frames out, folded from grants and page actions alone |
| `FrameSpec.NoDoubleGrant` | src/Paging/PageFrameAllocator.cpp:112-176 | over any run a frame of the bitmap granted twice was released in between |
| `FrameSpec.GrantedTwiceIff` | src/Paging/PageFrameAllocator.cpp:112-211 | for every allocator, a frame can be handed out twice without being given back if and only if it lies past the reach of the bitmap |
| `FrameSpec.GrantLockedIff` | src/Paging/PageFrameAllocator.cpp:124-141 | the frames of a `RequestPages` grant are all locked afterwards if and only if the run does not overhang the bitmap |
| `FrameSpec.RequestIsLowest` | src/Paging/PageFrameAllocator.cpp:112-121 | while every bit below the hint is set, `RequestPage` grants the lowest clear frame of all, and NULL means that none is clear |
| `FrameSpec.HintTightIff` | src/Paging/PageFrameAllocator.cpp:112-211 | every operation but `RequestPages` keeps the bits below the hint set; that one does so if and only if it skipped no smaller hole |
| `FrameSpec.HintTightRun` | src/Paging/PageFrameAllocator.cpp:112-211 | so does any run without `RequestPages` |
| `FrameSpec.RunConserves` | src/Paging/PageFrameAllocator.cpp:144-211 | over any run free + used + reserved is constant and free follows the number of clear bits, modulo 2^64 |
| `FrameSpec.RunCounts` | src/Paging/PageFrameAllocator.cpp:162-211 | over any run the used counter moves by 4096 bytes for each bit that requests, locks and frees set or clear, and the reserved counter for each that reserves and unreserves do, modulo 2^64 |
| `FrameBoot.TotalPagesJoin` | src/Paging/PageFrameAllocator.cpp:18-29 | the pages of every descriptor count once, whatever its kind |
| `FrameBoot.BootExact` | src/Paging/PageFrameAllocator.cpp:56-86 | after boot exactly the frames above 1 MiB that do not hold the bitmap and are conventional or past the counted memory are clear |
| `FrameBoot.BitmapFrames` | src/Paging/PageFrameAllocator.cpp:81-86 | the frames locked for the bitmap are exactly those of its bytes and of the byte after it, for a segment that begins on a page |
| `FrameBoot.BootUsed` | src/Paging/PageFrameAllocator.cpp:66-86 | at the end of boot only the frames that the bitmap took from the clear ones are used, and all others that are not clear are reserved |
| `FrameBoot.CountersFromBoot` | src/Paging/PageFrameAllocator.cpp:57-85 | after boot and any run: free + used + reserved = total, and free = 4096 * (clear bits) - 4096 * (8 * Size - N), modulo 2^64 |
| `FrameBoot.PhantomFrames` | src/Paging/PageFrameAllocator.cpp:62-69 | with no conventional memory past page N, a frame that is no memory stays grantable if and only if N is not 7 modulo 8 |
| `PageEntries.GetFlagOnlyPresent` | src/Paging/Paging.cpp:21-27 | `GetFlag` as it parses answers for its flag on every entry if and only if the flag is Present |
| `PageEntries.SetFlagWord` | src/Paging/Paging.cpp:7-18 | for each flag the one literal bit of the word that setting it writes: ReadWrite is bit 1, UserSuper bit 2, NX bit 63 |
| `PageEntries.SetFlagFrame` | src/Paging/Paging.cpp:7-18 | the processor finds the flag as it was set, every other flag as it was, and the same address |
| `PageEntries.SetAddressFrame` | src/Paging/Paging.cpp:30-39 | the stored address reads back in its low 40 bits, bits 0 to 11 and 52 to 63 stay, and so does every flag the processor reads |
| `PageEntries.LinkedWord` | src/Paging/PageTableManager.cpp:76-79 | the whole word: the frame in bits 12 to 51, bits 0 and 1 set, all other bits as before |
| `PageEntries.LinkedEntry` | src/Paging/PageTableManager.cpp:76-79 | in an entry linked to a frame the processor finds Present, ReadWrite and the low 40 bits of that frame |
| `PageEntries.PageMapIndexer.constructor` | src/Paging/PageMapIndexer.cpp:7-16 | the shifts and masks give the four table indices of the page |
| `PageEntries.SlotBits` | src/Paging/PageMapIndexer.cpp:7-16 | these are bits 39 to 47, 30 to 38, 21 to 29 and 12 to 20 of the address |
| `PageEntries.SplitIsBijective` | src/Paging/PageMapIndexer.cpp:7-16 | four indices belong to exactly one page number of bits 12 to 47 |
| `PageTables.ReadsAsProcessor` | src/Paging/Paging.cpp:21-32 | the manager reads Present and address as the processor does |
| `PageTables.PageTableManager.constructor` | src/Paging/PageTableManager.cpp:13-15 | over a zeroed PML4 page, no table but the root |
| `PageTables.PageTableManager.WordsAre` | src/Paging/PageTableManager.cpp:76-79 | every word in a table is 0, or its frame in bits 12 to 51 with bits 0 and 1 set and nothing else |
| `PageTables.PageTableManager.NextTable` | src/Paging/PageTableManager.cpp:69-83 | find the next table, or request, zero and link one; the 64-bit words stay decodable as the abstract tables |
| `PageTables.PageTableManager.MapMemory` | src/Paging/PageTableManager.cpp:18-127 | rewriting 64-bit words in place does to the decoded tables what `TableSpec.MapPage` does, for the physical address modulo 2^52 |
| `TableSpec.DownTree` | src/Paging/PageTableManager.cpp:73-117 | each step down keeps the tables an unaliased tree of distinct locked frames |
| `TableSpec.DownTables` | src/Paging/PageTableManager.cpp:73-117 | each step adds the one table of its page and depth and changes no other way down |
| `MapSpec.LeafMaps` | src/Paging/PageTableManager.cpp:119-126 | writing the last entry maps its page and no other |
| `MapSpec.MapRefines` | src/Paging/PageTableManager.cpp:18-127 | one call at most one frame short maps its page, writable on every level of the walk, leaves every other page as it was, keeps the tree, and takes exactly the missing tables, the last one from frame 0 if need be |
| `MapSpec.RunRefines` | src/Paging/PageTableManager.cpp:18-127 | over any run that needs at most one table more than there are frames, the walk of every page equals the map folded from the calls (last write wins, others unchanged), and exactly the needed tables are taken |
| `MapExact.MapExact` | src/Paging/PageTableManager.cpp:69-126 | whatever frame is mapped, a call leaves an unaliased tree, maps its page and leaves every other as it was if and only if it is short of no table, or of one that frame 0 is still free for |
| `MapExact.MapShows` | src/Paging/PageTableManager.cpp:69-126 | what the translations alone show: two tables or three in frame 0 always, unless frame 0 itself is mapped to a page whose indices from the first missing table on are all the same; one never |
| `MapExact.RunReached` | src/Paging/PageTableManager.cpp:18-127 | over any run that the frames last for, memory holds tables only, and a walk comes to each of them |
| `MapSpec.RunRequests` | src/Paging/PageTableManager.cpp:73-117 | and the allocator is as after one request for each table the run needs |
| `MapExact.RunExact` | src/Paging/PageTableManager.cpp:69-126 | whatever frames are mapped, after every call of a run the tables are an unaliased tree and the map is the folded one, if and only if the run needs no more tables than there are frames, and the one in frame 0 |
| `MapExact.IdentityIff` | src/kernel.cpp:189-191 | mapping pages 0..N-1 in order into an empty PML4 goes well after every call if and only if ceil(N/2^9) + ceil(N/2^18) + ceil(N/2^27) is at most one more than the frames left |
| `MapSpec.IdentityMap` | src/kernel.cpp:189-191 | mapping pages 0..N-1 in order into an empty PML4 takes exactly ceil(N/2^9) + ceil(N/2^18) + ceil(N/2^27) frames, and exactly these pages translate, each to itself |
| `Heaps.Heap.InitialiseHeap` | src/memory/heap.cpp:67-90 | one free block over the pages; all of them are granted and mapped to their frames, and no other page differently, if and only if, in the state before, the frames last (`HeapPages.CanBackAll`) |
| `Heaps.Heap.CombineForward` | src/memory/heap.cpp:14-34 | headers stay linked both ways and tiling; only headers are written |
| `Heaps.Heap.CombineBackward` | src/memory/heap.cpp:37-40 | the same |
| `Heaps.Heap.Split` | src/memory/heap.cpp:43-64 | the list gets the new block; the word written at address NULL is exactly the back link when the last block is split |
| `Heaps.Heap.FindFit` | src/memory/heap.cpp:104-120 | the walk along `Next` ends at the first block that fits, or at NULL if none does |
| `Heaps.Heap.TakeBlock` | src/memory/heap.cpp:107-117 | split if longer, marked used; no byte of a live payload is written |
| `Heaps.Heap.GrowPages` | src/memory/heap.cpp:157-163 | pages are requested and mapped one by one; the end of the heap moves for granted ones only |
| `Heaps.Heap.ExpandHeap` | src/memory/heap.cpp:143-173 | the list always gets the full length; the list ends at the end of the heap if and only if, in the state before, there is a frame for each page and each new table but those of the last page; and every page translates as it must besides if and only if the frames also last for all but one of the new tables |
| `Heaps.Heap.malloc` | src/memory/heap.cpp:93-127 | the recursion terminates; result and list are those of `BlockSpec.Malloc`; tables and end of the heap are those of one loop over all pages the call needs, all backed; no byte of a live payload is written |
| `Heaps.Heap.free` | src/memory/heap.cpp:130-140 | flag and both combines in place are `BlockSpec.Release`; a block that is free already stays as it is; no byte of a live payload is written |
| `Heaps.MergedLinked` | src/memory/heap.cpp:21-33 | the writes of a merge leave memory holding the merged list: `Prev` is the inverse of `Next`, and `LastHdr` the final block |
| `Heaps.CutLinked` | src/memory/heap.cpp:51-62 | the same for the writes of a split |
| `Heaps.AppendLinked` | src/memory/heap.cpp:165-171 | the same for a new last block |
| `BlockSpec.TakeHands` | src/memory/heap.cpp:43-117 | a block that fits goes whole if it is less than 48 bytes longer than the request; otherwise exactly the request goes, and the remainder less 32 bytes is a free block right behind it |
| `BlockSpec.RoundUpWhole` | src/memory/heap.cpp:144-151 | the heap grows by the least number of whole pages that hold the request |
| `BlockSpec.ExpansionsIs` | src/memory/heap.cpp:122-126 | no expansion if some block fits; otherwise one, unless the last block is in use and the request with a header is longer than its own pages, and then two |
| `BlockSpec.ReleaseInv` | src/memory/heap.cpp:130-140 | freeing keeps the exact tiling of the heap and leaves no two free neighbours |
| `BlockSpec.TakeInv` | src/memory/heap.cpp:108-116 | so does taking |
| `BlockSpec.ExpandTilesIff` | src/memory/heap.cpp:143-173 | so does growing, for the heap larger by exactly the rounded length; when it grows by that much is `HeapPages.ExpandIff` |
| `BlockSpec.ReleaseUndoesTake` | src/memory/heap.cpp:43-64 | freeing what was just taken restores the identical list, split or not |
| `BlockSpec.AllFreeIsOne` | src/memory/heap.cpp:14-40 | with nothing live the heap is one free block of the whole length |
| `BlockSpec.ExpansionsFall` | src/memory/heap.cpp:122-126 | each expansion brings a fit one step nearer and two are always enough, for any size |
| `BlockSpec.MallocInv` | src/memory/heap.cpp:93-127 | `malloc` keeps the invariant, grows the heap only as often as needed, takes the lowest block that fits, and adds one aligned live block that is long enough and at most 32 bytes longer, with the remainder behind it as `BlockSpec.TakeHands` says |
| `HeapRun.RunSafe` | src/memory/heap.cpp:93-140 | after any run live payloads are aligned, long enough and less than 48 bytes longer than asked for, inside the heap, disjoint, and clear of every header |
| `HeapRun.RunCoalesces` | src/memory/heap.cpp:14-40 | after any run that freed all it was granted, in any order, the heap is one free block |
| `HeapPages.PageGrown` | src/memory/heap.cpp:157-163 | one more heap page is mapped to a fresh locked frame that is no table, all else translating as before |
| `HeapPages.GrowsIff` | src/memory/heap.cpp:157-163 | all pages are granted if and only if all requests before the last page's own are, and that one is |
| `HeapPages.AllGrantedIff` | src/memory/heap.cpp:157-163 | all requests of n pages and their tables are granted if and only if there is a frame for each page and each new table, counted in the state before |
| `HeapPages.ExpandIff` | src/memory/heap.cpp:157-163 | the end of the heap moves by all n pages if and only if there is a frame for each page and each new table but those of the last page |
| `HeapPages.BacksIff` | src/memory/heap.cpp:157-163 | the end moves by all n pages, each of them translates to its frame and every other page as before, if and only if there is a frame for each page, for each new table but those of the last page, and for all but one of the new tables |
| `HeapPages.BacksBacked` | src/memory/heap.cpp:157-163 | then the heap's frames are distinct, locked, and none of them a page table |
| `HeapPages.InitialBacksIff` | src/memory/heap.cpp:72-76 | `InitialiseHeap`, which maps pages granted or not, has all its pages granted and mapped under the same condition |
| `HeapPages.FourEach` | src/memory/heap.cpp:157-163 | four free frames for each page always let the growth succeed |
| `HeapPages.ManyFour` | src/memory/heap.cpp:143-163 | and four for each page of any number of expansions meet the condition, all together |
| `Heaps.ServesIff` | src/memory/heap.cpp:122-126 | the precondition of `malloc` in closed form: there is room for the pages of all its expansions together, and the frames last for them |
| `Heaps.ServesIf` | src/memory/heap.cpp:122-126 | four for each of these pages meet it |
| `KernelPaging.BootEmpty` | src/kernel.cpp:165-186 | from any memory map: an empty PML4 over an allocator in order, in the lowest frame left over, and in frame 0 if and only if none is |
| `KernelPaging.BootBelow` | src/kernel.cpp:165-186 | for a memory map without holes whose number of pages is 7 modulo 8, no frame past the memory can be granted after it |
| `KernelPaging.PagingIff` | src/kernel.cpp:188-202 | the memory's run and then the framebuffer's go well after every call if and only if the frames last, counted from the allocator before: for the tables of the memory, and for those the framebuffer needs besides once its own frames are locked, with frame 0 for one of them |
| `KernelPaging.PagingExact` | src/kernel.cpp:188-202 | and then exactly the pages of both translate, each to itself |
| `KernelPaging.PagingTables` | src/kernel.cpp:188-202 | nothing but tables is read as a table, one of them lies in frame 0 only if no frame is left, and all but the PML4 came from the allocator |
| `KernelMemory.KernelIff` | src/memory/heap.cpp:67-163 | after that, `InitialiseHeap` and any number of expansions have all their pages backed, and no other page mapped differently, if and only if the frames left last for all of them together |
| `KernelMemory.Kernel` | src/memory/heap.cpp:67-163 | and then heap pages translate to distinct locked frames that are no page tables, and memory and framebuffer still translate to themselves; a table's frame, which later calls write through its address, translates to itself if and only if it is memory or framebuffer, and so all of them do if nothing else could be granted |
| `KernelMemory.HeapApart` | src/memory/heap.cpp:67-163 | no heap page translates to a frame that was taken before paging (the first megabyte, the bitmap, the kernel, the PML4) or, as far as the bitmap reaches, to one of the framebuffer |
| `Schedulers.Process.constructor` | src/process/process.cpp:16-59 | register by register: rip is the entry, rdi the PID, rsi the data, rsp and rbp the end of 32 stack pages, cs 0x08, ss 0x10, rflags 0x202, and every other register 0 |
| `Schedulers.CPU.CountTick` | src/process/Scheduler/Scheduler.cpp:88-98 | one tick counted, and the slice counted down, or left at 0 and found used up |
| `Schedulers.CPU.Swap` | src/process/Scheduler/Scheduler.cpp:106-134 | idle, remove a dying process, or rotate the queue and save the frame, as `SchedSpec.Switched` and `Saved`, which `SchedSpec.SwitchExact` and `SavedExact` describe |
| `Schedulers.CPU.Schedule` | src/process/Scheduler/Scheduler.cpp:84-151 | a whole call with the lock free or taken; which context is loaded; the invariant of the CPU is kept |
| `Schedulers.CPU.AddProcess` | src/process/Scheduler/Scheduler.cpp:171-174 | the process goes to the back and the lock is free |
| `Schedulers.PickCpu` | src/process/Scheduler/Scheduler.cpp:160-169 | the loop with its early exit finds the first CPU whose queue is shortest |
| `Schedulers.Scheduler.NewProcess` | src/process/Scheduler/Scheduler.cpp:153-178 | the next PID, five ticks, the registers of a new process (`Schedulers.Starts`), and the back of that CPU's queue; no other CPU changes |
| `Schedulers.Scheduler.CreateIdleProcess` | src/process/Scheduler/Scheduler.cpp:185-193 | the next PID, no slice, and the registers of a new process |
| `Schedulers.Scheduler.Tick` | src/process/Scheduler/Scheduler.cpp:70-80 | nothing before the scheduler is ready; then a call on this CPU and an interrupt for the others |
| `Schedulers.Scheduler.Start` | src/process/Scheduler/Scheduler.cpp:32-68 | every CPU has its own idle process, a free lock and an empty queue, but for the first, which has the kernel's second stage |
| `SchedSpec.SwitchOk` | src/process/Scheduler/Scheduler.cpp:100-137 | a switch keeps current null, idle or `Queue[0]` and the queue without duplicates; the queue is kept, rotated, or loses a dying head |
| `SchedSpec.SwitchExact` | src/process/Scheduler/Scheduler.cpp:105-134 | which process is next and what becomes of the queue, in each case |
| `SchedSpec.SavedExact` | src/process/Scheduler/Scheduler.cpp:115-133 | only the process preempted gets the frame; it and the one that runs next, also after the idle process, get a full slice; state, ticks and default slice of every process stay |
| `SchedSpec.IdleRuns` | src/process/Scheduler/Scheduler.cpp:89-133 | from the idle process the head of the queue gets the CPU with a full slice of D, and keeps it for D calls more |
| `SchedSpec.IdleTurn` | src/process/Scheduler/Scheduler.cpp:89-133 | and then it is put at the back |
| `SchedSpec.OneTurn` | src/process/Scheduler/Scheduler.cpp:89-133 | a slice of D lasts D + 1 calls, and then the queue has turned by one |
| `SchedSpec.FullRound` | src/process/Scheduler/Scheduler.cpp:89-133 | sum(D + 1) calls restore the order of the queue and add exactly D + 1 ticks to each process, whatever the slices |
| `SchedWait.TickNearer` | src/process/Scheduler/Scheduler.cpp:89-133 | an uncontended call brings a waiting process strictly nearer, dying ones ahead included |
| `SchedWait.OtherNoFarther` | src/process/Scheduler/Scheduler.cpp:101-103 | arrivals, kills and contended calls move it no farther |
| `SchedWait.Dispatched` | src/process/Scheduler/Scheduler.cpp:89-133 | every queued process becomes current within its wait, in every run of events |
| `SchedWait.WaitBound` | src/process/Scheduler/Scheduler.cpp:89-133 | the wait is at most c calls for each queued process and two more, for slices up to c - 2 |
| `SchedSteps.LockStep` | src/process/Scheduler/Scheduler.cpp:100-137 | with lock, mutation and release as separate steps of interleaved CPUs and creators, the lock word says who is inside |
| `SchedSteps.StepOk` | src/process/Scheduler/Scheduler.cpp:84-178 | every interleaved step keeps the whole invariant, unless a creator gives up on a lock |
| `SchedSteps.StepsAreCall` | src/process/Scheduler/Scheduler.cpp:84-151 | the steps of a call that nothing comes between are the whole call of `SchedSpec`, and leave all other CPUs alone |
| `SchedSteps.StepsAreNewProcess` | src/process/Scheduler/Scheduler.cpp:153-178 | those of `NewProcess` on a free lock put the process at the back and leave the lock free |
| `SchedSteps.GiveUpBreaks` | src/process/Scheduler/Scheduler.cpp:171-174 | giving up after the bounded spin puts two inside at once |
| `SchedSteps.RunOk` | src/process/Scheduler/Scheduler.cpp:84-178 | over any run mutual exclusion holds at the end if and only if nobody gave up |
| `SchedSteps.NoProcessOnTwoCpus` | src/process/Scheduler/Scheduler.cpp:115-133 | no process is current on two CPUs |
| `SchedSteps.Accounted` | src/process/Scheduler/Scheduler.cpp:111-128 | the queues hold exactly the processes added and not removed, each in one queue, once |
| `SchedSteps.PlaceChanges` | src/process/Scheduler/Scheduler.cpp:111-173 | processes come only from creators and go only as the dying current process at the end of a slice |
| `SchedSteps.LiveOnlyExecutes` | src/process/Scheduler/Scheduler.cpp:139-150 | what a process has computed changes only by its own execution |
| `SchedSteps.ResumesWhereLeft` | src/process/Scheduler/Scheduler.cpp:116-150 | the context loaded for a process is the state it had reached at its own last preemption, or its initial one |
| `SmpBoot.BootRest` | src/smp/smp.cpp:106-183 | every step of the boot CPU keeps the handshake: mailbox, flag and program counters agree |
| `SmpBoot.StepRest` | src/smp/smp.cpp:48-78 | so does every step of a starting CPU |
| `SmpBoot.StartRest` | src/smp/smptrampoline.asm:8-9 | and the trampoline's first store, if it comes before the last check of the flag |
| `SmpBoot.StackGranted` | src/smp/smp.cpp:117-118 | the stack page is locked and differs from all earlier ones |
| `SmpBoot.StepOk` | src/smp/smp.cpp:48-183 | every interleaved step keeps the whole invariant |
| `SmpBoot.RunSafe` | src/smp/smp.cpp:48-183 | over every interleaving no two CPUs are inside the unlocked allocators, each reads exactly its own number and stack, stacks are distinct, and the counter follows the CPUs done |
| `SmpHolds.StepLocks` | src/smp/smp.cpp:48-183 | apart from requests for the heap, a step locks exactly the frames that it records as granted |
| `SmpHolds.RunHolds` | src/smp/smp.cpp:58-183 | over every interleaving the frames granted for stacks and GDT copies are locked, and in one grant only, as far as the bitmap reaches; each CPU has asked for exactly what its progress says, a core that has signalled for its stack, one page and three times eight, and the boot CPU for three times eight; and a core's stack pointer is the end of its first page |
| `SmpBoot.ActiveExact` | src/smp/smp.cpp:175-183 | at the loop head and after it the byte `ActiveCPUs` is exactly one more than the CPUs done, without wrapping |
| `SmpBoot.GivingUpHappens` | src/smp/smp.cpp:131-147 | a concrete run in which the boot CPU gives a core up and goes on to the next |
| `SmpBoot.RunMail` | src/smp/smp.cpp:114-119 | over any run, late starts included, the mailbox holds the number and the raised stack last written, and of which core these are |
| `SmpBoot.LateReads` | src/smp/smptrampoline.asm:43-57 | over any run, late starts included, a core reads its own number, and its own stack, if and only if no later core's has been written at the step that reads it; a stack that is half written may match by the order of the pages |
| `SmpBoot.LateExclusionIff` | src/smp/smp.cpp:58-150 | some run after a late start, with the kernel's later allocations, breaks exclusion without a second late start, if and only if the boot CPU is not between obtaining the current core's stack and sending its start-up interrupt |
| `SmpBoot.TwoLate` | src/smp/smp.cpp:58-75 | after two late starts some run always breaks it |
| `SmpBoot.NumbersExact` | src/smp/smp.cpp:175-183 | the CPUs that run are numbered from 0 up to `ActiveCPUs`, as the scheduler takes it, if and only if none of their numbers is as large |
| `SmpBoot.LateMisleads` | src/smp/smp.cpp:143-150 | and makes the boot CPU wait for a core that has not begun |
| `Memory.Memcpy` | src/memory/memory.cpp:15-28 | the forward loop copies the old source; within one array with the destination behind the source it repeats the bytes between the two |
| `DiskDevices.BitIs` | src/fs/DiskDevice.cpp:62 | buffer i is bit i of the lock |
| `DiskDevices.CopiedParts` | src/fs/DiskDevice.cpp:150-199 | a flat copy: the range holds what it was copied from, and everything else what it held |
| `DiskDevices.StoredFrom` | src/fs/DiskDevice.cpp:255-265 | which byte of the data `Write` stores where |
| `DiskDevices.DiskDevice.GetBuffer` | src/fs/DiskDevice.cpp:59-70 | takes the lowest free buffer, or fails and changes nothing |
| `DiskDevices.DiskDevice.RelieveBuffer` | src/fs/DiskDevice.cpp:71-75 | clears that buffer's bit |
| `DiskDevices.CopyMore` | src/fs/DiskDevice.cpp:161-184 | a chunk that overlaps what is already copied only extends it |
| `DiskDevices.DiskDevice.ReadWhole` | src/fs/DiskDevice.cpp:161-184 | the 8/4/2/1 loop is one flat copy although its chunks overlap, and stays inside the bounce buffer |
| `DiskDevices.DiskDevice.WriteWhole` | src/fs/DiskDevice.cpp:230-253 | the same for writing |
| `DiskDevices.DiskDevice.Read` | src/fs/DiskDevice.cpp:130-199 | the caller gets exactly disk bytes [off, off + size), or 0 and nothing when no buffer is free; the buffer is given back |
| `DiskDevices.DiskDevice.Write` | src/fs/DiskDevice.cpp:200-271 | exactly the bytes [off, off + size) change, to what `Stored` says |
| `DiskDevices.WriteThenRead` | src/fs/DiskDevice.cpp:200-265 | a following read returns what was written if and only if the data's last partial block equals its head; bytes outside the range are kept |
| `DiskDevices.StoredForAll` | src/fs/DiskDevice.cpp:256-265 | for every data at once: if and only if the transfer ends on a block boundary |
| `DiskDevices.DiskDevice.ReadBlocks` | src/fs/DiskDevice.cpp:273-307 | a flat copy of whole blocks; the buffer stays taken |
| `DiskDevices.DiskDevice.WriteBlocks` | src/fs/DiskDevice.cpp:308-339 | the same for writing |
| `DiskDevices.BlockCallsIff` | src/fs/DiskDevice.cpp:273-339 | exactly as many block calls find a buffer as are free: eight on a new device |
| `Vectors.Vector.EnsureCapacity` | inc/common/vector.h:273-312 | capacity c goes to c + 2 * size + 1 exactly when the size reaches c, copying c elements, and the elements are kept |
| `Vectors.Vector.AddBack` | inc/common/vector.h:174-190 | the element is appended across growth |
| `Vectors.Vector.EraseUnlocked` | inc/common/vector.h:315-329 | the overlapping forward copy takes exactly one element out |
| `Vectors.Vector.Erase` | inc/common/vector.h:126-134 | the same, and the lock is free |
| `Vectors.Vector.RemoveFirst` | inc/common/vector.h:218-231 | the first occurrence goes; the lock stays taken if and only if there was one |
| `Vectors.Vector.Reserve` | inc/common/vector.h:137-144 | capacity only |
| `Vectors.Vector.Resize` | inc/common/vector.h:147-171 | truncated, or filled up with blanks |
| `Vectors.Vector.PopBack` | inc/common/vector.h:208-212 | the last element goes |
| `Vectors.Vector.Clear` | inc/common/vector.h:260-270 | empty and without memory |
| `Vectors.Vector.Copy` | inc/common/vector.h:87-95 | the elements are copied but the copy is empty |
| `Vectors.RemoveAt` | inc/common/vector.h:218-231 | removing the first occurrence is removing at its position |
| `Vectors.CopiesAtMost` | inc/common/vector.h:273-312 | over any run of additions and removals from empty, n additions copy at most 3n/2 elements in all |

## Left out

- Bitmaps.Bitmap.Get: also stands for `operator[]` (src/Paging/Bitmap.cpp:7-9), which calls it and does not return its result.
- PageFrames.PageFrameAllocator.LockPages: like the other page loops, limited to 2^19 pages, because the loop multiplies a 32-bit `int` by 4096 and larger counts overflow it.
- PageFrames.PageFrameAllocator.ReadEFIMemoryMap: memory up to 2 GiB, by the same overflow in its first page loop.
- PageTables.PageTableManager.MapMemory: memory that no table was made in reads as zero when it is walked as a table.
- MapExact.MapShows: a frame that is read as a table itself, mapped to a page whose last two indices are the same, is not decided here, as the translations then depend on its entries; `MapExact.MapExact` decides such calls with the tree.
- MapExact.MapExact: a table in frame 0 and the heap's word at NULL are kept apart. Page 0 maps to frame 0 (src/kernel.cpp:189-191), so that the word `Split` writes at NULL + 16 is entry 2 of such a table.
- HeapPages.BacksIff: before the growth memory holds no entries but those of tables, and none of these lies in frame 0 while frames are left (`HeapPages.Orderly`); `KernelPaging.PagingTables` proves this for the kernel's tables.
- KernelPaging.PagingIff: a PML4 in frame 0 is excluded; `KernelPaging.BootEmpty` says that it lies there exactly if no frame is left for it.
- MapSpec.MapRefines: calls for which neither a frame nor frame 0 is left are not described beyond failing, by `MapExact.MapExact`.
- Heaps.Heap.malloc: needs every page of its expansions granted and mapped, exactly when `Heaps.ServesIff` says so; what an expansion without enough frames leaves is stated by `Heaps.Heap.ExpandHeap` alone, as the header of its block can lie in a page that does not translate. Sizes near 2^64 are integers here and do not wrap.
- Heaps.Heap.InitialiseHeap: a page-aligned start and at least one page, as the kernel passes them; with none the length wraps.
- Heaps.Heap.free: NULL and addresses that `malloc` did not hand out are excluded; the source checks neither.
- Heaps.Heap.Split: header writes are whole words of a header at an address; bytes inside a header are not modelled.
- DiskDevices.DiskDevice.Read: sizes below the bytes of the first block are excluded, as there `size - SizeWithinFirstLBA` wraps and the first copy already passes the end of the caller's data. The same holds for `Write`.
- DiskDevices.DiskDevice.ReadBlocks: needs a free buffer, as without one the code goes on with buffer 255. The same holds for `WriteBlocks`. The block size is 512, the default of the class.
- Schedulers.CPU.Schedule: one process's frame is its saved registers; FX state, FS base, TSS and page table switches are hardware effects and left out. What other CPUs and creators do between its steps is in `SchedSteps`. A tick on the same CPU before the call ends is not: `GetCPULocal` enables interrupts (inc/IO/CPU/CPU.h:127) after the interrupt was acknowledged (src/interrupts/interrupts.cpp:221), so that `Schedule` can be entered again.
- Schedulers.Scheduler.Start: CPUs 0 to `ActiveCPUs` - 1 are taken to exist and to run. A gap in the APIC numbers, or a core given up before others, breaks this; `SmpBoot.NumbersExact` says exactly when it holds. The same goes for `NewProcess` and `PickCpu`.
- SchedSteps.RunOk: a run ends with the first creator that gives up on a lock; what happens after the lock has failed is not followed.
- SmpBoot.RunSafe: sleeps are steps of any length; the GDT, CR3 and entry pointer in the mailbox never change and are left out, as are the interrupts of the boot CPU. After `SMP::Intitialise` the boot CPU may ask for any number of pages any number of times (src/kernel.cpp:358-369); what it frees then, and what the cores that are done ask for once they are scheduled, is not followed.
- Vectors.Vector.AddBack: its argument is a value, so a reference into the vector's own memory is not modelled, nor are element types with constructors and destructors.
- Vectors.Vector.RemoveFirst: the vector's own lock is a flag; the next operation's bounded spin on it is time, not state.
- Queues of CPUs are sequences in the scheduler; the vector that implements them is proved by itself.
- Names of processes, `Sleeping`, `Dead` and `AllActive` lists: never read by the code that is modelled.
- Inline assembly, ports, interrupt controllers, GDT and TSS contents: hardware effects. The disk is an array of bytes whose block access succeeds.
- The FAT32 chain walk and `ResolveFile`: the code indexes a whole FAT in a one-sector buffer and could only be described, not specified.
- GPT identifiers, mount slots, number formatting, firmware tables, framebuffer, drivers: easy or outside the state modelled here.
