# Methylenix kernel: memory, scheduling, timers, network buffers

Dafny models of the parts of the Methylenix kernel that keep its books, with proofs about every input, every
reachable state or every run.

- **Physical memory** (`DataType`, `Ranges`, `FreeCondition`, `Alignment`, `PhysicalMemory`, `PhysicalRuns`, `HeapRuns`): the free
  list as heap nodes threaded twice, by address and by size class, over ghost sequences; a value-level account of what
  a free does; runs on values and on the heap, a client, boot and the refill of the entry pool.
- **AArch64 page tables** (`Radix`, `PageTable`, `TablePaths`, `PageManager`, `Permission`, `Descriptor`): 512-way tables as
  memory, the tables that walks come to, the one-page path, the collector of empty tables, permission changes and the
  descriptor word. The module of `PageManager.dfy` is called `Paging`.
- **The bulk path** (`Area`, `AreaPaths`, `AreaErased`, `AreaForecast`, `AreaLoss`, `AreaDone`, `AreaOpen`,
  `BulkMapping`): ranges with 1 GiB, 2 MiB and 4 KiB descriptors: what becomes of the translations, which pages an unmap
  takes away, and which tables are lost.
- **Address space** (`VirtualMemory`, `AddressSpace`, `Frames`, `FrameStore`): region search and insertion, and page
  allocation with rollback on top of the tables and the physical frames; the physical memory manager as that store of
  frames.
- **Run queue** (`Scheduler`, `RunQueue`): the active/expired lists on values, and the class that takes those steps. The
  module of `RunQueue.dfy` is called `RunQueues`.
- **Linked list** (`LinkedList`): the intrusive list and its iterator on the heap.
- **Timers** (`Timers`, `TimerOrder`, `TimerRuns`), **TCP** (`TcpWindow`, `Checksum`), **user stack** (`UserStack`), **Ethernet transmit
  buffers** (`Ethernet`). `Collections` holds what several modules share.

`dafny verify dfyconfig.toml` checks everything.

Places where the code does not do what its comments or callers expect are stated as exact conditions, each with a
concrete case:

- `define_free_memory` is right for a block exactly if `CanFree` holds (`FreeCondition.FreeIsRightIff`); overlapping the
  first entry is the failing family.
- The bulk path looks only at the physical address before it writes a block descriptor. Mapping is right exactly if the
  virtual start is aligned wherever a block could be written at the start (`BulkMapping.NiceIff`). Unmapping runs the same
  code with physical address 0, so a mapped range is unmapped exactly if its start is aligned to the largest block that
  fits in its size and it ends no block in the middle (`BulkMapping.UnassociateAddressWithSize`, `BulkMapping.MapAndUnmap`).
- A bulk call that runs out of frames gives back only the tables on its way up, not those already hung below them, and a
  block descriptor written over a table descriptor cuts the table off. `AreaForecast.Forecast` tells before the call
  whether tables are lost; below an empty slot that is a window for the number of free frames
  (`AreaForecast.EmptySlotPays`, `BulkMapping.LosesTable`), and with enough frames and no table in a covered slot none is
  lost (`AreaOpen.EnoughFrames`).
- A timer whose timeout is not after the last processed tick is never handed over and blocks the queue
  (`TimerRuns.ServedIffTimely`); a due timer that the work queue refuses is never handed over either
  (`Timers.HandedOverIff`, `Timers.RefusedIsLost`).
- Close to the wrap-around of the tick counter a timer is put in the right place exactly if its comparisons meet no entry of
  the other round (`TimerOrder.AddInOrderIff`, `TimerOrder.NextRoundBlocks`).
- A thread that is added asks for a new look at the priorities only if its number is larger than that of the running
  thread, and a running thread with a successor hands over to it. The thread with the least number is chosen exactly under
  the condition of `Scheduler.LeastIff`; `Scheduler.SmallerNumberWaits` is a case in which it is not.
- `change_memory_permission` is described as failing for every address that is not mapped; it fails exactly if a table is
  missing on the path (`Permission.ChangeMemoryPermission`, `Permission.UnmappedUnnoticed`).
- An acknowledgement of a segment that is not the oldest frees that segment but returns the size of the oldest one to
  the window; it is right exactly for the oldest segment or none (`TcpWindow.AckIsRightIff`).

## Model

| member | source | states |
|---|---|---|
| `DataType.FromOffset` | src/kernel/memory_manager/data_type.rs:355-365 | the counting loop gives the least order whose power of two holds the size, capped at the maximum |
| `DataType.OrderUnique` | src/kernel/memory_manager/data_type.rs:355-365 | that order is the only one with this property |
| `DataType.PageOrderFromOffset` | src/kernel/memory_manager/data_type.rs:396-398 | the page order of a size, through the order of the size in bytes |
| `DataType.PageOrderMonotone` | src/kernel/memory_manager/data_type.rs:396-398 | a smaller size never has a larger page order |
| `Ranges.CarveCoalesced` | src/kernel/memory_manager/physical_memory_manager.rs:123-200 | taking a block out of an entry leaves a sorted, disjoint, fully coalesced list |
| `Ranges.CarveBytes` | src/kernel/memory_manager/physical_memory_manager.rs:123-200 | the free bytes are then the old ones minus exactly the block |
| `Ranges.CarveTotal` | src/kernel/memory_manager/physical_memory_manager.rs:187-199 | and the sum of the entry sizes drops by exactly the size of the block |
| `Ranges.MergeCoalesced` | src/kernel/memory_manager/physical_memory_manager.rs:256-328 | giving a block back, merged left, right, on both sides or not at all, leaves a coalesced list |
| `Ranges.MergeBytes` | src/kernel/memory_manager/physical_memory_manager.rs:256-328 | the free bytes are then the old ones plus exactly the block |
| `Ranges.MergeTotal` | src/kernel/memory_manager/physical_memory_manager.rs:256-328 | and the sum of the entry sizes grows by exactly the size of the block |
| `FreeCondition.FreeIsRightIff` | src/kernel/memory_manager/physical_memory_manager.rs:202-330 | for every coalesced list and every block: define_free_memory refuses a free block or adds exactly the block and counts exactly the bytes that became free, if and only if the block is disjoint from free memory, inside one entry, starts in an entry other than the first and has a rest that is not free, or starts before the first entry and ends where that entry ends |
| `FreeCondition.OverlappingFreeGoesWrong` | src/kernel/memory_manager/physical_memory_manager.rs:218-228 | a free that overlaps the first entry puts an overlapping entry in front of it |
| `FreeCondition.AgainIsDisjoint` | src/kernel/memory_manager/physical_memory_manager.rs:218-241 | when a right free calls itself, the rest of the block touches no free byte |
| `Alignment.AlignBlockLeast` | src/kernel/memory_manager/physical_memory_manager.rs:474-487 | the aligned block contains the given one and is the least aligned block that does |
| `Alignment.AlignAvailableLeast` | src/kernel/memory_manager/physical_memory_manager.rs:491-508 | the aligned address is the least aligned one in the entry, and the remaining size is what is left behind it |
| `Alignment.FitsIffCanHold` | src/kernel/memory_manager/physical_memory_manager.rs:346-360 | the size test of alloc succeeds if and only if the entry can hold an aligned block of the size |
| `Alignment.CarvePageMultiple` | src/kernel/memory_manager/physical_memory_manager.rs:588-592 | on whole pages no remainder of one byte arises, so the assertion of set_range holds |
| `Alignment.PagesFitCleanly` | src/kernel/memory_manager/physical_memory_manager.rs:588-592 | the same for every block that alloc could choose in a list of whole pages |
| `PhysicalMemory.PhysicalMemoryManager.Alloc` | src/kernel/memory_manager/physical_memory_manager.rs:332-372 | sound, best-fit and complete: the block is aligned, wholly free, taken at the first aligned address of a smallest entry that can hold it; AddressNotAvailable if and only if no entry can hold it; EntryPoolRunOut only if the pool is empty and the block would split its entry; every error leaves everything untouched |
| `PhysicalMemory.PhysicalMemoryManager.SmallerBelow` | src/kernel/memory_manager/physical_memory_manager.rs:336-343 | the free lists below the page order of the request hold only entries that are too small, so skipping them loses nothing |
| `PhysicalMemory.PhysicalMemoryManager.BestFit` | src/kernel/memory_manager/physical_memory_manager.rs:338-367 | the first entry that fits on the lowest list is a smallest one of all that fit |
| `PhysicalMemory.PhysicalMemoryManager.FindFit` | src/kernel/memory_manager/physical_memory_manager.rs:336-360 | the search over the lists from the page order of the request on finds such an entry or proves that there is none |
| `PhysicalMemory.PhysicalMemoryManager.ScanList` | src/kernel/memory_manager/physical_memory_manager.rs:345-360 | the same for one list, walked along its links |
| `PhysicalMemory.PhysicalMemoryManager.DefineUsedMemory` | src/kernel/memory_manager/physical_memory_manager.rs:123-200 | the ranges become the carved ones, counters and both threadings follow; the result is exactly the error of the first failing test, and then nothing changed |
| `PhysicalMemory.PhysicalMemoryManager.UseEntry` | src/kernel/memory_manager/physical_memory_manager.rs:147-199 | the branches delete, trim front, trim back and split, on the entry that holds the first byte |
| `PhysicalMemory.PhysicalMemoryManager.ReserveMemory` | src/kernel/memory_manager/physical_memory_manager.rs:374-383 | define_used_memory on the aligned block around the requested one |
| `PhysicalMemory.PhysicalMemoryManager.DefineFreeMemory` | src/kernel/memory_manager/physical_memory_manager.rs:202-330 | the ranges become exactly what FreeEffect says, with both threadings and the counter; EntryPoolRunOut, exactly if a new entry is needed and the pool is empty, and every other error leave everything untouched |
| `PhysicalMemory.PhysicalMemoryManager.PlanFree` | src/kernel/memory_manager/physical_memory_manager.rs:211-255 | the duplicate tests take the way that the value-level step takes |
| `PhysicalMemory.PhysicalMemoryManager.SettleFree` | src/kernel/memory_manager/physical_memory_manager.rs:256-328 | the merging branches, both-sided merge included, where a node is resized while it is still chained |
| `PhysicalMemory.PhysicalMemoryManager.Free` | src/kernel/memory_manager/physical_memory_manager.rs:385-412 | InvalidSize exactly if the books would not hold the block; else define_free_memory, the first block of an empty manager included; memory_size never falls below the free size |
| `PhysicalMemory.PhysicalMemoryManager.UnchainEntry` | src/kernel/memory_manager/physical_memory_manager.rs:414-420 | the node leaves the one list it is on; the 12 lists stay mutual-inverse chains over the same nodes |
| `PhysicalMemory.PhysicalMemoryManager.ChainEntry` | src/kernel/memory_manager/physical_memory_manager.rs:422-465 | the node goes to the list of its current size, in ascending order, after leaving the list of its old size |
| `PhysicalMemory.PhysicalMemoryManager.CreateEntry` | src/kernel/memory_manager/physical_memory_manager.rs:76-84 | a node from the pool that is on neither threading, or EntryPoolRunOut exactly if the pool is empty |
| `PhysicalMemory.PhysicalMemoryManager.SearchContaining` | src/kernel/memory_manager/physical_memory_manager.rs:86-102 | the entry that holds the address, or null if none does |
| `PhysicalMemory.PhysicalMemoryManager.SearchPrevious` | src/kernel/memory_manager/physical_memory_manager.rs:104-121 | the last entry that starts before the address, or the one before it if the last entry of all reaches past the address; null if there is none |
| `PhysicalMemory.PhysicalMemoryManager.MergeBoth` | src/kernel/memory_manager/physical_memory_manager.rs:256-281 | merging with both neighbours keeps the node's list right although its size changes under it |
| `PhysicalMemory.PhysicalMemoryManager.RemoveEntry` | src/kernel/memory_manager/physical_memory_manager.rs:559-574 | a deleted entry leaves the address list and the free lists and returns to the pool |
| `PhysicalMemory.PhysicalMemoryManager.AddMemoryEntryPool` | src/kernel/memory_manager/physical_memory_manager.rs:67-70 | the pool grows by the entries of the page, nothing else changes |
| `PhysicalRuns.RunsKeepTheSet` | src/kernel/memory_manager/physical_memory_manager.rs:123-330 | in every run from the empty manager the list is sorted, disjoint and coalesced, and covers exactly the bytes that plain set addition and removal give |
| `PhysicalRuns.TotalCounts` | src/kernel/memory_manager/physical_memory_manager.rs:187-199 | the sum of the entry sizes is the number of covered bytes |
| `PhysicalRuns.LegalFreeAccepted` | src/kernel/memory_manager/physical_memory_manager.rs:385-412 | a block that was handed out never fails the size test of free |
| `PhysicalRuns.LedgerTake` | src/kernel/memory_manager/physical_memory_manager.rs:332-372 | taking a block keeps managed memory the disjoint union of free memory and the blocks handed out |
| `PhysicalRuns.LedgerGive` | src/kernel/memory_manager/physical_memory_manager.rs:385-412 | and so does giving one back |
| `PhysicalRuns.Serve` | src/kernel/memory_manager/physical_memory_manager.rs:332-412 | any sequence of allocations and frees of page-multiple blocks by a client keeps the whole invariant and that union; memory_size stays the total |
| `PhysicalRuns.Boot` | src/kernel/memory_manager/physical_memory_manager.rs:385-412 | the initializing frees of disjoint whole-page regions make the free bytes exactly the regions taken in, and memory_size equal to them; all are taken in if the pool has an entry for each, and none is left out while it has one |
| `PhysicalRuns.AddPhysicalMemoryManagerPool` | src/kernel/memory_manager.rs:101-112 | the unaligned page allocation takes the front of an entry, so it cannot run out of entries and its expect never fails; exactly the bytes of that page are not free any more |
| `PhysicalRuns.AllocatePhysicalMemory` | src/kernel/memory_manager.rs:114-137 | InvalidSize exactly for a size of zero or not below the free size, AddressNotAvailable exactly if no entry can hold the block, and no other error, after at most one refill; the block is aligned and exactly its bytes and those of the refill's page stop being free; a refill happens only with an empty pool and an alignment above a page |
| `HeapRuns.Drive` | src/kernel/memory_manager/physical_memory_manager.rs:332-412 | in every run of initializing frees, allocations, reservations and frees of whole pages on the heap, a free being any that may be right, the free bytes are those that the effects of the calls give by set addition and removal; a call has no effect exactly if it is refused or not made, and then for a reason that lies in the free list, the pool and the counters it found; the list stays coalesced and the counter right |
| `HeapRuns.MayFree` | src/kernel/memory_manager/physical_memory_manager.rs:202-330 | a walk along the entries decides whether giving a block back is right |
| `HeapRuns.FreeKeepsPages` | src/kernel/memory_manager/physical_memory_manager.rs:202-330 | a right free of whole pages, one that is repeated for a part included, leaves whole pages |
| `Radix.SlotOfPage` | src/arch/aarch64/paging/mod.rs:196-196 | the shift-and-mask index of a page is the slot whose span holds it |
| `Radix.SlotUnique` | src/arch/aarch64/paging/mod.rs:196-196 | and no other slot holds it |
| `PageTable.WalkSame` | src/arch/aarch64/paging/mod.rs:188-232 | a translation depends only on the slots of its own page |
| `PageTable.GrownWalk` | src/arch/aarch64/paging/mod.rs:206-222 | adding empty tables in invalid slots changes no translation |
| `PageTable.PrunedWalk` | src/arch/aarch64/paging/mod.rs:643-658 | taking an empty table out changes no translation |
| `PageTable.OneParent` | src/arch/aarch64/paging/mod.rs:188-232 | a table hangs in one slot only |
| `PageTable.MappedByPage` | src/arch/aarch64/paging/mod.rs:188-232 | a mapped page without a block descriptor on its path has a page descriptor |
| `TablePaths.HangsOn` | src/arch/aarch64/paging/mod.rs:188-232 | what a table that a walk comes to points to is come to as well, so the tables that no walk from the root comes to are out of reach for good |
| `Paging.PageManager.constructor` | src/arch/aarch64/paging/mod.rs:130-140 | an empty root: nothing is translated, no table is lost |
| `Paging.PageManager.GetLevel3Table` | src/arch/aarch64/paging/mod.rs:188-232 | finds the table of the page descriptor, making the missing ones if asked; EntryIsNotFound exactly if a block (or, without creation, an invalid descriptor) ends the path; MemoryCacheRanOut exactly if the free frames are not more than the tables missing on the path, else exactly that many are taken; every new table hangs where walks come to it, after an error too |
| `Paging.PageManager.AssociateAddress` | src/arch/aarch64/paging/mod.rs:323-343 | exactly the one page changes its translation, to exactly the frame and attributes given; each error if and only if its condition, MemoryCacheRanOut if and only if tables are missing on the path and the free frames are not more than those, and then no translation changes; no table is lost; every other table keeps a valid descriptor; no block descriptor appears |
| `Paging.PageManager.UnassociateAddress` | src/arch/aarch64/paging/mod.rs:554-573 | exactly the one page loses its translation, unless its path was blocked; the frames of exactly the collected tables are free again; no table is lost; every non-root table has a valid descriptor, and no table on the path of the page is empty below the root |
| `Paging.PageManager.CleanupPageTables` | src/arch/aarch64/paging/mod.rs:622-668 | collects the empty tables on the path without changing any translation, and leaves none there; true exactly if the table is empty; no frame vanishes except into a refused free |
| `Paging.PageManager.CleanupPageTable` | src/arch/aarch64/paging/mod.rs:671-688 | unless a free was refused, no empty table is left on the path below the root; an empty root is reported as InvalidPageTable although the work is done |
| `Paging.PageManager.AllocPageTable` | src/arch/aarch64/paging/mod.rs:706-711 | a frame leaves the free ones and becomes a table of invalid descriptors; MemoryCacheRanOut exactly if at most one frame is free, because alloc keeps the last one |
| `Paging.IsUnused` | src/arch/aarch64/paging/mod.rs:662-667 | the scan is true exactly if no descriptor is valid |
| `Descriptor.TableEntry.SetOutputAddress` | src/arch/aarch64/paging/table_entry.rs:77-80 | the address reads back and no other field changes, if and only if it fits the field; the access flag is set |
| `Descriptor.FitsField` | src/arch/aarch64/paging/table_entry.rs:77-80 | an address fits the field exactly if it is a multiple of a page below 2^50 |
| `Descriptor.TableEntry.SetPermission` | src/arch/aarch64/paging/table_entry.rs:92-98 | the flags read back, except that every entry is readable; no other bit changes |
| `Descriptor.TableEntry.SetMemoryAttributeIndex` | src/arch/aarch64/paging/table_entry.rs:104-106 | an index below 8 reads back and no other bit changes |
| `Descriptor.TableEntry.SetShareability` | src/arch/aarch64/paging/table_entry.rs:82-84 | a value below 4 reads back and no other bit changes |
| `Descriptor.TableEntry.SetPermissionAndOptions` | src/arch/aarch64/paging/mod.rs:297-310 | the three fields read back together and the rest of the word stays |
| `Descriptor.TableEntry.ValidateAsLevel3` | src/arch/aarch64/paging/table_entry.rs:45-47 | a page descriptor with the fields it had |
| `Descriptor.TableEntry.ValidateAsBlock` | src/arch/aarch64/paging/table_entry.rs:49-51 | a block descriptor, if and only if the second bit was clear |
| `Descriptor.WritePage` | src/arch/aarch64/paging/mod.rs:336-342 | whatever the word held, the descriptor that associate_address writes gives back kind, frame, permission and attribute index |
| `Descriptor.WriteBlock` | src/arch/aarch64/paging/mod.rs:392-407 | and so does the block descriptor of the bulk path |
| `Descriptor.CreateTableEntry` | src/arch/aarch64/paging/table_entry.rs:37-39 | reads back as a table at that address, if and only if the address is page-aligned and below 2^52 |
| `BulkMapping.AreaPages` | src/arch/aarch64/paging/mod.rs:357-384 | the level-3 loop writes consecutive page descriptors up to the end of the table or of the range, and nothing else |
| `BulkMapping.AreaBlocks` | src/arch/aarch64/paging/mod.rs:387-418 | the block loop covers consecutive spans from the start of its first slot on; pages before and after translate as before; the tables that it cuts off are lost, and no others |
| `BulkMapping.AssociateAreaRec` | src/arch/aarch64/paging/mod.rs:345-467 | the recursion maps or unmaps exactly the pages of the range that lie in the table and hands on the rest, if the start is aligned wherever a block could be used there, else its first page is off by the pages before it in its block; an unmap takes away a set of pages as large as the part it worked off; it ends, and leaves tables that no walk comes to, exactly as `AreaForecast.Forecast` tells from the tables and the number of free frames before the call; the table given back on an error is free again or was refused |
| `BulkMapping.TablesForBlocks` | src/arch/aarch64/paging/mod.rs:387-450 | below an empty root slot an aligned gigabyte needs one table, 2 MiB two and a page three: block descriptors are written at the two levels above the page tables and at no other |
| `AreaForecast.EmptySlotPays` | src/arch/aarch64/paging/mod.rs:423-450 | below an empty slot the call runs out exactly if the free frames are not more than the tables it needs, and then leaves tables behind exactly if they last for the first chain of tables |
| `AreaForecast.SameForecast` | src/arch/aarch64/paging/mod.rs:387-466 | the forecast depends only on the paths of the pages in the table |
| `AreaOpen.EnoughFrames` | src/arch/aarch64/paging/mod.rs:387-466 | with more free frames than missing tables a mapping whose cursors agree modulo every block does not run out of frames, and it loses no table if no slot that it covers wholly holds one |
| `AreaOpen.ThroughMeansOpen` | src/arch/aarch64/paging/mod.rs:419-422 | an unmap of such a range gets through only if no page of it stops at a slot that the range covers in part |
| `AreaDone.PartUp` | src/arch/aarch64/paging/mod.rs:452-464 | what an interrupted call has filled below a slot is what it has filled of the table above |
| `AreaLoss.HungLoss` | src/arch/aarch64/paging/mod.rs:447-450 | hanging a filled table loses what was lost in filling it, and nothing else |
| `AreaLoss.BackLoss` | src/arch/aarch64/paging/mod.rs:430-446 | giving a table back loses every table that was made below it |
| `AreaLoss.PutLoss` | src/arch/aarch64/paging/mod.rs:402-418 | a block descriptor loses tables exactly if it is written over a table descriptor |
| `AreaDone.DoneThen` | src/arch/aarch64/paging/mod.rs:387-466 | two rounds, each of which did what its forecast says, together do what the joint forecast says: the rest of the job, the pages mapped or taken away, the errors and the tables lost |
| `BulkMapping.NiceIff` | src/arch/aarch64/paging/mod.rs:388-390 | the guard looks only at the physical address: a completed mapping is the one asked for, if and only if the virtual start is aligned wherever the guard holds at the start; otherwise the first page comes to a frame too high by its offset in the block |
| `BulkMapping.UnmapsSome` | src/arch/aarch64/paging/mod.rs:583-620 | an unmap that is not aligned, or that stops with an error, leaves a page of its range as it was: it takes away as many pages as it worked off, and one of them is not in the range |
| `BulkMapping.UnalignedGoesAstray` | src/arch/aarch64/paging/mod.rs:388-390 | a 2 MiB range that starts at page 1: mapped to frame 512 its first page comes to frame 513; mapped to frame 1 it is right, but its unmap is not |
| `BulkMapping.AssociateArea` | src/arch/aarch64/paging/mod.rs:480-525 | on success the translation is the one asked for and every other page keeps its own, if and only if that condition holds, and then the range is open for an unmap; the alignment errors if and only if their conditions; EntryIsNotFound only for a block in the way or a range beyond the address space; after either error an aligned call has mapped exactly some first pages of the range; tables become unreachable exactly if the forecast says so, and not at all with enough frames and no table in a covered slot; counting only the reachable ones as held every frame is accounted for |
| `BulkMapping.RunningOutLoses` | src/arch/aarch64/paging/mod.rs:430-446 | two pages in two page tables below an empty slot: with three free frames the error loses the first page table, with fewer it loses nothing, and four are enough |
| `BulkMapping.LosesTable` | src/arch/aarch64/paging/mod.rs:480-525 | that call on a new address space returns MemoryCacheRanOut and leaves a frame that is neither free nor held by a reachable table, although no free was refused |
| `BulkMapping.PageByPage` | src/arch/aarch64/paging/mod.rs:323-343 | one associate_address per page gives the mapping asked for |
| `BulkMapping.MappedUnique` | src/arch/aarch64/paging/mod.rs:469-479 | so the bulk path and the page by page path translate every page alike |
| `BulkMapping.UnassociateAddressWithSize` | src/arch/aarch64/paging/mod.rs:583-620 | a range that was mapped all over is unmapped, with every other page as before, if and only if it is aligned and no page of it stops at a slot that it covers in part; for an aligned range that is also exactly when EntryIsNotFound is not returned, and with it exactly some first pages are unmapped; without that error no empty table is left on the path of the first page, InvalidPageTable is returned exactly if the root is empty, and the free frames grow by exactly the collected tables unless a free was refused; tables become unreachable exactly if the forecast says so |
| `BulkMapping.MapThenUnmapRestores` | src/arch/aarch64/paging/mod.rs:583-620 | the two effects together restore every translation of a range that was unmapped |
| `BulkMapping.MapAndUnmap` | src/arch/aarch64/paging/mod.rs:480-620 | running both on an unmapped range: once the mapping succeeded, every translation is what it was, if and only if the range is aligned for the unmap, and then the unmap is not refused for a missing entry |
| `AreaPaths.LaterError` | src/arch/aarch64/paging/mod.rs:387-466 | an entry that is not found in a later round is not found in the tables that the call started with |
| `AreaPaths.OpenedThen` | src/arch/aarch64/paging/mod.rs:387-466 | what a mapping has opened, tables above every slot that the range covers only in part, stays open in later rounds |
| `AreaPaths.StopsHere` | src/arch/aarch64/paging/mod.rs:419-422 | a job with congruent cursors that finds no table stands at a slot that its range covers only in part |
| `Permission.GetTarget` | src/arch/aarch64/paging/mod.rs:251-280 | finds the table and level of the descriptor that maps the page; nothing exactly if the page is not mapped and a table is missing on its path |
| `Permission.PutLeafWalk` | src/arch/aarch64/paging/mod.rs:251-280 | rewriting a descriptor changes the attributes of exactly the pages that it maps |
| `Permission.ChangeMemoryPermission` | src/arch/aarch64/paging/mod.rs:531-543 | a mapped page keeps its frame and memory type and gets the permission, together with exactly the pages of the same block; an unmapped page changes nothing, and is an error exactly if a table is missing on its path |
| `Permission.UnmappedUnnoticed` | src/arch/aarch64/paging/mod.rs:528-543 | of two unmapped pages the one whose page table is there is no error, and the other is |
| `VirtualMemory.FindUsableMemoryArea` | src/kernel/memory_manager/virtual_memory_manager.rs:1166-1214 | the least address of the window at which the bytes miss every region, and None only if there is none; the two inner assertions hold |
| `VirtualMemory.OverlapMeansShared` | src/kernel/memory_manager/virtual_memory_manager.rs:1220-1225 | the four end point tests find exactly the ranges with a common address |
| `VirtualMemory.FindPreviousEntry` | src/kernel/memory_manager/virtual_memory_manager.rs:1151-1164 | the entry after which an address belongs; None only before the first entry or inside the last |
| `VirtualMemory.InsertEntry` | src/kernel/memory_manager/virtual_memory_manager.rs:698-721 | a region that misses all others is inserted, the error Cannot insert is not reached, and the list stays sorted and disjoint |
| `VirtualMemory.FindEntry` | src/kernel/memory_manager/virtual_memory_manager.rs:1142-1149 | the region that holds the address, and None only if no region does |
| `AddressSpace.MemoryManager.AllocVirtualAddress` | src/kernel/memory_manager/virtual_memory_manager.rs:229-248 | an empty region at the least free address of the window, or no address fits |
| `AddressSpace.MemoryManager.Associate` | src/kernel/memory_manager/virtual_memory_manager.rs:904-921 | the page is live with its frame, or no more free frames than table levels were left |
| `AddressSpace.MemoryManager.Unassociate` | src/kernel/memory_manager/virtual_memory_manager.rs:944-953 | the page is not live any more, whatever collecting the tables reports, and its frame backs no page; no table is added and no free frame is taken |
| `AddressSpace.MemoryManager.TakeFrames` | src/kernel/memory_manager.rs:114-137 | a run of free frames leaves and is recorded as handed out; None only if there is no such run or it would be all that is free |
| `AddressSpace.MemoryManager.MapRun` | src/kernel/memory_manager/virtual_memory_manager.rs:474-508 | the pages get their consecutive frames, or the rollback leaves the live pages as they were |
| `AddressSpace.MemoryManager.FreePage` | src/kernel/memory_manager/virtual_memory_manager.rs:626-654 | one page is unmapped and its frame is free again, unless a free was refused: then it is spent |
| `AddressSpace.MemoryManager.FreeEntry` | src/kernel/memory_manager/virtual_memory_manager.rs:549-665 | the region goes with exactly its live pages; if no free was refused the free frames are exactly the old ones, the recorded ones and those of the collected tables; an error only if a free was refused |
| `AddressSpace.MemoryManager.AllocPages` | src/kernel/memory_manager.rs:149-181 | a new region on a run of frames that was free, or nothing changes: no run, no address, or too few frames for the tables; every frame that was handed out on the way is then free again, unless that was refused |
| `AddressSpace.MemoryManager.FillPage` | src/kernel/memory_manager.rs:225-263 | one page of a non-linear allocation, or the data frame is free again, unless that was refused |
| `AddressSpace.MemoryManager.AllocNonlinearPages` | src/kernel/memory_manager.rs:207-268 | a region of the least number of whole pages, at least one, that holds the size, with a frame behind every page; after a failure every frame that was handed out on the way is free again unless a free was refused; it happens only without an address for that many pages or with at most five free frames for each |
| `AddressSpace.MemoryManager.Free` | src/kernel/memory_manager.rs:270-284 | the region that holds the address goes; if no free was refused the free frames are exactly the old ones, its frames and those of the collected tables; without a refusal it fails only if no region holds the address, and then nothing changes |
| `AddressSpace.NoSharing` | src/kernel/memory_manager.rs:149-284 | no frame backs two pages of any regions, no backing frame is free or a table, and every recorded page translates to its recorded frame |
| `AddressSpace.Serve` | src/kernel/memory_manager.rs:149-284 | in every run of alloc_pages, alloc_nonlinear_pages and free, whatever fails, the address space stays valid and every frame stays a reachable table, free, in the entry pool, behind a live page or spent; none is spent if the physical memory manager takes every frame back |
| `Frames.CarvedFrames` | src/kernel/memory_manager/physical_memory_manager.rs:332-372 | taking a run of frames is carving their bytes: exactly those frames stop being free |
| `Frames.MergedFrames` | src/kernel/memory_manager/physical_memory_manager.rs:202-330 | giving a run of frames back is merging their bytes: exactly those frames become free |
| `FrameStore.TakeFrames` | src/kernel/memory_manager/physical_memory_manager.rs:332-372 | alloc of pages at page alignment takes a run of free frames out, exactly those; None exactly if there is none or it would be all that is free; the entry pool is not needed |
| `FrameStore.GiveFrames` | src/kernel/memory_manager/physical_memory_manager.rs:385-412 | free of a run of frames of which no byte is free makes exactly those frames free; refused only if the pool is empty or the books have no room |
| `FrameStore.BytesAreFrames` | src/kernel/memory_manager/physical_memory_manager.rs:187-199 | in a list of whole pages the sum of the entry sizes is a page for each free frame |
| `FrameStore.CounterIsFrames` | src/kernel/memory_manager/physical_memory_manager.rs:332-335 | so the size test of alloc compares the number of pages with the number of free frames |
| `RunQueues.GetHighestPriorityThread` | src/kernel/task_manager/run_queue.rs:110-122 | the head of the first list that has a thread |
| `Scheduler.HighestFacts` | src/kernel/task_manager/run_queue.rs:110-122 | it exists if and only if a thread is queued, and no queued thread has a smaller priority number |
| `RunQueues.RemoveTargetThread` | src/kernel/task_manager/run_queue.rs:133-144 | the thread leaves the list of its priority; InvalidThreadEntry exactly if there is no such list |
| `RunQueues.AddToLists` | src/kernel/task_manager/run_queue.rs:232-282 | the thread goes to the end of the list of its priority, which is made in its place if missing; ThreadLockError exactly if the last thread there is locked |
| `Scheduler.AddOrdered` | src/kernel/task_manager/run_queue.rs:263-276 | the lists stay strictly ordered by priority |
| `Scheduler.LineQueued` | src/kernel/task_manager/run_queue.rs:110-122 | the line of a priority holds exactly the queued threads of that priority |
| `Scheduler.RemoveHead` | src/kernel/task_manager/run_queue.rs:133-144 | removing the running thread succeeds, and its successor heads the list |
| `Scheduler.RemoveLines` | src/kernel/task_manager/run_queue.rs:133-144 | a removal changes the line of that priority alone, and fails exactly if there is no list for it |
| `Scheduler.DropFirst` | src/kernel/task_manager/run_queue.rs:133-144 | the first occurrence leaves the line, the others keep their order |
| `Scheduler.LastInLine` | src/kernel/task_manager/run_queue.rs:232-282 | the thread whose lock is tried is the last in line |
| `RunQueues.ExpiredUnlocked` | src/kernel/task_manager/run_queue.rs:249-257 | the thread whose lock is tried in the expired list is neither the running thread nor its successor |
| `RunQueues.RunQueue.AddThread` | src/kernel/task_manager/run_queue.rs:284-316 | takes the step of the model, never fails, and sets the two flags exactly by the priority comparison |
| `RunQueues.RunQueue.Leave` | src/kernel/task_manager/run_queue.rs:418-456 | neither expect can fail when the running thread leaves |
| `RunQueues.RunQueue.GetNextThread` | src/kernel/task_manager/run_queue.rs:397-410 | swaps the lists exactly if no active thread is queued, and chooses the first in line of the least priority number among those that then are; the idle thread exactly if nothing is queued |
| `RunQueues.RunQueue.Schedule` | src/kernel/task_manager/run_queue.rs:371-484 | keeps the invariant; the running thread leaves the front of its line for the end of its expired one, unless it sleeps; the chosen thread is the next in its line, unless there is none or a new look was asked for: then the first in line of the least priority number; it is ready, so the status assertion holds |
| `RunQueues.RunQueue.SleepCurrentThread` | src/kernel/task_manager/run_queue.rs:180-192 | the running thread leaves the queue and another is chosen by the same rule |
| `Scheduler.WakeKeeps` | src/kernel/task_manager/run_queue.rs:232-301 | adding an unqueued thread keeps the invariant |
| `Scheduler.SwitchKeeps` | src/kernel/task_manager/run_queue.rs:371-484 | each call keeps: one place per thread, lists strictly ordered, the running thread idle or the head of its active list; only a sleeping thread leaves, and idle runs exactly if nothing is queued |
| `Scheduler.SwitchChooses` | src/kernel/task_manager/run_queue.rs:371-484 | which thread a call chooses and what it does to the line of every priority, in terms of the lines before the call |
| `Scheduler.WakeLines` | src/kernel/task_manager/run_queue.rs:232-301 | a new thread goes to the end of its line, and a new look is asked for exactly if its priority number is larger than that of the running thread |
| `Scheduler.LeastIff` | src/kernel/task_manager/run_queue.rs:418-441 | the chosen thread has the least priority number of its lists, if and only if the running thread has no successor, or a new look was asked for, or no active thread has a smaller number than the running one |
| `Scheduler.SmallerNumberWaits` | src/kernel/task_manager/run_queue.rs:284-301 | a thread with a smaller number than the running one has to wait for the successor of the running one |
| `Scheduler.RunsKeepInv` | src/kernel/task_manager/run_queue.rs:232-484 | the same over every run of additions, calls and sleeps |
| `Scheduler.SwitchWait` | src/kernel/task_manager/run_queue.rs:397-459 | each call brings every waiting thread closer to running |
| `Scheduler.BoundedWait` | src/kernel/task_manager/run_queue.rs:397-459 | with N queued threads and no additions every queued thread runs within 2N calls, sleeps of others included |
| `Scheduler.EachRunsOnce` | src/kernel/task_manager/run_queue.rs:397-459 | between two swaps of the lists the threads of the active lists, and those added meanwhile, each run exactly once |
| `LinkedList.PtrLinkedList.InsertHead` | src/kernel/collections/ptr_linked_list.rs:39-55 | prepends to the sequence that head, tail, next and prev spell out; the assertions hold |
| `LinkedList.PtrLinkedList.InsertTail` | src/kernel/collections/ptr_linked_list.rs:57-71 | appends to it |
| `LinkedList.PtrLinkedList.InsertAfter` | src/kernel/collections/ptr_linked_list.rs:73-84 | inserts after the given node |
| `LinkedList.PtrLinkedList.InsertBefore` | src/kernel/collections/ptr_linked_list.rs:86-97 | inserts before the given node |
| `LinkedList.PtrLinkedList.Remove` | src/kernel/collections/ptr_linked_list.rs:99-127 | removes the node wherever it is and clears its links; the assertions hold |
| `LinkedList.PtrLinkedList.TakeFirstEntry` | src/kernel/collections/ptr_linked_list.rs:129-139 | takes the first node, or nothing from an empty list |
| `LinkedList.LinkAfter` | src/kernel/collections/ptr_linked_list.rs:231-239 | the four links of a node inserted after another |
| `LinkedList.LinkBefore` | src/kernel/collections/ptr_linked_list.rs:241-249 | the four links of a node inserted before another |
| `LinkedList.Cursor.Next` | src/kernel/collections/ptr_linked_list.rs:209-220 | hands out the node whose successor it has read |
| `LinkedList.Sweep` | src/kernel/collections/ptr_linked_list.rs:188-220 | an iteration that removes any of the nodes it is handed visits every original node once, in order, and leaves exactly the others |
| `Timers.LocalTimerManager.AddTimer` | src/kernel/timer_manager.rs:193-250 | the loop inserts before the first entry that its test names; without wrap-around that is the first that times out later; if every entry waits, so does every entry afterwards; nothing changes if the pool is empty |
| `Timers.InsertForIsInsert` | src/kernel/timer_manager.rs:222-241 | without wrap-around the comparison with the current tick never matters |
| `Timers.TimeoutAhead` | src/kernel/timer_manager.rs:80-86 | the timeout lies ahead of the current tick, on the circle of the counter, by the whole ticks of the wait |
| `TimerOrder.AddInOrderIff` | src/kernel/timer_manager.rs:222-241 | an addition keeps the list in the order in which the counter comes to the timeouts, wrap-around included, if and only if the comparisons meet no entry of the other round, as `Comparable` says |
| `TimerOrder.NextRoundBlocks` | src/kernel/timer_manager.rs:222-241 | close to the wrap-around a timer for this round is put behind one for the next and is not handed over when its time comes |
| `Timers.LocalTimerManager.LocalTimerHandler` | src/kernel/timer_manager.rs:252-308 | for every list, all flags and any room in the work queue: the entries that leave the list are due, those of them that waited are handed over and their flags are then Expired; the next one is not due, and the tick is remembered, or it found no room; no flag changes but these; with waiting entries and room for the due ones it hands over exactly those, in order |
| `Timers.HandledFlags` | src/kernel/timer_manager.rs:258-305 | the flags of exactly the handed over entries, and of one that is refused, change, from Waiting to Expired |
| `Timers.HandledPasses` | src/kernel/timer_manager.rs:258-305 | which entries leave the list, where the loop stops, and whether the tick is remembered |
| `Timers.DueOnCircle` | src/kernel/timer_manager.rs:262-266 | a timeout is due exactly if the counter has come to it since the last processed tick, wrap-around included |
| `Timers.HandedOverIff` | src/kernel/timer_manager.rs:258-305 | the due timers are all handed over, if and only if the work queue has room for them |
| `Timers.HandleSome` | src/kernel/timer_manager.rs:290-296 | else the first ones are, and the next one keeps its place with its flag set |
| `Timers.NotAgain` | src/kernel/timer_manager.rs:268-289 | an entry whose flag is not Waiting is dropped by a handler call and not handed over |
| `Timers.NeverAgain` | src/kernel/timer_manager.rs:193-308 | nor by any run of handler calls and additions, unless its entry is used for a new timer |
| `Timers.RefusedIsLost` | src/kernel/timer_manager.rs:290-296 | so a due timer that the work queue refuses is never handed over |
| `Timers.LocalTimerManager.ExpiredTimerListWorker` | src/kernel/timer_manager.rs:332-361 | an entry that was handed over runs once |
| `TimerRuns.HandleFacts` | src/kernel/timer_manager.rs:258-305 | a handler call hands over exactly the timers whose timeout has come and leaves only later ones |
| `TimerRuns.RunsKeepInv` | src/kernel/timer_manager.rs:193-308 | in every run of timely additions: each timer is handed over once, never early, by the first handler call at or after its timeout since it was added, in timeout order and first come first served on ties; every waiting timeout is above the last processed tick |
| `TimerRuns.StuckForever` | src/kernel/timer_manager.rs:262-305 | once the head timed out at or before the last processed tick, no run ever hands anything over again |
| `TimerRuns.ServedIffTimely` | src/kernel/timer_manager.rs:193-308 | a timer is handed over by some run, if and only if its timeout lies after the last processed tick when it is added |
| `TimerRuns.WholeTickIsTimely` | src/kernel/timer_manager.rs:84-86 | which it does for every wait of at least one tick |
| `TimerRuns.Drive` | src/kernel/timer_manager.rs:184-308 | a new manager follows every run of ticks, additions, handler calls and worker calls without wrap-around whose work is taken: its list, tick and handed over entries are those of the run; every timer that the worker takes has its callback called exactly once, and no other has; the invariant holds on timely runs |
| `TimerRuns.ShortWaitBlocks` | src/kernel/timer_manager.rs:84-86 | a wait below one tick, added at the tick just processed, blocks the queue |
| `TcpWindow.TcpSessionInfo.SendData` | src/kernel/network_manager/tcp.rs:528-648 | the consumed prefix of the data is appended to the stream in segments of the maximum size but the last, within the window; all that the window allows goes out if every lower layer takes its segment, else the first one that does not decides the result; InvalidSocket exactly for a session that is not open, or for a socket without a link once memory and header for a segment are there |
| `TcpWindow.QueueKeeps` | src/kernel/network_manager/tcp.rs:638-645 | a sent segment keeps: unacknowledged segments are exactly the rest of the stream, contiguous modulo 2^32 up to the next sequence number, and use up exactly the rest of the window |
| `TcpWindow.TcpSessionInfo.AckHandler` | src/kernel/network_manager/tcp.rs:672-720 | takes the step of the model; the 16-bit window never overflows |
| `TcpWindow.AckEffect` | src/kernel/network_manager/tcp.rs:672-720 | by where the segments end: a number that none ends at changes nothing; at the end of the oldest it is done with and its bytes are open in the window again; else the first that ends there goes and the window grows by the oldest |
| `TcpWindow.AckNumbers` | src/kernel/network_manager/tcp.rs:680-706 | a segment ends where the next one begins, or at the next sequence number |
| `TcpWindow.OldestKeeps` | src/kernel/network_manager/tcp.rs:682-693 | an acknowledgement of the oldest segment, or of none, keeps that |
| `TcpWindow.AckIsRightIff` | src/kernel/network_manager/tcp.rs:672-720 | after an acknowledgement the session still describes some position of its stream, if and only if it was for the oldest segment or for none |
| `TcpWindow.OldestOrNoneIff` | src/kernel/network_manager/tcp.rs:682-706 | that condition, read off the ends of the segments |
| `TcpWindow.LaterBreaks` | src/kernel/network_manager/tcp.rs:701-716 | an acknowledgement of a later segment leaves a session that fits no position |
| `TcpWindow.LaterAckLosesWindow` | src/kernel/network_manager/tcp.rs:706-714 | two segments of one and two bytes, and an acknowledgement of the second: the window gets one byte back |
| `TcpWindow.ExchangeKeeps` | src/kernel/network_manager/tcp.rs:528-720 | over every exchange the payloads concatenate to the stream and the window is the sum of its two parts |
| `Checksum.AddWordIsOnes` | src/kernel/network_manager/tcp.rs:377-387 | one end-around-carry addition computes the ones'-complement sum, without overflow of the carry |
| `Checksum.CalcChecksum` | src/kernel/network_manager/tcp.rs:377-387 | the loop computes the ones'-complement sum of the zero-padded words of any buffer |
| `Checksum.PseudoHeaderHolds` | src/kernel/network_manager/tcp.rs:358-375 | the pseudo-header holds both addresses, the protocol number and the length of header and data, most significant byte first |
| `Checksum.ComplementSums` | src/kernel/network_manager/tcp.rs:398-398 | a sum and its complement sum to 0xFFFF |
| `Checksum.SetChecksumIpv4` | src/kernel/network_manager/tcp.rs:350-399 | re-summing pseudo-header, with the contents that the protocol asks for, header with the stored checksum and payload gives 0xFFFF, and no other header byte changes |
| `Checksum.SetIpv4HeaderChecksum` | src/kernel/network_manager/ipv4.rs:171-184 | re-summing the header with the stored checksum gives 0xFFFF, and no other header byte changes |
| `UserStack.Build` | src/kernel/application_loader.rs:232-319 | for all NUL-free strings that fit, decoding the image from the entry pointer gives argc, the arguments and the key=value environment in order, ending in AT_NULL; strings and pointers never overlap, so the assertion holds; the image is a multiple of 8 bytes and less than 8 bytes longer than its contents |
| `UserStack.DecodingUnique` | src/kernel/application_loader.rs:232-319 | and that decoding has no other result |
| `UserStack.PutArguments` | src/kernel/application_loader.rs:270-284 | the argument loop: strings downwards from the top, pointers to them upwards |
| `UserStack.PutEnvironments` | src/kernel/application_loader.rs:288-310 | the environment loop, below the argument strings, which it leaves alone |
| `UserStack.PutEnvironment` | src/kernel/application_loader.rs:290-306 | the pieces of an entry make one key=value string |
| `UserStack.PutTail` | src/kernel/application_loader.rs:311-319 | the auxiliary vector is written over the null pointer after envp, and both still read as they should |
| `UserStack.ComputeOffset` | src/kernel/application_loader.rs:242-257 | the loops add up the room for strings, auxiliary vector and pointers |
| `UserStack.OffsetSnug` | src/kernel/application_loader.rs:242-257 | the image is a multiple of 8 bytes and less than 8 bytes longer than what it holds |
| `Ethernet.CutBuffers` | src/kernel/network_manager/ethernet_device.rs:164-170 | the loop of init cuts one allocation into buffers a frame apart |
| `Ethernet.EthernetDeviceManager.constructor` | src/kernel/network_manager/ethernet_device.rs:137-172 | 128 buffers, all in the pool; frames of up to 1500 bytes of data in two of them never overlap and lie within the allocation |
| `Ethernet.CutApart` | src/kernel/network_manager/ethernet_device.rs:164-170 | the buffers that the loop cuts lie apart by a frame with 1500 bytes of data, within the allocation |
| `Ethernet.EthernetDeviceManager.BeginSend` | src/kernel/network_manager/ethernet_device.rs:194-248 | a buffer moves from the pool to the end of the list under the next id; each error if and only if its condition, and then nothing changed |
| `Ethernet.EthernetDeviceManager.SendFailed` | src/kernel/network_manager/ethernet_device.rs:252-266 | the failed send finds its own entry or none, and gives exactly its own buffer back |
| `Ethernet.EthernetDeviceManager.UpdateTransmitStatus` | src/kernel/network_manager/ethernet_device.rs:289-321 | the first entry with the reported id completes, if there is one |
| `Ethernet.IdTells` | src/kernel/network_manager/ethernet_device.rs:239-257 | among sends that are fewer than 2^32 apart the id tells which |
| `Ethernet.NextKeeps` | src/kernel/network_manager/ethernet_device.rs:194-321 | each step keeps every buffer in the pool or on the list, once |
| `Ethernet.InterleavingsKeep` | src/kernel/network_manager/ethernet_device.rs:194-321 | in every interleaving of sends, driver failures and completions, with fewer than 2^32 sends per outstanding one, the 128 buffers stay distinct and each is pooled or listed |
| `Ethernet.Drive` | src/kernel/network_manager/ethernet_device.rs:194-321 | the manager follows every such interleaving: its pool, its list and the sends it serves are those of the model after each step |

## Left out

- PhysicalMemory.PhysicalMemoryManager.Alloc: requires that no block it could choose leaves a remainder of one byte, the case in which the assertion of set_range stops the kernel; `Alignment.PagesFitCleanly` shows that whole pages never do.
- PhysicalMemory.PhysicalMemoryManager.DefineUsedMemory: requires the same of the given block, and a block inside one entry if an entry holds its first byte.
- PhysicalMemory.PhysicalMemoryManager.ReserveMemory: requires the same of the aligned block.
- PhysicalMemory.PhysicalMemoryManager.Free: stated for the blocks that `CanFree` allows; for all others `FreeCondition.FreeIsRightIff` shows that the list is left wrong.
- PhysicalMemory.PhysicalMemoryManager.DefineFreeMemory: the same.
- HeapRuns.Drive: calls for whole pages; a free that `CanFree` excludes, or a reservation that reaches past the end of the entry it starts in, is not made.
- Paging.PageManager.UnassociateAddress: when pm_manager.free refuses a table frame, only the translation and the accounts are stated, not that the remaining tables are in use.
- BulkMapping.AssociateArea: after an error of a call that is not aligned the contract says why it failed, which tables are lost and where every frame is, but not how far the range was mapped.
- BulkMapping.UnassociateAddressWithSize: only the tables on the path of the first page are collected, as in the code; for a range that was not mapped all over the contract gives the aligned case only, in which it is unmapped or an entry is not found.
- AddressSpace.MemoryManager.AllocPages: regions are placed in the allocation window only; explicitly placed and I/O mappings, shared objects and frames that must not be freed are not modelled.
- AddressSpace.Serve: the physical memory manager is a set of frames here, with a refill of its entry pool at any time; that the heap of the manager behaves like such a set is `FrameStore.TakeFrames` and `FrameStore.GiveFrames`.
- Timers.LocalTimerManager.AddTimer: requires that the pool hands out an entry that is not on the list.
- TcpWindow.TcpSessionInfo.AckHandler: the open session only; the handshake and closing branches are not modelled.
- UserStack.Build: requires that the image fits the stack and that no string holds a NUL; the code does not look at either.
- VirtualMemory.FindUsableMemoryArea: requires a positive size, without which the last address of the range does not exist; options that select none of the three windows stop the kernel and are not modelled.
- RunQueues.RunQueue.AddThread: requires that the thread is not queued yet and that no other thread of the queue is locked, as its comment asks of the caller.
- TimerRuns.RunsKeepInv: runs in which the 64-bit tick counter does not wrap and the work queue takes every entry; one addition or handler call with wrap-around is `TimerOrder.AddInOrderIff` and `Timers.DueOnCircle`, refused entries are `Timers.HandleSome` and `Timers.RefusedIsLost`.
- Locks, interrupts, cache and TLB maintenance, context switching: each locked region is one step.
- 64-bit overflow of addresses and sizes in the memory modules: addresses are unbounded there; sequence numbers, ids, ticks, words and the window of the other modules have their width.
- Pools for region and page records, and the refill that drops the lock: taken to suffice.
- Root selection and canonical addresses of the page manager: the model starts from a given root and a canonical address.
- Time slices, tick, remove_thread and the number of threads of the run queue.
- TCP receive side, retransmission, sockets; Ethernet receive side.
- x86_64 paging, slab allocator, file systems, drivers, ELF loading: not modelled.
