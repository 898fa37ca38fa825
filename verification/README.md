# QEMU 1.6.2: guest memory map and block requests

A Dafny model of two parts of QEMU and proofs about them. `dafny verify dfyconfig.toml` checks all of it.

**The guest memory map.** A graph of overlapping, prioritised, aliased memory regions is flattened into a
sorted list of ranges. The list is compared with the previous one and the difference is sent to listeners,
each of which keeps its own index. Every stage represents one function from an address to a region and an
offset. `Rendering.ResolveAt` is that function, read directly off the graph; everything else is proved
against it. `Routes` says what it means without recursion.

| module | source | content |
|---|---|---|
| `FlatViews`, `Simplification` | memory.c | ranges, views, their meaning, the normal form |
| `Rendering`, `Routes`, `Overflow` | memory.c | `ResolveAt`, what it means, the renderer, and when it stops the program |
| `TopologyDiff` | memory.c | the two passes that tell listeners what changed |
| `Transactions`, `TransactionRuns` | memory.c | nested transactions over a changing graph, and whole runs of them |
| `PhysMap`, `SectionCount`, `Dispatch` | exec.c | the page tree, how many sections a view takes, the map that all address spaces share |
| `Kvm`, `KvmTracking` | kvm-all.c | the slot table, and the table over whole updates |
| `Dump`, `DumpLayout`, `DumpFile` | dump.c, memory_mapping.c | the block list, the two walks over it, the headers, the whole file |
| `RamBlocks` | exec.c | RAM block allocation and lookup |
| `Pipeline` | all of these | the stages put together |

**Block requests.**

| module | source | content |
|---|---|---|
| `CopyOnRead` | block.c | interleaved requests as a state machine |
| `ImageChain` | block.c | allocation queries over a chain, commit |
| `ByteIo` | block.c | byte requests built from sector requests |
| `Dma` | dma-helpers.c | scatter-gather transfers in batches |

`Arithmetic` and `Runs` hold facts about division and about runs of addresses. `Drivers` counts the failures of
calls into code outside the model.

Pointers between regions become keys of a map, `Int128` becomes `int`, and 64-bit wrap-around is written
out (`Wrap64`, `Sub64`) where the source relies on it. Page size, fan-out and depth of the page tree,
cluster size and table sizes are parameters. Driver callbacks and mappings may fail at any call; operations
say that they fail only if such a call did. Where the source aborts, the model returns a failure or carries the asserted
condition as a precondition.

## What the code does that its description does not say

- Moving a root region outside the pending flag leaves a stale view: `memory_region_set_address` on a
  region without a parent sets no flag (memory.c:1512-1515), and adding a root to a disabled parent moves
  it without one. The view stays right if and only if the root did not move, or showed nothing before and
  shows nothing now (`Transactions.MovedRootIsStale`; `Transactions.StaleRootExample` is an instance).
- Rendering stops the program when one turn of its loop moves on by 2^64 bytes, which does not fit 64 bits
  (memory.c:567, memory.c:574). That happens if and only if the first terminating region rendered covers all
  2^64 addresses and a later one does so too (`Rendering.OverflowsIff`), for instance a terminating root of
  2^64 bytes under a subregion of the same size (`Rendering.TwoHugeOverflow`).
- Page-tree lookups beyond the width of the tree alias pages inside it, so they say "unassigned" only where
  the aliased page is unassigned (`PhysMap.FindWraps`, `Dispatch.AddressSpaceDispatch.Translate`).
- Building the dispatch structures stops the program exactly when the views take more sections than a page has
  bytes (`SectionCount.TotalCost`), or else when node numbers run out, which some page sizes and tree depths
  leave room for (`Pipeline.ResolveThroughDispatch`, `Dispatch.EnoughNodes`).
- The branch of `mem_add` for a page-sized piece at an unaligned address (exec.c:874-876) is dead
  (`Dispatch.AddressSpaceDispatch.MemAdd`).
- The comment in `kvm_set_phys_mem` says it copes with unaligned sections (kvm-all.c:643-644). It pads the
  start by what the *size* lacks to a page, so it takes all whole pages of a section or none of them
  (`Kvm.ClampExact`, `Kvm.ClampLosesPage`).
- A KVM slot or section that ends at 2^64 has end address 0, and the overlap lookup does not see it. A call
  leaves disjoint slots and the right mapping if and only if no slot overlaps its range unseen
  (`Kvm.RangeSetIff`). Removing a section that ends at 2^64 does nothing (`Kvm.TopRemoveIff`), so a table
  that was right follows an update if and only if it removes no such section (`KvmTracking.Follow`).
- RAM that ends at 2^64 has end address 0 in the dump too: no program header announces any of it, and any
  filter drops it (`Dump.TopRamUnannounced`, `DumpFile.DumpGuestMemory`).
- The comment on `bdrv_co_is_allocated_above` includes the base image (block.c:3052-3054); the loop stops
  before it. It answers for zero sectors exactly when the sector lies past the end of the top image
  (`ImageChain.IsAllocatedAbove`).
- A successful `bdrv_commit` returns 1 exactly when the driver has no `bdrv_make_empty` and the last sector of
  the overlay is allocated (`ImageChain.CommitJob.Commit`).
- A DMA transfer that reports success moved every byte if and only if every batch was a whole number of
  sectors (`Dma.DmaAiocb.SuccessMovesEverything`); entries and mappings of whole sectors are enough for that
  (`Dma.DmaAiocb.WholeSectorsSuffice`). At an empty list entry a transfer waits for ever
  (`Dma.DmaAiocb.Reschedule`).
- `find_ram_offset` never uses the free space below the first block, and a size in the last page of the
  address space rounds to zero (`RamBlocks.FindRamOffset`, `RamBlocks.PageAlignRounds`).

## Model

| member | source | states |
|---|---|---|
| `FlatViews.IntersectsIffCommonAddress` | memory.c:85-95 | two non-empty ranges intersect exactly when they have an address in common |
| `FlatViews.Intersection` | memory.c:97-102 | the intersection contains exactly the common addresses |
| `FlatViews.LookupInsert` | memory.c:273-285 | inserting a range where it fits maps its addresses and changes no other |
| `Simplification.MergeStep` | memory.c:330-334 | one turn of the merging loop keeps order, meaning and the merged prefix |
| `Simplification.NormalFormUnique` | memory.c:310-340 | two sorted views without mergeable neighbours and with the same lookup are the same list |
| `Rendering.FlatView.Simplify` | memory.c:323-340 | every lookup is kept and no mergeable neighbours remain |
| `Rendering.FlatView.MergeRun` | memory.c:329-338 | one range is grown over all successors it can be merged with; lookups and order are kept |
| `Rendering.FlatView.PassRange` | memory.c:559-575 | passing one range fills the gap before it and skips what it hides; a length is 2^64 exactly when that much remains and the range covers it or lies beyond it |
| `Rendering.FlatView.RenderSelf` | memory.c:545-581 | a region fills exactly the gaps inside its clip, at the right offsets; the 64-bit abort happens exactly when the clip is 2^64 bytes and the view covers it by one range or has ranges only beyond it |
| `Rendering.FlatView.RenderVisit` | memory.c:541-581 | seen from any window of 2^64 bytes around the clip, rendering one region is one step of how the view occupies the window, and that step alone decides the abort |
| `Rendering.FlatView.RenderSubregions` | memory.c:536-539 | the first subregion in list order that maps an address wins it |
| `Rendering.FlatView.RenderOwn` | memory.c:536-581 | the region itself shows only where no subregion does |
| `Rendering.FlatView.Render` | memory.c:500-582 | for every graph, base, clip and sorted view: the view stays sorted, mapped addresses keep their mapping, every other address of the clip gets exactly what `ResolveAt` says; the abort is decided by the occupancy before and by which of the regions visited cover a 2^64-byte window |
| `Rendering.GenerateTopology` | memory.c:585-599 | the result is the flat view of the root: sorted, merged, meaning `ResolveAt` on all 2^64 addresses; the program stops exactly if `Overflows` |
| `Rendering.OverflowsIff` | memory.c:545-599 | rendering a root stops the program if and only if the first terminating region visited takes the whole address space and another one is rendered over all of it later |
| `Rendering.OverflowNeedsHuge` | memory.c:545-599 | a graph without an enabled terminating region of 2^64 bytes never stops the program |
| `Rendering.TwoHugeOverflow` | memory.c:545-599 | a terminating root of 2^64 bytes under a terminating leaf over all of it stops the program |
| `Overflow.OccStep` | memory.c:545-581 | rendering into a clip changes the occupancy of every window around it by one step |
| `Overflow.OccAt` | memory.c:553-581 | the first range that ends after the start of a clip decides alone how the view occupies it |
| `Overflow.BareTrips` | memory.c:585-599 | from an empty view a sequence of visits trips exactly when the first is full and a later one is full too |
| `Rendering.FlatViewUnique` | memory.c:585-599 | a root has exactly one flat view |
| `Routes.ResolvedHasRoute` | memory.c:500-582 | whatever an address resolves to is at the end of a route: enabled regions that hold the address, each an alias target or subregion placed in the one before; the offset and attributes are the last one's, read-only if any of them is |
| `Routes.RouteResolves` | memory.c:500-582 | an address that some route leads on resolves to something |
| `Routes.FirstWins` | memory.c:536-539 | of several subregions that resolve an address the first in the list wins |
| `TopologyDiff.Pass` | memory.c:695-755 | the two-cursor walk emits the events defined range by range; the adding pass reports every new range once and in order |
| `TopologyDiff.AddEventMeans` | memory.c:711-754 | a range is reported as new exactly if the old view lacks it, else as kept; logging starts or stops right after its range was reported as kept, and only if it changed |
| `TopologyDiff.ReportedIsNew` | memory.c:711-754 | the ranges reported as new or kept are the new view |
| `TopologyDiff.DiffReplays` | memory.c:695-764 | a listener that mirrored the old view mirrors the new one after both passes, logging included |
| `TopologyDiff.DiffKeepsDisjoint` | memory.c:695-764 | after every single event the listener's ranges are pairwise disjoint |
| `TopologyDiff.AddEventsAscend` | memory.c:711-754 | additions and nops come in ascending address order |
| `TopologyDiff.MatchIffKey` | memory.c:253-260 | a range is kept exactly when one that differs at most in its log mask is in the other view |
| `Transactions.MemoryModel.constructor` | memory.c:28-29 | nothing is registered and everything is in step |
| `Transactions.MemoryModel.TransactionBegin` | memory.c:782-786 | depth grows by one; whether views are right or flagged does not change |
| `Transactions.MemoryModel.TransactionCommit` | memory.c:788-804 | the outermost commit with the flag raised makes every view and every listener show the current graph, and stops the program exactly if rendering some root does; any other commit changes neither views nor listeners |
| `Transactions.MemoryModel.UpdateAll` | memory.c:798-800 | every address space is brought up to date; the program stops exactly if rendering some root does |
| `Transactions.MemoryModel.UpdateTopology` | memory.c:758-780 | the new view is the flat view of the root and the listener's mirror follows it, told first what goes and then what comes, so that after every event its ranges are disjoint; the program stops exactly if rendering the root does |
| `Transactions.MemoryModel.SetEnabled` | memory.c:1495-1504 | views stay right or flagged; the flag goes up exactly on a change |
| `Transactions.MemoryModel.SetReadonly` | memory.c:1220-1228 | views stay right or flagged, although a change in a disabled region raises no flag |
| `Transactions.MemoryModel.SetRomd` | memory.c:1230-1238 | views stay right or flagged, although a change in a disabled region raises no flag |
| `Transactions.MemoryModel.SetLog` | memory.c:1163-1171 | views stay right or flagged; the flag goes up exactly if the region is enabled |
| `Transactions.WithLogSwitches` | memory.c:1163-1171 | logging is switched for the client given and stays as it is for the others |
| `Transactions.MemoryModel.SetAliasOffset` | memory.c:1529-1541 | views stay right or flagged, although a change in a disabled region raises no flag |
| `Transactions.MemoryModel.InitRegion` | memory.c:830-864 | a new region or alias changes no view |
| `Transactions.MemoryModel.InitAddressSpace` | memory.c:1708-1725 | a new address space, empty at first, is shown right or flagged; the flag goes up exactly if its root is enabled |
| `Transactions.MemoryModel.FindPosition` | memory.c:1450-1456 | the position before the first subregion whose priority is not higher |
| `Transactions.MemoryModel.AddSubregion` | memory.c:1418-1481 | the subregion gets the address, priority and overlap flag given and its parent, and stands before the first one of no higher priority; nothing else of the graph changes, and the flag goes up exactly if both are enabled; views stay right or flagged unless an enabled root moves unflagged |
| `Transactions.MemoryModel.DelSubregion` | memory.c:1483-1493 | the subregion loses its parent and its place in the list; nothing else of the graph changes, and the flag goes up exactly if both were enabled; views stay right or flagged |
| `Transactions.MemoryModel.SetAddress` | memory.c:1506-1527 | the region gets the address on every path: in place, or taken out of its parent and put back before the first one of no higher priority, with its priority if it may overlap and with 0 otherwise, nothing else changing; views stay right or flagged unless an enabled root moves and nothing raises the flag; moving a region without a parent whose view is not empty makes the view stale and raises no flag |
| `Transactions.MemoryModel.MoveInPlace` | memory.c:1512-1515 | moving a region without a parent keeps views right unless it is an enabled root, and makes them stale if it is a root with a non-empty view |
| `Transactions.ViewSurvives` | memory.c:1163-1171 | a change no enabled region shows, and that leaves the root in place, keeps the flat view right |
| `Transactions.QuietAttach` | memory.c:1418-1461 | adding a subregion shows nothing when it or its parent is disabled |
| `Transactions.QuietDetach` | memory.c:1483-1493 | removing a subregion shows nothing when it or its parent is disabled |
| `Transactions.ResolveShift` | memory.c:500-582 | what a region resolves to is relative to where it is placed |
| `Transactions.MovedRootIsStale` | memory.c:1506-1516 | after a change that shows nothing else the view of a root is right if and only if the root was not moved, or its view was empty and it shows nothing at its new place |
| `Transactions.EmptyRootMoved` | memory.c:1506-1516 | an empty view is right after the move if and only if the root, as it was, shows nothing at the new place |
| `Transactions.StaleRootExample` | memory.c:1506-1516 | a root region whose view goes stale when it moves |
| `TransactionRuns.Do` | memory.c:782-804 | any operation a caller may use has its effect on the graph and keeps views right or flagged, unless it moves an enabled root unflagged |
| `TransactionRuns.Run` | memory.c:782-804 | after any run of operations, transactions nested in any way, the views are right or flagged, and outside a transaction all are right, provided the run moves no root of an address space |
| `TransactionRuns.RightView` | memory.c:758-780 | a right view is the flat view of its root, and the listener mirrors it |
| `PhysMap.PhysPageMap.Find` | exec.c:211-225 | the loop returns what the recursive lookup finds |
| `PhysMap.PhysPageMap.Reserve` | exec.c:139-149 | capacity for the requested nodes, nodes untouched |
| `PhysMap.PhysPageMap.NodeAlloc` | exec.c:151-164 | an empty node at the end of the array, within the reservation; fails exactly when the next number is the reserved one |
| `PhysMap.PhysPageMap.SetLevel` | exec.c:166-199 | sets exactly the pages of the entry's part of the range, advances index and count past them, stays within the node budget of its level; fails only with all node numbers used and the budget beyond them |
| `PhysMap.PhysPageMap.SetNode` | exec.c:183-198 | the slot walk of one node does so for the node |
| `PhysMap.PhysPageMap.PageSet` | exec.c:201-209 | free pages: the lookup becomes the leaf exactly on the range, every other page and every other tree in the shared array is unchanged, at most 2 * levels - 1 nodes are allocated and the reservation covers them; fails only with all node numbers used |
| `PhysMap.OtherRoots` | exec.c:166-209 | trees of other address spaces stay well formed and answer as before |
| `PhysMap.FindWraps` | exec.c:211-225 | a lookup depends on the page only modulo the width of the tree |
| `Dispatch.NextMap.constructor` | exec.c:1735-1751 | the new shared map holds the sections unassigned, not dirty, ROM and watch, in this order, and no node |
| `Dispatch.AddressSpaceDispatch.constructor` | exec.c:1712-1720 | over any shared map a new dispatch represents the empty view |
| `Dispatch.AddressSpaceDispatch.LookupRegion` | exec.c:233-247 | page lookup then sub-page table give the section of that byte, of the page modulo the width |
| `Dispatch.AddressSpaceDispatch.AddSection` | exec.c:769-786 | a new section index, every address still reaching what it did; fails exactly when no number is left |
| `Dispatch.AddressSpaceDispatch.SubpageRegister` | exec.c:1644-1662 | exactly the bytes lo to hi of pages owned by that table reach the section; refused exactly when they leave the page |
| `Dispatch.AddressSpaceDispatch.NewSubpage` | exec.c:1664-1682 | a table for a free page, every address still reaching what it did; takes one section |
| `Dispatch.AddressSpaceDispatch.RegisterSubpage` | exec.c:810-836 | the view gains the sub-page range and the assertion on the existing section holds; takes one section, and one more exactly if the page has no table |
| `Dispatch.AddressSpaceDispatch.RegisterMultipage` | exec.c:839-849 | the view gains the range of whole pages; takes one section |
| `Dispatch.AddressSpaceDispatch.MemAdd` | exec.c:851-882 | splitting into head, pages and tail adds exactly the range, or a number runs out, of sections exactly if `RangeCost` is more than are left; the unaligned page-sized branch is dead |
| `Dispatch.AddressSpaceDispatch.AddAll` | exec.c:851-882 | for every sorted view within the width either a number runs out, of sections exactly if `ViewCost` is more than are left, or the structure represents the view; trees of other address spaces in the shared map are as before |
| `Dispatch.AddressSpaceDispatch.StaysRepresented` | exec.c:166-209 | what a dispatch represents stays when another dispatch adds nodes, sections and pages to the map they share |
| `Dispatch.BeginAll` | exec.c:1712-1720 | at the start of a commit every address space gets a tree of its own in the shared map, and represents the empty view |
| `Dispatch.FillAll` | memory.c:788-804 | one commit fills the dispatches of all address spaces from one shared map; either a number runs out, of sections exactly if `TotalCost` is more than are left, or in the end each represents its own view |
| `Dispatch.EnoughNodes` | exec.c:151-164 | with (page - 4) * (2 * levels - 1) nodes the numbers never run out |
| `Dispatch.AliasedInWidth` | exec.c:211-225 | an address aliases one inside the width, itself if it is inside |
| `SectionCount.AtMostFive` | exec.c:851-882 | a range takes at most five sections |
| `SectionCount.AlignedTakesOne` | exec.c:851-882 | a view of whole pages takes exactly one section for each range |
| `Dispatch.AddressSpaceDispatch.Translate` | exec.c:249-266 | every address gets what the view says of the address it aliases, which inside the width is itself: region, offset plus the distance, read-only flag, or the unassigned section |
| `Dispatch.AddressSpaceDispatch.BeyondWidthAliases` | exec.c:211-225 | beyond the width a page reaches what it reaches modulo the width |
| `Kvm.ClampExact` | kvm-all.c:643-654 | the clamp yields exactly the whole pages of a section if start and size are equal modulo the page, and nothing otherwise |
| `Kvm.ClampLosesPage` | kvm-all.c:643-654 | a section that holds a whole page and gets no slot |
| `Kvm.KvmState.AllocSlot` | kvm-all.c:123-135 | a free slot, none exactly when all are used |
| `Kvm.KvmState.LookupOverlappingSlot` | kvm-all.c:158-180 | the overlapping slot with the lowest start among those that do not end at 2^64, none exactly when none of these overlaps |
| `Kvm.KvmState.SplitSlot` | kvm-all.c:680-758 | one slot loses exactly the section; prefix and suffix stay mapped as they were; fails only when the table is full and a piece is left over |
| `Kvm.KvmState.SetRange` | kvm-all.c:668-786 | below 2^64 the slots the lookup sees lose the range and, if it is added, map it anew, and are unchanged outside it, slots that end at 2^64 staying; a range that ends at 2^64 only adds its slot or does nothing; at most two more slots are used, two free slots are enough, the loop ends |
| `Kvm.KvmState.SetPhysMem` | kvm-all.c:629-787 | the same for the whole pages of a section: RAM is added or removed; a device that is not writeable is added if read-only slots are allowed and it is in romd mode and removed if it is not; other devices change nothing; stops on a section of 2^64 bytes and otherwise only for want of slots |
| `Kvm.MapsFunctional` | kvm-all.c:158-180 | disjoint slots give an address at most one host address |
| `Kvm.RangeSetIff` | kvm-all.c:158-180 | from disjoint slots a call leaves disjoint slots and the right mapping if and only if no slot overlaps the range unseen, that is with slot or range ending at 2^64 |
| `Kvm.TopSlotUnseen` | kvm-all.c:158-180 | a slot that ends at 2^64 is found by no lookup, whatever it overlaps |
| `Kvm.TopRemoveIff` | kvm-all.c:680-762 | removing a range that ends at 2^64 is right if and only if no slot overlaps it |
| `Kvm.TopSlotStays` | kvm-all.c:158-180 | a slot in the last page of the address space that stays when its section is removed |
| `Kvm.TopAddIff` | kvm-all.c:764-786 | adding a slot keeps the table disjoint if and only if no slot overlaps it, and then maps exactly its range |
| `KvmTracking.HandledTracks` | kvm-all.c:789-801 | one callback changes what its own range contributes and nothing else |
| `KvmTracking.SlottedIff` | kvm-all.c:643-664 | a range gets a slot exactly if its clamp is a range and it is RAM, or a device not writeable, in romd mode, with read-only slots allowed |
| `KvmTracking.CallIsRight` | kvm-all.c:789-801 | a callback keeps the table right unless it takes out a range whose slot ends at 2^64 |
| `KvmTracking.StaleIsWrong` | kvm-all.c:158-180 | once such a range went, its slot stays and no later callback of the update makes the table right |
| `KvmTracking.StepAlone` | memory.c:695-764 | when a range is announced as gone or new, the listener holds nothing else that overlaps it |
| `KvmTracking.Follow` | kvm-all.c:789-801 | over a whole topology update a table that was right for the old view has disjoint slots and maps what the new view gives if and only if no range whose slot ends at 2^64 goes; two free slots per range of either view and no range of 2^64 bytes are enough for success |
| `Dump.GuestPhysBlocks.RegionAdd` | memory_mapping.c:196-257 | blocks stay ordered and maximal and gain exactly the section |
| `Dump.GuestPhysBlocks.Append` | memory_mapping.c:259-267 | the blocks give exactly the RAM addresses of the view their host addresses, up to the last address; stops exactly on a RAM range of 2^64 bytes |
| `Dump.DumpState.GetOffsetRange` | dump.c:420-479 | an offset is given exactly for stored addresses, those of a block that ends at 2^64 not being stored; whatever one block holds from there on is at that offset; the announced bytes are those the memory part holds there, and the whole mapping is announced exactly if it lies in what one block keeps or ends at 2^64 |
| `Dump.DumpState.WriteMemory` | dump.c:394-417 | page by page the run is written in order and in full; fails exactly if a write does |
| `Dump.DumpState.GetStartBlock` | dump.c:689-715 | the first kept block and the offset into it; refused exactly when the filter keeps no block |
| `Dump.DumpState.GetNextBlock` | dump.c:615-640 | the next kept block; skipped blocks hold no byte of the file |
| `Dump.DumpState.DumpIterate` | dump.c:643-670 | the file gains exactly the kept bytes of all blocks in order; fails exactly if a write does |
| `Dump.AnnouncedInFile` | dump.c:420-479 | an announced byte is found at the announced offset of a header followed by the memory part |
| `Dump.TopRamUnannounced` | dump.c:420-479 | RAM that ends at 2^64 is written without a filter but not announced, and dropped by every filter |
| `DumpLayout.PlanLayout` | dump.c:789-829 | the header counts fit their 16 and 32 bit fields; the section header is there exactly from 65533 mappings on, with the escape value in the 16-bit count; there is one program header per mapping exactly below 2^32 - 1 mappings; the memory part starts after headers and notes of the ELF sizes |
| `DumpLayout.AddSorted` | memory_mapping.c:24-36 | a mapping goes before the first one that starts no earlier |
| `DumpLayout.FilterMappings` | memory_mapping.c:325-350 | exactly the addresses of the window stay mapped, at their virtual addresses, except those of mappings that end at 2^64; no empty mapping is left |
| `DumpFile.SimpleMappings` | memory_mapping.c:314-323 | the sorted list is one mapping per block, in order and of the block's length |
| `DumpFile.Mappings` | dump.c:773-787 | without paging the filtered list holds exactly what each kept block keeps |
| `DumpFile.WriteElfLoads` | dump.c:481-517 | one program header per mapping, in order, up to the count in the headers, each with the right offset and size |
| `DumpFile.DumpBegin` | dump.c:520-606 | the headers and notes end exactly at the planned memory offset; every mapping has its program header exactly below 2^32 - 1 mappings |
| `DumpFile.DumpGuestMemory` | dump.c:672-842 | in the finished file every announced byte of a mapping below 2^64 is the guest's byte at that address; without paging all of a mapping is announced, or nothing if it ends at 2^64, and every stored address is announced; refused exactly when there is a filter and every block is outside its window or ends at 2^64; a write is reported as failed exactly if one failed |
| `RamBlocks.FindRamOffset` | exec.c:1005-1038 | offset 0 for the first block, else the end of a block with a smallest sufficient gap after it; the abort happens exactly when no gap suffices |
| `RamBlocks.FindNext` | exec.c:1020-1024 | the inner loop finds the next block offset at or after an end |
| `RamBlocks.NextIsAttained` | exec.c:1020-1024 | that offset is a block's or the top of the address space |
| `RamBlocks.FitsApart` | exec.c:1005-1038 | a block at the picked offset overlaps no other |
| `RamBlocks.PageAlignRounds` | exec.c:1117 | sizes round up to a page multiple, except those in the last page, which wrap to zero |
| `RamBlocks.RamList.constructor` | exec.c:59 | an empty list |
| `RamBlocks.RamList.Alloc` | exec.c:1112-1166 | blocks stay disjoint and ordered by falling length, the new block is a best fit placed before the first shorter one, the cache is cleared; fails exactly on wrapped size or no gap |
| `RamBlocks.RamList.Free` | exec.c:1190-1206 | exactly the block at the offset goes, if there is one, and the order stays |
| `RamBlocks.RamList.GetRamBlock` | exec.c:1309-1330 | the cached lookup returns what the linear search returns, the block that holds the address, under wrapping subtraction |
| `RamBlocks.WrapTest` | exec.c:1313-1320 | the wrapping comparison is membership in the block |
| `Pipeline.WithinIffNothingBeyond` | memory.c:585-599 | a flat view lies within a limit exactly when the graph maps nothing beyond it |
| `Pipeline.RenderAll` | memory.c:788-804 | all roots are rendered; the program stops exactly if rendering some root does |
| `Pipeline.ReportAll` | exec.c:1799-1808 | whatever the views were before, the dispatch listeners are told every range of the new ones |
| `Pipeline.ResolveThroughDispatch` | exec.c:233-266 | from a graph to the views of all roots, to what the listeners are told whatever the views were before, to their page trees in one new shared map, to a lookup of any address in any of them: the answer is what `ResolveAt` says for its root at the address it aliases, or the program stops: exactly if rendering some root does, or the views take more sections than there are, or nodes run out |
| `Pipeline.SlotsServeTree` | kvm-all.c:629-787 | whatever a slot maps is the host memory of what the graph resolves to |
| `Pipeline.AlignedTreeIsServed` | kvm-all.c:629-787 | with page-aligned ranges every RAM address of the graph has its slot, and so has every address of a read-only device in romd mode that the kernel can map |
| `Pipeline.CollectBlocks` | memory_mapping.c:259-267 | the dump's blocks hold exactly the RAM of the graph, each byte at its host address; the program stops exactly if rendering the root does |
| `CopyOnRead.RoundedEnds` | block.c:1896-1912 | rounding covers exactly the clusters a request touches |
| `CopyOnRead.OverlapIffSharedCluster` | block.c:1914-1949 | the condition of the wait loop holds exactly when the two requests share a cluster |
| `CopyOnRead.AdmitStep` | block.c:2526-2534 | a request admitted past the wait, or past the in-flight counter, is tracked and keeps exclusion |
| `CopyOnRead.StoreStep` | block.c:2465-2480 | the write-back stores exactly what the guest sees already |
| `CopyOnRead.WriteStep` | block.c:2613-2667 | a guest write reaches no buffer of a copy-on-read in flight |
| `CopyOnRead.FinishStep` | block.c:1866-1870 | untracking wakes the waiters and keeps the invariant |
| `CopyOnRead.FinishWakes` | block.c:1866-1870 | exactly the requests that waited for the one that finished are woken |
| `CopyOnRead.RunKeepsInv` | block.c:1866-1961 | the invariant holds after every interleaving |
| `CopyOnRead.CopyOnReadExclusive` | block.c:1927-1961 | in every run a tracked copy-on-read shares no cluster with another tracked request |
| `CopyOnRead.CopyOnReadInvisible` | block.c:2434-2498 | in every run the guest sees its last write to a sector, or the initial contents |
| `CopyOnRead.WriteIsSeen` | block.c:2613-2667 | each sector of a write request that ended well was written in the run with the request's data, and the guest sees that data unless a later write replaced it |
| `CopyOnRead.CopyOnReadReturnsContents` | block.c:2434-2498 | a copy-on-read hands out what the guest should see, both when it reads sectors that are allocated and when it stores what it fetched, and when ready to succeed it holds every sector it was asked for |
| `CopyOnRead.CopyOnReadCopies` | block.c:2434-2498 | in every run a copy-on-read that is ready to succeed or did has every sector it covers in the image, and every sector of its clusters if it stored what it fetched |
| `CopyOnRead.CopyStays` | block.c:2434-2498 | what it copied stays in the image whatever runs afterwards |
| `CopyOnRead.ReadReturnsSeen` | block.c:2500-2560 | any read hands out, sector by sector, what the guest saw when the driver fetched that sector |
| `CopyOnRead.WaitsForRunning` | block.c:1927-1961 | who waits, waits for a tracked request, so waits form no cycle and no wake-up is lost |
| `CopyOnRead.NeverStuck` | block.c:1927-1961 | while a request is present some request can go on without a failure |
| `ImageChain.IsAllocated` | block.c:2990-3011 | the answer holds for all sectors it covers, which end at the image; none are covered exactly past the end; an error is the driver's |
| `ImageChain.IsAllocatedAbove` | block.c:3061-3098 | 1: all sectors allocated in one layer above base, the first of them in no layer higher up; 0: none allocated in any layer above base, for any mix of image lengths; an error is a driver's |
| `ImageChain.CommitJob.CopyRun` | block.c:1810-1820 | copying a run is invisible to the guest, whether or not it succeeds; it succeeds exactly if the backing device is long enough and no driver call fails |
| `ImageChain.CommitJob.Commit` | block.c:1771-1844 | in every outcome the guest reads what it read before; on success the backing image alone reads that way, the overlay is empty if it can be emptied, and the code is 1 exactly if it cannot and its last sector is allocated; it succeeds exactly if it is not refused, no driver call fails and the backing image is long enough; otherwise the overlay is unchanged unless emptying it failed, and refusals change nothing |
| `ByteIo.SplitOffset` | block.c:2305-2312 | the sector, the bytes before the offset and the bytes that complete the sector |
| `ByteIo.ByteDevice.Pread` | block.c:2295-2338 | a read returns exactly the slice, for every offset and length; it succeeds exactly if its sectors are on the disk and no driver call fails |
| `ByteIo.ByteDevice.PatchSector` | block.c:2355-2366 | read, patch, write back changes exactly the patched bytes; it succeeds exactly if the sector is on the disk and no driver call fails |
| `ByteIo.ByteDevice.Pwritev` | block.c:2340-2395 | a successful write changes exactly the requested bytes, a failed one nothing outside the sectors they lie in; it succeeds exactly if those sectors are on the disk and no driver call fails |
| `ByteIo.ReadAfterWrite` | block.c:2295-2395 | reading what was written succeeds unless a driver call fails, and returns it |
| `Dma.DmaAiocb.constructor` | dma-helpers.c:199-220 | a started transfer satisfies the invariant, for any list: what was issued is a prefix of the list, batches that finished well moved all but the batch in flight |
| `Dma.DmaAiocb.MapNext` | dma-helpers.c:153-163 | a mapped piece is the next piece of the list, whatever length was mapped; it fails exactly if the entry is empty or the mapping fails |
| `Dma.DmaAiocb.FillBatch` | dma-helpers.c:152-164 | a batch is the next stretch of the list, up to its end, an empty entry or a failed mapping |
| `Dma.DmaAiocb.Callback` | dma-helpers.c:135-175 | completion is signalled exactly at the end of the list or on an error, otherwise a batch is issued, or mapping is awaited because it failed or the entry is empty; a batch counts as moved when it finished well |
| `Dma.DmaAiocb.Account` | dma-helpers.c:135-146 | a batch that finished well moves its whole sectors to the disk from the current sector; one that failed moves nothing |
| `Dma.DmaAiocb.IoDone` | dma-helpers.c:135-150 | a finished batch keeps the invariant and completes exactly at the end of the list or on an error |
| `Dma.DmaAiocb.Reschedule` | dma-helpers.c:85-100 | trying again after a failed mapping keeps the invariant; at an empty list entry it only waits again |
| `Dma.DmaAiocb.SuccessMovesEverything` | dma-helpers.c:135-175 | a successful transfer moved byte k of the list to or from disk byte 512 * sector + k, once each, if and only if every batch was whole sectors |
| `Dma.DmaAiocb.WholeSectorsSuffice` | dma-helpers.c:135-175 | list entries and mappings of whole sectors make every batch whole sectors |
| `Dma.DmaAiocb.MovedIsPrefix` | dma-helpers.c:135-175 | at every moment, if all finished batches were whole, the bytes moved are a prefix of the list in the right place, all issued bytes but those in flight or lost |

## Left out

- The length returned by address translation, memory accesses built on it, and IOMMU forwarding.
- Reference counts, mutexes and memory barriers; the memory map is single-threaded under the iothread lock.
- ioeventfds, coalesced MMIO, dirty bitmaps, and destruction of regions and address spaces.
- KVM ioctls, slot flags, dirty logging and the `broken_set_mem_region` workaround.
- Transactions.MemoryModel.TransactionCommit: where the program stops, the views described are those a program that went on would have.
- Transactions.MemoryModel.AddSubregion: graphs with cycles are excluded.
- Transactions.MemoryModel.MoveInPlace: says that a view goes stale only for addresses that are not negative, as in the source, and only if all views were right before.
- Dispatch.AddressSpaceDispatch.AddAll: the view must lie within the width of the tree; for node numbers it says when they suffice and that they are used up when it fails, not how many a view takes.
- Section numbers are taken to fit the 15 bits of a tree entry, as they do for pages of up to 32 KiB.
- Dump.GuestPhysBlocks.Append: host memory of a region must lie within 64-bit addresses.
- Dump.DumpState.DumpIterate: needs a block to start from; DumpGuestMemory reports the null pointer that the source follows without one.
- DumpFile.DumpGuestMemory: the filter window must end at 2^64 or before, and signed overflow of sizes from 2^63 is not modelled.
- Contents of ELF headers, notes and the section header; only their sizes are modelled. Negative filter windows.
- `memory_mapping_list_add_merge_sorted`, how paging-based mappings are found, and compressed dumps.
- CopyOnRead is a state machine over steps rather than imperative code, because its claims are about interleavings; empty requests, throttling and write flags are not modelled, and a request's driver work is one sector at a time.
- DMA cancellation and the scatter-gather helpers that copy buffers.
- Host allocation of RAM, migration, `bdrv_commit`'s reopening of a read-only backing file beyond its refusal.
