# Verification of the lockjaw kernel logic

`lockjaw-types` holds the pure logic of a small AArch64 microkernel: its physical page allocator, its page-table
walkers, its IPC state machine, its handle tables and the parsers it trusts at boot. This project models that logic
in Dafny and proves what the kernel relies on. The few places where the kernel itself drives that logic (`src/mm`,
`src/cap`, `src/syscall`) are modelled where a property spans several of its pieces.

- **Buddy allocator** (`BuddyBlocks`, `BuddyLayout`, `BuddyWeight`, `Buddy`, on bit arithmetic in `ByteBits` and
  `Powers`). The class keeps the source's two byte arrays and `free_count`. Its invariant says that a bit is set
  exactly when its block is a maximal aligned block of free pages, so the bytes are a function of the set of free
  pages. Everything else follows from that. The largest order and `total_pages` are parameters. `add_range` does not
  notice pages that are free already; `AddRange` states exactly when the count is right afterwards and `AddedTwice`
  shows a case where it is not.
- **Page tables** (`PageTable`, `PageTableBits`, `PageTableRange`, `PageTableUnmap`, `PageTableQuery`). Memory is a
  map from physical address to 64-bit words. One reference function, `Resolve`, says how an address translates, and
  `PageTableBits` ties it to the architecture's translation written on bits. The step-driven walker,
  the run-length query and the two-phase unmap are proved against it. Claims about writes assume that the tables form
  a tree of distinct pages (`Tree`); claims about reads assume nothing.
- **Kernel mappings** (`KvmWalk`, `KvmRegions`, `KvmFreeList`, `KvmUndo`, `KvmAllocator`, `KvmLostPages`). The two
  walkers with their cached table addresses, the sorted free list, and the kernel's allocation path that combines
  them with the frame allocator. The allocator's invariant is that every page the free list offers is vacant in the
  page tables. The source says that a failed allocation returns its address range. It does so only when no page had
  been mapped yet: otherwise the pages that got no frame are lost, or all pages when the region table has no entry
  left for the others. `Alloc` gives the free addresses after every failure exactly, and `LostPage` and `LostRange`
  are runs of both kinds.
- **IPC** (`IpcState`, `IpcInvariant`, `IpcRuns`, `IpcEffects`, `IpcDelivery`, `IpcCalls`, `IpcDecisions`,
  `IpcQueue`, `IpcEndpoint`). The source explores three threads; here the threads, and which of them are clients, are
  arbitrary sets and the queue is unbounded. The eight coded invariants are not inductive by themselves, so `Inv`
  strengthens them. `IpcEndpoint` drives the array of waiters by the decision functions and follows the model.
- **Handles and PageSets** (`HandleTable`, `PageSetCounters`, `SlotCounts`, `PageSetLedger`, `PageSetEffects`,
  `PageSetKernel`). A state machine of the system calls over all handle tables at once, whose balance ties the
  counters of every PageSet to the slots that name it; what each call does slot by slot, and where the rights of a
  handle come from; and the same calls over slot arrays and header objects, which refine the state machine.
- **Devicetree** (`FdtFormat`, `FdtSpec`, `FdtWalk`, `FdtDecoding`, `FdtExact`, `FdtTree`, `FdtLoop`, `FdtValues`).
  A serialiser for trees written from section 5.4 of the Devicetree Specification, a specification of the reports on
  the tree itself, the walk as a machine that takes one token at a time, and the loop over per-depth arrays. The
  theorem is that the loop reports the tree. `FdtValues` writes property values byte by byte from numbers and reads
  them back.
- **Loader and file system** (`ElfPlan`, `ElfImage`, `Fat32`). The page-by-page load plan against the image of the
  whole program it stands for, and the geometry that a boot sector describes.

`dafny verify dfyconfig.toml` checks all of it, with the options that the file sets. Addresses and machine words are
natural numbers; widths are stated where the source can wrap, overflow or truncate. Panics and assertions of the
source are results of the model, or preconditions where a class method has no other way to fail, and the theorems say
when they cannot happen.

## Model

| member | source | states |
|---|---|---|
| `BuddyLayout.PosInjective` | lockjaw-types/src/buddy.rs:24-32 | distinct (order, index) pairs occupy distinct bits of the flat byte array |
| `BuddyLayout.PosSurjective` | lockjaw-types/src/buddy.rs:24-32 | every bit of the flat array is the bit of some order and of an index within that order's bytes |
| `BuddyBlocks.Climb` | lockjaw-types/src/buddy.rs:161-190 | every free page lies in a maximal all-free aligned block, found by walking up from the page itself |
| `BuddyBlocks.MaximalMeaning` | lockjaw-types/src/buddy.rs:161-190 | a block is maximal exactly when all its pages are free and no larger aligned block around it is all free |
| `BuddyBlocks.FreeIffCovered` | lockjaw-types/src/buddy.rs:100-136 | a page is free exactly when some maximal block covers it |
| `BuddyBlocks.MaximalDisjoint` | lockjaw-types/src/buddy.rs:100-136 | two maximal blocks of any orders are the same block or share no page |
| `BuddyBlocks.AddBlock` | lockjaw-types/src/buddy.rs:183-189 | what marking one block free does to the whole family of maximal blocks, provided its buddy is not all free |
| `BuddyBlocks.RemoveBlock` | lockjaw-types/src/buddy.rs:109-113 | what unmarking one maximal block does to the whole family of maximal blocks |
| `BuddyLayout.BitmapIsFunctionOfFreeSet` | lockjaw-types/src/buddy.rs:84-190 | two bitmaps that represent the same free set are equal byte for byte |
| `BuddyLayout.FreeSetIsFunctionOfBitmap` | lockjaw-types/src/buddy.rs:84-190 | and one bitmap represents one free set only |
| `BuddyLayout.SetRepresents` | lockjaw-types/src/buddy.rs:239-243 | setting the bit of a block with no free buddy turns a bitmap of a free set into the bitmap of the larger set |
| `BuddyLayout.ClearRepresents` | lockjaw-types/src/buddy.rs:245-249 | clearing the bit of a maximal block turns it into the bitmap of the smaller set |
| `BuddyLayout.ScanComplete` | lockjaw-types/src/buddy.rs:253-279 | if no bit of an order is set below the scan limit then no block of that order is maximal: the limit skips nothing |
| `Buddy.NothingFits` | lockjaw-types/src/buddy.rs:105-119 | no set bit at this order or above means no aligned run of that size is free |
| `Buddy.MergeStep` | lockjaw-types/src/buddy.rs:173-183 | taking a marked buddy makes the parent block the one to put back, with the same pages overall |
| `ByteBits.LowestBit` | lockjaw-types/src/buddy.rs:253-279 | the trailing-zeros step finds the least set bit of a masked byte, or reports that there is none |
| `Buddy.BuddyAllocator.constructor` | lockjaw-types/src/buddy.rs:58-77 | a new allocator has no free and no handed-out page, and its all-zero bitmaps say so |
| `Buddy.BuddyAllocator.IsFree` | lockjaw-types/src/buddy.rs:233-237 | reads exactly the bit of (order, index) |
| `Buddy.BuddyAllocator.SetBit` | lockjaw-types/src/buddy.rs:239-243 | sets that bit and no other |
| `Buddy.BuddyAllocator.ClearBit` | lockjaw-types/src/buddy.rs:245-249 | clears that bit and no other |
| `Buddy.BuddyAllocator.FindFree` | lockjaw-types/src/buddy.rs:253-279 | returns a set bit below the limit, and None only if there is none |
| `Buddy.BuddyAllocator.TakeSmallest` | lockjaw-types/src/buddy.rs:105-119 | takes a block of the smallest order that has one, and None only if no order at or above has any |
| `Buddy.BuddyAllocator.SplitDown` | lockjaw-types/src/buddy.rs:120-128 | leaves exactly the pages of the taken block outside the result free, as maximal blocks |
| `Buddy.BuddyAllocator.Alloc` | lockjaw-types/src/buddy.rs:100-136 | None exactly when no aligned run of 2^k free pages exists below total_pages; otherwise an aligned free run leaves the free set and joins the handed-out set, and the bitmaps, the handed-out bits and free_count again describe both sets |
| `Buddy.BuddyAllocator.BuddyMarked` | lockjaw-types/src/buddy.rs:173-178 | the bit test with its range test decides whether the whole buddy block is free |
| `Buddy.BuddyAllocator.Merge` | lockjaw-types/src/buddy.rs:161-190 | whatever the bitmaps hold, the count grows by the size of the block and never underflows on the way; if no page of the block was free, exactly the block joins the free set and the bitmap is canonical again |
| `BuddyWeight.SetWeight` | lockjaw-types/src/buddy.rs:239-243 | setting a bit adds the pages of its block to the total size of all marked blocks, unless it was set |
| `BuddyWeight.ClearWeight` | lockjaw-types/src/buddy.rs:245-249 | clearing a set bit takes them away |
| `Buddy.BuddyAllocator.Unmark` | lockjaw-types/src/buddy.rs:151-160 | clears the handed-out bits of a run, or stops at its first page that is not handed out |
| `Buddy.BuddyAllocator.Free` | lockjaw-types/src/buddy.rs:143-190 | each of the four assertions fires exactly under its condition; otherwise exactly the pages of the block move from handed out to free |
| `Buddy.BuddyAllocator.AddRange` | lockjaw-types/src/buddy.rs:84-96 | for any start and count: the count grows by the length of the range, which is the number of pages added if and only if no page of the range was free before; in that case exactly the range joins the free pages |
| `Buddy.AddedTwice` | lockjaw-types/src/buddy.rs:84-96 | a page added twice is counted twice |
| `Buddy.AllocThenFree` | lockjaw-types/src/buddy.rs:100-190 | allocating and freeing restores the bitmaps byte for byte, and free_count |
| `Buddy.FreesCommute` | lockjaw-types/src/buddy.rs:143-190 | two frees in either order leave the same bytes |
| `Buddy.SameSetsSameBytes` | lockjaw-types/src/buddy.rs:84-190 | the free and the handed-out pages determine the whole allocator state |
| `PageTable.NewPageFields` | lockjaw-types/src/page_table.rs:137-147 | every field put into a page entry is read back and no field disturbs another; stated again bit by bit: bits 1:0 are 11, then attribute index, access permission, shareability, the access flag and the output address |
| `PageTable.NewTableFields` | lockjaw-types/src/page_table.rs:122-124 | a table entry is a table and points at the given page: bits 47:12 of the address plus 3 |
| `PageTable.AddrFieldMeaning` | lockjaw-types/src/page_table.rs:118-120 | the output address is bits 47:12, and an aligned 48-bit address survives it |
| `PageTable.IdxMeaning` | lockjaw-types/src/vmem.rs:91-97 | the four indices are the 9-bit fields of the address |
| `PageTableBits.ResolveIsTranslation` | lockjaw-types/src/page_table.rs:256-311 | the reference function is AArch64 translation written on the bits of the entries and of the address: table, 1 GB block, 2 MB block and page, each with its own output address and offset |
| `PageTable.PagesApart` | lockjaw-types/src/vmem.rs:91-97 | different pages of one table tree differ in some index, up to its capacity |
| `PageTable.LeafWrite` | lockjaw-types/src/page_table.rs:594-660 | in a tree of distinct tables, writing one last-level entry changes the translation of that page only |
| `PageTable.TreeKept` | lockjaw-types/src/page_table.rs:594-660 | such a write keeps the tables a tree |
| `PageTableRange.ResolvesTo` | lockjaw-types/src/page_table.rs:594-660 | after writing a whole range of last-level entries, page i translates by entry i |
| `PageTableRange.ResolvesAsBefore` | lockjaw-types/src/page_table.rs:594-660 | and every page outside the range translates as before |
| `PageTableUnmap.PageTableWalk.Step` | lockjaw-types/src/page_table.rs:269-311 | one step of the walker: next level, block, page or fault |
| `PageTableUnmap.WalkStepResolves` | lockjaw-types/src/page_table.rs:269-311 | each step preserves what the reference translation says of the rest of the walk |
| `PageTableUnmap.WalkPage` | lockjaw-types/src/page_table.rs:244-311 | the driven walker ends where the reference translation does |
| `PageTableUnmap.ValidateMatch` | lockjaw-types/src/page_table.rs:528-574 | succeeds exactly when every page resolves at the last level to the expected frame; otherwise the index is the first mismatch |
| `PageTableUnmap.ClearValidated` | lockjaw-types/src/page_table.rs:594-660 | on a validated range none of the panics is reached although it writes while it walks, and exactly the range is zeroed |
| `PageTableUnmap.ClearedTranslations` | lockjaw-types/src/page_table.rs:594-660 | afterwards exactly those pages are unmapped and every other address translates as before |
| `PageTableUnmap.UnmapValidated` | lockjaw-types/src/page_table.rs:668-682 | validate then clear: on a mismatch memory is untouched and the index is the first one |
| `PageTableQuery.WholeRegion` | lockjaw-types/src/page_table.rs:425-514 | one unmapped or block entry decides every page below it |
| `PageTableQuery.ScanLeaves` | lockjaw-types/src/page_table.rs:496-509 | the scan of one last-level table stops at the first page that differs |
| `PageTableQuery.ScanRegion` | lockjaw-types/src/page_table.rs:479-511 | one region is skipped or scanned with the same result as page by page |
| `PageTableQuery.QueryRun` | lockjaw-types/src/page_table.rs:425-514 | for every memory and aligned start: the flag is whether the first page resolves, all pages of the run agree with it, and the run is maximal below USER_VA_END |
| `KvmWalk.KernelPageFields` | lockjaw-types/src/kvm.rs:176-180 | a kernel page entry bit by bit: valid page, attribute 1, access permission 00 (no EL0 access), inner shareable, accessed, UXN and PXN set, and the address of the frame |
| `KvmWalk.KvmMapWalk.constructor` | lockjaw-types/src/kvm.rs:501-512 | a fresh walk needs L1, or is done when there are no pages |
| `KvmWalk.KvmMapWalk.StepL1` | lockjaw-types/src/kvm.rs:555-564 | accepts exactly table entries, and caches the L2 table |
| `KvmWalk.KvmMapWalk.StepL2` | lockjaw-types/src/kvm.rs:568-577 | accepts exactly table entries, and caches the L3 table |
| `KvmWalk.KvmMapWalk.StepL3` | lockjaw-types/src/kvm.rs:584-592 | faults on a live entry |
| `KvmWalk.KvmMapWalk.SupplyBacking` | lockjaw-types/src/kvm.rs:596-600 | records the frame for the pending write |
| `KvmWalk.KvmMapWalk.StepPteWritten` | lockjaw-types/src/kvm.rs:604-634 | advances one page and resumes at the highest level whose index changed |
| `KvmWalk.ResumeCached` | lockjaw-types/src/kvm.rs:604-634 | the addresses still cached where the walk resumes are those of a fresh full walk |
| `KvmWalk.DriveMap` | src/mm/kvm.rs:466-516 | reaches Done exactly when every page has its tables and a free slot and there are enough frames; on every outcome exactly the pages done so far hold their entries, each was vacant, and nothing else changed; a fault names the first page that is not vacant; terminates on (pages left, state) |
| `KvmWalk.MappedPage` | lockjaw-types/src/kvm.rs:497-634 | page i of a mapped range then translates to frame i |
| `KvmUndo.InstalledAddress` | lockjaw-types/src/kvm.rs:497-634 | every byte address of a mapped page translates, by the bits of the entries, to the same offset in its frame |
| `KvmUndo.InstalledKernelOnly` | lockjaw-types/src/kvm.rs:176-180 | and the entry found there has access permission 00 and both execute-never bits |
| `KvmWalk.OtherPages` | lockjaw-types/src/kvm.rs:497-634 | every other page translates as before and the tables stay a tree |
| `KvmWalk.KvmFreeWalk.constructor` | lockjaw-types/src/kvm.rs:695-706 | a fresh teardown walk |
| `KvmWalk.KvmFreeWalk.StepL1` | lockjaw-types/src/kvm.rs:738-747 | accepts exactly table entries |
| `KvmWalk.KvmFreeWalk.StepL2` | lockjaw-types/src/kvm.rs:749-758 | accepts exactly table entries |
| `KvmWalk.KvmFreeWalk.StepL3` | lockjaw-types/src/kvm.rs:760-769 | accepts exactly valid entries, and captures the frame |
| `KvmWalk.KvmFreeWalk.StepPteCleared` | lockjaw-types/src/kvm.rs:771-792 | advances one page and resumes at the highest level whose index changed |
| `KvmWalk.DriveFree` | src/mm/kvm.rs:586-645 | yields the frames of the pages in order and clears exactly their slots; faults exactly at the first page that is not live |
| `KvmUndo.Undo` | lockjaw-types/src/kvm.rs:694-792 | tearing down what was mapped yields the supplied frames in order and restores the translation of every address |
| `KvmRegions.Canonical` | lockjaw-types/src/kvm.rs:219-223 | a compact region list is determined by the set of addresses it covers |
| `KvmRegions.CarveCovers` | lockjaw-types/src/kvm.rs:262-288 | shrinking or removing a region takes exactly the allocated addresses out |
| `KvmRegions.MergedCovers` | lockjaw-types/src/kvm.rs:335-397 | joining with either, both or no neighbour adds exactly the freed addresses |
| `KvmRegions.MergedCompact` | lockjaw-types/src/kvm.rs:335-397 | and leaves the regions the maximal runs, in order |
| `KvmRegions.RoomMeansDisjoint` | lockjaw-types/src/kvm.rs:311-333 | comparing with the two neighbours of the slot detects an overlap with any region |
| `KvmRegions.TouchMeaning` | lockjaw-types/src/kvm.rs:335-386 | no merge happens exactly when neither adjacent address is free |
| `KvmFreeList.FreeList.constructor` | lockjaw-types/src/kvm.rs:226-237 | the new list covers exactly 0xFFFF_8000_0000_0000 up to 1 GB above it |
| `KvmFreeList.FreeList.TryAlloc` | lockjaw-types/src/kvm.rs:262-288 | returns the lowest address that starts n free pages and removes exactly them; fails exactly when there is none, or for n = 0; the page total drops by n |
| `KvmFreeList.FreeList.Free` | lockjaw-types/src/kvm.rs:292-398 | Overflow, OutOfPool, DoubleFree and RegionTableFull each exactly under its condition, all leaving the list unchanged; otherwise exactly the range becomes free and the page total grows by it |
| `KvmFreeList.AllocThenFree` | lockjaw-types/src/kvm.rs:262-398 | giving back what was just allocated never fails and restores the region table itself |
| `KvmAllocator.KvmAllocator.constructor` | src/mm/kvm.rs:311-312 | over tables that reach every pool page and map none, free pages are vacant pages |
| `KvmAllocator.KvmAllocator.TearDown` | src/mm/kvm.rs:586-664 | clears a live range and returns its frames; its addresses return, or are lost exactly when the region table is full and no neighbour is free; free pages stay vacant |
| `KvmAllocator.KvmAllocator.RollBack` | src/mm/kvm.rs:378-391 | undoes a partial allocation: every translation and every frame is back; of the addresses exactly the whole range returns if no page had been mapped, and otherwise exactly the mapped pages, or nothing when the region table is full |
| `KvmAllocator.KvmAllocator.Alloc` | src/mm/kvm.rs:354-397 | the walk never faults; success maps the lowest free range to the next frames in order; failure changes no translation and loses no frame; after running out of frames the free addresses are the old ones except a range that is given exactly: none if no frame was available, all pages if the region table was full and the range did not take a whole region, and else the pages that had no frame |
| `KvmLostPages.LostPage` | src/mm/kvm.rs:354-397 | a run: two pages asked of an untouched pool with one frame left fail, and the free list is left with a hole at the second page |
| `KvmLostPages.LostRange` | src/mm/kvm.rs:354-397 | a run: single pages freed between pages in use fill the region table, then 64 pages asked with 63 frames left fail, and the addresses of all 64 are gone |
| `KvmAllocator.KvmAllocator.Free` | src/mm/kvm.rs:550-555 | unmaps the range and returns its frames; its addresses return unless the region table is full and no neighbour is free |
| `KvmAllocator.AllocThenFree` | src/mm/kvm.rs:354-555 | allocating and freeing restores every translation, the region table and the frames |
| `IpcState.InvImpliesChecks` | lockjaw-types/src/ipc_state.rs:797-889 | the inductive invariant implies all eight coded invariants |
| `IpcState.InitialInv` | lockjaw-types/src/ipc_state.rs:486-496 | the initial state satisfies it, for any threads and any clients among them |
| `IpcInvariant.StepKeepsInv` | lockjaw-types/src/ipc_state.rs:567-789 | from an invariant state no step panics, and every successful step keeps the invariant |
| `IpcRuns.RunIsSafe` | lockjaw-types/src/ipc_state.rs:567-889 | after any run of any number of threads: the coded invariants hold, a thread is blocked exactly when it is queued once or its call is held by one handler and never both, and the next step cannot panic |
| `IpcRuns.QueueFits` | lockjaw-types/src/ipc_state.rs:426-430 | a queue with one place per thread is never full when a step enqueues |
| `IpcRuns.StepKeepsAcyclic` | lockjaw-types/src/ipc_state.rs:630-757 | a step adds a wait-for edge only into a thread that waits for nobody |
| `IpcRuns.RunIsAcyclic` | lockjaw-types/src/ipc_state.rs:630-789 | in every reachable state no thread waits for itself, directly or not |
| `IpcRuns.WaitChainEnds` | lockjaw-types/src/ipc_state.rs:630-789 | following handlers from any waiting caller ends at a thread that is runnable or queued |
| `IpcEffects.EffectsGiveNext` | lockjaw-types/src/ipc_state.rs:521-789 | interpreting the effects in order on the old state gives exactly the new state |
| `IpcEffects.BlockIsLast` | lockjaw-types/src/ipc_state.rs:521-551 | nothing follows BlockCurrent |
| `IpcEffects.BindsOwnFresh` | lockjaw-types/src/ipc_state.rs:697-757 | BindReply fires only on the caller's own Fresh reply, so no caller is overwritten |
| `IpcEffects.ClearsHeld` | lockjaw-types/src/ipc_state.rs:759-789 | ClearReply follows the wake-up of the caller it clears, by the thread that holds it |
| `IpcDelivery.DeliveredInOrder` | lockjaw-types/src/ipc_state.rs:585-757 | over any run messages are received once, unchanged and in the order sent; what is missing is what queued senders and callers hold |
| `IpcCalls.RunPhase` | lockjaw-types/src/ipc_state.rs:647-789 | over any run every call is bound, handed to one thread, woken once by that thread and cleared by it, in that order |
| `IpcDecisions.SendAgrees` | lockjaw-types/src/ipc_state.rs:254-268 | in every invariant state the kernel's send decision is the model's step: branch, next endpoint state and outcome |
| `IpcDecisions.ReceiveAgrees` | lockjaw-types/src/ipc_state.rs:292-321 | the same for receive, including both refusals |
| `IpcDecisions.CallAgrees` | lockjaw-types/src/ipc_state.rs:338-356 | the same for call |
| `IpcDecisions.ReplyAgrees` | lockjaw-types/src/ipc_state.rs:367-375 | the same for reply |
| `IpcDecisions.Refusals` | lockjaw-types/src/ipc_state.rs:567-789 | exactly when each operation is refused and with which error: a blocked thread, a busy receiver, a caller without a Reply object, a reply without a caller; a runnable client can always call |
| `IpcQueue.WaitQueue.constructor` | lockjaw-types/src/ipc_state.rs:421-424 | an empty queue |
| `IpcQueue.WaitQueue.Enqueue` | lockjaw-types/src/ipc_state.rs:426-430 | appends, or refuses when every slot is taken |
| `IpcQueue.WaitQueue.Dequeue` | lockjaw-types/src/ipc_state.rs:432-444 | takes the first entry and shifts the others, leaving unused slots empty |
| `IpcEndpoint.Endpoint.Send` | src/ipc/endpoint.rs:106-169 | deciding and then moving waiters in the array leaves exactly the endpoint state and the queue of the model's step, and there is always a place |
| `IpcEndpoint.Endpoint.Receive` | src/ipc/endpoint.rs:175-270 | the same for receive, which reads the head of the array before it decides, including both refusals |
| `IpcEndpoint.Endpoint.Call` | src/ipc/endpoint.rs:279-382 | the same for call, including the refusal |
| `HandleTable.FindEmpty` | lockjaw-types/src/handle_ops.rs:42-44 | finds the first empty slot |
| `HandleTable.HasRightsMeaning` | lockjaw-types/src/rights.rs:25-27 | the mask test holds exactly when each of the eight required bits is a bit of the handle |
| `HandleTable.Insert` | lockjaw-types/src/handle_ops.rs:73-89 | the first empty slot gets exactly the given rights and kind, a PageSet without its mapping; no other slot changes; each error exactly under its condition |
| `HandleTable.SetMapped` | lockjaw-types/src/handle_ops.rs:126-140 | changes the mapping of a PageSet slot and nothing else of it; no other slot changes |
| `HandleTable.RevokeValidate` | lockjaw-types/src/handle_ops.rs:179-202 | reports exactly the matching slots, in order, and changes nothing |
| `HandleTable.RevokeApply` | lockjaw-types/src/handle_ops.rs:216-240 | reports the same actions and empties exactly the matching slots |
| `HandleTable.ActionsAre` | lockjaw-types/src/handle_ops.rs:179-240 | action n of a revocation walk describes the n-th slot that names the PageSet: its page, and whether it was mapped |
| `SlotCounts.PutCounts` | lockjaw-types/src/handle_ops.rs:73-140 | changing one slot changes the counts over all tables by the difference of the two entries |
| `SlotCounts.AllActionCounts` | src/cap/revoke.rs:100-173 | the actions of a revocation walk over all tables count references and mappings exactly |
| `SlotCounts.AllClearedCounts` | src/cap/revoke.rs:193-242 | clearing one PageSet everywhere leaves the counts of all others |
| `SlotCounts.CountZero` | lockjaw-types/src/pageset_table.rs:134-140 | the count is zero exactly when no slot anywhere names the PageSet |
| `PageSetLedger.AddHandleKeeps` | src/syscall/handler.rs:625-632 | a new handle is counted, and the counter cannot overflow |
| `PageSetLedger.CreateKeeps` | src/syscall/handler.rs:601-641 | a PageSet is created with its first handle, or freed at once when the table is full |
| `PageSetLedger.MapKeeps` | src/syscall/handler.rs:708-786 | a mapping is recorded once per handle and counted |
| `PageSetLedger.UnmapKeeps` | src/syscall/handler.rs:1527-1572 | an unmapping is uncounted without underflow, and never frees a PageSet that still has a handle |
| `PageSetLedger.CloseKeeps` | src/syscall/handler.rs:1574-1630 | closing counts the slot out, without underflow, and frees exactly with the last slot |
| `PageSetLedger.ExitKeeps` | src/sched/scheduler.rs:743-760 | releasing a whole table slot by slot frees each PageSet at most once, when its last slot anywhere is released |
| `PageSetLedger.RevokeReconciles` | src/cap/revoke.rs:100-173 | the validate pass always reconciles with the counters, and decrementing per action drives both to zero |
| `PageSetLedger.RevokeKeeps` | src/cap/revoke.rs:193-242 | revocation empties exactly the matching slots of all tables and no other counter changes |
| `PageSetLedger.StepKeeps` | lockjaw-types/src/pageset_table.rs:242-271 | whatever the call: refcount is the number of slots naming the PageSet, map_count the number of those with a mapping, no assertion fires, and free-now is signalled exactly when the last slot goes |
| `PageSetLedger.RunIsSafe` | lockjaw-types/src/pageset_table.rs:134-140 | over any run of calls over any number of tables no assertion fires and the accounts stay balanced |
| `PageSetLedger.RunIsGood` | lockjaw-types/src/pageset_table.rs:134-140 | every call of every run signals free-now exactly for the PageSets whose last slot it takes |
| `PageSetLedger.EveryPageSetFreedOnce` | lockjaw-types/src/pageset_table.rs:134-140 | over any run every registration ends in exactly one free or one revocation, or still stands |
| `PageSetEffects.CreateDoes` | src/syscall/handler.rs:601-641 | the first empty slot of the table holds a handle to the new PageSet with the given rights, unmapped, and one reference is counted; with a full table nothing remains |
| `PageSetEffects.GrantDoes` | src/syscall/handler.rs:1304-1323 | the same for a PageSet that exists |
| `PageSetEffects.CopyDoes` | src/syscall/handler.rs:1206-1264 | succeeds exactly when the slot holds a PageSet handle with every required right and the target has room; the copy has the rights of the original and no mapping, and no other slot changes |
| `PageSetEffects.InsertOtherDoes` | lockjaw-types/src/handle_ops.rs:73-89 | a handle of another kind goes into the first empty slot and touches no counter |
| `PageSetEffects.MapDoes` | src/syscall/handler.rs:708-786 | exactly when the slot holds an unmapped PageSet handle with every required right: the slot records the page, one mapping is counted, nothing else changes |
| `PageSetEffects.UnmapDoes` | src/syscall/handler.rs:1527-1572 | exactly when the slot is mapped at that page and the page tables were cleared: the slot records no page, one mapping less is counted, nothing else changes |
| `PageSetEffects.CloseDoes` | src/syscall/handler.rs:1574-1630 | the slot is empty afterwards and no other slot changes; an empty slot, or a mapping that could not be cleared, is refused without any change |
| `PageSetEffects.ExitDoes` | src/sched/scheduler.rs:743-760 | every slot of the table is empty afterwards and no other table changes |
| `PageSetEffects.RevokeDoes` | src/cap/revoke.rs:100-242 | exactly the slots that name the PageSet are emptied, wherever they are, and its header goes |
| `PageSetEffects.RightsHaveOrigin` | src/syscall/handler.rs:601-1630 | over any run every PageSet handle has exactly the rights of a handle that was there at the start, or those with which the run created or granted one: no call makes up rights |
| `PageSetKernel.Kernel.DropRef` | src/cap/pageset_table.rs:436-443 | decrementing the header object and freeing on its answer is the decrement of the accounts: a header goes exactly when both counters are zero |
| `PageSetKernel.Kernel.DropBoth` | src/cap/pageset_table.rs:448-451 | both decrements, where the answer of the first is ignored, free the PageSet exactly when both counters end at zero |
| `PageSetKernel.Kernel.Create` | src/syscall/handler.rs:601-641 | registering, inserting and counting through the slot array and the header object is the Create call of the accounts, including the free when no slot is left |
| `PageSetKernel.Kernel.Copy` | src/syscall/handler.rs:1206-1264 | looking a handle up in one array and inserting it with its rights into another is the Copy call |
| `PageSetKernel.Kernel.Map` | src/syscall/handler.rs:708-786 | looking up, recording the page in the slot and counting it in the header is the Map call |
| `PageSetKernel.Kernel.Unmap` | src/syscall/handler.rs:1527-1572 | and the other way round, the Unmap call |
| `PageSetKernel.Kernel.Close` | src/syscall/handler.rs:1574-1630 | look-up, decision, removal from the slot array and the decrements it asks for are the Close call |
| `PageSetKernel.Kernel.Exit` | src/sched/scheduler.rs:743-760 | releasing the slots of an array in order is the Exit call |
| `PageSetKernel.Kernel.Validate` | src/cap/revoke.rs:100-173 | the read-only walk over all slot arrays counts the references and mappings of the PageSet |
| `PageSetKernel.Apply` | src/cap/revoke.rs:193-242 | the writing walk empties exactly the matching slots of all arrays, and no decrement underflows |
| `PageSetKernel.Kernel.Revoke` | src/cap/revoke.rs:100-242 | both phases and the final removal are the Revoke call |
| `PageSetKernel.Kernel.Call` | src/syscall/handler.rs:601-1630 | from balanced accounts every call on the arrays and headers meets the preconditions of all counter updates, moves as the accounts say and keeps them balanced |
| `PageSetKernel.Kernel.Run` | lockjaw-types/src/pageset_table.rs:134-140 | and so does every run |
| `FdtSpec.CompatOfJoined` | lockjaw-types/src/fdt.rs:182-197 | the first strings of any list of nonempty strings are read back from its bytes, up to a given number |
| `FdtValues.CellsNumber` | lockjaw-types/src/fdt.rs:320-330 | one or two cells are read as the big-endian number of their four or eight bytes, and other counts as zero |
| `FdtValues.RegReadBack` | lockjaw-types/src/fdt.rs:566-585 | for all cell counts, a reg value written byte by byte from addresses and sizes is read back: first address, first size, and the second address or zero |
| `FdtValues.RegIsExact` | lockjaw-types/src/fdt.rs:320-330 | address and size come out as written if and only if they take at most two cells or are zero |
| `FdtValues.RegReported` | lockjaw-types/src/fdt.rs:566-595 | the report of a node carries the written size, and the written addresses through the buses above it |
| `FdtValues.RangesReadBack` | lockjaw-types/src/fdt.rs:438-464 | the first three entries of a ranges value written byte by byte are read back: child address, parent address and size |
| `FdtValues.ThroughFirst` | lockjaw-types/src/fdt.rs:472-494 | the first range that holds an address moves it to the parent window, at the same distance and modulo 2^64 |
| `FdtValues.ThroughNone` | lockjaw-types/src/fdt.rs:472-494 | an address that no range holds stays as it is |
| `FdtValues.BusMapsToRoot` | lockjaw-types/src/fdt.rs:438-494 | from the bytes of the ranges of a bus below the root to the root address of a child |
| `FdtValues.LastCounts` | lockjaw-types/src/fdt.rs:624-690 | of several properties of one kind the last one that is long enough counts |
| `FdtValues.WordReadBack` | lockjaw-types/src/fdt.rs:632-681 | a 32-bit property value is read back |
| `FdtValues.InterruptReadBack` | lockjaw-types/src/fdt.rs:334-338 | an interrupt specifier of type 0 gives its number plus 32, and any other type 0 |
| `FdtValues.CompatibleReadBack` | lockjaw-types/src/fdt.rs:180-197 | a list of nonempty strings gives its first four |
| `FdtValues.TokenBytes` | lockjaw-types/src/fdt.rs:57-61 | the five tokens byte by byte |
| `FdtValues.KnownNames` | lockjaw-types/src/fdt.rs:624-690 | the properties that the walk takes are exactly those with these names, letter by letter |
| `FdtDecoding.CompatIs` | lockjaw-types/src/fdt.rs:182-197 | strings are read from the blob as from the property value alone |
| `FdtDecoding.RangesAre` | lockjaw-types/src/fdt.rs:438-464 | so are ranges |
| `FdtExact.RunItems` | lockjaw-types/src/fdt.rs:601-693 | after all properties of a node, every field comes from the last property of its kind |
| `FdtTree.TranslatePhysical` | lockjaw-types/src/fdt.rs:472-494 | an address is folded through the ranges of all buses above the node, first match at each level |
| `FdtTree.ReportIs` | lockjaw-types/src/fdt.rs:559-600 | a node's report carries its own name, compatible strings, interrupt, phandle and clocks, and its nonzero reg addresses in root terms |
| `FdtTree.RunTree` | lockjaw-types/src/fdt.rs:506-699 | from any position, walking a serialised subtree consumes exactly its bytes, reports exactly its nodes and leaves the levels above as they were |
| `FdtTree.WalkReportsForest` | lockjaw-types/src/fdt.rs:506-699 | for every structure block of whole nodes and FDT_NOP tokens, serialised as in section 5.4 of the Devicetree Specification, the walk succeeds and reports each node of depth below 4 once, children first |
| `FdtTree.WalkReportsTree` | lockjaw-types/src/fdt.rs:506-699 | so for every tree, with any number of FDT_NOP tokens anywhere between its parts and around its root |
| `FdtFormat.Align4Meaning` | lockjaw-types/src/fdt.rs:1045-1047 | padding to the next word is adding three and clearing two bits |
| `FdtLoop.StringEnd` | lockjaw-types/src/fdt.rs:543-546 | finds the end of a node name |
| `FdtLoop.ParseCompat` | lockjaw-types/src/fdt.rs:182-197 | reads up to four strings |
| `FdtLoop.DecodeRanges` | lockjaw-types/src/fdt.rs:452-463 | reads up to three whole entries |
| `FdtLoop.ParseRanges` | lockjaw-types/src/fdt.rs:438-464 | stores them at the node's depth |
| `FdtLoop.TranslateAddress` | lockjaw-types/src/fdt.rs:472-494 | the two nested loops compute the fold |
| `FdtLoop.ReadReg` | lockjaw-types/src/fdt.rs:566-585 | the first address, the first size and the second address that a reg value holds, when it is long enough |
| `FdtLoop.MakeReport` | lockjaw-types/src/fdt.rs:565-599 | builds the report, or stops where a sum of cell counts leaves 32 bits |
| `FdtLoop.StoreProp` | lockjaw-types/src/fdt.rs:624-690 | updates exactly the fields of the property's kind at the node's depth |
| `FdtLoop.Walk` | lockjaw-types/src/fdt.rs:506-699 | the loop over the arrays computes the token-by-token walk, for every input, and ends |
| `FdtLoop.WalkTree` | lockjaw-types/src/fdt.rs:506-699 | so on every conforming blob it reports exactly the tree |
| `ElfPlan.PlanPage` | lockjaw-types/src/elf_loader.rs:224-249 | one page entry supplies exactly the file bytes that belong on its page, inside the file, the page and user space |
| `ElfPlan.CheckSegment` | lockjaw-types/src/elf_loader.rs:148-222 | accepts exactly the segments that fit, and otherwise names the first check that fails, with its numbers |
| `ElfPlan.PlanSegment` | lockjaw-types/src/elf_loader.rs:224-249 | emits the pages of one segment in order |
| `ElfPlan.Plan` | lockjaw-types/src/elf_loader.rs:140-253 | succeeds exactly when every segment is acceptable and all pages fit the buffer; otherwise reports the first faulty segment with the right numbers |
| `ElfPlan.PartOfPlan` | lockjaw-types/src/elf_loader.rs:140-253 | the entries of segment i are one contiguous part of the plan |
| `ElfPlan.LoadedImage` | lockjaw-types/src/elf_loader.rs:224-249 | applied to a zeroed page, an entry yields the file byte at every address of [vaddr, vaddr+file_size) and zero elsewhere |
| `ElfPlan.PagesTouched` | lockjaw-types/src/elf_loader.rs:209-211 | the planned pages are exactly those touched by [vaddr, vaddr+mem_size) |
| `ElfPlan.SharedPage` | lockjaw-types/src/elf_loader.rs:209-249 | within a segment each page is planned once; across segments a page repeats only if both touch it |
| `ElfImage.SegmentImage` | lockjaw-types/src/elf_loader.rs:140-253 | for every segment and every address on its pages the plan has an entry for that page, with the segment's permission, that puts the right byte there |
| `ElfImage.NamesOnceExactly` | lockjaw-types/src/elf_loader.rs:140-253 | the plan names no page twice if and only if no page is touched by two segments |
| `ElfImage.ProgramImage` | lockjaw-types/src/elf_loader.rs:140-253 | then applying the whole plan gives every byte of every touched page the value its segment asks for, and no other page |
| `ElfImage.PlanProgram` | lockjaw-types/src/elf_loader.rs:140-253 | all of this from one call of the planner |
| `Fat32.ParseExact` | lockjaw-types/src/fat32.rs:136-267 | the parser accepts exactly the boot sectors whose bytes, low byte first, describe a valid volume of at least 65525 clusters |
| `Fat32.ClaimBytes` | lockjaw-types/src/fat32.rs:136-192 | every field of the sector byte by byte |
| `Fat32.ParseError` | lockjaw-types/src/fat32.rs:136-256 | a sector is refused for the first of the sixteen checks that it fails, and the error carries the numbers at fault |
| `Fat32.RoundTrip` | lockjaw-types/src/fat32.rs:136-267 | every valid geometry can be written as a boot sector that parses back to it |
| `Fat32.RootFits` | lockjaw-types/src/fat32.rs:107-125 | cluster counts and cluster numbers of an accepted volume stay in 32 bits |
| `Fat32.ClusterInVolume` | lockjaw-types/src/fat32.rs:278-283 | the sectors of every valid cluster lie in the volume, beyond all FAT copies, without 32-bit overflow |
| `Fat32.ClustersDisjoint` | lockjaw-types/src/fat32.rs:278-283 | no sector belongs to two clusters |
| `Fat32.ClustersCover` | lockjaw-types/src/fat32.rs:278-283 | every data sector up to an incomplete last cluster belongs to one |
| `Fat32.FatEntryInside` | lockjaw-types/src/fat32.rs:293-301 | every FAT entry lies wholly inside the first FAT, at its own four bytes |

## Left out

- Boot, MMU setup, TLB maintenance, interrupt controller, UART and printing: hardware and I/O.
- `MapWalk` and the user-space mapping path: `PageSetLedger.MapKeeps` takes the recorded page as a parameter and its
  page-table side is not modelled; whether page tables could be cleared is a parameter of unmap, close and revoke.
- `map_existing` and `unmap_existing`: the one-page case of the modelled allocation path without the frame allocator.
- The order in which the frame allocator hands out frames: `KvmAllocator` takes frames from the front of a sequence
  and returns them at its end. The fixed 64-entry buffer that delays the return until after TLB maintenance is not
  modelled.
- Bootstrap of the kernel page tables: `KvmAllocator` starts from tables that reach every page of the usable pool.
- KvmFreeList.FreeList.Free: a range whose end does not fit in 64 bits is reported as Overflow, where the source's
  addition wraps or panics depending on the build.
- KvmWalk.DriveMap: takes at most 2^27 pages, the capacity of one L1 table, because the walkers do not look at L0.
- IpcEndpoint.Endpoint.Send: keeps the waiters in the array of the state-machine model, where the kernel links thread
  control blocks; messages, tokens and scheduling are in the effects of the model, not in this class.
- Rights checks of the system calls beyond the rights mask of a lookup, and endpoint tokens minted by exports.
- `decide_teardown_handle`: the kernel-process variant of the close decision, whose assertion restates that kernel
  processes map nothing.
- PageSetLedger.RevokeKeeps: walks all tables, where the source walks those of the non-kernel processes in the run
  queue; the other tables are taken to hold no PageSet handle.
- PageSetKernel.Kernel.Create: takes the address of the new header as a parameter that is not in use; where headers
  are placed and how their pages are allocated is not modelled.
- `PageSetTable`, page lists of PageSet headers and their size arithmetic: single-function table operations.
- FdtTree.WalkReportsTree: reports the compatible strings instead of their FNV-1a hashes, which are a function of
  them, and does not include the CPU boot properties `enable-method`, `method` and `cpu-release-addr`, each decoded
  by one branch.
- FdtLoop.Walk: a sum of cell counts or an interrupt number beyond 32 bits is reported as overflow, where the source
  panics or wraps depending on the build; the header checks, clock resolution and the two public summaries on top of
  the walk are not modelled.
- ElfImage.ProgramImage: gives each entry a page of its own, a later entry hiding an earlier one at the same address;
  what the kernel does with a page address that is named twice is not modelled.
- `parse_elf` and `find_section_u64`: field extraction; the plan starts from the parsed segments.
- FAT entry classification, directory entries and 8.3 name matching: settled by one branch each.
- `dma_pool.rs`: a bounded first-fit bitmap, a simpler form of what the buddy allocator and the free list prove.
- Scheduler, notifications, POSIX layer, block and display protocols, and struct layout.
