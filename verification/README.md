# RT-Thread kernel services and motor control, modelled in Dafny

This project models the parts of the repository whose correctness spans several functions, and proves what they
promise: the two heap allocators (`mem.c`, `memheap.c`), the memory pool, the IPC objects (semaphore, recursive mutex,
event group, mailbox, message queue) over their intrusive wait lists, aligned allocation, formatted printing, and the
arithmetic of the motor controller (space-vector modulation, table sine and cosine, inverse Park, PI control).

`dafny verify dfyconfig.toml` checks everything. Code that updates objects in place is modelled by classes and methods
with the same branches; each method is proved against a function of the state, and the lemmas are about those
functions. The main operations also say what they do without these functions: over their fields, word by word for
memory, bit by bit for events; for printing, `Format` has lemmas that say it character by character.

## How the modules fit together

- **Heaps.** `Layout`, `LayoutLive` and `LayoutTotals` say what allocators do to a row of blocks, for any header size;
  `Words` has what the two share below the row: sizes in 32 bits, words of memory and their owners. `HeapMemory` lays
  such a row out in word-addressed memory as `mem.c` does; `SmallHeap` is `mem.c` over it, `AlignedAlloc` the wrapper of
  `kservice.c`. `MemheapPool` adds the ordered free list of `memheap.c`, `MemheapLists` the two circular lists in the
  headers, `Memheap` the allocator. `HeapRuns` and `MemheapRuns` are about whole runs: the lemmas are about a step
  function, and `Perform` and `Replay` drive the two classes through the same steps. `HeapCalls` has what both say
  about blocks that nobody names.
- **IPC.** `RtList` proves the intrusive lists and the wait-list routines against `WaitQueue`, where a wait list is a
  sequence; `Sequences` has what is true of such sequences. `Semaphore`, `Mutex`, `EventGroup`, `Mailbox` and
  `MessageQueue` use them. Each stretch of code with interrupts disabled is one step, and every order of steps is a run.
  `Waiting` holds the argument, shared by mailbox, message queue and memory pool (`MemPool`), that nobody is left
  waiting for something that is there; `EventRuns` is about whole runs of the event group, and `Mutexes` about several
  mutexes at once; `Deque` is the reference for the order of mails and messages; `Slots` holds the
  threaded free lists that message queue and memory pool share.
- **Printing.** `Format` has the printf engine and the digit printer.
- **Motor control.** `Svpwm`, `Transform` and `PiControl`, over the reals.

## What the proofs found

- `rt_malloc` and `rt_memheap_alloc` look for too small a block exactly when the size exceeds 2^32 - 4
  (`Words.RequestCovered`); `rt_realloc` with such a size frees the block (the rounded size is 0).
- On a heap smaller than 12 bytes the bound of `rt_malloc`'s scan wraps, and a request that passes the size check never
  ends (`HeapRuns.ScanNeverEnds`). `SmallHeap.Heap.Malloc` requires that this is not the case.
- `rt_realloc` and `rt_memheap_realloc` move a block without holding the lock from the allocation to the release. As
  long as the other threads' calls in between name neither of the two blocks, the data arrives and no other block
  notices (`HeapRuns.MoveAmongOthers`, `MemheapRuns.MoveAmongOthers`).
- The strict bound of the scan overlooks one kind of block only: an exact fit that ends at `heap_end`
  (`SmallHeap.OnlyExactTailMissed`). `memheap.c` refuses, of what fits, exactly a request for all free payload
  (`Memheap.OnlyEverythingRefused`).
- `rt_memheap_realloc` tests for room with an addition that wraps for rounded sizes from 2^32 - 12 up, that is, for
  requests of 2^32 - 15 to 2^32 - 4 bytes; the test is sound exactly when it does not (`Memheap.GrowTestExact`).
- A layout depends only on which blocks are live, not on how they came to be (`HeapRuns.HistoryIndependence`); for
  `memheap.c` the same holds but for the order of the free list (`MemheapRuns.SameBlocksWhateverTheOrder`).
- `plug_holes` updates `lfree` in two places where its condition cannot hold.
- The overflow exits of the mutex are unreachable, but for the owner's 256th nested take
  (`Mutex.OverflowOnlyWhenNested`); those of the message queue are unreachable altogether (`MessageQueue.RtMessageQueue.Link`).
- Inheritance holds for one mutex, and for any number of them without nesting, each of which then behaves as if it were
  the only one (`Mutexes.WithoutNestingOnTheirOwn`). With nesting it does not: each mutex restores the priority that it
  found, so releasing one can drop the boost that another calls for (`Mutexes.BoostIsLost`), a boost is not passed on to
  the owner that a blocked owner waits for, and a waiter that is raised keeps its place in the queue. These three are all
  there is (`Mutexes.StaysUrgentIff`).
- The memory pool's wait list is last in, first out, whatever the priorities (`MemPool.LastInFirstOut`): a thread waits
  exactly as long as every returned block finds somebody who came later (`MemPool.WaitsExactlyWhileOvertaken`), and that
  can be any number of times (`MemPool.NewcomersServedFirst`).
- When no block fits a memory pool, initialisation stores in front of it (`MemPool.LastStoreInside` has the condition,
  `MemPool.NoRoomStoresInFront` an example). For block sizes from 2^32 - 7 to 2^32 - 4 it divides by zero, and larger ones
  round to 0 (`MemPool.EachIs`).
- The cast in the table look-up cuts towards zero, so angles up to one table step below -2 pi still find index 0. There
  the pair is extrapolated, not interpolated, and a little too long (`Transform.IndexInTable`, `Transform.Extrapolated`).
- The forward Park transform stores both components in d_axis, the second over the first. Transforming back gives the
  vector exactly when the lost component is n times the stored one and the stored one n times q_axis, where n is the
  squared length of the sine-cosine pair (`Transform.RoundTripIff`). With both stored it would give n times the vector.
- With anti-windup on, the PI integrator has a bound; without it, it has none (`PiControl.BoundedIffAntiWindup`). The
  current controllers are configured with `0*0.5f`, that is, without.
- Those controllers limit d and q to 0.98 each; with both at the limit the on-times leave the period
  (`Transform.LimitsAllowOvermodulation`).
- A `%s` width cuts the string as a precision does; a precision of 0 drops the digits of a number but counts them
  against the width (`Format.NumberLength`); every base but 10 prints in base 16.

## Model

| member | source | states |
|---|---|---|
| Layout.AllocKeeps | projects/rt-thread_foc/rt-thread/src/mem.c:304-386 | handing out a free block, split or not, keeps the row tiled and coalesced and yields at least the request and less than a header and a smallest block more |
| Layout.PlugKeeps | projects/rt-thread_foc/rt-thread/src/mem.c:156-194 | merging a free block with its neighbours restores "no two neighbours free" in a row that violates it only there |
| Layout.ReleaseKeeps | projects/rt-thread_foc/rt-thread/src/mem.c:586-614 | giving any used block back keeps the row tiled and coalesced |
| Layout.ShrinkKeeps | projects/rt-thread_foc/rt-thread/src/mem.c:471-504 | cutting a used block short keeps the row tiled and coalesced |
| Layout.GrowKeeps | projects/rt-thread_foc/rt-thread/src/memheap.c:460-511 | growing a used block into the free one behind it keeps the row tiled and coalesced |
| LayoutLive.AllocLive | projects/rt-thread_foc/rt-thread/src/mem.c:304-386 | after an allocation exactly the new block has joined the live blocks; every other keeps its address and extent |
| LayoutLive.ReleaseLive | projects/rt-thread_foc/rt-thread/src/mem.c:586-614 | after a release exactly that block has left the live blocks |
| LayoutLive.ShrinkLive | projects/rt-thread_foc/rt-thread/src/mem.c:471-504 | after a shrink exactly that block's extent has changed |
| LayoutLive.GrowLive | projects/rt-thread_foc/rt-thread/src/memheap.c:460-511 | after growing in place exactly that block's extent has changed |
| LayoutLive.LiveSetDeterminesLayout | projects/rt-thread_foc/rt-thread/src/mem.c:156-194 | two well-formed heaps with the same live blocks are the same, block for block |
| LayoutLive.ReleaseUndoesAlloc | projects/rt-thread_foc/rt-thread/src/mem.c:271-409 | giving a block straight back restores the layout, whether or not the allocation split |
| LayoutLive.ReleasesCommute | projects/rt-thread_foc/rt-thread/src/mem.c:553-616 | two blocks can be freed in either order with the same result |
| LayoutLive.NothingLiveMeansOneFreeBlock | projects/rt-thread_foc/rt-thread/src/mem.c:233-247 | a heap without live blocks is the single free block of initialisation, and conversely |
| LayoutLive.LivePayloadsDisjoint | projects/rt-thread_foc/rt-thread/src/mem.c:271-409 | payloads of different live blocks are disjoint, aligned and inside the heap |
| LayoutLive.LivePayloadClearOfHeaders | projects/rt-thread_foc/rt-thread/src/mem.c:271-409 | no block header overlaps a live payload |
| LayoutTotals.AllocUsed | projects/rt-thread_foc/rt-thread/src/mem.c:349-367 | the used bytes grow by exactly the extent of the block handed out |
| LayoutTotals.ReleaseUsed | projects/rt-thread_foc/rt-thread/src/mem.c:603-614 | the used bytes shrink by exactly the extent of the block given back, whatever merges follow |
| LayoutTotals.ShrinkUsed | projects/rt-thread_foc/rt-thread/src/mem.c:471-504 | the used bytes shrink by exactly what was cut off |
| LayoutTotals.UsedPlusFree | projects/rt-thread_foc/rt-thread/src/mem.c:630-640 | used and free extents make up the distance from the first block to the sentinel |
| LayoutTotals.PeakAppend | projects/rt-thread_foc/rt-thread/src/mem.c:349-367 | comparing with each new value keeps max_mem (and max_used_size) the largest value there ever was |
| LayoutTotals.AllocRoom | projects/rt-thread_foc/rt-thread/src/memheap.c:320-332 | the free payload falls by the request and a header when the block is split, else by the whole block |
| LayoutTotals.ReleaseRoom | projects/rt-thread_foc/rt-thread/src/memheap.c:663-706 | the free payload grows by the block's and by one header for each merge |
| LayoutTotals.ShrinkRoom | projects/rt-thread_foc/rt-thread/src/memheap.c:572-603 | the free payload after a shrink with or without a merge |
| LayoutTotals.GrowRoom | projects/rt-thread_foc/rt-thread/src/memheap.c:462-465 | growing in place costs exactly the difference of the sizes |
| Words.RequestCovered | projects/rt-thread_foc/rt-thread/src/mem.c:282-300 | the search is for at least the requested size exactly when that is at most 2^32 - 4 |
| Words.NeedIs | projects/rt-thread_foc/rt-thread/src/mem.c:282-300 | the size searched for is 12 for small requests and those above 2^32 - 4, and else the request rounded up to the next multiple of 4 |
| HeapMemory.CutLeaves | projects/rt-thread_foc/rt-thread/src/mem.c:334-359 | the header words written by a split spell out the cut row and touch no live payload word |
| HeapMemory.SwallowRep | projects/rt-thread_foc/rt-thread/src/mem.c:170-193 | the two words written by a merge spell out the merged row and touch no live payload word |
| HeapMemory.OwnedWritesRep | projects/rt-thread_foc/rt-thread/src/mem.c:271-409 | clients writing inside their own blocks disturb no header |
| SmallHeap.Heap.SystemHeapInit | projects/rt-thread_foc/rt-thread/src/mem.c:203-256 | succeeds exactly when two headers fit the aligned area, and leaves one free block; otherwise changes nothing |
| SmallHeap.Heap.PlugHoles | projects/rt-thread_foc/rt-thread/src/mem.c:156-194 | coalesces around a free block, keeps lfree the lowest free block and every live word |
| SmallHeap.Heap.AdvanceLowest | projects/rt-thread_foc/rt-thread/src/mem.c:378-386 | from a block with none free before it, finds the lowest free block or the sentinel |
| SmallHeap.Heap.Scan | projects/rt-thread_foc/rt-thread/src/mem.c:304-310 | finds the lowest block that fits, or establishes that none does |
| SmallHeap.Heap.Malloc | projects/rt-thread_foc/rt-thread/src/mem.c:271-409 | null exactly for size 0, a size above the heap, or no fit, and then nothing changes; else the lowest free block that is large enough, now used and less than 24 bytes larger than the size searched for; the live blocks are the old ones and this one, and every old live word is as it was |
| SmallHeap.Heap.Free | projects/rt-thread_foc/rt-thread/src/mem.c:553-616 | ignores null and foreign pointers; else exactly that block is gone from the live ones, and every other keeps place, extent and words |
| SmallHeap.Heap.Realloc | projects/rt-thread_foc/rt-thread/src/mem.c:421-516 | all outcomes: freed, refused, handed back, shortened in place, moved, or left intact when nothing fits; whenever a pointer comes back for a live block, that pointer is to a live block as large as asked for, each word within both sizes is the old one, the others keep place, extent and words, and a block that moved is gone |
| SmallHeap.Heap.ShrinkBlock | projects/rt-thread_foc/rt-thread/src/mem.c:471-504 | shortens in place with the whole heap invariant kept |
| SmallHeap.Heap.MoveBlock | projects/rt-thread_foc/rt-thread/src/mem.c:505-515 | allocate, copy, free: each word within both sizes arrives at its place in the new block and the old block is gone, or nothing fits and nothing changes |
| SmallHeap.Heap.ClientWrite | projects/rt-thread_foc/rt-thread/src/mem.c:271-409 | a client's write to its own payload keeps the heap valid |
| SmallHeap.Heap.MemoryInfo | projects/rt-thread_foc/rt-thread/src/mem.c:630-640 | reports the used extents and the largest value they ever had; used and free make up the heap |
| SmallHeap.MoveKeepsData | projects/rt-thread_foc/rt-thread/src/mem.c:505-515 | across allocate, copy and free the copied bytes survive and every other client keeps its words |
| SmallHeap.LiveSurvivesMove | projects/rt-thread_foc/rt-thread/src/mem.c:505-515 | after a move the live blocks are the old ones without the moved one and with the new one |
| SmallHeap.LowestAfterPlug | projects/rt-thread_foc/rt-thread/src/mem.c:172-192 | merging leaves the lowest free block where it was: the lfree updates of plug_holes are never needed |
| SmallHeap.LowestAfterFree | projects/rt-thread_foc/rt-thread/src/mem.c:597-601 | lfree after a free is the lower of the old lfree and the freed block |
| SmallHeap.OnlyExactTailMissed | projects/rt-thread_foc/rt-thread/src/mem.c:304-310 | a free block large enough is refused exactly when it is last and fits exactly |
| HeapRuns.RunKeeps | projects/rt-thread_foc/rt-thread/src/mem.c:271-616 | every sequence of malloc, realloc and free keeps the row tiled and coalesced |
| HeapRuns.Perform | projects/rt-thread_foc/rt-thread/src/mem.c:271-616 | each call makes the step that the run lemmas are about and leaves every block it does not name alone |
| HeapRuns.PerformRealloc | projects/rt-thread_foc/rt-thread/src/mem.c:421-516 | the resizing call among them: when a pointer comes back it is to a live block as large as asked for, with each word within both sizes; when none does, nothing has changed |
| HeapRuns.Replay | projects/rt-thread_foc/rt-thread/src/mem.c:271-616 | any sequence of calls on the heap is a run of the step function: headers, lfree, used_mem and max_mem are those of its row, and live blocks that no call names keep place, extent and words |
| HeapRuns.LiveThroughout | projects/rt-thread_foc/rt-thread/src/mem.c:271-616 | over any run a live block that no call names stays live, with its address and extent |
| HeapRuns.PointersInRange | projects/rt-thread_foc/rt-thread/src/mem.c:449-457 | over every run no live block is empty and no live pointer fails the range check of rt_free and rt_realloc |
| HeapRuns.HistoryIndependence | projects/rt-thread_foc/rt-thread/src/mem.c:271-616 | two runs that leave the same blocks live leave the same heap |
| HeapRuns.AllFreedIsFresh | projects/rt-thread_foc/rt-thread/src/mem.c:233-247 | a run that leaves no block live leaves the row of initialisation, with no used bytes |
| HeapRuns.BytesConserved | projects/rt-thread_foc/rt-thread/src/mem.c:203-256 | over every run used and free extents make up mem_size_aligned plus one header |
| HeapRuns.InitAndReplay | projects/rt-thread_foc/rt-thread/src/mem.c:203-616 | from initialisation on, used_mem and the free extents make up the heap, and once nothing is live used_mem and lfree are 0 again and the layout is the initial one |
| HeapRuns.MoveAmongOthers | projects/rt-thread_foc/rt-thread/src/mem.c:503-515 | allocate, copy and free with other threads' calls between the three: each word within both sizes arrives, the new block stays live, and every block that nobody names is as it was |
| HeapRuns.ScanNeverEnds | projects/rt-thread_foc/rt-thread/src/mem.c:304-310 | on a heap below 12 bytes the scan's guard holds for ever and every block is refused, for each request that passes the size check, also one whose rounded size is 0 |
| AlignedAlloc.MallocAlign | projects/rt-thread_foc/rt-thread/src/kservice.c:1306-1343 | the result is a multiple of the alignment, its bytes and the hidden word lie inside the new live block without overlap, the word holds the pointer from malloc, and other clients keep blocks and words |
| AlignedAlloc.FreeAlign | projects/rt-thread_foc/rt-thread/src/kservice.c:1352-1358 | with the hidden word intact exactly the block taken is gone; every other keeps place, extent and words |
| AlignedAlloc.FreeAlignUndoesMallocAlign | projects/rt-thread_foc/rt-thread/src/kservice.c:1306-1358 | aligned allocation followed by release restores the layout |
| AlignedAlloc.SizeSufficesIffNoWrap | projects/rt-thread_foc/rt-thread/src/kservice.c:1314-1322 | the block covers the request wherever the aligned address falls exactly when no 32-bit sum wraps; once one wraps no block it may get can hold the request |
| AlignedAlloc.AlignedAddressFacts | projects/rt-thread_foc/rt-thread/src/kservice.c:1326-1333 | the aligned address is a multiple of the alignment and leaves at least one word and at most the alignment before it |
| MemheapPool.TakeAgrees | projects/rt-thread_foc/rt-thread/src/memheap.c:268-348 | allocation keeps the block list and the free list in agreement |
| MemheapPool.GiveBackAgrees | projects/rt-thread_foc/rt-thread/src/memheap.c:663-719 | free, with or without merges on either side, keeps the two lists in agreement |
| MemheapPool.CutDownAgrees | projects/rt-thread_foc/rt-thread/src/memheap.c:546-603 | shrinking, with or without a merge, keeps the two lists in agreement |
| MemheapPool.GrowIntoAgrees | projects/rt-thread_foc/rt-thread/src/memheap.c:460-511 | growing in place keeps the two lists in agreement |
| MemheapLists.CutChained | projects/rt-thread_foc/rt-thread/src/memheap.c:299-303 | the four assignments of a split yield the circular list of the cut row |
| MemheapLists.SwallowChained | projects/rt-thread_foc/rt-thread/src/memheap.c:694-701 | unlinking the next block yields the circular list of the merged row |
| MemheapLists.UnlinkThreaded | projects/rt-thread_foc/rt-thread/src/memheap.c:306-309 | two assignments take any entry out of the circular free list |
| MemheapLists.FrontThreaded | projects/rt-thread_foc/rt-thread/src/memheap.c:312-315 | four assignments put a new entry at the front of the circular free list |
| Memheap.MemHeap.constructor | projects/rt-thread_foc/rt-thread/src/memheap.c:116-191 | one free block and the used tailer, on both lists, with all but two headers available |
| Memheap.MemHeap.Search | projects/rt-thread_foc/rt-thread/src/memheap.c:256-266 | finds the first entry of the free list that is large enough, or establishes that none is |
| Memheap.MemHeap.Alloc | projects/rt-thread_foc/rt-thread/src/memheap.c:224-378 | null exactly when the size is not below available_size or nothing listed is large enough, and then nothing changes; else the first listed block that is large enough; the live blocks are the old ones and this one, with every old live word as it was, and lists and statistics agree |
| Memheap.MemHeap.Free | projects/rt-thread_foc/rt-thread/src/memheap.c:619-727 | exactly that block is gone from the live ones; every other keeps place and extent, and no word has changed; the new place in the free list is stated, lists and statistics agree |
| Memheap.MemHeap.Extend | projects/rt-thread_foc/rt-thread/src/memheap.c:460-515 | grows in place; available_size falls by the difference and the high-water mark follows |
| Memheap.MemHeap.CutBack | projects/rt-thread_foc/rt-thread/src/memheap.c:546-609 | shrinks in place with lists and statistics kept |
| Memheap.MemHeap.Realloc | projects/rt-thread_foc/rt-thread/src/memheap.c:393-610 | all outcomes: freed, kept, shortened, grown in place, moved, or left intact; whenever a pointer comes back for a live block, that pointer is to a live block as large as asked for, each word within both sizes is the old one, the others keep place, extent and words, and a block that moved is gone |
| Memheap.MemHeap.Move | projects/rt-thread_foc/rt-thread/src/memheap.c:523-530 | allocate, copy, free: each word within both sizes arrives at its place in the new block and no other client's word changes, or nothing changes |
| Memheap.OnlyEverythingRefused | projects/rt-thread_foc/rt-thread/src/memheap.c:241-241 | a request that a free block could satisfy is refused by the size test exactly when it asks for all free payload |
| Memheap.GrowTestExact | projects/rt-thread_foc/rt-thread/src/memheap.c:446-460 | the growth test lets through only what fits exactly when newsize plus 12 does not wrap |
| Memheap.GrowTestWraps | projects/rt-thread_foc/rt-thread/src/memheap.c:446-460 | a request of 2^32 - 11 bytes passes the growth test where 24 bytes are there |
| MemheapRuns.RunAgrees | projects/rt-thread_foc/rt-thread/src/memheap.c:224-727 | every sequence of alloc, realloc and free keeps the two lists in agreement |
| MemheapRuns.Perform | projects/rt-thread_foc/rt-thread/src/memheap.c:224-727 | each call makes the step that the run lemmas are about and leaves every block it does not name alone |
| MemheapRuns.PerformRealloc | projects/rt-thread_foc/rt-thread/src/memheap.c:393-610 | the resizing call among them: when a pointer comes back it is to a live block as large as asked for, with each word within both sizes; when none does, nothing has changed |
| MemheapRuns.Replay | projects/rt-thread_foc/rt-thread/src/memheap.c:224-727 | any sequence of calls on the allocator is a run of the step function: both lists, available_size and max_used_size are those of its pool, and live blocks that no call names keep place, extent and words |
| MemheapRuns.LiveThroughout | projects/rt-thread_foc/rt-thread/src/memheap.c:224-727 | over any run a live block that no call names stays live, with its address and extent |
| MemheapRuns.SameBlocksWhateverTheOrder | projects/rt-thread_foc/rt-thread/src/memheap.c:224-727 | two runs that leave the same blocks live leave the same blocks and the same set of free ones |
| MemheapRuns.AllFreedIsFresh | projects/rt-thread_foc/rt-thread/src/memheap.c:128-169 | once all blocks are freed the pool is as initialised, free list included |
| MemheapRuns.AvailableBounded | projects/rt-thread_foc/rt-thread/src/memheap.c:128-131 | free payload stays between 0 and what initialisation had to give |
| MemheapRuns.InitAndReplay | projects/rt-thread_foc/rt-thread/src/memheap.c:116-727 | from initialisation on, available_size is bounded by what there was, and once nothing is live it is all of it again and the free list is the one free block |
| MemheapRuns.MoveAmongOthers | projects/rt-thread_foc/rt-thread/src/memheap.c:520-530 | allocate, copy and free with other threads' calls between the three: each word within both sizes arrives, the new block stays live, and every block that nobody names is as it was |
| RtList.InsertBefore | projects/rt-thread_foc/rt-thread/include/rtservice.h:73-80 | four assignments insert a node at any place of a ring |
| RtList.InsertAfter | projects/rt-thread_foc/rt-thread/include/rtservice.h:58-65 | four assignments insert a node behind any place of a ring |
| RtList.Remove | projects/rt-thread_foc/rt-thread/include/rtservice.h:86-92 | the node leaves the ring, which stays one, and becomes a ring of its own |
| RtList.IsEmpty | projects/rt-thread_foc/rt-thread/include/rtservice.h:98-101 | true exactly for the ring without nodes |
| RtList.Len | projects/rt-thread_foc/rt-thread/include/rtservice.h:107-118 | counts the nodes |
| RtList.ListSuspend | projects/rt-thread_foc/rt-thread/src/ipc.c:109-156 | the walk and insertion put the thread where the sequence model puts it, first-come or by priority |
| RtList.ListResume | projects/rt-thread_foc/rt-thread/src/ipc.c:178-191 | takes exactly the first thread off |
| RtList.ListResumeAll | projects/rt-thread_foc/rt-thread/src/ipc.c:207-235 | empties the list, in queue order, and stores -RT_ERROR in each thread and in no other |
| WaitQueue.InsertKeepsSorted | projects/rt-thread_foc/rt-thread/src/ipc.c:122-147 | insertion by priority keeps the queue sorted |
| WaitQueue.InsertAtPlace | projects/rt-thread_foc/rt-thread/src/ipc.c:128-146 | the thread stands behind everyone at least as urgent and ahead of the first less urgent |
| WaitQueue.SuspendJoins | projects/rt-thread_foc/rt-thread/src/ipc.c:109-156 | the queue is the old one with the thread spliced in: at the end, or behind the last thread at least as urgent |
| WaitQueue.ServeOrderFacts | projects/rt-thread_foc/rt-thread/src/ipc.c:122-147 | the queue is a sorted arrangement of the arrivals, each once |
| WaitQueue.ServeOrderWithout | projects/rt-thread_foc/rt-thread/src/ipc.c:223-228 | a thread that leaves, woken or timed out, leaves the others as if it had never come |
| Semaphore.RtSemaphore.TakePermit | projects/rt-thread_foc/rt-thread/src/ipc.c:464-549 | one step of the semaphore machine; a permit that is there is taken whatever the time-out, else the thread is refused at time 0 and queued at any other |
| Semaphore.RtSemaphore.ReleasePermit | projects/rt-thread_foc/rt-thread/src/ipc.c:586-634 | one step of the semaphore machine; the first waiter leaves the queue and the value stays, else the value grows by one unless at its maximum |
| Semaphore.PermitsConserved | projects/rt-thread_foc/rt-thread/src/ipc.c:464-634 | over every run value and permits handed out make up the initial value, and nobody waits for a permit that is there |
| Semaphore.MutualExclusion | projects/rt-thread_foc/rt-thread/src/ipc.c:464-634 | started at 1 and used as a lock, at most one thread is ever inside |
| Mutex.RtMutex.Take | projects/rt-thread_foc/rt-thread/src/ipc.c:893-1038 | keeps the invariant and makes one step of the mutex machine: a free mutex is taken whatever the time-out, the owner goes one level deeper up to 255, a stranger is refused at time 0 and otherwise queued behind those at least as urgent, with the owner raised to its priority if that is higher |
| Mutex.RtMutex.Release | projects/rt-thread_foc/rt-thread/src/ipc.c:1076-1184 | keeps the invariant and makes one step of the mutex machine: a stranger is refused, a nested release goes one level up, the last one restores the own priority and hands the mutex to the most urgent waiter or leaves it free |
| Mutex.RtMutex.Expire | projects/rt-thread_foc/rt-thread/src/thread.c:903-932 | a waiter whose time is up leaves the queue; the others stay in their order, and owner, depth and priorities as they are |
| Mutex.StepSafe | projects/rt-thread_foc/rt-thread/src/ipc.c:893-1184 | ownership, queue order and inheritance survive every step |
| Mutex.ReachableSafe | projects/rt-thread_foc/rt-thread/src/ipc.c:722-1184 | in every reachable state value, owner and hold agree, waiters wait only for an owner, the wait list is the stable priority sort of the arrivals, and the owner is at least as urgent as every waiter |
| Mutex.RunningThreadMayCall | projects/rt-thread_foc/rt-thread/src/ipc.c:935-990 | no reachable take follows a null owner and no owner's release finds hold at 0 |
| Mutex.OverflowOnlyWhenNested | projects/rt-thread_foc/rt-thread/src/ipc.c:920-958 | the overflow exit is taken exactly by the owner's take at the nesting limit, and by no release |
| Mutex.FullRelease | projects/rt-thread_foc/rt-thread/src/ipc.c:1112-1173 | the last release restores the releasing thread's own priority and hands the mutex to the first in serving order, if anyone waits |
| Mutex.RunBoost | projects/rt-thread_foc/rt-thread/src/ipc.c:974-982 | the owner's priority is its own or that of a thread that blocked on the mutex since it was acquired, and no less urgent than any of these |
| Mutex.TakesAndReleasesBalance | projects/rt-thread_foc/rt-thread/src/ipc.c:893-1184 | a thread's depth is its completed takes less its releases: n nested takes need n releases |
| Mutexes.StaysUrgentIff | projects/rt-thread_foc/rt-thread/src/ipc.c:893-1184 | with any number of mutexes, a call keeps every owner at least as urgent as its waiters exactly when a blocked take raises nobody above the owner that one waits for, and a full release restores a priority urgent enough for the waiters of the thread's other mutexes and hands over to the most urgent waiter |
| Mutexes.UrgentThroughoutIff | projects/rt-thread_foc/rt-thread/src/ipc.c:893-1184 | over whole runs owners never fall behind waiters exactly when each call meets that condition |
| Mutexes.UrgentFromInitIff | projects/rt-thread_foc/rt-thread/src/ipc.c:722-1184 | the same from any number of freshly initialised mutexes on |
| Mutexes.BoostIsLost | projects/rt-thread_foc/rt-thread/src/ipc.c:1113-1124 | two takes, a blocked take and one release leave a waiter waiting for a less urgent owner |
| Mutexes.WithoutNestingOnTheirOwn | projects/rt-thread_foc/rt-thread/src/ipc.c:893-1184 | over every run without nesting, each mutex goes through its own calls as if there were no other, and no owner falls behind a waiter |
| EventGroup.RtEvent.Send | projects/rt-thread_foc/rt-thread/src/ipc.c:1423-1512 | one step of the event machine; whoever leaves the queue has been given bits that were set and that it wants, all it wants with AND and at least one with OR; whoever stays misses a bit with AND and has none of its bits set with OR |
| EventGroup.RtEvent.Serve | projects/rt-thread_foc/rt-thread/src/ipc.c:1464-1496 | succeeds with AND exactly when each wanted bit is set and with OR exactly when some is; the waiter is given the wanted bits that are set, and CLEAR takes exactly the wanted ones |
| EventGroup.RtEvent.Recv | projects/rt-thread_foc/rt-thread/src/ipc.c:1548-1642 | one step of the event machine; with AND RT_EOK exactly when each wanted bit is set, with OR exactly when some is; returns the wanted bits that are set, and CLEAR takes exactly the wanted ones; else refused at time 0 and queued at any other, with no bit changed |
| EventGroup.RtEvent.Pickup | projects/rt-thread_foc/rt-thread/src/ipc.c:1647-1667 | one step of the event machine: the error or the bits found after a wake-up, which are those that the thread was woken with (EventRuns.PickedUpAsPromised) |
| EventGroup.RtEvent.Reset | projects/rt-thread_foc/rt-thread/src/ipc.c:1685-1713 | everyone leaves in queue order with an error, other threads' errors stay, and the bits are cleared |
| EventGroup.StepSafe | projects/rt-thread_foc/rt-thread/src/ipc.c:1423-1713 | no step leaves a waiter satisfied, in the queue twice, or waiting and woken at once |
| EventGroup.ReplayQuiet | projects/rt-thread_foc/rt-thread/src/ipc.c:1444-1501 | after one pass over the queue no waiter left behind is satisfied by the bits that remain |
| EventGroup.ReplayParts | projects/rt-thread_foc/rt-thread/src/ipc.c:1444-1501 | each waiter is resumed or left, once, and those left still want what they wanted |
| EventGroup.ResumedNotLeft | projects/rt-thread_foc/rt-thread/src/ipc.c:1444-1501 | nobody is resumed and left in the queue as well |
| EventGroup.ReplayDelivers | projects/rt-thread_foc/rt-thread/src/ipc.c:1444-1501 | each waiter is resumed with exactly what a non-blocking receive would return at its turn from the bits that those before it have left, or stays with what it wants |
| EventGroup.ReplayShrinks | projects/rt-thread_foc/rt-thread/src/ipc.c:1444-1501 | bits only leave during the scan |
| EventGroup.SatisfiedMonotone | projects/rt-thread_foc/rt-thread/src/ipc.c:1580-1598 | more bits satisfy at least as many receives |
| EventGroup.SatisfiedBits | projects/rt-thread_foc/rt-thread/src/ipc.c:1580-1598 | AND needs each wanted bit, OR some wanted bit, and CLEAR takes exactly the wanted ones |
| EventGroup.ReplayGives | projects/rt-thread_foc/rt-thread/src/ipc.c:1464-1496 | a waiter resumed by the pass is given bits that are set and that it wants, with AND all it wants, with OR at least one |
| EventGroup.ReplayLeaves | projects/rt-thread_foc/rt-thread/src/ipc.c:1464-1496 | the bits left after the pass are exactly those that no resumed CLEAR waiter wanted |
| EventRuns.PickedUpAsPromised | projects/rt-thread_foc/rt-thread/src/ipc.c:1423-1713 | over every run a woken thread's rt_event_recv returns what it was due when it was woken: for a send, RT_EOK and the bits it asked for of those that the waiters before it had left; for a time-out or a reset, the error |
| EventRuns.SendDelivers | projects/rt-thread_foc/rt-thread/src/ipc.c:1444-1667 | the waiter at place k gets RT_EOK and exactly the bits it wants of what those before it leave (`EventGroup.ReplayLeaves` says which), however long others send, receive, time out and reset before it runs; it is woken exactly when each bit it wants is there with AND, or some with OR, and otherwise goes on waiting |
| EventRuns.NobodyStranded | projects/rt-thread_foc/rt-thread/src/ipc.c:1423-1713 | over every run each suspended AND thread misses a bit, and each suspended OR thread has none of its bits set |
| Mailbox.RtMailbox.constructor | projects/rt-thread_foc/rt-thread/src/ipc.c:1762-1790 | an empty ring of the given size, in 16 bits |
| Mailbox.RingAt | projects/rt-thread_foc/rt-thread/src/ipc.c:2310-2316 | the k-th mail stands k places behind out_offset, counted round the ring |
| Mailbox.RtMailbox.SendPass | projects/rt-thread_foc/rt-thread/src/ipc.c:1970-2097 | one step of the bounded deque: with room the mail is appended whatever the time-out, else refused at time 0 and the thread queued at any other; in_offset follows out_offset and entry |
| Mailbox.RtMailbox.UrgentMail | projects/rt-thread_foc/rt-thread/src/ipc.c:2141-2193 | with room the mail is put before the others by winding out_offset back, else refused |
| Mailbox.RtMailbox.RecvPass | projects/rt-thread_foc/rt-thread/src/ipc.c:2215-2343 | one step of the bounded deque: with a mail the oldest is taken whatever the time-out and the first sender woken, else refused at time 0 and the thread queued at any other |
| Mailbox.RtMailbox.Control | projects/rt-thread_foc/rt-thread/src/ipc.c:2361-2393 | empties the box and both queues |
| Mailbox.StepSafe | projects/rt-thread_foc/rt-thread/src/ipc.c:1970-2343 | every step keeps the mails within the size and enough woken threads on the way to what the waiting ones wait for |
| Mailbox.NobodyStranded | projects/rt-thread_foc/rt-thread/src/ipc.c:1970-2343 | in every interleaving a suspended receiver means no more mails than woken receivers yet to look, and a suspended sender no more room than woken senders |
| Mailbox.FirstInFirstOut | projects/rt-thread_foc/rt-thread/src/ipc.c:1970-2343 | over every interleaving the mails go through a double-ended queue, urgent ones in front and reset dropping all: each received mail was first, and nothing is lost, doubled or made up; without urgent mail and reset, first in is first out |
| Deque.FirstInFirstOut | projects/rt-thread_foc/rt-thread/src/ipc.c:2075-2330 | without urgent mails and resets, what came out followed by what is left is what was there followed by what went in |
| Deque.NothingLost | projects/rt-thread_foc/rt-thread/src/ipc.c:2075-2330 | each value is received, dropped or still there exactly as often as it was there or went in |
| MessageQueue.RtMessageQueue.constructor | projects/rt-thread_foc/rt-thread/src/ipc.c:2454-2504 | every slot once on the free list, sizes as stored in 16 bits, and all slots inside the pool |
| Slots.ChainLinks | projects/rt-thread_foc/rt-thread/src/ipc.c:2489-2498 | a list holds a sequence exactly when its head is the first, each one points to the next, and the last to null |
| MessageQueue.RtMessageQueue.AllocPass | projects/rt-thread_foc/rt-thread/src/ipc.c:2739-2821 | one step: a message too large is refused, with a free slot the first is taken whatever the time-out, else refused at time 0 and the thread queued at any other; no slot in another thread's hands is touched |
| MessageQueue.RtMessageQueue.UrgentAllocPass | projects/rt-thread_foc/rt-thread/src/ipc.c:2934-2957 | one step: a message too large is refused, with a free slot the first is taken, else refused |
| MessageQueue.RtMessageQueue.Copy | projects/rt-thread_foc/rt-thread/src/ipc.c:2823-2826 | writes the buffer over the slot's first bytes outside the lock and nothing else |
| MessageQueue.RtMessageQueue.Link | projects/rt-thread_foc/rt-thread/src/ipc.c:2828-2869 | appends the slot to the queue, wakes the first receiver, and always returns RT_EOK |
| MessageQueue.RtMessageQueue.LinkFirst | projects/rt-thread_foc/rt-thread/src/ipc.c:2962-3000 | puts the slot before the queue, wakes the first receiver, and always returns RT_EOK |
| MessageQueue.RtMessageQueue.PopPass | projects/rt-thread_foc/rt-thread/src/ipc.c:3048-3133 | one step: with a message the first one's slot is taken whatever the time-out, else refused at time 0 and the thread queued at any other; head and tail are null together |
| MessageQueue.RtMessageQueue.Read | projects/rt-thread_foc/rt-thread/src/ipc.c:3138-3139 | a receiver with a large enough buffer gets all that the sender copied in, another one as much of it as fits, and never more than msg_size bytes |
| MessageQueue.RtMessageQueue.Free | projects/rt-thread_foc/rt-thread/src/ipc.c:3141-3170 | returns the slot to the free list and wakes the first sender |
| MessageQueue.RtMessageQueue.Control | projects/rt-thread_foc/rt-thread/src/ipc.c:3198-3233 | moves every queued slot to the free list and empties the queues; slots in the middle of a copy stay with their threads |
| MessageQueue.StepSafe | projects/rt-thread_foc/rt-thread/src/ipc.c:2714-3237 | every step keeps each slot in exactly one place and nobody stranded |
| MessageQueue.SlotsConserved | projects/rt-thread_foc/rt-thread/src/ipc.c:2489-2498 | over every interleaving free, queued and held slots are a partition that makes up max_msgs, and nobody waits for what is there once the woken threads have looked |
| MessageQueue.FirstInFirstOut | projects/rt-thread_foc/rt-thread/src/ipc.c:2828-3148 | over every interleaving the contents go through a double-ended queue, urgent ones in front and reset dropping all: each message taken out was first, and none is lost, doubled or made up; without urgent messages and reset, first in is first out |
| MessageQueue.DeliveredAsSent | projects/rt-thread_foc/rt-thread/src/ipc.c:2714-3170 | over every interleaving the buffers given to send and urgent go through a double-ended queue in step with the messages, and each message taken out begins with the buffer that is then first |
| MessageQueue.HeldSlotUntouched | projects/rt-thread_foc/rt-thread/src/ipc.c:2820-2826 | whatever other threads do, a slot in the middle of a copy keeps its contents and its holder |
| MessageQueue.SentAsWritten | projects/rt-thread_foc/rt-thread/src/ipc.c:2820-2838 | a message is queued as it was copied, whatever happens between the copy and the link |
| MessageQueue.ReadAsQueued | projects/rt-thread_foc/rt-thread/src/ipc.c:3117-3139 | a receiver copies the message as it was queued, beginning with what its sender copied in, whatever happens between the two sections |
| MemPool.Pool.constructor | projects/rt-thread_foc/rt-thread/src/mempool.c:81-128 | every block once on the free list, in address order, and the count right |
| MemPool.Pool.AllocPass | projects/rt-thread_foc/rt-thread/src/mempool.c:327-390 | one step: with a free block the first is taken whatever the time-out and the pool written into its header, else refused at time 0 and the thread suspended at the front of the list at any other |
| MemPool.Pool.GiveBack | projects/rt-thread_foc/rt-thread/src/mempool.c:426-456 | one step: the block becomes the first free one and the first thread in the list, if any, is woken |
| MemPool.FreeBlock | projects/rt-thread_foc/rt-thread/src/mempool.c:407-457 | a null block is ignored; otherwise the pool found through the block's header is the pool it came from |
| MemPool.StepSafe | projects/rt-thread_foc/rt-thread/src/mempool.c:311-457 | every step keeps each block free or allocated, once, and nobody stranded |
| MemPool.BlocksConserved | projects/rt-thread_foc/rt-thread/src/mempool.c:311-457 | over every run each block is free or allocated and not both, and a suspended thread means no more free blocks than woken threads yet to look |
| MemPool.FreeUndoesAlloc | projects/rt-thread_foc/rt-thread/src/mempool.c:374-441 | giving back the block just taken restores the pool |
| MemPool.LastInFirstOut | projects/rt-thread_foc/rt-thread/src/mempool.c:344-346 | over every run the wait list is the threads still waiting, latest first |
| MemPool.FreeWakesTheLatest | projects/rt-thread_foc/rt-thread/src/mempool.c:431-442 | a returned block wakes a thread exactly when nobody suspended after it is still waiting |
| MemPool.WaitsExactlyWhileOvertaken | projects/rt-thread_foc/rt-thread/src/mempool.c:344-442 | over any run a thread goes on waiting exactly as long as its timer does not expire and each returned block finds somebody who came later |
| MemPool.NewcomersServedFirst | projects/rt-thread_foc/rt-thread/src/mempool.c:344-346 | a waiting thread can be passed over any number of times by one that comes later |
| MemPool.BlockInside | projects/rt-thread_foc/rt-thread/src/mempool.c:104-115 | header and payload of every block lie in the pool and the payload is aligned |
| MemPool.BlocksApart | projects/rt-thread_foc/rt-thread/src/mempool.c:113-119 | no two blocks overlap |
| MemPool.EachIs | projects/rt-thread_foc/rt-thread/src/mempool.c:103-108 | the divisor of the block count is 0 exactly for block sizes from 2^32 - 7 to 2^32 - 4, a bare header above them, and otherwise the rounded block with its header |
| MemPool.LastStoreInside | projects/rt-thread_foc/rt-thread/src/mempool.c:111-121 | the store that ends the free list hits the pool exactly when a block fits, or block and pool together exceed the address space |
| MemPool.LastStoreInsideIffRoom | projects/rt-thread_foc/rt-thread/src/mempool.c:111-121 | for pools and blocks below half the address space: exactly when a block fits |
| MemPool.NoRoomStoresInFront | projects/rt-thread_foc/rt-thread/src/mempool.c:111-121 | with 8 bytes and blocks of 8 the store goes 12 bytes in front of the pool |
| Format.Vsnprintf | projects/rt-thread_foc/rt-thread/src/kservice.c:845-1108 | writes only inside the buffer; leaves the longest prefix of the unbounded output that fits, a NUL and the rest untouched; returns a length that does not depend on the size; which output is DirectiveInText, SpecRoundTrip, IntegersPrint and OthersPrint |
| Format.Printer.PutPiece | projects/rt-thread_foc/rt-thread/src/kservice.c:878-1092 | one character or directive prints what the format's meaning says and uses the arguments it says |
| Format.Printer.TakeSpec | projects/rt-thread_foc/rt-thread/src/kservice.c:888-957 | reads flags, width, precision and qualifier, from the format or the arguments |
| Format.Printer.SkipAtoi | projects/rt-thread_foc/rt-thread/src/kservice.c:643-650 | the value of a run of digits, and the place behind it |
| Format.Printer.TakeDigits | projects/rt-thread_foc/rt-thread/src/kservice.c:731-738 | the digits of a 32-bit magnitude, least significant first, within the 16-character buffer |
| Format.Printer.PrintNumber | projects/rt-thread_foc/rt-thread/src/kservice.c:673-830 | padding, sign, zeros and minimal digits as the flags, width and precision ask: NumberPieces says which character stands where |
| Format.Printer.PutString | projects/rt-thread_foc/rt-thread/src/kservice.c:980-1008 | the shown prefix, justified to the width |
| Format.TruncationMonotone | projects/rt-thread_foc/rt-thread/src/kservice.c:1094-1107 | a larger buffer never shows less, and one larger than the text shows all of it |
| Format.NumberLength | projects/rt-thread_foc/rt-thread/src/kservice.c:740-827 | a number takes up the larger of the width and what sign, digits and precision need; with precision 0 the digits are counted but not printed |
| Format.NumberPieces | projects/rt-thread_foc/rt-thread/src/kservice.c:673-830 | blanks, sign, zeros, digits and blanks: how many of each for every flag, width and precision; the sign is - exactly for negative signed words, else + or blank as the flags ask; the digits are those of the absolute value, each by its weight |
| Format.DecimalReadBack | projects/rt-thread_foc/rt-thread/src/kservice.c:643-830 | signed read-back for every 32-bit word, flag, width and precision but 0: behind blanks and the sign asked for, the rest reads back as the absolute value, and only blanks follow |
| Format.DigitsByWeight | projects/rt-thread_foc/rt-thread/src/kservice.c:731-738 | the digit of weight b^k is n / b^k mod b, and there are no more digits than needed |
| Format.FlagsAre | projects/rt-thread_foc/rt-thread/src/kservice.c:888-905 | each flag is on exactly when its character stands among the leading flag characters |
| Format.SpecRoundTrip | projects/rt-thread_foc/rt-thread/src/kservice.c:888-957 | a directive written from flags, width, precision and qualifier is read as these |
| Format.StarsRead | projects/rt-thread_foc/rt-thread/src/kservice.c:907-945 | a * takes width or precision from the next argument; a negative width means its absolute value, left-justified, a negative precision 0 |
| Format.IntegersPrint | projects/rt-thread_foc/rt-thread/src/kservice.c:957-1092 | per integer conversion: base, case, signedness, what h cuts off, and one argument used |
| Format.OthersPrint | projects/rt-thread_foc/rt-thread/src/kservice.c:957-1092 | the same for p, c, s and %, for an unknown conversion and for a format that ends in a directive |
| Format.JustifyIs | projects/rt-thread_foc/rt-thread/src/kservice.c:980-1008 | as long as width or text, whichever is longer; the text at the left or right end, blanks elsewhere |
| Format.ShownIs | projects/rt-thread_foc/rt-thread/src/kservice.c:980-1008 | the longest prefix of the string that width and precision let through |
| Format.DirectiveInText | projects/rt-thread_foc/rt-thread/src/kservice.c:878-1092 | a format with one directive prints the text before it, the converted first argument, and the text behind it |
| Format.SignedInText | projects/rt-thread_foc/rt-thread/src/kservice.c:878-1092 | %d in any text: - stands there exactly when the word is negative, the absolute value is read back, and the text around it is as it was |
| Format.OnlyNumeral | projects/rt-thread_foc/rt-thread/src/kservice.c:623-738 | in either base the digits printed are the one numeral of that value: right digits and no leading zero |
| Format.DecimalRoundTrip | projects/rt-thread_foc/rt-thread/src/kservice.c:623-650 | reading a printed number back gives the number and stops right behind it, whatever follows |
| Format.PlainRoundTrip | projects/rt-thread_foc/rt-thread/src/kservice.c:643-830 | a plainly printed decimal below 2^31, signed or not, is read back as itself |
| Svpwm.SvPwm.Gen | projects/rt-thread_foc/applications/mc_rtthread/mc_svm.c:23-109 | in all six branches the on-times are those of the sector-free form, which differ by the demanded voltages times the period and of which two add up to the period, each cut by less than one count |
| Svpwm.PhaseDifferences | projects/rt-thread_foc/applications/mc_rtthread/mc_svm.c:14-108 | for phases a + b + c = 0 and the Clarke vector of a and b, the shares differ by (a - b), (b - c) and (c - a) over the root of 3, to the accuracy of the decimal constants |
| Svpwm.OnTimes | projects/rt-thread_foc/applications/mc_rtthread/mc_svm.c:14-108 | in time units: the demanded differences, and the sum of two of the on-times is the period |
| Svpwm.SharesAreTheOnlyOnes | projects/rt-thread_foc/applications/mc_rtthread/mc_svm.c:14-108 | the sector-free form is the one triple with the demanded differences whose largest and smallest add up to the period |
| Svpwm.FitsIffNotOvermodulated | projects/rt-thread_foc/applications/mc_rtthread/mc_svm.c:14-108 | all on-times lie in the period exactly when no line voltage exceeds 1 |
| Svpwm.NoJumps | projects/rt-thread_foc/applications/mc_rtthread/mc_svm.c:29-108 | the shares move by at most twice what the demand moves by, across sector boundaries too |
| Svpwm.OppositeVector | projects/rt-thread_foc/applications/mc_rtthread/mc_svm.c:29-108 | the opposite vector gives the mirrored on-times |
| Transform.IndexInTable | projects/rt-thread_foc/applications/mc_rtthread/mc_transform.c:98-116 | the table index is in range exactly for angles above -2 pi less one table step and below 4 pi, and the angle lies on the table exactly from -2 pi on |
| Transform.Extrapolated | projects/rt-thread_foc/applications/mc_rtthread/mc_transform.c:109-136 | less than one step before the table the first interval is carried on backwards, and the squared length lies between 1 and 1.0013 |
| Transform.CalcSinCos | projects/rt-thread_foc/applications/mc_rtthread/mc_transform.c:90-139 | for every angle with an index: the table values at the wrapped angle, interpolated with squared length between 0.9996 and 1.0000012, or below -2 pi extrapolated with squared length between 1 and 1.0013 |
| Transform.EntryNorm | projects/rt-thread_foc/applications/mc_rtthread/mc_transform.c:15-87 | every table entry lies on the unit circle to 1.2 millionths |
| Transform.TablesTurn | projects/rt-thread_foc/applications/mc_rtthread/mc_transform.c:15-87 | the tables start at (0, 1), and each entry is the one before turned by the same angle, to 1.5 millionths |
| Transform.NormAt | projects/rt-thread_foc/applications/mc_rtthread/mc_transform.c:123-136 | interpolation never lengthens beyond the table and shortens by less than 0.0004 |
| Transform.ChordNorm | projects/rt-thread_foc/applications/mc_rtthread/mc_transform.c:126-136 | the squared length of an interpolated pair is the mean of its ends less what the chord cuts off |
| Transform.NoFasterThanTable | projects/rt-thread_foc/applications/mc_rtthread/mc_transform.c:115-136 | turning forwards between any two angles, across intervals and past the end of the table, neither function moves faster than its largest table step |
| Transform.Reversal | projects/rt-thread_foc/applications/mc_rtthread/mc_transform.c:15-136 | the computed sine is odd and the computed cosine even |
| Transform.QuarterTurn | projects/rt-thread_foc/applications/mc_rtthread/mc_transform.c:15-136 | everywhere on the dial, a quarter turn ahead the computed sine is the computed cosine |
| Transform.AngleTransform.InversePark | projects/rt-thread_foc/applications/mc_rtthread/mc_transform.c:203-209 | turns the vector, scaling its squared length by that of the sine-cosine pair |
| Transform.Axes | projects/rt-thread_foc/applications/mc_rtthread/mc_transform.c:187-209 | d along the angle goes to cosine and sine, q a quarter turn ahead of it, and both transforms agree on the axes |
| Transform.AngleTransform.ClarkePark | projects/rt-thread_foc/applications/mc_rtthread/mc_transform.c:187-201 | alpha, beta, sine and cosine as promised, but the second Park component ends in d_axis and q_axis stays |
| Transform.RoundTripIff | projects/rt-thread_foc/applications/mc_rtthread/mc_transform.c:194-209 | for every sine-cosine pair but (0, 0): the inverse transform gives the vector back exactly when the lost component is n times the stored one and that is n times q_axis, n the squared length of the pair |
| Transform.AngleTransform.ForthAndBack | projects/rt-thread_foc/applications/mc_rtthread/mc_transform.c:187-209 | both transforms in a row, at every angle with an index: the vector comes back exactly under that condition on the pair from the table |
| Transform.RoundTripFails | projects/rt-thread_foc/applications/mc_rtthread/mc_transform.c:194-209 | at angle 0 a vector along alpha does not come back, whatever q_axis was |
| Transform.TurnedBack | projects/rt-thread_foc/applications/mc_rtthread/mc_transform.c:194-209 | with both components stored, the inverse transform would give the vector scaled by the squared length of the pair |
| Transform.DutiesFit | projects/rt-thread_foc/applications/mc_rtthread/mc_svm.c:16-28 | at every angle with an index a demand of squared length up to 0.9999, or 0.998 below -2 pi, gives on-times inside the period |
| Transform.Drive | projects/rt-thread_foc/applications/mc_rtthread/mc_foc.c:237-248 | at every angle with an index: sine and cosine, inverse Park and modulation in a row leave all three compare values between 0 and the period, for demands up to that limit |
| Transform.LimitsAllowOvermodulation | projects/rt-thread_foc/applications/mc_rtthread/mc_user_definitions.h:87-95 | both current controllers at their limit of 0.98 drive an on-time out of the period |
| PiControl.PiController.Control | projects/rt-thread_foc/applications/mc_rtthread/mc_control.c:16-41 | the output is the sum of both parts where that lies between the limits and the limit where it does not; the integrator takes its step and, beyond a limit, kc times what was cut off |
| PiControl.IntegratorBounded | projects/rt-thread_foc/applications/mc_rtthread/mc_control.c:22-40 | over every run of errors up to E, and for any limits of size up to M, the integrator stays within M + (kp + ki/kc) E and the output within M |
| PiControl.BoundedIffAntiWindup | projects/rt-thread_foc/applications/mc_rtthread/mc_control.c:22-40 | for any limits, the integrator is bounded over all runs exactly when kc > 0 |
| PiControl.WindsUp | projects/rt-thread_foc/applications/mc_rtthread/mc_control.c:39-40 | without feedback a constant error adds up linearly for ever |
| PiControl.AxisControllersUnbounded | projects/rt-thread_foc/applications/mc_rtthread/mc_user_definitions.h:87-95 | the current controllers as configured have no integrator bound |

## Left out

- SmallHeap.Heap.Malloc: requires that the scan's bound does not wrap; on a heap below 12 bytes the scan does not end, as HeapRuns.ScanNeverEnds shows.
- SmallHeap.Heap.Realloc: the method makes the moving branch one section; MoveAmongOthers has it with other threads' calls in between, where the copy itself is one step. The same holds for Memheap.MemHeap.Realloc.
- SmallHeap.Heap.MoveBlock: one section, see SmallHeap.Heap.Realloc; the same holds for Memheap.MemHeap.Move.
- AlignedAlloc.MallocAlign: requires a power of two and sizes that do not wrap; SizeSufficesIffNoWrap says what happens otherwise.
- Memheap.MemHeap.Realloc: requires that newsize plus 12 does not wrap when the growth test is made; GrowTestExact says why.
- Memheap.MemHeap.constructor: requires room for the two headers, without which available_size wraps.
- Memheap.MemHeap.Alloc: headers are kept apart from payload words; a header's own words are only marked as overwritten when it is created, and its magic number is its used bit. Addresses are offsets from start_addr.
- EventGroup.RtEvent.Send: event masks are sets of bit numbers.
- Mutex.RtMutex.Take: wait lists are sequences here and in the other IPC classes; the intrusive lists are proved to do the same in RtList. The priority of a thread changes only through this mutex; Mutexes has several, as steps of this one.
- MemPool.Pool.AllocPass: blocks are numbered; where they lie in the pool is BlockInside and BlocksApart.
- MemPool.Pool.constructor: requires room for one block; LastStoreInside says what the original stores without.
- Format.Vsnprintf: the buffer is at least as long as the size passed, so the correction for an end address that wraps is not made, and rt_vsprintf's unlimited size is not modelled; numbers in the format and `*` arguments are unbounded integers where C's int would overflow; each argument's type is the one its directive expects.
- Format.PlainRoundTrip: base 8 prints in base 16, as the code does, so no octal property is stated.
- Svpwm.SvPwm.Gen: real numbers instead of float; a negative on-time, whose cast C leaves undefined, is cut towards zero. The same holds for Transform and PiControl: no rounding.
- Transform.CalcSinCos: the two tables are given by their first quarter and the symmetries that the listed values have; pi is the decimal constant of the header.
- PiControl.IntegratorBounded: feedback gains kc up to 1, as configured; larger ones are left out.
- Threads, scheduler and timers appear as contracts only: suspend, resume, time-out and change of priority. Remaining time after a wake-up is part of the next call's timeout argument.
- Object names, hooks, debug output, assertion handlers and memory tracing.
- rt_calloc, creation and deletion of IPC objects from the heap, detaching, and the rt_malloc that memheap.c defines over several pools.
- Signals, SMP, modules and drivers.
- The multi-turn count of the encoder.
