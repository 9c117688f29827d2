# FreeRTOS for the Amiga, modelled and proved in Dafny

This project models the parts of the repository that hold most of its state and arithmetic, and proves
what they promise. Code that changes things in place is modelled as classes and methods over fields
and arrays, each method proved against a specification on values; what the specifications mean is
then proved as lemmas, as invariants that every operation keeps, and as methods that perform any run
of operations. `dafny verify dfyconfig.toml` checks everything.

| files | what they model |
|---|---|
| `ListView`, `Lists` | the kernel's circular lists (`FreeRTOS/list.c`, `list.h`): pointers, stability, and how fair the walk is |
| `HeapLayout`, `HeapInvariant`, `HeapOps`, `HeapSteps`, `Heap`, `Memory`, `MemoryRuns` | the boundary-tag allocator (`kernel/memory.c`): words in memory, blocks, free list, all regions together, and any sequence of requests |
| `TaskLists`, `SchedulerState`, `Scheduler`, `SchedulerRuns` | the scheduler (`FreeRTOS/tasks.c`): ticks that wrap, delays, blocking, suspending, switching |
| `Mutexes`, `MutexRuns` | mutexes with priority inheritance (`tasks.c`, `queue.c`) |
| `WrappedTime` | decisions made with a 32-bit tick count (`tasks.c`, `timers.c`) |
| `Queue`, `QueueLocks` | the copying ring and its lock counters (`queue.c`) |
| `MessageBuffer` | the single-reader, single-writer message ring (`stream_buffer.c`) |
| `EventGroup`, `Rendezvous` | waiting for bits (`event_groups.c`) |
| `Mfm`, `Sectors`, `Headers`, `Tracks`, `TrackReading`, `TrackRewriting` | the MFM code, sectors and tracks in memory (`drivers/floppy-mfm.c`) |
| `TrackFormatting` | nothing in the repository formats a disk: a witness that formatted tracks exist |
| `Payloads`, `CachedTracks`, `FloppyDisk`, `FloppySpec`, `FloppyRequests`, `FloppyCache` | the track cache and the heads (`drivers/floppy.c`): bytes of sectors, the buffer of encoded words, the flat disk, what requests do track by track, what follows for runs of them, and the driver itself |
| `Utf8`, `DiskImage`, `DiskImageRoundTrip` | the disk image tool (`tools/fsutil.py`) |

How the pieces are modelled:

- A stretch of kernel code with interrupts disabled or the scheduler suspended is one step. Where an
  interrupt can come in between, the two sides are separate methods (`SchedulerRuns`, `QueueLocks`,
  `MessageBuffer`).
- Heap memory is an array of words, looked at in lines of 16 bytes, since every pointer handed out is
  a multiple of 16. That the word at `end`, which the allocator reads, looks like the header of a used
  block is an assumption: nothing in the repository writes it.
- The scheduler carries a ghost clock, 2^32 times the number of wraps plus the tick count. All claims
  about time are about that clock.
- The configuration is that of `FreeRTOSConfig.h`: preemption, mutexes and `vTaskSuspend` on,
  `vTaskPrioritySet` off, four priorities.
- Track buffers are arrays of 16-bit words, because a track that was read has its sectors at any even
  address; longwords are 32-bit vectors. The first sector of such a buffer begins before the buffer,
  so memory goes on in front of it.
- A disk is its tracks as encoded words; the driver's buffer, the pointers to its sectors, and the decoded
  sectors are arrays, and every read, change, encoding and realigning in `FloppyCache` is that of
  `TrackReading`, `TrackRewriting` and `Tracks`. What the driver cannot choose is a parameter: the
  write-protect notch, the word in front of the buffer, the format byte in the headers of each track, and for each
  reading of a track the sector that comes first and whether its second sync word is skipped with the first one.
- Interrupts, time-outs and the data of requests are parameters.

## What does not hold of the code

For each of these there is the exact condition, for all inputs, and a concrete case.

- A task can get its next turn before a task of the same priority that was ready all the time: exactly if it
  leaves the ready list while `pxIndex` is at it and comes back before the next selection
  (`ListView.FairBetweenSelections`; case: `ListView.UnfairRun`).
- Growing a block into all of the last free block loses the ISLAST flag, and the assertion in
  `ar_check` fails from then on (`Heap.Arena.Resize`, `Heap.Arena.Check`; case: `Heap.IsLastLost`).
- The rounding of a request wraps for sizes from 2^32 - 23 on (`HeapLayout.BlockBytesExact`; cases:
  `HeapLayout.RoundingWraps`). Sixteen of these are rounded to zero: `ar_malloc` returns a pointer to a block that
  stays free, and damages the arena exactly if that is the last one, with its mark (`Heap.Arena.Malloc`); and
  `ar_realloc` returns a pointer to a block that it has freed, and damages the arena exactly if the block in front of
  it is free (`Heap.Arena.Realloc`); in both cases the first assertion of `ar_check` is about what does not match then. For the other seven the block is of 16 bytes.
- `xTaskCheckForTimeOut` can miss a time-out if it is not called for more than a whole wrap
  (`WrappedTime.CheckForTimeOut`; case: `WrappedTime.MissedTimeOut`).
- The assertion in `vTaskPriorityDisinheritAfterTimeout` fails for a task that times out on a mutex
  which it holds itself, after the task it inherited from has given up (`Mutexes.Mutexes.GiveUp`; case, as
  a run of the calls: `MutexRuns.AssertionFails`).
- The count of posts to a locked queue overflows: after 128 to 255 of them unlocking wakes nobody, and
  of more, 255 wake nobody (`QueueLocks.WakeUpsKept`; case: `QueueLocks.LockedQueue.WakeUpLost`).
  Overwriting a full queue without data, such as a semaphore, counts one item too many
  (`Queue.Queue.CopyTo`; case: `Queue.Overcounted`).
- `xStreamBufferNextMessageLengthBytes` asserts that there is nothing or a whole message; between the
  two writes of a send there may be a length only (`MessageBuffer.MessageBuffer.NextMessageLength`; case:
  `MessageBuffer.MessageBuffer.LengthAlone`).
- A receive with too little room moves `xTail` past a length and back. A send that looks for room in between, and
  needs just these four bytes, writes over what has not been read (`MessageBuffer.MessageBuffer.SendMeanwhile`,
  `MessageBuffer.MessageBuffer.Size`, `MessageBuffer.MessageBuffer.Converse`; case:
  `MessageBuffer.MessageBuffer.TooSmallReceiveRace`).
- `VerifyTrackEncoding` does not see two ones where two longwords meet (`Mfm.VerifiedIsWeaker`, with a case).
- `RealignTrack` writes the first sync word of each sector and not the second. If the drive began to
  store words behind both of them, the second one of that sector is whatever lies before the buffer, and unless
  that looks like a sync word, it is missing on a track written from this buffer (`TrackRewriting.RewriteTrack`,
  `FloppySpec.WrittenSecond`). When that track is read again, the header behind the single sync word is read one word
  too early (`TrackReading.HeaderShifted`), and an assertion in `DecodeTrack` fails if and only if the format
  byte of the track is above 11 or the word in place of the sync word has the bits 0x50; otherwise
  `DecodeTrack` returns without having found that sector (`TrackReading.DecodeTrack`, `TrackReading.NotAllFound`,
  `FloppySpec.MissingExactly`, `FloppyRequests.LostForGood`; case: `FloppyRequests.TrackLost`).
- The sum that decides whether a request goes past the end of the disk is one of 32 bits. If it wraps, the
  request is not cut, and the heads are sent beyond the last track (`FloppyRequests.ClipExactly`,
  `FloppyRequests.HandledExactly`; case: `FloppyRequests.ClipWraps`).
- A write to a protected disk is reported as a success. What was written is read back until another track is
  read, and never gets onto the disk (`FloppyRequests.ReadsDisk`, `FloppyRequests.ProtectedStays`,
  `FloppyRequests.PhantomWrite`; case: `FloppyRequests.PhantomCase`).
- In a disk image whose directory size is a multiple of 512, files are recorded one sector before
  their place, and names that end in a NUL lose it (`DiskImageRoundTrip.RoundTripExactly`; cases: every such
  directory by `DiskImageRoundTrip.Lost`, with one of them in `DiskImageRoundTrip.FullDirectory`, and every such
  name by `DiskImageRoundTrip.NamesLost`). Without boot code no image can be made at all, because `save` makes
  a byte stream of a string (`DiskImage.Save`).
- The checksum of the boot block folds its carry once. The sum over the finished block is all ones exactly if
  that leaves no further carry (`DiskImage.ChecksumCompletes`; case: `DiskImage.CarryLeft`).

## Model

| member | source | states |
|---|---|---|
| Lists.ListItem.constructor | FreeRTOS/list.c:62-71 | A new item has its value and is in no list. |
| Lists.List.constructor | FreeRTOS/list.c:37-59 | An initialised list is a ring of its end marker alone: empty, with `pxIndex` at the marker. |
| Lists.Link | FreeRTOS/list.c:87-97 | The four pointer writes and the container write of an insertion turn a ring into the ring with one more node at the given place. |
| Lists.Unlink | FreeRTOS/list.c:176-192 | The two pointer writes of a removal leave a ring without that node, and the item knows no list any more. |
| Lists.List.InsertEnd | FreeRTOS/list.c:74-100 | The ring stays well formed, and its value becomes that of `ListView.InsertEnd`: the item lies just before `pxIndex`. |
| Lists.List.FindPlace | FreeRTOS/list.c:105-155 | The search ends, also for the largest value, behind every item whose value is not larger; the place is the first such one. |
| Lists.List.InsertBehind | FreeRTOS/list.c:157-166 | Linking the item behind the place found makes it the next one there, and `pxIndex` stays at its item. |
| Lists.List.Insert | FreeRTOS/list.c:103-167 | The whole of vListInsert: place, new value of the list, and no item value changed. |
| Lists.List.Next | FreeRTOS/include/list.h:277-288 | The pointer walks to the next item, past the end marker, and returns it. |
| Lists.List.Detach | FreeRTOS/list.c:176-195 | Removing the j-th node leaves the others in order, and moves `pxIndex` back if it was there. |
| Lists.ListRemove | FreeRTOS/list.c:170-196 | Knowing only the item, uxListRemove finds its list, removes exactly that item, clears the container, and returns the new count. |
| Lists.InsertPlaceUnique | FreeRTOS/list.c:122-155 | There is only one place behind all values not larger and before a larger one. |
| Lists.InsertKeepsSorted | FreeRTOS/list.c:103-167 | A sorted list stays sorted, and equal values, the largest one included, keep the order of insertion. |
| ListView.InsertEndOk | FreeRTOS/list.c:74-100 | Inserting adds exactly the new item, keeps items distinct, and leaves `pxIndex` at its item. |
| ListView.InsertAtOk | FreeRTOS/list.c:157-166 | The same for an insertion at a place. |
| ListView.RemoveOk | FreeRTOS/list.c:170-196 | Removing takes out exactly that item, and a pointer at another item stays there. |
| ListView.StepRank | FreeRTOS/include/list.h:277-288 | What each list operation does to the number of selections that come before a given task. |
| ListView.InsertedRank | FreeRTOS/list.c:84-94 | An item inserted at the end is selected after every item, except one that `pxIndex` is at. |
| ListView.BoundedWaiting | FreeRTOS/tasks.c:133-148 | Over every run of insertions, removals and selections: a task that stays is selected within its rank, plus one for every insertion made with `pxIndex` at it. |
| ListView.SelectionOrder | FreeRTOS/tasks.c:133-148 | Over every run: of two unselected tasks the one is selected before the other exactly unless the last insertion of the other was made with `pxIndex` at the one. |
| ListView.FairBetweenSelections | FreeRTOS/tasks.c:133-148 | Between two selections of a task every task that stayed in the list is selected, except exactly those at which `pxIndex` was when the task was last inserted again. |
| ListView.UnfairRun | FreeRTOS/list.c:182-186 | The exception can be reached: a task leaves and comes back, and runs again before a task that was ready all the time. |
| ListView.UnwalkedAppends | FreeRTOS/list.c:84-94 | In lists that are never walked, vListInsertEnd appends. |
| HeapLayout.TagFields | kernel/memory.c:63-117 | Size and flags can be read back from a tag, and setting or clearing one flag changes nothing else. |
| HeapLayout.BlockBytesExact | kernel/memory.c:170-172 | The rounded size holds the request and two tags exactly if the 32-bit sum does not wrap, and is then less than 24 bytes larger than the request; it is zero for exactly sixteen sizes, and 16 for the largest seven. |
| HeapLayout.RoundingWraps | kernel/memory.c:170-172 | The cases next to the edge: the largest size that is rounded up, the first that is rounded to zero, and the largest of all. |
| HeapLayout.ListRemoveOk | kernel/memory.c:162-168 | Unlinking a node leaves the circular list of all the others. |
| HeapLayout.ListInsertOk | kernel/memory.c:150-160 | A node is linked in at the end of the circular list. |
| HeapLayout.TilesReplace | kernel/memory.c:364-411 | Blocks that replace others in the same lines keep the arena tiled without gap or overlap. |
| HeapInvariant.CoalescedReplace | kernel/memory.c:383 | They keep free blocks apart if the new ones are apart from their neighbours. |
| HeapInvariant.ReplacedInv | kernel/memory.c:364-411 | Every operation is such a replacement: it keeps the whole invariant, and the data of all other used blocks. |
| HeapInvariant.BlocksDisjoint | kernel/memory.c:226-259 | Live blocks are disjoint, inside the arena, and each pointer is a multiple of 16 bytes. |
| HeapOps.TotalFreeFits | kernel/memory.c:205-211 | `totalFree` is never negative and never more than the size of the arena, so its 32 bits never wrap. |
| HeapSteps.AllListed | kernel/memory.c:399-408 | The free list has as many nodes as there are free blocks. |
| HeapSteps.StoreOk | kernel/memory.c:59-93 | A write between header and footer of a used block keeps the invariant and the data of every other block. |
| HeapSteps.LeftOrder | kernel/memory.c:162-168 | Unlinking the free neighbours leaves all others in their order. |
| Heap.Arena.constructor | kernel/memory.c:213-224 | From arbitrary memory ar_init makes a well-formed arena of one free block, if the word at `end` looks like the header of a used block; `totalFree` is what one block leaves, and `minFree` the largest number. |
| Heap.Arena.Init | kernel/memory.c:213-224 | The same for the writes of ar_init, in place. |
| Heap.Arena.BtMake | kernel/memory.c:83-89 | Exactly the header and the footer of the block change: the tag, and the tag again or the canary. |
| Heap.Arena.NInsert | kernel/memory.c:150-160 | The block is last in the free list, and no word but list pointers changes. |
| Heap.Arena.NRemove | kernel/memory.c:162-168 | The block leaves the free list, and no word but list pointers changes. |
| Heap.Arena.DecFree | kernel/memory.c:205-211 | `totalFree` falls by the size, and `minFree` stays the least value recorded. |
| Heap.Arena.FindFit | kernel/memory.c:176-182 | The first listed block that is large enough, or none only if all are too small. |
| Heap.Arena.Malloc | kernel/memory.c:226-259 | For every size of 32 bits: the first fitting free block is cut or taken whole, the arena stays well formed, all other live data stay; null only if every free block is too small, and then nothing changes. A size that is rounded to zero gets a pointer to a block that stays free; the arena stays well formed if and only if that is not the last block with its mark, and otherwise the assertion in ar_check that header and footer match fails for it. The free list, in order, and `minFree` are stated: what is left of the block is listed last, and the new total is recorded if it is the least so far. |
| Heap.Arena.TakeNone | kernel/memory.c:226-259 | The part for sizes that are rounded to zero. |
| Heap.Arena.Take | kernel/memory.c:226-259 | The same, by the rounded size. |
| Heap.Arena.TakePart | kernel/memory.c:237-245 | Splitting: the first lines become the used block, the rest a free one at the end of the list, behind all others in their order, with ISLAST moved to it. |
| Heap.Arena.TakeWhole | kernel/memory.c:237-249 | No split: the block is used as a whole, leaves the list, and PREVFREE behind it is cleared. |
| Heap.Arena.Free | kernel/memory.c:261-304 | The block and whichever neighbours are free become one free block; the neighbours leave the free list, the block is listed last, and all others keep their order. The arena stays well formed, all other data stay, and `minFree` as well. |
| Heap.Arena.Merge | kernel/memory.c:261-304 | The tags, list and count that the body of ar_free leaves, in all four cases. |
| Heap.Arena.MergeNext | kernel/memory.c:270-288 | First half: the block is free, with a free successor taken in, or PREVFREE set in a used one. |
| Heap.Arena.MergePrev | kernel/memory.c:290-298 | Second half: a free predecessor takes it in. |
| Heap.Arena.Realloc | kernel/memory.c:306-357 | For every size of 32 bits: the block stays where it is, exactly if it shrinks or the free lines behind suffice; what fits of its data is kept, all else as well, and a refusal changes nothing. A size that is rounded to zero frees the block and returns its pointer; or, exactly if a free block lies in front of it, the footer of that block no longer matches its header. The free list, in order, is stated, and `minFree` changes only by growing, as in ar_malloc. |
| Heap.Arena.ResizeNone | kernel/memory.c:319-326 | The part for sizes that are rounded to zero. |
| Heap.Arena.Resize | kernel/memory.c:306-357 | The same, by the rounded size. |
| Heap.Arena.Shrink | kernel/memory.c:319-326 | Shrinking frees the second half, merged with what is free behind it. |
| Heap.Arena.HalveBlock | kernel/memory.c:320-324 | The block is first cut into two used ones with correct flags. |
| Heap.Arena.Grow | kernel/memory.c:333-348 | Growing takes from the free block behind exactly what is missing. |
| Heap.Arena.GrowPart | kernel/memory.c:336-342 | With a rest: it stays free and carries ISLAST. |
| Heap.Arena.GrowWhole | kernel/memory.c:343-347 | Without a rest: PREVFREE behind is cleared, and ISLAST is lost if the free block was the last one. |
| Heap.Arena.Check | kernel/memory.c:364-411 | In every reachable state all assertions of ar_check hold, but for the one on ISLAST; that one holds exactly as long as no block has grown into all of a last free block. |
| Heap.IsLastLost | kernel/memory.c:333-348 | From ar_init on: an allocation, a growth into all that is left, and the assertion on ISLAST fails. |
| Heap.Arena.CheckBlocks | kernel/memory.c:375-395 | Its walk over the blocks meets every block once and finds tags, canaries, PREVFREE flags and the free total right. |
| Heap.Arena.Store | kernel/memory.c:59-93 | The owner of a block may write any of its words but the canary. |
| Memory.Memory.constructor | kernel/memory.c:520-529 | Separate well-formed regions make a well-formed memory. |
| Memory.Memory.ArenaOf | kernel/memory.c:425-435 | A pointer into a region is found to be of that region. |
| Memory.Memory.Free | kernel/memory.c:468-471 | Freeing null does nothing; freeing a live pointer leaves all other live blocks, in all regions, with their data, and no block is in use that was not. |
| Memory.Memory.MallocBelow | kernel/memory.c:437-451 | For every size: a block of a region below the limit, of the rounded size and formerly free; null only if no such region has room; no other block is touched, and none but the new one has come into use. With a size rounded to zero a free block of such a region, and no block has come into use; whether the region is damaged is stated exactly. No region in front of that one and below the limit has room. |
| Memory.Memory.Copy | kernel/memory.c:491-493 | The copied words are those of the old block up to its canary, and no other block changes. |
| Memory.Memory.Realloc | kernel/memory.c:475-499 | For every size, null, zero size, shrinking, growing in place and moving: what fits of the contents comes along, all other live blocks keep place and data, and nothing else is in use; null for a real size only if no region has room. With a size rounded to zero the pointer is returned although its block was freed, or its region is damaged, exactly if a free block lies in front. The pointer stays the same if and only if its block is long enough, or is so together with a free block behind it. |
| Memory.Memory.Move | kernel/memory.c:490-498 | Moving: a new block, the copy, then the old block is freed; without room nothing changes. |
| Memory.MoveOk | kernel/memory.c:490-495 | After a move all blocks but the old one are kept, and the new one has the words of the old. |
| MemoryRuns.Serve | kernel/memory.c:437-499 | Over every sequence of allocations, frees, reallocations and writes by the owners, up to a size that is rounded to zero, with the live blocks and their words after each step given by the requests and their results: every live pointer is to a block in use with exactly these words, all are different, nothing else is in use but what was before, and memory is refused only if no region has room. A live block keeps its place if and only if it has room there. |
| MemoryRuns.ServeOne | kernel/memory.c:437-499 | One such step, with a size that is not rounded to zero. |
| MemoryRuns.RoomExactly | kernel/memory.c:333-348 | Whether there is room where a pointer leads depends on the pointer alone. |
| MemoryRuns.AllStay | kernel/memory.c:468-499 | A request about one block leaves all other live ones with their words. |
| MemoryRuns.StillAccounted | kernel/memory.c:468-499 | After a request every block in use is live or was in use at the beginning. |
| MemoryRuns.NewPointer | kernel/memory.c:437-451 | A pointer handed out is to memory that no live pointer had. |
| TaskLists.LeaveHolds | FreeRTOS/list.c:170-196 | Containers and lists agree after an item left its list. |
| TaskLists.EnterEndHolds | FreeRTOS/list.c:74-100 | They agree after an item entered a list at its end. |
| TaskLists.EnterAtHolds | FreeRTOS/list.c:103-167 | They agree after an item entered a list at a place. |
| SchedulerState.InsertInOrder | FreeRTOS/list.c:103-167 | Insertion keeps a delayed list in the order of its wake times. |
| SchedulerState.HeadIsNext | FreeRTOS/tasks.c:2759-2791 | The head of the current delayed list has the least wake time in it. |
| SchedulerState.EmptyAtWrap | FreeRTOS/tasks.c:198-210 | When the tick count wraps, the current delayed list is empty, and the other one is of the new epoch. |
| SchedulerState.AllAhead | FreeRTOS/tasks.c:2752-2791 | If the head is still ahead, exactly the tasks that were due have been woken. |
| SchedulerState.BlockedTimes | FreeRTOS/tasks.c:5232-5283 | A wake time computed modulo 2^32 and put into the right list stands for the tick count plus the delay in unbounded time. |
| SchedulerState.WaitersKnown | FreeRTOS/tasks.c:3064-3203 | The waiters of every event list are known tasks that are blocked or suspended. |
| SchedulerState.ReadyWaitsForNothing | FreeRTOS/tasks.c:1077-1250 | A task that is ready or waits for termination is in no event list. |
| SchedulerState.Deleted | FreeRTOS/tasks.c:1162-1250 | Taking a task out of its list and forgetting it keeps all others in exactly one list. |
| SchedulerState.PriorityStates | FreeRTOS/tasks.c:4024-4070 | A ready task with a new priority moves to the list of that priority; all list invariants hold. |
| SchedulerState.AllReadied | FreeRTOS/tasks.c:2221-2240 | When the pending list is empty, exactly the tasks that were in it have become ready. |
| SchedulerState.EmptyAbove | FreeRTOS/tasks.c:133-148 | No task is ready above a priority that bounds them, and the idle task is ready at the lowest. |
| SchedulerState.InUse | FreeRTOS/tasks.c:3092 | An event item in use by an event group has its top bit set and all others as in the given value. |
| SchedulerState.SharedExactly | FreeRTOS/tasks.c:2819-2826 | The ready list of a priority has more than one item exactly if two tasks are ready at it. |
| SchedulerState.ThenAbove | FreeRTOS/tasks.c:2259-2261 | One more tick adds exactly the tasks that it wakes to those that call for a switch. |
| SchedulerState.InUseStays | FreeRTOS/tasks.c:4029-4036 | A new priority leaves the value of an event item alone if an event group uses it, and else sets it to match. |
| Scheduler.Scheduler.constructor | FreeRTOS/tasks.c:3607-3636 | All lists are empty but for the idle task, and the whole invariant holds. |
| Scheduler.Scheduler.Unblock | FreeRTOS/tasks.c:2803-2815 | The task moves to the end of the ready list of its priority and out of its event list; nothing else moves. |
| Scheduler.Scheduler.ResetNextUnblock | FreeRTOS/tasks.c:3943-3964 | The next unblock time is that of the head of the current list, or the largest number, and never later than any wake time of that list. |
| Scheduler.Scheduler.SwitchDelayedLists | FreeRTOS/tasks.c:198-210 | The assertion that the current list is empty holds; the lists swap, and every wake time keeps its meaning in unbounded time. |
| Scheduler.Scheduler.Expire | FreeRTOS/tasks.c:2759-2830 | Exactly the delayed tasks that are due become ready and leave their event lists, each is recorded at its due time, and a switch is asked for exactly if one of them has at least the running priority. |
| Scheduler.Scheduler.ExpireHead | FreeRTOS/tasks.c:2765-2829 | One turn: the head is due now, becomes ready, and the list is shorter. |
| Scheduler.Scheduler.NextTick | FreeRTOS/tasks.c:2718-2734 | The tick count goes up by one modulo 2^32, unbounded time by one, and every wake time keeps its meaning; the next unblock time changes only with a wrap. |
| Scheduler.Scheduler.NobodyDue | FreeRTOS/tasks.c:2740 | Below the next unblock time no delayed task is due. |
| Scheduler.Scheduler.ProcessTick | FreeRTOS/tasks.c:2718-2830 | One tick in unbounded time; skipping the walk below the next unblock time misses no one and leaves that time alone. |
| Scheduler.Scheduler.IncrementTick | FreeRTOS/tasks.c:2707-2876 | While the scheduler runs: one tick later, exactly the due tasks awake, and a switch exactly for a woken task, a time slice, or a pending yield; while it is suspended: one more pended tick and nothing else. |
| Scheduler.Scheduler.TickInterrupt | FreeRTOS/tasks.c:2707-2876 | The tick count plus the pended ticks equals the ticks delivered, modulo 2^32; and a switch is asked for exactly as by `IncrementTick`. |
| Scheduler.Scheduler.InsertDelayed | FreeRTOS/tasks.c:5255-5266 | The running task enters a delayed list in the order of wake times. |
| Scheduler.Scheduler.AddCurrentToDelayed | FreeRTOS/tasks.c:5177-5286 | For every delay: the suspended list exactly for an indefinite wait, else the list of the wrap it is due in, due exactly that many ticks from now; the next unblock time stays a lower bound. |
| Scheduler.Scheduler.Sleep | FreeRTOS/tasks.c:5239-5283 | The part of it that computes the wake time, wrapped or not. |
| Scheduler.Scheduler.PlaceOnEventList | FreeRTOS/tasks.c:3064-3078 | The running task blocks and goes behind all waiters of its priority or a higher one. |
| Scheduler.Scheduler.PlaceOnUnorderedEventList | FreeRTOS/tasks.c:3081-3102 | The running task blocks at the end of the list, with the given value in its event item. |
| Scheduler.Scheduler.RemoveFromEventList | FreeRTOS/tasks.c:3138-3203 | The first waiter becomes ready, or pending while the scheduler is suspended, leaves only that list, and a yield is due exactly if its priority is higher. |
| Scheduler.Scheduler.KeepPending | FreeRTOS/tasks.c:3174-3180 | A task readied while the scheduler is suspended is in the pending list only. |
| Scheduler.Scheduler.Suspend | FreeRTOS/tasks.c:1704-1798 | The task is in the suspended list and no event list, and the next unblock time is exact again; everything else stays. |
| Scheduler.Scheduler.Resume | FreeRTOS/tasks.c:1848-1897 | Exactly a task that is suspended, waits for nothing and is not pending becomes ready. |
| Scheduler.Scheduler.ResumeFromISR | FreeRTOS/tasks.c:1905-1970 | The same from an interrupt, or it becomes pending while the scheduler is suspended. |
| Scheduler.Scheduler.Delete | FreeRTOS/tasks.c:1162-1250 | Another task is gone from all lists, and the next unblock time is exact again; the running one waits for termination. |
| Scheduler.Scheduler.Reap | FreeRTOS/tasks.c:3639-3665 | The idle task gives back exactly the tasks that wait for termination. |
| Scheduler.Scheduler.Create | FreeRTOS/tasks.c:1077-1157 | A new task is ready at its priority, and a yield is due exactly if that is above the running one. |
| Scheduler.Scheduler.SuspendAll | FreeRTOS/tasks.c:2110-2128 | Suspension nests. |
| Scheduler.Scheduler.ResumeAll | FreeRTOS/tasks.c:2194-2301 | An inner call changes nothing; the outermost leaves no task pending and no tick pended: time has moved on by all of them, pending and due tasks are ready, and no time-out is lost. A switch is due afterwards if and only if it was before, or a task that was pending or whose time came has at least the running priority, or a tick was pended and the running priority is shared by two ready tasks. |
| Scheduler.Scheduler.ReadyPending | FreeRTOS/tasks.c:2217-2252 | Its first loop readies exactly the pending tasks; it asks for a switch exactly if one of them has at least the running priority, and computes the next unblock time anew exactly if there was one. |
| Scheduler.Scheduler.CatchUp | FreeRTOS/tasks.c:2254-2283 | Its second loop processes every pended tick, and asks for a switch exactly if one of them requires it. |
| Scheduler.Scheduler.CatchUpTicks | FreeRTOS/tasks.c:2609-2624 | Time moves on by exactly the given ticks, and what is due meanwhile is woken; the result tells whether a switch is due, exactly as for `ResumeAll`. |
| Scheduler.Scheduler.SwitchContext | FreeRTOS/tasks.c:2989-3061 | The next task in turn of the highest priority that any ready task has, or only a pending yield while the scheduler is suspended. |
| Scheduler.Scheduler.HighestReady | FreeRTOS/tasks.c:133-148 | The downward search ends at the highest non-empty list, and never goes below zero. |
| Scheduler.Scheduler.TakeTurn | FreeRTOS/include/list.h:277-288 | Only `pxIndex` of that list moves on, and its task is the running one. |
| Scheduler.Scheduler.CountTicks | FreeRTOS/tasks.c:2862-2864 | Ticks while the scheduler is suspended are counted and change nothing else. |
| Scheduler.Scheduler.Delay | FreeRTOS/tasks.c:1341-1379 | However many ticks come in while the scheduler is suspended, the task sleeps until exactly that many ticks after the call; whether a switch has been asked for then is stated exactly as for `ResumeAll`. |
| Scheduler.Scheduler.PriorityInherit | FreeRTOS/tasks.c:4014-4097 | Exactly a holder of lower priority is raised, and moves to the matching ready list if it is ready; the result tells whether it has inherited, now or before. |
| Scheduler.Scheduler.PriorityDisinherit | FreeRTOS/tasks.c:4104-4177 | The holder gets its base priority back exactly when it gives the last mutex it holds, and is then in the ready list of that priority. |
| Scheduler.Scheduler.DisinheritAfterTimeout | FreeRTOS/tasks.c:4184-4282 | A holder of one mutex falls to its base or the highest waiting priority, and to that ready list if it is ready; the assertion inside fails exactly if the running task is that holder and would have to change. |
| SchedulerRuns.Run | FreeRTOS/tasks.c:2707-2876 | Over every run of ticks, switches, creations, delays, waits, wake-ups, suspensions, resumptions, deletions and scheduler locks, over any number of wraps: a delayed task that no step wakes, suspends or deletes is still delayed before its due time, and from then on a time-out of exactly that tick is on record that was not there before. What every step of the run does to time, tasks, waits and due times is stated, from the first to the last. |
| SchedulerRuns.Perform | FreeRTOS/tasks.c:2707-2876 | The same for one step, with what it does. |
| Mutexes.TakeBalanced | FreeRTOS/tasks.c:4618-4628 | Taking a mutex keeps the accounts: every task counts exactly the mutexes it holds. |
| Mutexes.GiveBalanced | FreeRTOS/tasks.c:4104-4177 | Giving one back keeps them too, with the base priority restored with the last one. |
| Mutexes.RaiseBalanced | FreeRTOS/tasks.c:4024-4070 | Raising a task that holds something keeps them. |
| Mutexes.Mutexes.constructor | FreeRTOS/queue.c:466-505 | Without mutexes the accounts are balanced. |
| Mutexes.Mutexes.New | FreeRTOS/queue.c:496-505 | A new mutex is free. |
| Mutexes.Mutexes.Take | FreeRTOS/queue.c:1418-1548 | Free: the running task holds it. Held and no patience: nothing changes. Held: the task blocks on it, and the new priority, state list and wake time of every task are stated; the holder has at least the priority of the blocked task. The accounts stay balanced. |
| Mutexes.Mutexes.Block | FreeRTOS/queue.c:1537-1572 | Inheriting and blocking together: the exact new priorities, state lists, waits and due times. |
| Mutexes.Mutexes.Disinherit | FreeRTOS/queue.c:2085-2091 | The mutex is free and the accounts are balanced; the running task is back at its base priority exactly if it was its last mutex and the priority was inherited, and only then a yield is due. |
| Mutexes.Mutexes.Give | FreeRTOS/queue.c:833-868 | The mutex is free, the accounts balanced, and the first waiter released; the new priority and state list of every task are stated, and a yield is due exactly if the released waiter has a higher priority than the running task has by then, or if nobody waited and the running task got its base priority back. |
| Mutexes.Mutexes.HighestWaiting | FreeRTOS/queue.c:2049-2069 | The priority of the first waiter, or that of the idle task, read from the event item value. |
| Mutexes.Mutexes.GiveUp | FreeRTOS/queue.c:1590-1625 | After a time-out the accounts stay balanced, and the assertion fails exactly if the task waited for a mutex it holds itself, as its only one, with a priority no remaining waiter explains. |
| MutexRuns.AssertionFails | FreeRTOS/tasks.c:4214-4225 | A run of the calls, from the start of the scheduler, that ends in the failing assertion: a task holds a mutex, inherits from one that gives up, and times out on its own mutex. |
| MutexRuns.RivalGivesUp | FreeRTOS/queue.c:1590-1625 | On the way there: the rival has given up, and the holder keeps the inherited priority, because it is by now the highest waiter on its own mutex. |
| MutexRuns.Perform | FreeRTOS/queue.c:1418-1633 | One step of a run, and exactly what it does, or that the assertion fails. A task gives up only after it blocked on that mutex, with what its own call remembered. |
| MutexRuns.Lock | FreeRTOS/queue.c:1418-1572 | The step of a task that takes a mutex. |
| MutexRuns.Release | FreeRTOS/queue.c:2085-2091 | The step of a task that gives a mutex back. |
| MutexRuns.Resign | FreeRTOS/queue.c:1590-1625 | The step of a task that gives up: the holder is lowered to its base or the highest waiting priority exactly if the call had made it inherit, it holds nothing else, and that is another priority; the assertion fails exactly if it is the running task that would be lowered. |
| MutexRuns.Run | FreeRTOS/queue.c:1418-1633 | Over every run of ticks, switches, creations, takes, gives and time-outs, from the start of the scheduler: after every step each task counts the mutexes it holds, is never below its base priority, and is exactly there while it holds none. What every step does is stated, and the run ends early exactly where the assertion in vTaskPriorityDisinheritAfterTimeout fails. |
| WrappedTime.CheckForTimeOut | FreeRTOS/tasks.c:3274-3334 | Exact against unbounded time within one wrap: time-out if and only if the wait is over, and otherwise the remaining wait; beyond that, the exact condition under which a time-out is missed. After a time-out the state stays, and nothing remains of the wait, unless the clock went round, in which case it stays as well. |
| WrappedTime.MissedTimeOut | FreeRTOS/tasks.c:3305-3318 | A wait of ten ticks that is not seen to be over after more than a whole wrap. |
| WrappedTime.CheckUntil | FreeRTOS/tasks.c:3274-3334 | Checked again and again, at most a wrap apart, it reports the time-out at the first check at which the whole original wait is over. |
| WrappedTime.DelayUntil | FreeRTOS/tasks.c:1257-1334 | It delays exactly if the previous wake time plus the increment is still ahead, and by exactly the difference. |
| WrappedTime.WakePeriodically | FreeRTOS/tasks.c:1257-1334 | No drift: the n-th wake time is the start plus n increments, however late the task runs within a wrap. |
| WrappedTime.InsertTimer | FreeRTOS/timers.c:693-732 | It says to process now exactly if the timer has expired, and else picks the list of the wrap it expires in. |
| Queue.FrontSlot | FreeRTOS/queue.c:2109-2126 | Putting an item in front does not move the place of the next one at the back. |
| Queue.SlotsDiffer | FreeRTOS/queue.c:2096-2126 | Different places in the queue are different slots. |
| Queue.WindowBack | FreeRTOS/queue.c:2096-2107 | Writing the next slot appends to the items behind the read pointer. |
| Queue.WindowFront | FreeRTOS/queue.c:2109-2126 | Writing the slot of the read pointer and moving it back prepends. |
| Queue.WindowPop | FreeRTOS/queue.c:2153-2168 | Moving the read pointer on drops the first item. |
| Queue.Queue.constructor | FreeRTOS/queue.c:368-461 | A new queue of any length and item size is an empty sequence of items. |
| Queue.Queue.Reset | FreeRTOS/queue.c:261-266 | The pointers and the count of a reset queue are those of an empty one. |
| Queue.Queue.CopyTo | FreeRTOS/queue.c:2074-2150 | To the back appends, to the front prepends, overwriting replaces the only item; the queue is well formed after it, except exactly for the overwrite of a full queue without data, which counts one too many. |
| Queue.Overcounted | FreeRTOS/queue.c:2134-2147 | Such a queue of one item: filled and overwritten, it counts two. |
| Queue.Queue.CopyFrom | FreeRTOS/queue.c:2153-2168 | The bytes of the first item are copied out. |
| Queue.Queue.Send | FreeRTOS/queue.c:763-841 | For every length and item size: refused exactly if full and not overwriting; otherwise the sequence of items changes as CopyTo says. |
| Queue.Queue.Receive | FreeRTOS/queue.c:1303-1343 | Nothing from an empty queue; else the first item, byte for byte, and the rest stays in order. |
| Queue.Queue.Peek | FreeRTOS/queue.c:1662-1704 | The first item, and the queue is as before. |
| QueueLocks.WakeUpsKept | FreeRTOS/queue.c:1055-1063 | With a count in an int8_t, deferred posts wake as many waiters as they should exactly up to 127 posts, or if nobody waits, or if the posts beyond 255 suffice. |
| QueueLocks.LockedQueue.Lock | FreeRTOS/queue.c:240-252 | Locking opens two counts unless they are open. |
| QueueLocks.LockedQueue.Reset | FreeRTOS/queue.c:255-305 | A queue in use is empty and unlocked after a reset, its first waiting sender is released, a yield is due exactly if that one has a higher priority, and receivers go on waiting. |
| QueueLocks.LockedQueue.WakeOne | FreeRTOS/queue.c:2199-2214 | The first waiter is released, and no other; a switch is due exactly if it has a higher priority. |
| QueueLocks.LockedQueue.Unlock | FreeRTOS/queue.c:2171-2288 | As many receivers are released, in list order, as posts were counted, and as many senders as receptions, as far as there are any; both locks are open then. A switch is due afterwards if and only if it was before, or one of the released tasks has a higher priority than the running one. |
| QueueLocks.LockedQueue.UnlockTx | FreeRTOS/queue.c:2171-2248 | The half for receivers. |
| QueueLocks.LockedQueue.UnlockRx | FreeRTOS/queue.c:2250-2286 | The half for senders. |
| QueueLocks.LockedQueue.SendFromISR | FreeRTOS/queue.c:950-1109 | The item is stored as by Send, with the same overcount exactly for the overwrite of a full queue without data; an unlocked queue wakes the first receiver at once, and asks for a switch exactly if that one has a higher priority; a locked one counts, modulo 256. |
| QueueLocks.LockedQueue.ReceiveFromISR | FreeRTOS/queue.c:1785-1873 | The item is taken as by Receive; an unlocked queue wakes the first sender at once, in the same way; a locked one counts. |
| QueueLocks.LockedQueue.WhileLocked | FreeRTOS/queue.c:2171-2288 | Over a whole lock, with any posts and receptions from interrupts in any order: what was taken and what is in the queue are given by the arrivals, and unlocking has released exactly the accounted number of first waiting receivers and of first waiting senders, in order. |
| QueueLocks.InOrder | FreeRTOS/queue.c:950-1873 | Whatever the arrivals: what was taken, then what is in the queue, is what was in it, then what was posted. |
| QueueLocks.LockedQueue.PostWhileLocked | FreeRTOS/queue.c:2171-2288 | With posts only: as many go in as there is room for, and up to 127 of them each release a receiver. |
| QueueLocks.LockedQueue.WakeUpLost | FreeRTOS/queue.c:1055-1063 | After 128 posts to an empty locked queue none of the waiting receivers is woken. |
| QueueLocks.LockedQueue.TakeWhileLocked | FreeRTOS/queue.c:2171-2288 | The same for receptions only, and the first waiting senders. |
| MessageBuffer.MessageBuffer.BytesInBuffer | FreeRTOS/stream_buffer.c:1189-1206 | The number of bytes from tail around to head. |
| MessageBuffer.MessageBuffer.SpacesAvailable | FreeRTOS/stream_buffer.c:470-491 | Bytes and spaces always add up to the length minus one. |
| MessageBuffer.LengthRoundTrip | FreeRTOS/stream_buffer.c:672-676 | The four bytes of a length read back as that length. |
| MessageBuffer.MessageBuffer.constructor | FreeRTOS/stream_buffer.c:219-281 | An empty buffer has room for as many bytes as were asked for. |
| MessageBuffer.MessageBuffer.WriteBytes | FreeRTOS/stream_buffer.c:1088-1132 | The bytes are appended, across the end of the memory or not, and the space shrinks by as many. |
| MessageBuffer.MessageBuffer.ReadBytes | FreeRTOS/stream_buffer.c:1134-1187 | The first bytes are taken out, across the end of the memory or not. |
| MessageBuffer.MessageBuffer.Size | FreeRTOS/stream_buffer.c:575-697 | A send sees as much room as there is, or four bytes more exactly while a reader has moved `xTail` past a length that it is going to put back; what it starts fits if and only if it does not need those four bytes. |
| MessageBuffer.MessageBuffer.WriteLength | FreeRTOS/stream_buffer.c:684-691 | The buffer keeps its contents, with the length behind them, if and only if it has four bytes of real room. |
| MessageBuffer.MessageBuffer.WriteData | FreeRTOS/stream_buffer.c:699-702 | And with one more whole message if and only if there is real room for the data. |
| MessageBuffer.WrittenExactly | FreeRTOS/stream_buffer.c:1088-1132 | Data written into a ring behind some bytes come to stand there if and only if they fit. |
| MessageBuffer.MessageBuffer.Look | FreeRTOS/stream_buffer.c:782-792 | The reader finds something exactly if there is a whole message. |
| MessageBuffer.MessageBuffer.ReadLength | FreeRTOS/stream_buffer.c:927-939 | The length read is that of the oldest message, and nothing is lost. |
| MessageBuffer.MessageBuffer.FinishReceive | FreeRTOS/stream_buffer.c:943-964 | The oldest message with exactly its bytes; or, with too little room, `xTail` where it was and all messages there. |
| MessageBuffer.MessageBuffer.Send | FreeRTOS/stream_buffer.c:506-637 | Without an interruption: the message is stored exactly if its length and data fit. |
| MessageBuffer.MessageBuffer.Receive | FreeRTOS/stream_buffer.c:715-814 | Without an interruption: the oldest whole message, with exactly its bytes, or nothing; one that is too long stays, and one whose data are still missing does not show. |
| MessageBuffer.Visible | FreeRTOS/stream_buffer.c:787-789 | A reader sees more than four bytes exactly if there is a whole message. |
| MessageBuffer.FirstMessage | FreeRTOS/stream_buffer.c:918-967 | What is unread begins with the length of the oldest message and its bytes. |
| MessageBuffer.MessageBuffer.NextMessageLength | FreeRTOS/stream_buffer.c:817-858 | The length of the oldest message; its assertion fails exactly if a length has been written to an otherwise empty buffer and the data have not. |
| MessageBuffer.MessageBuffer.LengthAlone | FreeRTOS/stream_buffer.c:844-848 | Such a case. |
| MessageBuffer.MessageBuffer.Converse | FreeRTOS/stream_buffer.c:506-967 | Over every interleaving of the three steps of sends with the three steps of receives: what was received, what is stored, and what is being written are together the messages sent, whole and in order, until the writer writes over something; and it does that only after it took the four bytes of a length for free. What every turn does is stated, up to the first that writes over something; and the writer was misled if and only if some turn took those four bytes for free. |
| MessageBuffer.MessageBuffer.WriterStep | FreeRTOS/stream_buffer.c:575-702 | One step of the writer: it starts a message exactly if there is or seems to be room, then writes the length, then the data; and exactly when it is misled, and when it writes over something. |
| MessageBuffer.MessageBuffer.ReaderStep | FreeRTOS/stream_buffer.c:782-964 | One step of the reader: it waits exactly while there is no whole message, reads the length of the oldest, and takes that message or leaves it; it never breaks anything. |
| MessageBuffer.MessageBuffer.TakeTurn | FreeRTOS/stream_buffer.c:506-967 | One turn of a conversation: the next step of whoever it is, with the messages in order. |
| MessageBuffer.MessageBuffer.SendMeanwhile | FreeRTOS/stream_buffer.c:932-956 | For every send between the two halves of a too small receive: putting the length back leaves the buffer well formed if and only if the send had room without the four bytes, or not even with them. |
| MessageBuffer.MessageBuffer.TooSmallReceiveRace | FreeRTOS/stream_buffer.c:932-956 | The shortest such case: two messages are lost. |
| EventGroup.RequestKept | FreeRTOS/event_groups.c:366-392 | Wanted bits and flags can be read back from the value of the event item. |
| EventGroup.AnswerKept | FreeRTOS/event_groups.c:586-591 | So can the answer. |
| EventGroup.ClearSatisfiesNone | FreeRTOS/event_groups.c:461-484 | Clearing bits never satisfies a waiting task. |
| EventGroup.RemainingOnly | FreeRTOS/event_groups.c:542-597 | The tasks that stay are exactly those the bits do not satisfy. |
| EventGroup.ClearedIsUnion | FreeRTOS/event_groups.c:571-601 | A bit is cleared if and only if some released task asked for it to be cleared on exit. |
| EventGroup.MetExactly | FreeRTOS/event_groups.c:671-703 | A wait for all of some bits is met when none of them is missing, a wait for any when one of them is there. |
| EventGroup.RequestMeans | FreeRTOS/event_groups.c:551-589 | A task is released when its request is met, and clears the bits it waited for exactly if it asked for that. |
| EventGroup.BitsAfterSet | FreeRTOS/event_groups.c:538-601 | Bit by bit: after setting, a bit is on if and only if it was on or is set, and no released task clears it. |
| EventGroup.WalkOne | FreeRTOS/event_groups.c:542-597 | One turn of the loop: a satisfied task leaves the list with its answer, another stays. |
| EventGroup.EventGroup.constructor | FreeRTOS/event_groups.c:145-185 | A new group has no bits and no waiters. |
| EventGroup.EventGroup.SetBits | FreeRTOS/event_groups.c:519-610 | Exactly the satisfied tasks are released, all with the same bits from before clearing, and then the union of their masks is cleared. |
| EventGroup.EventGroup.ClearBits | FreeRTOS/event_groups.c:461-484 | The bits are cleared, and the old ones returned. |
| EventGroup.HasLess | FreeRTOS/event_groups.c:461-484 | Bit by bit: after clearing, a bit is on if and only if it was on and is not cleared. |
| EventGroup.EventGroup.Block | FreeRTOS/event_groups.c:361-387 | The request goes into the event item, and the task to the end of the list. |
| EventGroup.EventGroup.WaitBits | FreeRTOS/event_groups.c:311-402 | A satisfied task has its bits at once, cleared if it asked for that; else it gives up or blocks. |
| EventGroup.EventGroup.Sync | FreeRTOS/event_groups.c:191-257 | Bits are set as by SetBits; the task passes with the complete bits, which are then clear, or gives up, or blocks for all of them. |
| EventGroup.EventGroup.Expire | FreeRTOS/tasks.c:2803-2808 | A time-out takes the task from the list and nothing else. |
| EventGroup.EventGroup.Resume | FreeRTOS/event_groups.c:399-455 | A released task returns a value that the bits had since it asked and that meets its request; a timed-out one returns the current bits, and clears what it wants if they are there by now. |
| EventGroup.EventGroup.NoneLeft | FreeRTOS/event_groups.c:519-610 | After any run of these operations no task waits for something that the current bits satisfy. |
| EventGroup.UnmetAfterSet | FreeRTOS/event_groups.c:519-610 | No value of the bits since a waiting task asked, however short-lived, has satisfied it. |
| EventGroup.AnsweredAfterSet | FreeRTOS/event_groups.c:586-591 | Every answer is such a value and satisfies the request. |
| Rendezvous.LastCompletes | FreeRTOS/event_groups.c:211-223 | If every task brings a bit of its own, the bits are complete exactly when the last one arrives. |
| Rendezvous.Rendezvous | FreeRTOS/event_groups.c:191-305 | For any number of tasks: every arrival but the last blocks, the last one passes, all return the same complete bits, and the bits are clear afterwards. |
| Rendezvous.Meet | FreeRTOS/event_groups.c:191-305 | The last arrival releases all others. |
| Mfm.EncodeIsClean | drivers/floppy-mfm.c:149-156 | An encoded longword has no two ones and no three zeros in a row, also where it meets the one before, and keeps its data bits. |
| Mfm.CleanIsEncoded | drivers/floppy-mfm.c:149-156 | A longword is a correct code behind another if and only if it is the encoding of its data bits. |
| Mfm.VerifiedIsWeaker | drivers/floppy-mfm.c:210-230 | The debugging check accepts a wrong code exactly if a longword begins with a one behind one that ends in a one. |
| Mfm.RoundTrip | drivers/floppy-mfm.c:42-61 | Decoding the two encoded halves of any longword gives it back. |
| Mfm.UpdatedIsEncoded | drivers/floppy-mfm.c:158-167 | Mending the first clock bit of any encoded longword is the same as encoding it behind the new one. |
| Mfm.UpdatedIsClean | drivers/floppy-mfm.c:158-167 | It makes any longword that is correct inside fit behind any other. |
| Mfm.DecodedHalves | drivers/floppy-mfm.c:121-133 | The data bits of a decoded longword are those of its halves. |
| Mfm.RunningSum | drivers/floppy-mfm.c:182-193 | A running exclusive or over encoded longwords, masked, is that of the data. |
| Mfm.SumParity | drivers/floppy-mfm.c:182-193 | A data bit of the checksum is one if and only if an odd number of the halves of the payload have it; it has no clock bits. |
| Mfm.ParityUnique | drivers/floppy-mfm.c:182-193 | There is one checksum only. |
| Sectors.Put | drivers/floppy-mfm.c:193-194 | A store into a sector changes that longword only, at any even address. |
| Sectors.EncodeLongWord | drivers/floppy-mfm.c:169-173 | The two halves of a longword are encoded behind what is before them, and nothing else changes. |
| Sectors.EncodeSector | drivers/floppy-mfm.c:175-207 | For all data: the sector carries them and their checksum, of which every bit is the parity of that bit in the encoded halves; every clock bit from the checksum to the end is right, and nothing outside payload and checksum changes. |
| Sectors.DecodeSector | drivers/floppy-mfm.c:108-137 | The data the sector carries, and whether its stored checksum has these parities. |
| Sectors.EncodeDecode | drivers/floppy-mfm.c:108-207 | Decoding undoes encoding for every sector, and the checksums agree. |
| Sectors.CarriesOne | drivers/floppy-mfm.c:121-133 | A sector carries one payload only. |
| Sectors.CodedClean | drivers/floppy-mfm.c:188-205 | The order of encoding, first longwords last, leaves every border right. |
| Headers.WithGapOnly | drivers/floppy-mfm.c:296-297 | Setting the gap distance leaves format, track and sector number alone. |
| Headers.ChecksumHeader | drivers/floppy-mfm.c:97-106 | The exclusive or of info and label, masked: each data bit is one if and only if an odd number of these longwords have it. |
| Headers.HeaderSumParity | drivers/floppy-mfm.c:97-106 | The checksum that a header gets has these parities. |
| Headers.UpdateMSB | drivers/floppy-mfm.c:158-167 | In memory: one longword is mended and nothing else changes. |
| Headers.FixHeader | drivers/floppy-mfm.c:289-316 | Every longword of the new header, and the mended first longword of the checksum; the rest of the sector stays. |
| Headers.HeaderKept | drivers/floppy-mfm.c:295-311 | Decoded again: the new gap distance, the old format byte, track and sector number, and a header checksum with the right parities. |
| Headers.PayloadKept | drivers/floppy-mfm.c:289-316 | The payload and its checksum decode as before. |
| Headers.HeadedClean | drivers/floppy-mfm.c:289-316 | With a sound payload the sector is a correct code, but for its sync longword, also behind the sector before it. |
| Tracks.MovesUp | drivers/floppy-mfm.c:275-281 | For sectors apart from each other: every new place is at or above the old one, and above all sectors before it. |
| Tracks.Move | drivers/floppy-mfm.c:279 | memmove of a sector, overlapping or not. |
| Tracks.FindLast | drivers/floppy-mfm.c:265-273 | The number of the sector with the highest address. |
| Tracks.Compact | drivers/floppy-mfm.c:275-281 | In place, no sector is overwritten before it is moved: each arrives whole in its slot, and its pointer names that slot. |
| Tracks.FillGap | drivers/floppy-mfm.c:283-284 | The gap is filled with encoded zeros. |
| Tracks.FixHeaders | drivers/floppy-mfm.c:286-319 | All eleven headers, with gap distances from 11 down to 1, each fit behind the sector before. |
| Tracks.HeadersAre | drivers/floppy-mfm.c:286-319 | Decoded, the header in the i-th place says that 11 - i sectors are left on the track, and has its old numbers and its checksum. |
| Tracks.FixFirst | drivers/floppy-mfm.c:321 | The first longword of the gap fits behind the end of the track. |
| Tracks.VerifyTrackEncoding | drivers/floppy-mfm.c:210-230 | It accepts exactly the tracks of which every longword, around the end, is the sync mark or passes the test. |
| Tracks.TrackOk | drivers/floppy-mfm.c:210-230 | A realigned track of sound, synced sectors passes from end to end. |
| Tracks.RealignTrack | drivers/floppy-mfm.c:262-326 | The whole procedure: slots, pointers, headers, untouched payloads, gap; with sound payloads the final check passes exactly if every sector had its second sync word. Decoded, the i-th header has the gap distance 11 - i, the old numbers, and a right checksum. |
| TrackReading.FindSectorHeader | drivers/floppy-mfm.c:49-57 | The sector behind the next run of sync words. |
| TrackReading.WordsRead | drivers/floppy-mfm.c:67-95 | In a buffer that starts anywhere behind a sync word, every sector lies unchanged at its place, but for what comes before the header of the first one. |
| TrackReading.HeaderShifted | drivers/floppy-mfm.c:63-65 | Any header that is read one word too early: its sector number is the format byte, its gap distance the track number, and its track number is made of the word in front and the gap distance. |
| TrackReading.ShiftedTrackExactly | drivers/floppy-mfm.c:84 | In the first sector of a track that track number is too large if and only if two bits of the word are set, in the others never. |
| TrackReading.HeaderReadEarly | drivers/floppy-mfm.c:78-84 | So it is in the buffer, for every sector that DecodeTrack looks for one word too early. |
| TrackReading.ReadHeader | drivers/floppy-mfm.c:63-84 | What DecodeTrack gets from the header of each sector in the buffer, where it looks for it. |
| TrackReading.NextSector | drivers/floppy-mfm.c:86-93 | Where it looks for the next one: right behind, past the gap, or, if a track number was taken for a gap distance, past the next sync words. |
| TrackReading.DecodeTrack | drivers/floppy-mfm.c:67-95 | For every track as RealignTrack leaves it, however the disk is turned: with all sync words there, all eleven sectors are found; with the second one of the first sector missing, an assertion fails if and only if the format byte is above 11 or the word in its place has those two bits set, and otherwise the pointer to that sector is left as it was, or is one word too low. |
| TrackReading.NotAllFound | drivers/floppy-mfm.c:67-95 | In that case all pointers are right only if the one that was left alone happened to be. |
| TrackRewriting.RealignedLaidOut | drivers/floppy-mfm.c:262-326 | What RealignTrack leaves is laid out as before: marks, headers, numbers, format byte and track number, with the second sync word of the first sector as it was. |
| TrackRewriting.FrontIs | drivers/floppy-mfm.c:67-95 | All its sync words are there if and only if that one is. |
| TrackRewriting.FrontedRead | drivers/floppy-mfm.c:68-75 | In the buffer all second sync words are there, but the first one is what lies before the buffer if it was skipped; the headers say what those of the track say. |
| TrackRewriting.EncodeDirty | drivers/floppy.c:207-213 | Exactly the changed sectors are encoded anew, each at its place. |
| TrackRewriting.RewriteTrack | drivers/floppy.c:202-218 | Read, change, realign: every sector has its new or its old data, soundly coded; the track is laid out as before, with all sync words if and only if the second one of the first sector in the buffer was stored or looks like one, and only then it passes the check. |
| Payloads.CopyIn | drivers/floppy.c:332 | Bytes copied into a decoded sector, at any place: exactly these change. |
| Payloads.CopyOut | drivers/floppy.c:337 | Copied out, they are those bytes of the sector. |
| CachedTracks.LaidTrackOf | drivers/floppy-mfm.c:67-95 | The sectors that a track is made of are those that it holds, and no others. |
| CachedTracks.ReadCached | drivers/floppy.c:280-286 | However the disk is turned when a track with all its sync words is read: the buffer holds what the track held, in any order of its sectors, and the second sync word of the first one is there, or what lies before the buffer if it was skipped. |
| CachedTracks.CachedSector | drivers/floppy.c:323-326 | What DecodeSector finds through the pointer of a sector is what the buffer holds for its number. |
| CachedTracks.EncodedCached | drivers/floppy.c:207-213 | When the changed sectors have been encoded, the buffer holds the new bytes of these and the old ones of the others, and no sync word has come or gone. |
| CachedTracks.RealignedCached | drivers/floppy.c:215-217 | Realigned, the buffer holds the same bytes, so it can be changed and realigned again; the track written from it holds them as well, says the same in its headers, and has the second sync word of the first sector in the buffer. |
| FloppyDisk.AddressParts | drivers/floppy.c:311-313 | Track, sector and offset of an address. |
| FloppyDisk.PartsAddress | drivers/floppy.c:311-313 | And back. |
| FloppyDisk.SectorBytes | drivers/floppy.c:328-340 | The bytes of a sector are consecutive on the flat disk. |
| FloppyDisk.SectorChanged | drivers/floppy.c:331-335 | Changing a part of one sector in memory overwrites just those bytes of what is seen. |
| FloppyDisk.SeenWritten | drivers/floppy.c:207-213 | If the track on the disk gets what is seen, nothing else is seen than before. |
| FloppySpec.ReadServed | drivers/floppy.c:316-353 | A read of any length over any number of tracks: the bytes come from the buffer where it holds the first track of the request, and from the disk else; nothing on the disk changes. |
| FloppySpec.WriteServed | drivers/floppy.c:316-357 | A write to a disk that is not protected puts exactly its bytes there, and leaves nothing waiting. |
| FloppySpec.ProtectedServed | drivers/floppy.c:203-205 | A write to a protected disk changes nothing on it; what is seen changes by the bytes on the last track it got to, and what waited in the buffer before is gone with its track. |
| FloppySpec.DoneExactly | drivers/floppy.c:316-320 | A request gets done if and only if it ends on the disk and each of its tracks has its sync words, the first one unless it is in the buffer. |
| FloppySpec.MissingExactly | drivers/floppy.c:319-320 | The first of its tracks that lacks one ends it: in a failed assertion if and only if the format byte or the word in place of the sync word is as DecodeTrack does not survive, and otherwise with a sector that was not found. |
| FloppySpec.WrittenSecond | drivers/floppy.c:202-218 | A track that was written has the second sync word that the reading left which brought it into the buffer; all other tracks keep theirs. |
| FloppyRequests.ClipExactly | drivers/floppy.c:368-369 | The request is cut to what fits on the disk if and only if the 32-bit sum does not wrap. |
| FloppyRequests.ClipWraps | drivers/floppy.c:368-369 | At 512 the largest length is not cut at all. |
| FloppyRequests.HandledExactly | drivers/floppy.c:364-374 | With all sync words on the disk, a request gets done if and only if the sum does not wrap; else the heads are sent beyond the last track. |
| FloppyRequests.FlatStep | drivers/floppy.c:364-374 | One request reads or writes the array of bytes that the disk holds. |
| FloppyRequests.RunIsFlat | drivers/floppy.c:291-374 | Over every sequence of requests that get done, on a disk that is not protected: each read returns what the writes before it left, and the disk holds what they all left. |
| FloppyRequests.RunGoesOn | drivers/floppy.c:291-374 | They all get done if no sum wraps, all sync words are there at first, and no reading loses one. |
| FloppyRequests.LostForGood | drivers/floppy.c:291-374 | A track that lacks a sync word and is not in the buffer goes on lacking it for as long as a run goes on, and a request that needs it ends the run: always in a failed assertion if all format bytes are above 11, and otherwise as stated for the first such track. |
| FloppyRequests.NoRunPast | drivers/floppy.c:291-374 | So no run with such a request gets done. |
| FloppyRequests.TrackLost | drivers/floppy.c:202-218 | The shortest case, and exactly how it ends: write a byte when the sync words were skipped, read another track, and read the byte again. |
| FloppyRequests.ReadsDisk | drivers/floppy.c:316-337 | A read gets the bytes of the disk if and only if its first track is not in the buffer, or nothing in the range was changed there and not written. |
| FloppyRequests.ProtectedStays | drivers/floppy.c:203-205 | Over every run a protected disk stays as it is, to the end of the run. |
| FloppyRequests.PhantomWrite | drivers/floppy.c:203-205 | Bytes written to a protected disk are read back from there, and are gone when any other track was read. |
| FloppyRequests.PhantomCase | drivers/floppy.c:203-205 | The case of 512 ones written to a disk of zeros, and read back. |
| FloppyCache.Floppy.constructor | drivers/floppy.c:55-86 | The driver starts with an empty cache and the heads on track 0, wherever they were. |
| FloppyCache.Floppy.HeadToTrack0 | drivers/floppy.c:188-197 | The heads get to track 0, and the driver knows it; they are to step inwards next. |
| FloppyCache.Floppy.Seek | drivers/floppy.c:223-232 | Stepping ends, with the heads over the requested track and never beyond the disk. |
| FloppyCache.Floppy.Rotate | drivers/floppy.c:245-278 | A track is stored from behind some sync word on, wherever the disk happens to be. |
| FloppyCache.Floppy.FindSectors | drivers/floppy.c:284-285 | DecodeTrack on what was just read: with all sync words there, the pointers lead to what the track held; else as stated there. |
| FloppyCache.Floppy.ReadTrack | drivers/floppy.c:202-289 | For every track: it is in memory, as words, with nothing decoded; what was changed in another one and not written is gone; the assertions hold exactly as stated, and with all sync words there the sectors are found. |
| FloppyCache.Floppy.Prepare | drivers/floppy.c:207-217 | EncodeSector for every changed sector, then RealignTrack: the words in the buffer hold what is seen, and no sector is dirty. |
| FloppyCache.Floppy.WriteTrack | drivers/floppy.c:202-278 | The track under the heads gets these words and no other track changes; a protected disk and the cache stay as they are. |
| FloppyCache.Floppy.Fill | drivers/floppy.c:317-320 | The track is in memory, or the reading ended as specified. |
| FloppyCache.Floppy.Load | drivers/floppy.c:322-326 | The sector is decoded; what is seen does not change. |
| FloppyCache.Floppy.DecodeOne | drivers/floppy.c:323-326 | Decoding a sector does not change what is seen. |
| FloppyCache.Floppy.Fetch | drivers/floppy.c:337 | The bytes of what is seen. |
| FloppyCache.Floppy.Store | drivers/floppy.c:332-335 | What is seen is overwritten by them, and nothing else changes. |
| FloppyCache.Floppy.Exchange | drivers/floppy.c:322-341 | One turn of the loop reads or overwrites its bytes of what is seen. |
| FloppyCache.Floppy.WriteChanged | drivers/floppy.c:346-357 | At the end of a track, and of a request, what was changed is written back. |
| FloppyCache.Floppy.Serve | drivers/floppy.c:304-357 | One request of any length, sector by sector on encoded words, does what the specification says track by track: the same bytes, the same disk, the same sync words, and it stops at the same place in the same way. |
| FloppyCache.Floppy.ReadWrite | drivers/floppy.c:364-374 | The same with the clipping, from every state; the error returned tells only whether the offset is beyond the disk, and not whether the disk was protected. |
| FloppyCache.Perform | drivers/floppy.c:291-374 | The same for any sequence of requests, protected or not, up to the first one that does not get done. |
| FloppyCache.Run | drivers/floppy.c:291-374 | On encoded words, for every rotation of the disk: any sequence of requests to a disk that is not protected refines reads and writes of one array of bytes for as long as they get done, which is always under the condition of `FloppyRequests.RunGoesOn`. |
| DiskImage.Padded | tools/fsutil.py:49-52 | What is there, and zeros behind it up to the next multiple. |
| DiskImage.Unpacked | tools/fsutil.py:110-113 | 16 and 32 bit fields read back. |
| DiskImage.ChecksumCompletes | tools/fsutil.py:55-60 | The folded sum of the finished boot block is all ones if and only if folding the sum without the checksum left no further carry. |
| DiskImage.CarryLeft | tools/fsutil.py:55-60 | Boot code with which it is not. |
| DiskImage.SumOfBlock | tools/fsutil.py:162-170 | The sum of the finished block is that of the block without its checksum, plus the checksum. |
| DiskImage.BootBlockParts | tools/fsutil.py:157-170 | The boot block: the identifier, length and place of the executable, the code behind the header, and zeros. |
| DiskImage.Measure | tools/fsutil.py:142-151 | Directory size and file offsets. |
| DiskImage.SaveRecord | tools/fsutil.py:175-182 | A record is written exactly if its fields fit their widths and its name is ASCII. |
| DiskImage.FitsExactly | tools/fsutil.py:177-182 | The fields fit if and only if the name has at most 245 characters, all of them ASCII, and flag, place and size fit one, two and four bytes. |
| DiskImage.SaveRecords | tools/fsutil.py:175-182 | The directory is written exactly if that holds for all; otherwise a field is out of range or a name is not ASCII. |
| DiskImage.SaveFiles | tools/fsutil.py:186-189 | Each file takes whole sectors. |
| DiskImage.Save | tools/fsutil.py:127-192 | An image is made exactly if there is boot code that fits, the first file is executable, and all fields fit; without boot code it always fails. What goes wrong first is told apart: no bytes, no file, too large a boot code, no executable, and else a field or name that does not fit. |
| DiskImage.ShortRecord | tools/fsutil.py:112-115 | A record length of 7 takes everything behind the record for its name, so that no record can follow. |
| DiskImage.ReadDirectory | tools/fsutil.py:110-116 | The records up to the recorded length, or an error where the image ends, a record length is less than 7, or a name is no UTF-8. |
| DiskImage.ReadFiles | tools/fsutil.py:118-122 | The bytes at the recorded places. |
| DiskImage.Load | tools/fsutil.py:106-124 | For every image: the files as recorded, or the first error. |
| Utf8.TextExactly | tools/fsutil.py:114 | Names decode if and only if they are what some characters are encoded to. |
| DiskImageRoundTrip.RecordedIsStored | tools/fsutil.py:153-184 | With at least one entry, files are recorded where they are stored if and only if the directory size is no multiple of 512. |
| DiskImageRoundTrip.BootWritten | tools/fsutil.py:156-192 | The boot block of an image, byte by byte: `DOS` and a zero, twice the sectors of the first file, or 0 without boot code, twice the sector recorded for it, and the code from byte 12 on; images are whole disks. |
| DiskImageRoundTrip.ChecksumWritten | tools/fsutil.py:162-170 | The checksum of an image is that of all other longwords of its boot block. |
| DiskImageRoundTrip.RecordWritten | tools/fsutil.py:172-183 | The directory of an image, byte by byte: its length, and one record behind the other, each with its own length, flag, place, size, and name. |
| DiskImageRoundTrip.StartsInOrder | tools/fsutil.py:173-177 | The first file is recorded behind two sectors and those that the directory without its length takes, and every other one behind the one before, in whole sectors. |
| DiskImageRoundTrip.DirectoryRead | tools/fsutil.py:110-116 | Every record of an image is read back. |
| DiskImageRoundTrip.LoadedIs | tools/fsutil.py:106-124 | Every file is read from the place recorded for it. |
| DiskImageRoundTrip.FileStored | tools/fsutil.py:186-189 | Its data are behind the padded directory. |
| DiskImageRoundTrip.RoundTrip | tools/fsutil.py:106-192 | Loading what was saved gives the entries back, if the directory size is no multiple of 512 and no name ends in a NUL. |
| DiskImageRoundTrip.Lost | tools/fsutil.py:106-192 | If it is a multiple of 512, three bytes of one in the first file do not come back. |
| DiskImageRoundTrip.RoundTripExactly | tools/fsutil.py:106-192 | For every directory: all contents survive if and only if its size is no multiple of 512 and no name ends in a NUL. |
| DiskImageRoundTrip.NamesLost | tools/fsutil.py:114-116 | A name that ends in a NUL does not come back. |
| DiskImageRoundTrip.SaveLoad | tools/fsutil.py:106-192 | Save and then load, as methods. |
| DiskImageRoundTrip.FullDirectory | tools/fsutil.py:146-154 | A directory that can be saved and fills its sectors: thirty-two names of seven letters. |

## Left out

- Heap.Arena.Realloc: callers of `ar_realloc` and `ar_free` pass pointers to used blocks, so `assert(bt_used(bt) && bt_has_canary(bt))` is their obligation; what `ar_free` does to a damaged arena is not modelled.
- Memory.Memory.Realloc: pointers are live ones, as the assertions in `ar_free` and `ar_realloc` ask.
- MemoryRuns.Serve: ends at a size that is rounded to zero, what such a request does is stated by `Memory.Memory.Realloc`; requests name live pointers by their number, so that a pointer that was given back cannot be used again.
- Memory.Memory.MallocBelow: `MF_ZERO` (clearing the block), the failed-malloc hook, the statistics functions and the alignment of region bounds at start-up are not modelled.
- Scheduler.Scheduler.Reap: `uxDeletedTasksWaitingCleanUp` is modelled as the length of its list; stacks and control blocks are not memory here.
- Scheduler.Scheduler.PriorityInherit: a waiter whose priority changes while it waits keeps its place in the event list, as in the code; the order of an event list is not claimed beyond insertion.
- Scheduler.Scheduler.Create: allocation, stack set-up and names of tasks are not modelled, nor is the time before the scheduler starts.
- SchedulerRuns.Run: the fairness results of `ListView` are about any run of operations on one list, and not restated for runs of the scheduler; of the event lists a step only tells who is in them; `xTaskAbortDelay`, task notifications and stepping the tick count for tickless idle are no steps of a run.
- MutexRuns.Run: a blocked task may give up whenever it runs again, whether its time is up or not; mutexes are not deleted, tasks that hold them neither suspend nor delete themselves, and recursive mutexes are not modelled.
- WrappedTime.InsertTimer: of `timers.c` only this decision; the timer task, its command queue and the switch of its lists are left out, and the file is compiled out in this configuration.
- Queue.Queue.Send: the loop that blocks, wakes and tries again is split over `Queue`, `QueueLocks` and `Scheduler`; queue sets are left out.
- QueueLocks.LockedQueue.SendFromISR: `xQueueGiveFromISR`, `xQueuePeekFromISR` and the co-routine calls repeat it.
- MessageBuffer.MessageBuffer.Size: messages are not empty and `length + 4` stays below 2^32, as the assertions in `prvWriteBytesToBuffer` and `xStreamBufferSend` demand (`FreeRTOS/stream_buffer.c:1092` and `:528`); blocking, trigger levels and plain stream buffers are left out.
- MessageBuffer.MessageBuffer.Send: the same.
- MessageBuffer.MessageBuffer.Converse: ends where the writer has written over something; what a reader gets from such a buffer is not modelled.
- EventGroup.EventGroup.SetBits: the value returned is the one before other tasks run; deleting a group, and setting or clearing bits from an interrupt, are left out.
- EventGroup.EventGroup.Resume: which list a released task is in is the business of `Scheduler`; here it is only no longer waiting.
- TrackReading.DecodeTrack: for tracks that are laid out as RealignTrack leaves them. On others `FindSectorHeader` may run past the buffer. A sector numbered 11, which the assertion admits, goes into the word behind the pointers, which in the driver belongs to a decoded sector.
- Tracks.RealignTrack: for sectors that lie apart and are numbered in the order of the memory, up to a rotation, which `TrackReading.DecodeTrack` provides.
- Sectors.DecodeSector: the debugging assertion on the header checksum is not made here; that it would hold is `Headers.HeaderKept`.
- FloppyCache.Floppy.Serve: ends where an assertion fails, where DecodeTrack has not found all sectors, or where the heads are sent beyond the last track. In the second case the driver goes on and answers without an error; what it then reads or writes through the pointer that is not right is not modelled. Motor, delays, DMA, interrupts and precompensation are left out. Offsets are not negative, which `DevSeek` sees to (`kernel/devfile.c:187-191`).
- FloppyCache.Floppy.constructor: the tracks on the disk are laid out as RealignTrack leaves them, each with one format byte and one track number in its headers; any of them may lack the second sync word of its first sector.
- FloppyCache.Floppy.Rotate: the drive begins to store behind a sync word, so one that is missing is not skipped.
- DiskImage.Save: the image is a value; that the file is truncated before an error is noticed is not modelled, nor are `collect`, `extract` and the command line.
- Hardware registers, the blitter, copper, sprites, CIA timers, serial port, keyboard, mouse and audio: foreign state without visible meaning.
- `kernel/port.c`, `kernel/trap.c` and assembly: context switches and exceptions.
- `drivers/tty.c`, `kernel/notify.c` and `kernel/msgport.c`: their natural invariants are not what the code does.
- `kernel/ring.c`, `drivers/display.c`, file tables, the executable loader and the other tools: they would only add easier versions of what is here.
