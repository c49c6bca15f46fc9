# A verified model of the kernel's core

This project models the state and the algorithms at the heart of an x86_64
kernel written in Rust, and proves what they promise over every input and every
run:

- **Kernel heap** (`HoleLists`, `HeapRuns`, `HeapAllocator`): the first-fit hole
  list with padding, splitting and two-sided coalescing, as a run model and as
  the pointer-rewriting code that refines it.
- **Page tables** (`PageTables`, `PageEdits`, `UserPageTables`,
  `KernelPageTables`, `PageRuns`): the identity map made at boot, and user tables
  that share the kernel's tables and copy them before the first write, over one
  physical memory and any number of tables.
- **Scheduler** (`Tasks`, `TaskInvariants`, `TaskRuns`, `TaskHistory`,
  `TaskScheduler`): queues, the task tree, waits, exit codes and fairness.
- **TCP stream** (`TcpSockets`, `TcpStream`): two sockets over a network that
  loses, repeats and reorders segments.
- **Compositor** (`Pixels`, `Layers`, `LayerRuns`, `LayerHistory`, `Compositor`):
  dirty-rectangle repainting against a full repaint, and which layer is on top.
- **Drawing** (`Lines`, `Drawing`): line clipping with truncating division, the
  error-term line loop, rectangles and fills.
- **Frame bitmap** (`FrameBits`, `FrameBitmap`): counters against bits and the
  run search with its whole-byte paths.
- **Files** (`Paths`, `FileTree`, `FileTreeEdits`, `VirtualFiles`, `Descriptors`,
  `DescriptorTable`, `DescriptorRuns`): path normalisation, the directory tree,
  cached and successive reads, and pipes.
- **Packets** (`Checksums`, `TcpSegments`, `Packets`, `TcpWire`): the Internet
  checksum and the way of a TCP segment through IPv4 and Ethernet and back.

`Basics` holds what they share. A component is a specification (datatypes, step
functions, an invariant, lemmas over whole runs) and, where the kernel works in
place, a class or methods with loops proved against that specification.

Where the code does not do what one would expect, the model follows the code and
the exact condition is proved:

- A FIN is taken whatever its sequence number, so it can overtake data
  (`TcpStream.FinCanOvertake`); taking a FIN leaves the stream complete exactly
  when the next expected number was that of the peer's first FIN
  (`TcpStream.FinCompletesInOrder`).
- `draw_pixel` accepts a point one past the right or bottom edge and `draw_rect`
  paints a row for a rectangle of no rows (`Drawing.PixelMarkIsHonest`,
  `Drawing.RectMarkIsHonest`); `fill` writes one pixel into an
  empty canvas (`Drawing.Canvas.Fill`).
- Removing a layer with an unflushed move can leave its old pixels on the screen
  (`LayerRuns.UnflushedMoveLeavesGhost`); `Layers.RemovalIsSafeIff` says exactly
  when a removal is safe.
- A new layer carries no mark, so pushing one undrawn can leave it off the
  screen past a repaint (`LayerRuns.UndrawnPushIsNotShown`);
  `Layers.PushIsSafeIff` says exactly when a push is safe, and in
  `LayerRuns.EveryRepaintShowsTop` the pixels it owes may be drawn until the
  repaint.
- `UserPageTable::unmap` does not ask whose last-level table it clears, so it can
  take a page from the kernel (`UserPageTables.UnmapCanReachKernel`), exactly when
  the table is shared and the kernel has the page
  (`UserPageTables.UserPageTable.UnmapPage`).
- One exit wakes one waiter, so a second one sleeps on
  (`TaskRuns.SecondWaiterSleepsOn`); `TaskInvariants.WaitIsSafeIff` says exactly
  which waits are safe.
- The bits behind the last frame can be released
  (`FrameBitmap.PaddingIsReleased`), and the free count is wrong exactly then
  (`FrameBitmap.FreedCountedIff`).
- Adding a file under a path without a name makes one that no path finds
  (`FileTreeEdits.SeparatorIsLost`, `VirtualFiles.VirtualFileSystem.AddFile`).
- `Path::parent` does not go up for relative paths that are empty or end in
  `..` (`Paths.ParentIsAbove`).
- A segment built with more than 40 bytes of options does not parse back
  (`TcpSegments.NewWithFits`).
- A write through the read end of a pipe is accepted, so an end of stream may be
  followed by data (`Descriptors.ReadEndRevives`); it is final exactly when no
  such write is made (`Descriptors.EndIsFinalIff`).
- For a request of eight frames the bitmap search may pass over a lower run for
  a whole free byte (`FrameBits.EightPassOverLowest`), exactly when the lower run
  starts inside the byte before it (`FrameBits.PassesOverLowest`).

## Model

| member | source | states |
|---|---|---|
| HoleLists.AlignLayout | kernel/src/mem/allocator.rs:141-150 | a request keeps its alignment, is rounded up by less than eight bytes to a multiple of 8 of at least 16 bytes, and is refused exactly when the rounded size is over the limit for its alignment |
| HoleLists.PlaceIsLowestLegal | kernel/src/mem/allocator.rs:183-238 | the place tried in a hole is aligned, leaves on each side nothing or room for a hole, and is the lowest address that does; if any such address exists one is found |
| HeapRuns.InitialInv | kernel/src/mem/allocator.rs:70-98 | a fresh heap is one hole over its bytes |
| HeapRuns.AllocKeepsInv | kernel/src/mem/allocator.rs:240-279 | cutting a block out of any hole keeps the list sorted, 8-aligned, at least 16 bytes a hole, inside the heap, apart from live blocks, with no two holes touching, and every byte accounted for |
| HeapRuns.FreeKeepsInv | kernel/src/mem/allocator.rs:518-540 | freeing a live block with two-sided coalescing keeps the same invariant, and the used counter does not underflow |
| HeapRuns.AllocStepKeepsInv | kernel/src/mem/allocator.rs:112-129 | a first-fit allocation keeps the invariant and returns an aligned block that was not live |
| HeapRuns.StepKeepsInv | kernel/src/mem/allocator.rs:404-413 | each allocation or release keeps the invariant and the heap's bounds |
| HeapRuns.EveryRunKeepsInv | kernel/src/mem/allocator.rs:386-414 | the invariant, with used bytes plus hole bytes equal to the heap size, holds in every state of every run |
| HeapRuns.EachByteInOneRegion | kernel/src/mem/allocator.rs:386-414 | every heap byte is in exactly one hole or exactly one live block |
| HeapRuns.LiveWithinUsed | kernel/src/mem/allocator.rs:410-413 | a live block is never larger than the used counter |
| HeapRuns.FreeUndoesAlloc | kernel/src/mem/allocator.rs:404-413 | freeing a block right after allocating it restores the hole list, the live blocks and the counter exactly |
| HeapRuns.AllFreeIsOneHole | kernel/src/mem/allocator.rs:518-540 | with nothing live the list is one hole covering the heap |
| HeapRuns.RefusedOnlyWhenNoPlace | kernel/src/mem/allocator.rs:188-238 | no hole is accepted if and only if no hole has any legal address for the block |
| HeapAllocator.NoSliverAbove | kernel/src/mem/allocator.rs:487-500 | below the top of the heap there are never fewer than 16 bytes above a live block |
| HeapAllocator.NoSliverBelow | kernel/src/mem/allocator.rs:502-510 | above the bottom of the heap there are never fewer than 16 bytes below a live block |
| HeapAllocator.EndMergesAddNothing | kernel/src/mem/allocator.rs:487-510 | merging to the top or bottom of the heap never adds a byte in a reachable state |
| HeapAllocator.EndMergesMean | kernel/src/mem/allocator.rs:487-510 | a hole is extended to the top or the bottom of the heap exactly when what lies between is too small for a hole header, and its other end stays |
| HeapAllocator.MergeRunIsFreeAt | kernel/src/mem/allocator.rs:344-383 | inserting a node and merging forward one or two steps is freeing with two-sided coalescing |
| HeapAllocator.Heap.constructor | kernel/src/mem/allocator.rs:70-98 | for memory at a positive address whose aligned part is at least 16 bytes, the heap starts as one hole over that part |
| HeapAllocator.Heap.FindPlace | kernel/src/mem/allocator.rs:188-238 | the in-place computation agrees with the placement function |
| HeapAllocator.Heap.Carve | kernel/src/mem/allocator.rs:240-279 | the rewritten headers link exactly the list with the hole replaced by its paddings |
| HeapAllocator.Heap.SplitCurrent | kernel/src/mem/allocator.rs:179-280 | a hole is split exactly when the block has a place in it; a refusal changes nothing |
| HeapAllocator.Heap.WalkAndSplit | kernel/src/mem/allocator.rs:112-129 | the first hole with a place is cut; an error means no hole has one |
| HeapAllocator.Heap.AllocFirstFit | kernel/src/mem/allocator.rs:404-408 | a success is a first-fit step of the run model and never at address 0, an error leaves the heap as it was, and each error has its cause |
| HeapAllocator.Heap.CheckMergeTop | kernel/src/mem/allocator.rs:487-500 | a hole is extended to the top when what is left above it cannot hold a hole |
| HeapAllocator.Heap.CheckMergeBottom | kernel/src/mem/allocator.rs:502-510 | a hole is moved to the bottom when what is left below it cannot hold a hole |
| HeapAllocator.Heap.TryMergeNextN | kernel/src/mem/allocator.rs:344-383 | the links after up to n merge steps are those of the merged list |
| HeapAllocator.Heap.TryInsertAfter | kernel/src/mem/allocator.rs:316-342 | a node is linked after the cursor exactly when it belongs before the next hole; none of the asserts can fail |
| HeapAllocator.Heap.InsertIntoEmpty | kernel/src/mem/allocator.rs:519-527 | freeing into an empty list leaves one merged hole |
| HeapAllocator.Heap.InsertBack | kernel/src/mem/allocator.rs:282-314 | freeing below the first hole inserts in front and merges upwards |
| HeapAllocator.Heap.WalkAndInsert | kernel/src/mem/allocator.rs:529-537 | the walk stops at the hole before the freed block and never runs off the list |
| HeapAllocator.Heap.InsertAfter | kernel/src/mem/allocator.rs:531-539 | freeing above the first hole inserts in address order and merges on both sides |
| HeapAllocator.Heap.Dealloc | kernel/src/mem/allocator.rs:410-413 | releasing a live block always succeeds and is a release step of the run model |
| PageTables.IndexOfAddress | kernel/src/arch/mod.rs:45-59 | the four shift-and-mask indices of an address are those of its page number |
| PageTables.IndicesIdentifyPage | kernel/src/arch/mod.rs:45-59 | two pages of the 48-bit space with equal indices at all four levels are the same page |
| PageTables.LookupPte | kernel/src/arch/x86_64/paging.rs:489-514 | the four-level lookup returns exactly the entry the level-by-level walk defines |
| PageTables.UserAccessIsMapped | kernel/src/arch/x86_64/paging.rs:263-298 | user code can reach a page, the user bit set at all four levels, if and only if the table has it mapped |
| PageTables.UserWriteIsMapped | kernel/src/arch/x86_64/paging.rs:263-298 | user code can write a page, the user and write bits set at all four levels, if and only if the table has it mapped and that mapping asked for write |
| PageTables.KernelWriteStays | kernel/src/arch/x86_64/paging.rs:290-295 | what the kernel can write through its own table it can write, with the same entry, through every user table that has not taken the page over |
| PageTables.OwnedReferredOnce | kernel/src/arch/x86_64/paging.rs:270-298 | each owned table is referred to by exactly one entry of the user's tables and by none of the kernel's |
| PageTables.PhysAtFrames | kernel/src/arch/x86_64/paging.rs:129-135 | a page-aligned run of frames below 2^39 is kept exactly by the entry's address mask |
| PageEdits.AdoptKeepsInv | kernel/src/arch/x86_64/paging.rs:263-289 | copying a shared table or adding an empty one changes no user or kernel translation and keeps the invariant |
| PageEdits.RaiseKeepsInv | kernel/src/arch/x86_64/paging.rs:290-295 | raising the write and user bits above the last level changes no translation |
| PageEdits.LeafWrite | kernel/src/arch/x86_64/paging.rs:418-424 | writing a last-level entry changes the translation of that page and of no other, in the user's and the kernel's tables |
| PageEdits.KernelFrame | kernel/src/arch/x86_64/paging.rs:263-298 | kernel translations survive every write outside the kernel's table frames |
| UserPageTables.CloneKeepsInv | kernel/src/arch/x86_64/paging.rs:329-345 | a fresh user table translates every page as the kernel does and shows user code none |
| UserPageTables.RangeUpdate | kernel/src/arch/x86_64/paging.rs:385-429 | after a map each page of the range walks to its own frame, as far as an entry keeps the address, and every other page translates as before |
| UserPageTables.RangeRemoval | kernel/src/arch/x86_64/paging.rs:351-383 | after an unmap the pages of the range translate to nothing and every other page as before |
| UserPageTables.MapOverAt | kernel/src/arch/x86_64/paging.rs:401-426 | which pages a mapped range takes over, and to which frames |
| UserPageTables.UnmapOverAt | kernel/src/arch/x86_64/paging.rs:359-382 | which pages an unmapped range gives up |
| UserPageTables.UserPageTable.NewClonedFromKernel | kernel/src/arch/x86_64/paging.rs:329-345 | creation writes only a fresh frame and yields a valid table, or fails and changes nothing |
| UserPageTables.UserPageTable.RaiseEntry | kernel/src/arch/x86_64/paging.rs:290-295 | the user bit is set and the write bit is kept or raised, never cleared; translations, earlier write permissions and all other frames are kept |
| UserPageTables.UserPageTable.AdoptTable | kernel/src/arch/x86_64/paging.rs:277-289 | the entry leads to a newly owned table, with the write bit kept or raised as asked and translations and write permissions kept; failure changes nothing |
| UserPageTables.UserPageTable.LinkTable | kernel/src/arch/x86_64/paging.rs:280-288 | a fresh copy or empty table is linked with the user bit, and the write bit when asked for or there before, and is recorded as owned |
| UserPageTables.UserPageTable.EnsureTaskTable | kernel/src/arch/x86_64/paging.rs:270-298 | afterwards the entry leads to an owned table with the user bit, and the write bit when asked for; only that table's frame and fresh frames were written |
| UserPageTables.UserPageTable.Descend | kernel/src/arch/x86_64/paging.rs:405-417 | one level down, the walk is at an owned table |
| UserPageTables.UserPageTable.MapPage | kernel/src/arch/x86_64/paging.rs:405-425 | one page is mapped with its flags and user code can write it if and only if write was asked for, or no translation changes |
| UserPageTables.UserPageTable.WriteLeaf | kernel/src/arch/x86_64/paging.rs:417-424 | the page walks to the frame with the given flags |
| UserPageTables.UserPageTable.Map | kernel/src/arch/x86_64/paging.rs:385-429 | for any range and frames: the pages done, all of them unless the frames ran out, walk to consecutive frames as far as an entry keeps the address, with the user bit at all levels and the write bit at all levels exactly when asked for; no other user or kernel translation or write permission changes and only own or fresh frames are written |
| UserPageTables.UserPageTable.UnmapPage | kernel/src/arch/x86_64/paging.rs:359-382 | for any page: the entry is cleared in whatever last-level table the walk comes to; kernel translations stay if and only if that table is absent or the user's own, or the kernel had no such page; if it is the kernel's, the kernel loses the page |
| UserPageTables.UserPageTable.Unmap | kernel/src/arch/x86_64/paging.rs:351-383 | for ranges whose last-level tables are absent or the user's own, mapped there or copied: exactly the pages that had a table translate to nothing, all else as before, in the user's and the kernel's tables |
| UserPageTables.LastTable | kernel/src/arch/x86_64/paging.rs:359-378 | the last-level table of a page is the user's own or the very one the kernel's walk of the page comes to |
| UserPageTables.KernelClear | kernel/src/arch/x86_64/paging.rs:378-380 | clearing an entry of a kernel's last-level table takes the page from the kernel, and changes no kernel translation if and only if the kernel did not have it |
| UserPageTables.TakenOverIsOwn | kernel/src/arch/x86_64/paging.rs:359-378 | pages the table mapped earlier have last-level tables of its own |
| UserPageTables.UnmapCanReachKernel | kernel/src/arch/x86_64/paging.rs:359-380 | a valid table, just cloned, and a kernel page whose unmapping the last-level table does not prevent |
| KernelPageTables.SharedTable | kernel/src/arch/x86_64/paging.rs:235-253 | two pages of a kernel table whose walks share a table share every index above it |
| KernelPageTables.LinkKeepsTree | kernel/src/arch/x86_64/paging.rs:194-199 | an empty table below an absent entry changes no translation and keeps the tree: supervisor entries only, levels one below another, each table led to once |
| KernelPageTables.RaiseKeepsTree | kernel/src/arch/x86_64/paging.rs:201-206 | raising the write bit above the last level changes no translation and keeps the tree |
| KernelPageTables.KernelLeafWrite | kernel/src/arch/x86_64/paging.rs:255-258 | writing a last-level entry changes the translation of that page and of no other |
| KernelPageTables.EnsurePte | kernel/src/arch/x86_64/paging.rs:182-209 | afterwards the entry leads to a table one level down with at least the write bit asked for; no translation changes, only fresh frames and the tree's own are written, and it fails only when no frame is left |
| KernelPageTables.DescendKernel | kernel/src/arch/x86_64/paging.rs:244-252 | one level down the walk is at a table of the next level |
| KernelPageTables.MapKernelPage | kernel/src/arch/x86_64/paging.rs:235-258 | one page is mapped for the kernel only, with its flags, writable through all levels exactly when asked for, or no frame is left and no translation changed |
| KernelPageTables.Map | kernel/src/arch/x86_64/paging.rs:211-261 | the first unaligned address is refused and changes nothing; otherwise the pages done, all of them unless the frames ran out, walk to consecutive frames for the kernel only, writable exactly when asked for, and every other page translates as before |
| KernelPageTables.KernelInit | kernel/src/arch/x86_64/paging.rs:440-466 | on success the new root and its tables are the structure every user table is cloned from, with no user bit anywhere, and translate each page of the range to itself and no other page; each error has its cause and no earlier frame is written |
| PageRuns.TableFrame | kernel/src/arch/x86_64/paging.rs:263-298 | a table keeps its invariant and its translation while only frames of others are written |
| PageRuns.UsersStep | kernel/src/arch/x86_64/paging.rs:385-429 | one table's change keeps every other table and every frame of the start |
| PageRuns.UsersCreate | kernel/src/arch/x86_64/paging.rs:329-345 | creating a table keeps every other table |
| PageRuns.Apply | kernel/src/arch/x86_64/paging.rs:263-429 | one operation of a run changes the tables as its step says; it reports success exactly when it got to the end, and otherwise no frame is left |
| PageRuns.Execute | kernel/src/arch/x86_64/paging.rs:263-429 | after any sequence of creations, maps and unmaps of earlier given pages all tables are well formed and share no frame, no frame of the start was written and every kernel translation is unchanged; each operation reports whether it got to the end, and one that fell short left no frame |
| PageRuns.AllReported | kernel/src/arch/x86_64/paging.rs:263-429 | every operation is complete if and only if each reports success, as all do while a frame is left |
| PageRuns.OversMeaning | kernel/src/arch/x86_64/paging.rs:351-429 | a page counts as mapped, with a frame and flags, exactly when some map of its range gave it those and no map or unmap of a range with it has been done since |
| PageRuns.MappedIsRangeMapped | kernel/src/arch/x86_64/paging.rs:351-429 | when every operation got to the end, being mapped is a matter of the ranges alone |
| PageRuns.UserReachesMapped | kernel/src/arch/x86_64/paging.rs:351-429 | at the end of every run user code reaches a page if and only if a map got to it and no unmap has since; it can write the page if and only if the last such map asked for write; and the page walks to the frame and flags of that map |
| PageRuns.UserReachesRanges | kernel/src/arch/x86_64/paging.rs:351-429 | while frames last, the same is a matter of the ranges alone: reached if and only if in a range mapped and not since unmapped, written if and only if the last map asked for write |
| PageRuns.RunFromBoot | kernel/src/arch/x86_64/paging.rs:329-466 | in a run from the boot table a page of a user table has the frame and flags its last map gave it, or else walks to itself if it lies in the boot range, or else nowhere |
| Tasks.KernelIsQueued | kernel/src/task/scheduler.rs:91-109 | whenever the current task is not task 0, task 0 is in the ready queue |
| Tasks.EnabledCanDo | kernel/src/task/scheduler.rs:151-174 | no call reaches a missing task or an empty queue, so the expects cannot fail |
| Tasks.WaiterAt | kernel/src/task/scheduler.rs:140-144 | the first sleeper that waits for the exiting task |
| TaskInvariants.SpawnKeepsInv | kernel/src/task/scheduler.rs:210-236 | spawning keeps queues, tags, the tree and the waits |
| TaskInvariants.PreemptKeepsInv | kernel/src/task/scheduler.rs:91-109 | preemption keeps queues, tags, the tree and the waits |
| TaskInvariants.WaitKeepsInv | kernel/src/task/scheduler.rs:164-191 | waiting for an own child keeps queues, tags, the tree and the waits |
| TaskInvariants.WaitIsSafeIff | kernel/src/task/scheduler.rs:164-191 | a wait keeps the invariant if and only if the code is already kept or the caller, not task 0, names a child of its own |
| TaskInvariants.ExitKeepsInv | kernel/src/task/scheduler.rs:111-162 | exit with reparenting and hand-over keeps queues, tags, the tree and the waits |
| TaskInvariants.ExitIsSafeIff | kernel/src/task/scheduler.rs:111-162 | an exit keeps the invariant if and only if it is not task 0's |
| TaskInvariants.TakeCodeKeepsInv | kernel/src/task/scheduler.rs:290-292 | taking an exit code keeps the invariant |
| TaskInvariants.EventKeepsInv | kernel/src/task/scheduler.rs:87-192 | every enabled event can be done and keeps the whole invariant |
| TaskInvariants.InitialInv | kernel/src/task/scheduler.rs:194-208 | the state with only task 0 running satisfies the invariant |
| TaskRuns.EveryRunKeepsInv | kernel/src/task/scheduler.rs:87-192 | the invariant holds in every state of every run |
| TaskRuns.NeverStuck | kernel/src/task/scheduler.rs:251-268 | in every run the next call can be done, and the ready queue is non-empty unless task 0 runs |
| TaskRuns.OnePlaceEach | kernel/src/task/scheduler.rs:27-33 | a task is current, ready, sleeping or exited exactly as its state tag says |
| TaskRuns.Ancestors | kernel/src/task/scheduler.rs:120-134 | following parents from any live task reaches task 0, through mutual links, with ids falling |
| TaskRuns.AwaitedIsLive | kernel/src/task/scheduler.rs:183-190 | no sleeper's awaited task has exited or left an exit code |
| TaskRuns.WaitChain | kernel/src/task/scheduler.rs:164-191 | every chain of waits is acyclic and ends at a ready or running task |
| TaskRuns.ExitServesWaiter | kernel/src/task/scheduler.rs:136-156 | the waiter of an exiting task runs next, the queue is as before and the exit code is there |
| TaskRuns.SecondWaiterSleepsOn | kernel/src/task/scheduler.rs:136-191 | a run from the start in which two tasks wait for the same sibling, its exit wakes one, and the other sleeps on although the code is there |
| TaskRuns.PositionAfter | kernel/src/task/scheduler.rs:87-181 | a ready task's position falls by one exactly when the front is taken and never rises; only spawn and exit change the number of live tasks |
| TaskRuns.PositionAlongRun | kernel/src/task/scheduler.rs:87-181 | along any run the position is the start less the times the front was taken |
| TaskRuns.HandoversBounded | kernel/src/task/scheduler.rs:140-156 | hand-overs to woken waiters are bounded by the tasks alive and spawned |
| TaskRuns.WaitsBounded | kernel/src/task/scheduler.rs:87-181 | a task that has not run yet has seen fewer switches than its position plus the tasks alive and spawned |
| TaskRuns.EveryReadyTaskRuns | kernel/src/task/scheduler.rs:87-181 | after that many switches the ready task has run |
| TaskHistory.ParentIsNearest | kernel/src/task/scheduler.rs:111-236 | in every run the parent of a live task is its nearest live ancestor by spawning |
| TaskHistory.CodeAfter | kernel/src/task/scheduler.rs:87-292 | a code is there after a call if and only if the call is the task's exit with it, or it was there and the call does not take it |
| TaskHistory.CodesAreKept | kernel/src/task/scheduler.rs:111-292 | in every run a code is kept for a task if and only if the task exited with it and it has not been taken since |
| TaskScheduler.Scheduler.constructor | kernel/src/task/scheduler.rs:194-208 | the scheduler starts with task 0 running |
| TaskScheduler.Scheduler.SpawnUserTask | kernel/src/task/scheduler.rs:210-236 | the new task is queued last and linked to its parent |
| TaskScheduler.Scheduler.PickNextTask | kernel/src/task/scheduler.rs:91-109 | round robin; it switches whenever the queue is non-empty and always when task 0 is not current |
| TaskScheduler.Scheduler.TrySleepCurrentWaitingFor | kernel/src/task/scheduler.rs:164-191 | for any awaited task: sleeps exactly when no exit code of it is kept; the invariant survives if and only if it is an own child or its code is kept |
| TaskScheduler.Scheduler.TakeExitCode | kernel/src/task/scheduler.rs:290-292 | returns and forgets the code |
| TaskScheduler.Scheduler.HandOnChildren | kernel/src/task/scheduler.rs:120-134 | the loop over children relinks each to the new parent and back |
| TaskScheduler.Scheduler.PickNextTaskOnExit | kernel/src/task/scheduler.rs:111-162 | the loops and queue edits of any exit are the exit step of the run model; the invariant survives if and only if it is not task 0's |
| TaskScheduler.Scheduler.Succeed | kernel/src/task/scheduler.rs:136-156 | the waiter, or else the front of the queue, becomes current |
| TaskScheduler.Scheduler.FindWaiter | kernel/src/task/scheduler.rs:140-144 | the scan finds the first waiter |
| TcpSockets.ReceiveEffect | kernel/src/net/mod.rs:579-617 | receiving appends exactly the in-order bytes and moves the next expected number past them, and past a FIN |
| TcpSockets.ReceiveMoves | kernel/src/net/mod.rs:487-629 | which segments move a socket to another state, and to which |
| TcpSockets.HandshakeNumbers | kernel/src/net/mod.rs:513-578 | a handshake segment makes one past the peer's number expected next and counts as one in the own numbers |
| TcpSockets.ReplyMeans | kernel/src/net/mod.rs:513-617 | exactly which segments are answered; every answer carries the next expected number as its acknowledgement and the own current number, in a SYN-ACK the first one |
| TcpSockets.TcpSocket.constructor | kernel/src/net/tcp.rs:36-46 | a new socket is closed and empty |
| TcpSockets.TcpSocket.ResetBuf | kernel/src/net/tcp.rs:80-84 | hands out the buffer and empties it |
| TcpSockets.TcpSocket.StartPassiveOpen | kernel/src/net/tcp.rs:87-98 | listens only from closed, with fresh numbers and an empty buffer |
| TcpSockets.TcpSocket.StartActiveOpen | kernel/src/net/tcp.rs:101-113 | connects only from closed, with fresh numbers and an empty buffer |
| TcpSockets.TcpSocket.TakeData | kernel/src/net/tcp.rs:157-177 | data is appended only when established and only when it starts at the next expected number |
| TcpSockets.TcpSocket.TakeSyn | kernel/src/net/tcp.rs:115-125 | a SYN is taken only while listening; it is answered with the initial number |
| TcpSockets.TcpSocket.ReceiveTcpPacket | kernel/src/net/mod.rs:487-629 | the state, the buffer and the reply after any segment in any state; a listener stays and a SYN makes a new socket for the connection |
| TcpSockets.TcpSocket.SendTcpSyn | kernel/src/net/mod.rs:241-268 | a SYN is sent only while connecting |
| TcpSockets.TcpSocket.SendTcpPacket | kernel/src/net/mod.rs:366-435 | data goes out at the current number, which then moves past it |
| TcpSockets.TcpSocket.SendTcpFin | kernel/src/net/mod.rs:295-364 | a FIN goes out at the current number, which then moves by one |
| TcpStream.TakenIsNext | kernel/src/net/tcp.rs:157-177 | a segment whose bytes are taken carries exactly the next bytes of the peer's stream, none sent after a FIN |
| TcpStream.SideStepKeeps | kernel/src/net/mod.rs:366-629 | every step of one side keeps both directions of the invariant |
| TcpStream.StepKeepsInv | kernel/src/net/mod.rs:366-629 | every step of the two-socket system keeps the invariant |
| TcpStream.EveryRunKeepsInv | kernel/src/net/mod.rs:366-629 | the invariant holds in every run over a network that loses, repeats and reorders |
| TcpStream.PrefixSafety | kernel/src/net/tcp.rs:115-177 | in every run what a side accepted is a prefix of what the peer sent, and its next expected number is the initial number plus one plus that length, plus one after FIN, mod 2^32 |
| TcpStream.AcksOnlyAccepted | kernel/src/net/mod.rs:366-629 | in every run no segment acknowledges a byte or a FIN that its sender has not accepted, or a byte the peer has not sent |
| TcpStream.AnswerAcknowledgesAll | kernel/src/net/mod.rs:579-617 | data or a FIN that reaches an established side is always answered; the answer acknowledges exactly all the side has accepted, that segment included, under the number of what the side sends next |
| TcpStream.SendingAcknowledgesAll | kernel/src/net/mod.rs:295-435 | data and FINs sent acknowledge exactly all that their sender has accepted, under its current number |
| TcpStream.TakenFinIsFinal | kernel/src/net/mod.rs:618-622 | in every later state of every run, a side that has taken a FIN has accepted what it had then and no more |
| TcpStream.FinCompletesInOrder | kernel/src/net/tcp.rs:147-155 | after any FIN the stream is complete if and only if the next expected number was that of the peer's first FIN; a FIN in order carries that number; the code does not check the number |
| TcpStream.FinCanOvertake | kernel/src/net/tcp.rs:147-155 | a run in which a FIN overtakes data and the bytes before it are never accepted |
| Pixels.MergeRect | kernel/src/graphics/multi_layer.rs:306-317 | the merged rectangle covers both rectangles |
| Pixels.MergeIsLeast | kernel/src/graphics/multi_layer.rs:306-317 | no smaller rectangle holds both |
| Layers.MoveKeepsCoherent | kernel/src/graphics/multi_layer.rs:143-154 | moving a layer any number of times between repaints keeps the screen coherent with the marks |
| Layers.DrawKeepsCoherent | kernel/src/graphics/multi_layer.rs:112-124 | a drawing that marks what it paints keeps the screen coherent |
| Layers.PushKeepsCoherent | kernel/src/graphics/multi_layer.rs:174-185 | pushing a layer below the always-on-top ones keeps the screen coherent when it leaves no debt |
| Layers.FullyDirtyIsSafe | kernel/src/graphics/multi_layer.rs:174-185 | a fully dirty layer may always be pushed |
| Layers.PushOwesMeans | kernel/src/graphics/multi_layer.rs:174-185 | a push leaves a debt at a pixel, said of the layers and the new one before the call, exactly when it changes what is on top there with no mark on it |
| Layers.DebtBreaksCoherent | kernel/src/graphics/multi_layer.rs:174-185 | a push that leaves a debt makes some coherent screen incoherent |
| Layers.PushIsSafeIff | kernel/src/graphics/multi_layer.rs:174-185 | a layer may be pushed whatever the screen shows if and only if every pixel where it shows is marked by it or an older layer, or has an always-on-top layer over it, or already shows that colour on top |
| Layers.RemoveKeepsCoherent | kernel/src/graphics/multi_layer.rs:187-221 | removing a layer that loses no pixel keeps the screen coherent |
| Layers.LostBreaksCoherent | kernel/src/graphics/multi_layer.rs:187-221 | a removal that loses a pixel makes some coherent screen incoherent |
| Layers.RemovalIsSafeIff | kernel/src/graphics/multi_layer.rs:187-221 | a layer may be removed whatever the screen shows if and only if no pixel of its place before an unflushed move is left unmarked under a remaining layer |
| Layers.MarksOverlap | kernel/src/graphics/multi_layer.rs:187-221 | below a removed layer exactly the part it covered is marked, of a layer with no mark yet |
| Layers.RaiseKeepsCoherent | kernel/src/graphics/multi_layer.rs:223-246 | raising a layer keeps the screen coherent |
| LayerHistory.PushedIsOnTop | kernel/src/graphics/multi_layer.rs:174-185 | a pushed layer is on top wherever it shows, if it is always on top itself or no such layer shows there |
| LayerHistory.RaisedIsOnTop | kernel/src/graphics/multi_layer.rs:223-246 | a raised layer is on top wherever it shows, if it is always on top itself or no such layer shows there |
| LayerHistory.RaisedIsSeen | kernel/src/graphics/multi_layer.rs:223-303 | a repaint right after raising puts the layer's pixels on the screen there, whatever it showed before |
| LayerHistory.EveryRaiseIsSeen | kernel/src/graphics/multi_layer.rs:223-303 | the same at every place of every run |
| LayerHistory.EveryRunLooks | kernel/src/graphics/multi_layer.rs:143-303 | in every run the stack holds exactly the layers pushed and not since removed, each where and as its push, moves and drawings left it, so that raising changes no place and no pixel |
| LayerHistory.EveryRunStacks | kernel/src/graphics/multi_layer.rs:174-246 | in every run always-on-top layers are above all others, and of two layers of a kind the one pushed or raised last is above, so that all others keep their order |
| Layers.InvalidRectCovers | kernel/src/graphics/multi_layer.rs:256-282 | the single invalid rectangle covers every pixel some enabled layer calls stale or has moved onto |
| Layers.InvalidRectIsLeast | kernel/src/graphics/multi_layer.rs:256-282 | no smaller rectangle encloses what the layers call invalid, and there is none if and only if no enabled layer is marked or moved |
| Layers.OutsideIsRight | kernel/src/graphics/multi_layer.rs:255-287 | outside the invalid rectangle a pixel already shows the topmost layer if and only if it is coherent |
| Layers.ShowsTopSettles | kernel/src/graphics/multi_layer.rs:296-298 | a pixel that shows the top is coherent once the marks are cleared |
| LayerRuns.RepaintPixel | kernel/src/graphics/multi_layer.rs:255-302 | repainting the bounding rectangle agrees with a full back-to-front repaint at a pixel if and only if it lies in the rectangle or was coherent |
| LayerRuns.StepPixel | kernel/src/graphics/multi_layer.rs:174-246 | every operation other than a repaint keeps a pixel coherent unless it leaves a debt there |
| LayerRuns.RepaintStep | kernel/src/graphics/multi_layer.rs:255-303 | a repaint makes a pixel right, and coherent without marks, if it lies in the rectangle or was coherent |
| LayerRuns.StepKeepsCoherent | kernel/src/graphics/multi_layer.rs:174-303 | every operation that leaves no debt keeps the screen coherent and a repaint makes it show the top |
| LayerRuns.EveryRunPixel | kernel/src/graphics/multi_layer.rs:174-303 | in every run a pixel that owes nothing is coherent, and shows the top after a repaint |
| LayerRuns.EveryRepaintShowsTop | kernel/src/graphics/multi_layer.rs:174-303 | after every repaint of every run, undrawn pushes and early removals included, each pixel under a layer shows the topmost layer there when no debt is left: every pixel left unmarked was drawn over or marked, or lies in the repainted rectangle |
| LayerRuns.UnflushedMoveLeavesGhost | kernel/src/graphics/multi_layer.rs:187-221 | a run from no layers after which removing a moved layer leaves its old pixel on the screen past the next repaint |
| LayerRuns.UndrawnPushIsNotShown | kernel/src/graphics/multi_layer.rs:174-303 | a run from no layers in which a layer pushed undrawn over a repainted one is not shown by the next repaint |
| LayerRuns.RemovalShowsIff | kernel/src/graphics/multi_layer.rs:187-303 | after a removal and a repaint the screen is right, whatever it showed, if and only if every lost pixel lies in the repainted rectangle |
| LayerRuns.PushShowsIff | kernel/src/graphics/multi_layer.rs:174-303 | after a push and a repaint the screen is right, whatever it showed, if and only if every pixel of debt lies in the repainted rectangle |
| Compositor.FrameBuffer.CopyRectFrom | kernel/src/graphics/draw.rs:314-362 | exactly the clipped rectangle is copied, pixel for pixel |
| Compositor.FrameBuffer.CopyRows | kernel/src/graphics/draw.rs:350-358 | the row copies paint exactly the rectangle |
| Compositor.FrameBuffer.ApplyLayerBuf | kernel/src/graphics/frame_buf.rs:183-211 | the layer is drawn exactly where it lies inside the kept rectangle and the screen |
| Compositor.FrameBuffer.FlushRectToVram | kernel/src/graphics/frame_buf.rs:150-181 | video memory takes the shadow's pixels inside the rectangle and keeps its own outside |
| Compositor.LayerManager.PushLayer | kernel/src/graphics/multi_layer.rs:174-185 | the stack after a push |
| Compositor.LayerManager.RemoveLayer | kernel/src/graphics/multi_layer.rs:187-221 | the stack after a removal with the uncovered parts marked; an unknown id changes nothing |
| Compositor.LayerManager.BringLayerToFront | kernel/src/graphics/multi_layer.rs:223-246 | the stack after raising a layer, everything marked; an unknown id changes nothing |
| Compositor.LayerManager.MoveLayer | kernel/src/graphics/multi_layer.rs:365-368 | the moved layer remembers where the screen still shows it |
| Compositor.LayerManager.DrawLayer | kernel/src/graphics/multi_layer.rs:351-356 | which shapes are drawn and which change nothing; a drawn one is a drawing step of the run model that leaves exactly its pixels and its mark, without debt when the shape is an honest one |
| Compositor.LayerManager.ComputeInvalid | kernel/src/graphics/multi_layer.rs:256-282 | the loop computes the bounding rectangle of all marks |
| Compositor.LayerManager.Repaint | kernel/src/graphics/multi_layer.rs:289-299 | the loop repaints the rectangle back to front and clears the marks |
| Compositor.LayerManager.DrawToFrameBuf | kernel/src/graphics/multi_layer.rs:255-303 | from a coherent screen, video memory shows the topmost layer everywhere a layer is |
| Drawing.PixelMarkIsHonest | kernel/src/graphics/draw.rs:60-78 | a drawn pixel is covered by its mark if and only if it lies inside the canvas; the bounds test lets one past the edge through |
| Drawing.RectMarkIsHonest | kernel/src/graphics/draw.rs:80-113 | a rectangle on the canvas is covered by its mark, in every colour, if and only if it has a row or no column; with no rows its first row is painted all the same |
| Drawing.LineMarkIsHonest | kernel/src/graphics/draw.rs:301-310 | the marked box covers every pixel of the line |
| Drawing.LineBoxIsLeast | kernel/src/graphics/draw.rs:301-310 | the marked box lies within exactly the rectangles that hold both ends |
| Drawing.PlotPixel | kernel/src/graphics/draw.rs:282-299 | exactly the pixels of the line take the colour |
| Drawing.Canvas.DrawPixel | kernel/src/graphics/draw.rs:60-78 | which points are refused, which overrun the buffer and which cell is written |
| Drawing.Canvas.DrawRect | kernel/src/graphics/draw.rs:80-113 | each error case, the overrun and the exact pixels painted |
| Drawing.Canvas.FillRows | kernel/src/graphics/draw.rs:96-109 | filling one row and copying it down paints exactly the rectangle |
| Drawing.Canvas.Fill | kernel/src/graphics/draw.rs:146-167 | the doubling copy fills every pixel; an empty canvas is overrun |
| Drawing.Canvas.DrawLine | kernel/src/graphics/draw.rs:255-312 | the clipped line is drawn pixel for pixel and marked, its ends within two pixels per axis of the ideal line; it is clipped away, changing nothing, if and only if it lies beside the canvas or passes its corner by a whole pixel, so never when it meets the canvas |
| Drawing.Canvas.Trace | kernel/src/graphics/draw.rs:273-299 | the error-term loop stops and has written exactly the nearest pixels of each step |
| Lines.FractionOf | kernel/src/graphics/draw.rs:416-437 | a truncating share of a distance stays within it and is off by less than one |
| Lines.ClipPointNear | kernel/src/graphics/draw.rs:416-437 | a clipped point stays in the segment's box and strays from the line by less than one more pixel on one axis |
| Lines.CutSegment | kernel/src/graphics/draw.rs:412-447 | one cut keeps the direction, strictly lowers the Manhattan length and adds at most one pixel of error per side of the screen |
| Lines.ClipLine | kernel/src/graphics/draw.rs:372-449 | the loop ends; a result is on screen, inside the original and in its direction, each end within two pixels per axis of the ideal line; an end already on screen is kept; for non-negative ends, all that draw_line passes, a segment is refused if and only if it lies beside the screen or passes its corner by a whole pixel, and never when it meets the screen |
| Lines.RightCutLands | kernel/src/graphics/draw.rs:426-432 | the truncated crossing at the right side is below the screen exactly when the ideal line is a whole row below it |
| Lines.FirstCut | kernel/src/graphics/draw.rs:404-447 | after the first cut a refused segment lies beside the screen and any other has an end on it |
| Lines.MeetingIsKept | kernel/src/graphics/draw.rs:372-449 | a segment with some ideal point on the screen is never refused |
| Lines.LineShape | kernel/src/graphics/draw.rs:273-299 | the pixels run from end point to end point in max(abs dx, abs dy) steps, each next to the last, inside the box, within half a pixel of the ideal line on the shorter axis |
| Lines.LoopStep | kernel/src/graphics/draw.rs:289-297 | the two tests of the loop body choose exactly the next nearest pixel and keep the error term |
| Lines.StepAlongX | kernel/src/graphics/draw.rs:289-297 | with x the longer axis each step advances x, and y exactly when the nearest row changes |
| Lines.StepAlongY | kernel/src/graphics/draw.rs:289-297 | with y the longer axis each step advances y, and x exactly when the nearest column changes |
| Lines.LineEnds | kernel/src/graphics/draw.rs:286-288 | the end point is met at the last step and not before |
| FrameBits.CountMarked | kernel/src/mem/bitmap.rs:372-418 | taking or releasing a uniform block moves the free count by its length |
| FrameBits.RunFitsCount | kernel/src/mem/bitmap.rs:297-299 | refusing a length above the free count refuses no existing run |
| FrameBits.FoundIsFree | kernel/src/mem/bitmap.rs:301-346 | the run taken is free, above frame 0, and the only choice |
| FrameBits.PassesOverLowest | kernel/src/mem/bitmap.rs:307-311 | the lowest run is passed over if and only if eight frames are wanted, it starts inside a byte and the next byte is wholly free; that byte is then the run taken |
| FrameBits.EightPassOverLowest | kernel/src/mem/bitmap.rs:307-311 | on two free bytes frames 8 to 15 are taken although frames 1 to 8 are free |
| FrameBits.StepKeepsInv | kernel/src/mem/bitmap.rs:259-358 | an allocation of the run found or a release keeps counters equal to the bits, bits past the last frame set and live blocks apart |
| FrameBits.EveryRunKeepsInv | kernel/src/mem/bitmap.rs:259-358 | all of that holds in every state of every run |
| FrameBits.ReleaseUndoesTake | kernel/src/mem/bitmap.rs:348-418 | releasing a block just taken restores bits and counters |
| FrameBitmap.SetThenGet | kernel/src/mem/bitmap.rs:88-113 | setting a bit changes that bit of the byte and no other |
| FrameBitmap.WholeByte | kernel/src/mem/bitmap.rs:119-125 | the whole-byte tests say what the eight bits say |
| FrameBitmap.BitSet | kernel/src/mem/bitmap.rs:372-425 | setting a frame's bit in its byte sets one bit of the row |
| FrameBitmap.ClaimedExists | kernel/src/mem/bitmap.rs:188-193 | every usable frame of the memory map is below the total |
| FrameBitmap.MaxEndIsHighest | kernel/src/mem/bitmap.rs:188-193 | the highest end is that of some region of the memory map, and no region ends above it |
| FrameBitmap.TotalReaches | kernel/src/mem/bitmap.rs:188-193 | the total number of frames reaches past the highest end, by one frame at most |
| FrameBitmap.BitmapMemoryManager.constructor | kernel/src/mem/bitmap.rs:185-220 | the counters before the bitmap is written |
| FrameBitmap.BitmapMemoryManager.Init2 | kernel/src/mem/bitmap.rs:222-246 | succeeds exactly when no frame lies in two usable regions; then a frame is free if and only if it is usable and not the bitmap's own |
| FrameBitmap.BitmapMemoryManager.FreeUsable | kernel/src/mem/bitmap.rs:228-234 | frees exactly the usable frames |
| FrameBitmap.BitmapMemoryManager.FreeRegion | kernel/src/mem/bitmap.rs:230-233 | frees one region, or meets a frame of an earlier one |
| FrameBitmap.BitmapMemoryManager.ReserveFrames | kernel/src/mem/bitmap.rs:236-243 | takes back the frames of the bitmap, ignoring those already taken |
| FrameBitmap.BitmapMemoryManager.AllocFrame | kernel/src/mem/bitmap.rs:372-394 | each error case, the one bit set and the counters moved |
| FrameBitmap.BitmapMemoryManager.DeallocFrame | kernel/src/mem/bitmap.rs:396-418 | for any frame number: each error case, the one bit cleared and the counters moved; they go on agreeing with the bits if and only if the frame exists |
| FrameBitmap.BitmapMemoryManager.FindSingle | kernel/src/mem/bitmap.rs:264-284 | finds the lowest free frame above frame 0 although full bytes are skipped whole |
| FrameBitmap.BitmapMemoryManager.AllocSingle | kernel/src/mem/bitmap.rs:259-285 | succeeds exactly when a frame above 0 is free, and takes the lowest |
| FrameBitmap.ScanBits | kernel/src/mem/bitmap.rs:313-331 | the running count over one byte |
| FrameBitmap.BitmapMemoryManager.FindRun | kernel/src/mem/bitmap.rs:301-338 | finds a run if and only if one exists above frame 0: the lowest one, or for eight frames the wholly free byte right after its start |
| FrameBitmap.BitmapMemoryManager.AllocMulti | kernel/src/mem/bitmap.rs:288-346 | is an allocation step of the run model: it succeeds exactly when the length is positive and a run exists, sets exactly the run found, and names the error otherwise |
| FrameBitmap.BitmapMemoryManager.FindAndTake | kernel/src/mem/bitmap.rs:288-346 | the bits and counters of an allocation |
| FrameBitmap.BitmapMemoryManager.ReleaseFrames | kernel/src/mem/bitmap.rs:348-358 | the bits and counters of the release of any block, which agree afterwards if and only if every frame released exists |
| FrameBitmap.BitmapMemoryManager.DeallocMemFrame | kernel/src/mem/bitmap.rs:348-358 | for any block: succeeds exactly when every frame was taken, otherwise stops at the first free one, which it names, or at the end of the bitmap; for a live block it is a release step of the run model |
| FrameBitmap.FreedCountedIff | kernel/src/mem/bitmap.rs:396-418 | releasing taken frames keeps the counters equal to the bits if and only if all of them exist |
| FrameBitmap.PaddingIsReleased | kernel/src/mem/bitmap.rs:396-418 | with one frame and one byte of bitmap, releasing the bit after the frame is not refused and the free count is wrong |
| Paths.NormalizeShape | kernel/src/fs/path.rs:42-71 | the normal form stays absolute or relative, has no empty or "." part, and ".." only as a leading run of a relative path |
| Paths.NormalizeIdempotent | kernel/src/fs/path.rs:42-71 | normalising twice is normalising once |
| Paths.NormalizeMeans | kernel/src/fs/path.rs:42-71 | a path and its normal form lead to the same directory from every directory |
| Paths.AbsolutizeMeans | kernel/src/fs/vfs.rs:385-391 | the absolute form names the directory reached by walking the path from the working directory |
| Paths.NamesOfJoin | kernel/src/fs/path.rs:64-68 | joining names and splitting again gives them back |
| Paths.ParentThenName | kernel/src/fs/path.rs:82-120 | when the last name is a proper one, the parent followed by the name is the path |
| Paths.ParentIsAbove | kernel/src/fs/path.rs:82-109 | the parent means the directory above if and only if the path is absolute or its normal form ends in a proper name |
| FileTree.LookupOfPath | kernel/src/fs/vfs.rs:539-555 | looking up the rebuilt path of a file not at or under a mount finds that file, from any working directory |
| FileTree.PathOfLookup | kernel/src/fs/vfs.rs:393-431 | the path rebuilt from what a lookup found is the absolute form of the path looked up |
| FileTree.ResolveIsChain | kernel/src/fs/vfs.rs:393-431 | names lead to a file only if they are the names on its parent chain |
| FileTreeEdits.AddedKeepsInv | kernel/src/fs/vfs.rs:483-514 | adding a file keeps a tree with distinct sibling names whose parent chains reach the root |
| FileTreeEdits.AddedRecords | kernel/src/fs/vfs.rs:483-514 | the new record has the name, type and parent asked for, the parent lists it, and every other record is as before |
| FileTreeEdits.MountedKeepsInv | kernel/src/fs/vfs.rs:525-537 | mounting keeps the tree |
| FileTreeEdits.PipeKeepsInv | kernel/src/fs/vfs.rs:885-891 | a pipe's record keeps the tree |
| FileTreeEdits.PipeGoneKeepsInv | kernel/src/fs/vfs.rs:673-676 | dropping a pipe's record removes that record, changes no other and keeps the tree |
| FileTreeEdits.PipeClosedAgain | kernel/src/fs/vfs.rs:673-891 | closing a pipe leaves exactly the records that were there before it was opened |
| FileTreeEdits.ResolveSame | kernel/src/fs/vfs.rs:393-431 | records the tree does not list change no lookup |
| FileTreeEdits.AddedResolves | kernel/src/fs/vfs.rs:483-514 | after an addition the new name leads to the new file and every other name where it did |
| FileTreeEdits.MountedResolves | kernel/src/fs/vfs.rs:525-537 | after a mount every name at or below the directory is looked up in the mounted file system, under the rest of the names |
| FileTreeEdits.UnmountedResolves | kernel/src/fs/vfs.rs:525-537 | a name that did not pass through the mounted directory leads where it did |
| FileTreeEdits.SeparatorIsLost | kernel/src/fs/vfs.rs:180-192 | a file whose name holds a separator, which is not refused, is found by no path; every path leads where it did, and the tree is one no longer |
| FileTreeEdits.ApplyKeepsInv | kernel/src/fs/vfs.rs:341-353 | every edit keeps the tree invariant |
| FileTreeEdits.EveryRunInverse | kernel/src/fs/vfs.rs:341-555 | in every reachable tree lookup and path reconstruction are inverse |
| VirtualFiles.VirtualFileSystem.constructor | kernel/src/fs/vfs.rs:341-353 | the root alone, an empty directory that nothing is mounted on |
| VirtualFiles.VirtualFileSystem.FindChild | kernel/src/fs/vfs.rs:410-419 | the scan finds the first child with the name |
| VirtualFiles.VirtualFileSystem.FindFileByPath | kernel/src/fs/vfs.rs:393-431 | the loop finds what the names of the absolute path lead to one by one; inside a mount exactly if the mounted file system knows the rest of the path or it is its root |
| VirtualFiles.VirtualFileSystem.AddFile | kernel/src/fs/vfs.rs:483-514 | for any path: each error case in its order; on success only the new file is added and the path now finds it, unless the path has no name: then, and only then, the tree invariant is lost and no path finds the file |
| VirtualFiles.VirtualFileSystem.InsertAndLink | kernel/src/fs/vfs.rs:505-511 | the second lookup of the parent finds it again, so the unwrap cannot fail |
| VirtualFiles.VirtualFileSystem.MountFs | kernel/src/fs/vfs.rs:525-537 | each error case, and the mounted directory |
| VirtualFiles.MountedIsFound | kernel/src/fs/vfs.rs:393-537 | looking up the path of a mounted directory finds the root of its file system |
| VirtualFiles.VirtualFileSystem.AbsPathByFile | kernel/src/fs/vfs.rs:539-555 | the loop ends in every tree and rebuilds the path from the parent chain |
| Descriptors.CachedIsUncached | kernel/src/fs/vfs.rs:712-732 | a read through the cache returns what an uncached read at that offset would |
| Descriptors.EmptyReadIsEndOfStream | kernel/src/fs/vfs.rs:737-754 | a read of positive length is empty if and only if no write end is left and every byte sent was read; it would block if and only if a write end is left and nothing is waiting |
| Descriptors.EndOutlasts | kernel/src/fs/vfs.rs:826-834 | the end of a stream outlasts a call if and only if it is not a non-empty write through a descriptor of the pipe; the code does not check the end |
| Descriptors.EndIsFinalIff | kernel/src/fs/vfs.rs:712-911 | over the rest of any run the end of a stream is final, while the pipe lasts, if and only if no such write is made |
| Descriptors.ReadEndRevives | kernel/src/fs/vfs.rs:826-834 | a run in which an empty read is followed by a write through the read end and a read of its byte |
| Descriptors.OpenedKeepsInv | kernel/src/fs/vfs.rs:620-627 | opening keeps caches fresh and pipes as they were |
| Descriptors.OpenedVirtualKeepsInv | kernel/src/fs/vfs.rs:572-629 | opening a virtual file, refused while a descriptor has it, keeps the invariant: no two descriptors of one virtual file |
| Descriptors.PipeCreatedKeepsInv | kernel/src/fs/vfs.rs:885-911 | a new pipe has both ends and is empty |
| Descriptors.ClosedKeepsInv | kernel/src/fs/vfs.rs:632-686 | closing keeps a pipe's record exactly while a descriptor refers to it and marks the end of stream exactly when no writer is left |
| Descriptors.WriteFsKeepsInv | kernel/src/fs/vfs.rs:778-799 | a write changes one file and drops exactly the caches that could be stale |
| Descriptors.WriteVirtualKeepsInv | kernel/src/fs/vfs.rs:805-823 | a write to a virtual file keeps caches, pipes and exclusive opens |
| Descriptors.ReadPipeKeepsInv | kernel/src/fs/vfs.rs:737-754 | bytes read followed by the buffer stay the bytes written |
| Descriptors.WritePipeKeepsInv | kernel/src/fs/vfs.rs:826-834 | bytes written are appended and the invariant kept, whichever end they are written through |
| Descriptors.DoKeepsInv | kernel/src/fs/vfs.rs:632-911 | every call keeps fresh caches, pipe contents, pipe records and end-of-stream marks |
| Descriptors.EveryRunKeepsInv | kernel/src/fs/vfs.rs:632-911 | all of that holds over every interleaving of calls on any descriptors |
| DescriptorTable.OpenFiles.OpenFs | kernel/src/fs/vfs.rs:620-629 | a new number and an empty cache |
| DescriptorTable.OpenFiles.OpenVirtualFile | kernel/src/fs/vfs.rs:572-629 | a virtual file is opened exactly when no descriptor has it, and otherwise the error names the first that has |
| DescriptorTable.OpenFiles.CreatePipe | kernel/src/fs/vfs.rs:885-911 | two numbers and an empty pipe |
| DescriptorTable.OpenFiles.CloseFile | kernel/src/fs/vfs.rs:632-652 | the closed descriptor is gone; an unknown number is an error |
| DescriptorTable.OpenFiles.ReleasePipeEnd | kernel/src/fs/vfs.rs:654-686 | the counts decide between dropping the record and marking the end of stream |
| DescriptorTable.OpenFiles.ReadFile | kernel/src/fs/vfs.rs:712-754 | the uncached bytes, the next bytes of the pipe, the end of stream or nothing yet, each exactly when it should be |
| DescriptorTable.OpenFiles.ReadContent | kernel/src/fs/vfs.rs:717-766 | the bytes of the content from the offset on, as many as asked for and left, the filled cache and the offset moved past them |
| DescriptorTable.OpenFiles.ReadPipeBuffer | kernel/src/fs/vfs.rs:737-754 | the next bytes of the pipe are handed out once |
| DescriptorTable.OpenFiles.WriteFile | kernel/src/fs/vfs.rs:778-834 | the written file or pipe; succeeds exactly for a known descriptor of a pipe, of a virtual file or of a file whose file system accepts; an error changes nothing |
| DescriptorTable.OpenFiles.WriteContent | kernel/src/fs/vfs.rs:805-823 | the content of a virtual file is grown with zeros and overlaid with the data at the offset, which moves past it |
| DescriptorTable.OpenFiles.DropCaches | kernel/src/fs/vfs.rs:787-795 | the loop drops the caches of that file and no others |
| DescriptorTable.OpenFiles.SeekFile | kernel/src/fs/vfs.rs:866-883 | the saturated target, with the exact cause of each error, and nothing else changed |
| DescriptorTable.SaturatingAdd | kernel/src/fs/vfs.rs:866-883 | the number nearest the sum among those of 64 bits |
| DescriptorRuns.ReadTwice | kernel/src/fs/vfs.rs:712-766 | two reads return together the bytes of one read of both lengths and leave the same table |
| DescriptorRuns.SeekThenRead | kernel/src/fs/vfs.rs:866-883 | after seeking by any of the three origins a read returns the bytes from that place, none past the end |
| DescriptorRuns.WriteIsSeen | kernel/src/fs/vfs.rs:712-799 | after a write the file system accepts, every descriptor of the file reads the new content, each from its own place |
| DescriptorRuns.WriteTwice | kernel/src/fs/vfs.rs:805-823 | two writes to a virtual file are one write of both data |
| DescriptorRuns.WriteThenRead | kernel/src/fs/vfs.rs:756-823 | what was written to a virtual file is read back after seeking to where the write began |
| DescriptorRuns.FdAfter | kernel/src/fs/vfs.rs:632-911 | a call moves only the offset of the descriptor it names, by the bytes it transferred or to where it seeks, and never changes what a descriptor stands for |
| DescriptorRuns.ContentAfter | kernel/src/fs/vfs.rs:778-823 | a file keeps its bytes through every call that does not write it |
| DescriptorRuns.OpenAfter | kernel/src/fs/vfs.rs:564-686 | after a call exactly the descriptors open before are open, without the one it closes and with those it hands out |
| DescriptorRuns.OpenIffHeld | kernel/src/fs/vfs.rs:564-911 | in every run from an empty table a descriptor is open if and only if it was handed out and not closed since |
| DescriptorRuns.ReadsAreConsecutive | kernel/src/fs/vfs.rs:712-766 | over any run with no seek, write or close on a descriptor and its file unchanged, what it reads is consecutive bytes of the content from its first offset on |
| DescriptorRuns.ReadToTheEnd | kernel/src/fs/vfs.rs:712-766 | read from opening, those bytes are a prefix of the content, and all of it once a read of positive length is empty |
| DescriptorRuns.PipeInOrder | kernel/src/fs/vfs.rs:737-834 | in every run the bytes read from a pipe since its creation, followed by its buffer, are exactly the bytes written to it, in order |
| Checksums.FoldStep | kernel/src/net/checksum.rs:14-19 | adding the carry back lowers the sum and keeps its value modulo 65535 |
| Checksums.FoldChecksum | kernel/src/net/checksum.rs:14-19 | the loop ends with the complement of the sum's one's-complement value |
| Checksums.ChecksumWordsExact | kernel/src/net/checksum.rs:3-12 | the wrapping sum is exact while the exact sum fits 32 bits |
| Checksums.OddIsPadded | kernel/src/net/checksum.rs:3-12 | data of odd length has the sum of the data with a zero byte after it |
| Checksums.AcceptsMultiples | kernel/src/net/tcp.rs:298-304 | the receiver's test accepts exactly the multiples of 65535 |
| Checksums.ComplementCompletes | kernel/src/net/checksum.rs:14-19 | adding the complement makes the sum a multiple of 65535 |
| Checksums.PseudoHeaderSum | kernel/src/net/checksum.rs:21-37 | the word sum of both addresses plus protocol and length |
| TcpSegments.ParseOfToVec | kernel/src/net/tcp.rs:198-247 | a serialised segment parses back unchanged if and only if its data offset is right |
| TcpSegments.ToVecOfParse | kernel/src/net/tcp.rs:354-367 | what was parsed serialises to the bytes it came from |
| TcpSegments.NewWithFits | kernel/src/net/tcp.rs:261-290 | a built segment is well formed, and survives the round trip, if and only if its options are at most 40 bytes; they start with the given ones and are padded to whole words |
| TcpSegments.BuiltFields | kernel/src/net/tcp.rs:261-290 | the segment built has the ports, numbers, window, urgent pointer and data asked for, the twelve flag bits as given, options that start with the given ones and go on with zeros, and no checksum yet |
| TcpSegments.WireLayout | kernel/src/net/tcp.rs:354-367 | at which byte of the serialised segment each field is, most significant byte first |
| TcpSegments.VerifyMeans | kernel/src/net/tcp.rs:298-304 | a segment is accepted if and only if its 32-bit sum is a multiple of 65535; up to the largest IPv4 packet that is the exact sum of its words and the pseudo header |
| TcpSegments.ChecksumVerifies | kernel/src/net/tcp.rs:306-312 | the sender's checksum always passes the receiver's test, for segments of any length: completing the 32-bit sum never wraps it |
| TcpSegments.CalcChecksumWithIpv4 | kernel/src/net/tcp.rs:306-312 | the method computes that checksum, for segments of any length |
| TcpSegments.VerifyChecksumWithIpv4 | kernel/src/net/tcp.rs:298-304 | the method decides exactly that test, for segments of any length |
| Packets.IpRoundTrip | kernel/src/net/ip.rs:78-123 | with a 20-byte header a packet parses back unchanged, whatever padding follows, if and only if its protocol has its own name and the length field ends the data; with options it does not |
| Packets.CalcIpChecksum | kernel/src/net/ip.rs:158-181 | only the checksum changes, and a header length field of at least three words makes the header sum a multiple of 65535 |
| Packets.SumHeader | kernel/src/net/ip.rs:167-174 | the loop sums the words of a header of any length exactly |
| Packets.EthRoundTrip | kernel/src/net/eth.rs:162-181 | an IPv4 frame is at least 64 bytes, starts with the destination, the source and the type, and comes back with its packet and zero padding |
| Packets.TypeRoundTrip | kernel/src/net/eth.rs:51-77 | a frame type comes back from its two bytes if and only if it is a named one, a number without a name, or a length of at most 1500 |
| Packets.SegmentSurvives | kernel/src/net/eth.rs:116-197 | a well-formed checksummed segment wrapped in IPv4 and a padded frame is read back unchanged and passes the checksum test |
| Packets.BuiltSegmentSurvives | kernel/src/net/mod.rs:392-426 | for every request with at most 40 bytes of options that fits an IPv4 packet, the segment read back has the ports, numbers, window, urgent pointer and data asked for, the given flags modulo 0x1000 and options that start with the given ones; it comes from the sender's address to the receiver's and passes the checksum test |
| TcpWire.SegmentCrosses | kernel/src/net/mod.rs:241-435 | each segment of the stream model, written out by its sender, carried in IPv4 and Ethernet and read in by its receiver, arrives from the same ports and addresses, passes the checksum test and is the segment that was posted; a SYN-ACK carries the largest segment size |

## Left out

- Integer widths: addresses, sizes, offsets and coordinates are unbounded naturals or integers; 64-bit overflow is not modelled except where a 16- or 32-bit field, a wrapping sum or a saturating seek is written out.
- Heap: allocation of zero-sized layouts by `GlobalAlloc`, the lock around the heap and the choice of its memory.
- HeapAllocator.Heap.Dealloc: stated for live blocks, because the allocator's callers own what they free; freeing anything else is undefined in the source as well.
- Page tables: huge pages, the bit layout of an entry (a record here), `kernel_map` while user tables exist, loading `cr3`, `invlpg` and the release of frames when a table is dropped.
- UserPageTables.UserPageTable.Map: stated for virtual addresses below 2^48, the space four indices tell apart.
- KernelPageTables.Map: stated for the same addresses, and for the supervisor mode both its callers ask for.
- KernelPageTables.KernelInit: stated for the same addresses.
- UserPageTables.UserPageTable.UnmapPage: stated for pages of the same space; what happens to other tables that share a kernel table is only that the frame is written.
- UserPageTables.UserPageTable.Unmap: stated for ranges whose last-level tables are not the kernel's; for one page `UnmapPage` says what happens otherwise.
- PageRuns.Execute: unmaps of pages the table was not given earlier are skipped, because they may write the kernel's tables.
- Scheduler: the context switch, task resources and ELF loading.
- TaskInvariants.WaitKeepsInv: stated for waits that name the caller's own children, which `TaskInvariants.WaitIsSafeIff` shows to be necessary; runs (`TaskRuns`) are made of such waits and of exits of tasks other than task 0.
- TaskScheduler.Scheduler.TrySleepCurrentWaitingFor: needs another ready task, without which the source panics.
- TaskScheduler.Scheduler.PickNextTaskOnExit: needs another ready task, without which the source panics.
- TCP: the port table, the choice of ports in a reply and `accept` (in `TcpStream` the server's first state is the socket that a SYN creates), connection close, and the bytes `recv_tcp_packet` drops when the caller's buffer is too small; one connection of fewer than 2^32 bytes.
- ARP, UDP, ICMP, IPv4 options and DNS: easier members, or timing.
- Packets.CalcIpChecksum: for a length field below three words the checksum is outside the summed header, and only the stored value is stated.
- Packets.IpRoundTrip: nothing is stated for a header length below 20 bytes, which IPv4 does not allow.
- Packets.EthRoundTrip: ARP payloads are not part of this model.
- Compositor: `updated_rect` and `apply_shadow_buf`, pixel-format mismatches, and a frame buffer without a shadow buffer.
- Drawing: `copy_rect`, characters and strings, and colour conversion; a write past the end of the buffer is an outcome, not a memory effect.
- Layers are values: `Layer.buf` is copied into a canvas for a drawing and back, so aliasing between layers is not modelled.
- Lines.ClipLine: for negative ends, which no caller passes, a refusal is characterised only for a shared side of the screen.
- FrameBitmap.BitmapMemoryManager.DeallocFrame: the counters are integers here, so a release of a padding bit while no frame is taken counts below zero where the source's subtraction overflows.
- Frame bitmap: the choice of the region that holds the bitmap, and zeroing and leaking of frames.
- Files: what a mounted file system does below its mount point (`metadata`, FAT, procfs), `chdir` and directory listings; a mounted file system is a map from paths to contents that only an accepted write changes.
- VirtualFiles.VirtualFileSystem.AddFile: pipes are not added by path; their records have `FileTreeEdits.PipeKeepsInv`.
- Descriptors: device files, and the path lookup before a file is opened.
- Window manager, fonts, console, drivers, async executor, user-space programs and their C library: user interface and plumbing.
