# YuiOS in Dafny

YuiOS is a small 32-bit kernel with a Minix file system of the first version. This
project models its memory manager, its file storage, its concurrency protocols, its
allocator and its text and directory algorithms, and proves what each of them promises.

Code that changes state is modelled twice: as methods that change fields and arrays with
the loops of the source, and as functions or steps on values. Each method is proved equal to
its function, and the laws are proved about the functions, over whole runs where the source
promises them for whole runs. A failed assertion or a panic of the kernel is a result (`ok`
false, or `None`) and no precondition, with these exceptions, each proved to hold at every call:
the list asserted not to be empty (`List.Pop`, `List.PopBack`, `Ring.Get`), the node asserted to
be on a list or not (`HashLocate`, `HashRemove`, `List.Push` and its like, `CarvePage`), the index
asserted to be inside a bitmap (`Bitmap.Test`, `Bitmap.Set`), the holder that calls
`LockRelease`, the held buffer of `ReleaseBlock`, the held block of `Kfree`.

- Paging: `Paging`, `PagingInvariant`, `ForkExit`, `ForkLoop`, `CopyOnWrite`, `Remap`,
  `HeapBreak`, `MemoryManager`.
  Processes are two-level tables over counted frames. The main theorem compares every run with
  a reference machine whose fork copies every private page at once; `Remap` is what sys_mmap does
  to a page that is mapped already, `HeapBreak` where the heap ends.
- File storage: `Bitmap`, `ZoneMaps`, `Volume`, `Layout`, `BlockMap`, `FileData`, `FileRead`,
  `Truncation`, `FileRun`, `VolumeStore`, and beneath them the buffer cache: `BufferCache`,
  `BufferView`, `BufferRun`, `BufferStore`. The cache refines a flat disk; the laws of files are proved over such a disk, and
  the methods of `VolumeStore` reach every block through `Buffers.ReadBlock` and `WriteBlock`.
- Protocols: `ProcessTree`, `ProcessRun`, `ProcessExit`, `ProcessChild`, `ProcessTable` (fork,
  exit, waitpid), `Lock`, `LockRun`, `LockObject` (the re-entrant lock), `Elevator` (the disk
  queue), `Fifo`, `PipeStream`, `PipeObject` (pipes), `SleepQueue`, `SleepRun` (sleep and wakeup).
- Lists and allocation: `LinkedList` on the heap, `Arena`, `ArenaInvariant`, `ArenaStore`.
- Text and directories: `Printer`, `PrinterLaws`, `PathText`, `PathLaws`, `PathBuffer`, `Directory`,
  `PathWalk`, `PathReach`.

`Wrappers` holds the one datatype for values that may be missing. `dafny verify dfyconfig.toml`
checks the whole project.

## What turned out false

Some promises hold only under a condition; the condition is proved exact.

- balloc never clears a zone, and bmap takes what it gets as an index block. That is sound while
  each such block happens to read as zero words (`BlockMap.IndexBlockIsCleanIffZero`,
  `FileRun.MixedRunKeepsInv`), for which it is enough that free zones are zero (`FreeZero`); writes
  keep them so, inode_truncate does exactly when the file held only zeros
  (`Truncation.TruncateFreeZeroIff`), and `Truncation.TruncatedBlockComesBack` is a volume on which
  a stale block becomes an index block.
- bfree chooses the bitmap block without the shift that balloc uses. With several bitmap blocks an
  assertion fails for the zones named in `ZoneMaps.BfreeClearsIff` (`ZoneMaps.SecondMapPanics` is
  one), with one block for those above 8192 (`Truncation.TruncateClears`,
  `Truncation.HighZonePanics`). No wrong bit is ever cleared.
- bwrite clears dirty after it has slept in the device. An edit of a sector that was already sent is
  lost (`BufferRun.MeetingLosesEdit`); `BufferRun.EditsAreKeptIff` says exactly which edits are kept.
- sys_mmap sets the bits of an entry also when the page was mapped. A private page that is still
  shared after a fork becomes writable in place, and the other task sees the stores
  (`Remap.ChildSeesRemappedStore`); `Remap.MmapKeepsInvIff` is the exact condition.
- task_exit gives back what the task holds after it has set TASK_DIED. If a request list is not
  empty, a lock taken or a port busy, the task sleeps, becomes ready again and ends as ready, not
  dead (`ProcessExit.ChildIsNotSeen`); if somebody waits for a lock that it releases, it yields and
  never comes back, and its parent waits for ever (`ProcessExit.ParentWaitsForEver`).
  `ProcessExit.ClaimsHoldIff` says that nothing else goes wrong.
- The sleep list is sorted by signed 32-bit deadlines and served by unsigned ones. A sleep past the
  next multiple of 2^32 ends early (`SleepRun.EarlySleeperIsWoken`), two on different sides of 2^31
  make one late (`SleepRun.LateSleeperSleepsOn`, `SleepQueue.LateSleeperIsMissed`), and
  `SleepRun.WakesOnTimeIff` says that nothing else does.
- kmalloc of nearly 2^32 bytes wraps round: it panics or returns a short block
  (`Arena.PagesAreEnoughIff`, `Arena.TopSizes`, `ArenaInvariant.MallocLargeIsSoundIff`).
- Names of 14 and more characters are cut on the way in and never found again
  (`Directory.FoundAgainIff`, `Directory.FourteenIsLost`); a pipe with a one-cell buffer deadlocks
  (`PipeStream.NeverBothBlockedIff`; the kernel gives pipes a page).
- `%d` passes SIGN to number, which tests an unsigned number for being negative: a negative argument
  is printed as a large one (`Printer.SignedPrintsIff`, `Printer.MinusOneIsLost`).

## Model

| member | source | states |
|---|---|---|
| `CopyOnWrite.RunObserves` | src/kernel/memory.c:443-488 | Over every run from boot of fork, exit, page faults, mmap of unmapped pages, unmap, brk, user loads and stores, each step is possible with the same observations on a machine whose fork copies every private page: a load returns the byte eager copying would give |
| `CopyOnWrite.RunMatches` | src/kernel/memory.c:443-523 | In every reachable state the invariant holds (counters exact, writable private pages and page tables named once, free pages accounted) and every process sees the memory of the eager machine |
| `CopyOnWrite.StepRefines` | src/kernel/memory.c:610-672 | One kernel step, the write fault that moves an entry to a copy included, is the corresponding step of the eager machine, on which a fault does nothing |
| `CopyOnWrite.StepKeepsInv` | src/kernel/memory.c:378-523 | Every step keeps: each user frame's counter is the number of present entries, of tables and of directories, of all live processes that name it; a writable private page and a page table have one name; free_pages less the zero counters is constant |
| `CopyOnWrite.FaultEnablesStore` | src/kernel/memory.c:633-660 | After the write-fault branch of page_fault the store that faulted goes through: no second fault on the same entry |
| `CopyOnWrite.PermittedWrite` | src/kernel/memory.c:610-660 | A write that the mapping permits goes through or is a fault that page_fault handles; no assertion fails, and it panics only when no frame is left |
| `ForkExit.ForkKeepsInv` | src/kernel/memory.c:443-488 | copy_pde keeps the invariant, and the present entries after it are the old ones, write-protected where private, and one copy of each for the child |
| `ForkExit.ExitKeepsInv` | src/kernel/memory.c:490-523 | free_pde keeps the invariant and leaves exactly the entries of the other processes |
| `ForkExit.ForkThenExitRestores` | src/kernel/memory.c:443-523 | A fork followed by the exit of the child restores every counter, the number of free pages and every process |
| `ForkLoop.ForkFits` | src/kernel/memory.c:158-173 | A fork that ends found a frame for every page table and no counter at its limit, as CanFork asks |
| `ForkLoop.ForkFails` | src/kernel/memory.c:443-488 | When the loop of copy_pde panics in the middle, CanFork was false at its start |
| `PagingInvariant.AddPageKeepsInv` | src/kernel/memory.c:378-397 | A frame taken from get_page and entered in an empty page-table entry keeps counters, isolation and free_pages in step |
| `PagingInvariant.RemovePageKeepsInv` | src/kernel/memory.c:399-423 | Clearing one present entry and putting its frame keeps them in step |
| `MemoryManager.Memory.GetPage` | src/kernel/memory.c:158-173 | The first zero counter from start_page up becomes 1 and free_pages falls by one; it fails exactly when there is none or the assertion on free_pages fails |
| `MemoryManager.Memory.PutPage` | src/kernel/memory.c:176-198 | The counter falls by one, and free_pages rises exactly when it reaches zero; it fails exactly when an assertion does, and for a frame that a process gives up none does |
| `MemoryManager.Memory.GetPte` | src/kernel/memory.c:290-313 | get_pte with create: an absent table is allocated and empty; fails exactly when no frame is left |
| `MemoryManager.Memory.LinkPage` | src/kernel/memory.c:378-397 | The new state is that of Link (nothing if the page is present, else a fresh frame), success iff there are frames enough, the invariant kept |
| `MemoryManager.Memory.UnlinkPage` | src/kernel/memory.c:399-423 | The new state is that of Unlink, which removes one name and one count or nothing, the invariant kept |
| `MemoryManager.Memory.CopyTable` | src/kernel/memory.c:462-478 | The inner loop of copy_pde protects every private entry of a table and counts every page once; it fails only at a counter that reaches its limit |
| `MemoryManager.Memory.CopyPde` | src/kernel/memory.c:443-488 | The loop over the directory ends in a Forked state and succeeds if and only if CanFork held: a frame for each table, no counter at its limit |
| `MemoryManager.Memory.FreeTable` | src/kernel/memory.c:490-523 | The inner loop of free_pde takes one reference from each page of the table and keeps free_pages in step |
| `MemoryManager.Memory.FreePde` | src/kernel/memory.c:490-523 | The whole loop ends in an Exited state: exactly what the process held has lost one reference |
| `MemoryManager.Memory.WriteFaultAt` | src/kernel/memory.c:633-660 | The write-fault branch: a sole owner becomes writable in place, otherwise the entry moves to a copy; success iff CanFault, the invariant kept |
| `MemoryManager.Memory.PageFault` | src/kernel/memory.c:610-672 | Which faults are handled, which end the task and which panic, and the state after each |
| `MemoryManager.Memory.MmapPage` | src/kernel/memory.c:525-574 | One page of sys_mmap, mapped already or not: it fails exactly when link_page finds no frame, else the state of Mmap, and the invariant holds afterwards if and only if CanRemap did |
| `Remap.MmapKeepsInvIff` | src/kernel/memory.c:378-397 | link_page leaves a mapped page on its frame, and sys_mmap sets the bits all the same: the invariant is kept if and only if the page was not mapped, or nobody else names the frame, or the frame is shared memory already, or neither writing nor sharing is asked for |
| `Remap.ChildSeesRemappedStore` | src/kernel/memory.c:540-565 | After a fork the parent maps a private page again for writing and stores a byte: the child reads it, so the condition is needed in states that runs reach |
| `MemoryManager.Memory.UnlinkPages` | src/kernel/memory.c:576-594 | The loop of sys_munmap and sys_brk unlinks every page of the range, the invariant kept |
| `MemoryManager.Memory.SetBrk` | src/kernel/memory.c:674-706 | Refused, failed assertion and success told apart; on success the break is the one asked for, the end of the image, the page tables' directory and every other process are as they were, and the pages above the break are unlinked |
| `HeapBreak.RunBreaks` | src/kernel/memory.c:662-706 | Over every run from boot the break of a process is the one that its last sys_brk asked for, or its parent's at the fork, or the start of the image; a first touch is legal below it and in the stack, and nowhere else |
| `HeapBreak.BreakMoves` | src/kernel/memory.c:674-706 | After an accepted sys_brk the break is there, nothing else of the processes changed, and a page may be touched exactly if it lies between the image and the new break, or in the stack |
| `HeapBreak.BreakCuts` | src/kernel/memory.c:688-694 | A page is mapped afterwards exactly if it was and does not lie between the new break and the old one |
| `HeapBreak.GrownHeapIsThere` | src/kernel/memory.c:662-668 | The first fault on a page between the old break and the new one is one that page_fault handles, exactly while frames are left |
| `HeapBreak.CanLinkIff` | src/kernel/memory.c:378-397 | link_page of an unmapped page needs one free frame, and a second one exactly if the page table is missing |
| `HeapBreak.ForkKeepsBreak` | src/kernel/memory.c:443-488 | After a fork the child has the break of its parent and may touch what the parent may |
| `Remap.MmapPermits` | src/kernel/memory.c:547-559 | A page mapped for writing can be stored to at once, one mapped without can be neither stored to nor made writable by a fault; a page touched first can be stored to |
| `Bitmap.MaskIsPower` | src/lib/bitmap.c:29-37 | Bit k of a byte is that of weight 2^k: the lowest bit of the first byte is bit 0 of the map |
| `Bitmap.Test` | src/lib/bitmap.c:22-38 | The bit of an index, as a bit of the byte buffer |
| `Bitmap.Set` | src/lib/bitmap.c:40-60 | One bit takes the value and no other changes |
| `Bitmap.Scan` | src/lib/bitmap.c:64-106 | The first run of count clear bits is returned and set, no other bit changes; EOF exactly when there is no such run, with nothing changed |
| `Layout.FileOrderIff` | src/fs/bmap.c:137-176 | Blocks come in the order of their places in the tree, zone slots first, then the entries of the index blocks: b < c if and only if the place of b comes before that of c |
| `Layout.DirectZone` | src/fs/bmap.c:155-159 | The zones of the first seven blocks are the first seven of the inode |
| `Layout.IndirectZone` | src/fs/bmap.c:161-169 | Those of blocks 7 to 518 stand in the block in slot 7, two bytes each, the low one first |
| `Layout.DoubleZone` | src/fs/bmap.c:171-175 | Those of the others stand in the blocks that the block in slot 8 names, 512 in each |
| `Layout.WordBytes` | src/fs/bmap.c:140-183 | The two bytes of an entry, read and written; no other byte of the block changes |
| `Layout.ByteOnDisk` | src/fs/inode.c:229-250 | A byte of a file lies in the zone of its block, as far from its start as from the start of the block |
| `Layout.ZoneBit` | src/fs/bmap.c:17-26 | The bit of data zone k, counted from the first, is bit k + 1 of the bitmap |
| `Volume.BlockPathInjective` | src/fs/bmap.c:132-176 | No two block numbers lead to one place of the three-level tree |
| `Volume.BlockOfPath` | src/fs/bmap.c:132-176 | Every data position of the tree is that of a block number below TOTAL_BLOCK |
| `BlockMap.GrowKeeps` | src/fs/bmap.c:132-202 | bmap with create keeps every zone used and hung at most once over all inodes, moves no zone, adds zones only on the way to its block, changes no byte of any file, takes at most one zone per level (three), and leaves the block mapped |
| `BlockMap.GrowSucceeds` | src/fs/bmap.c:132-202 | With as many unused zones as levels bmap does not panic |
| `BlockMap.GrowIsIdempotent` | src/fs/bmap.c:132-202 | A later call finds the zone that create made, and allocates nothing |
| `BlockMap.AllocHangs` | src/fs/bmap.c:178-185 | One allocation hangs the first unused zone at one position of one file; every other position of every file keeps its zone |
| `BlockMap.FreeCanAlloc` | src/fs/bmap.c:8-37 | balloc succeeds when there is an unused zone |
| `BlockMap.IndexBlockIsCleanIffZero` | src/fs/bmap.c:178-196 | balloc clears nothing: a new index block brings no stray pointers exactly when the block it got reads as zero words |
| `FileData.WriteWrites` | src/fs/inode.c:267-325 | inode_write puts its bytes at their offset over direct, single and double indirect blocks, keeps every other byte of this and of every other file, makes the size max(old, offset + length), and keeps the volume sound |
| `FileData.ReadAfterWrite` | src/fs/inode.c:212-325 | inode_read of the range just written returns the bytes written, all of them |
| `FileRead.ReadIs` | src/fs/inode.c:212-263 | Every inode_read: EOF exactly at or behind the end of the file; a failed assertion exactly if a byte asked for, and before the end, has no zone; else as many bytes as asked for or as are left, and each is the byte of the file at its offset |
| `FileRead.ReadAfterRun` | src/fs/inode.c:212-325 | Any read after any run of writes to any files: the file ends where the old end or the furthest write left it, and each byte delivered is the one last written there |
| `FileRead.RunReaches` | src/fs/inode.c:267-325 | A run of writes leaves each file with that size, and with a zone for every byte that had one or was written |
| `FileRead.ReadAfterTruncate` | src/fs/inode.c:348-373 | A truncated file reads as empty at every offset, every other file as before |
| `FileData.WriteSucceeds` | src/fs/inode.c:267-325 | With three unused zones for every block touched, and the range below the largest offset, no assertion of inode_write fails |
| `FileData.RunIsLastWritten` | src/fs/inode.c:267-325 | Over every run of writes to any files each byte of each file is the one last written there, and no zone is lost or moved |
| `Truncation.UnderIsBelow` | src/fs/inode.c:327-345 | What inode_bfree reaches from a pointer are zones at or below that position of the file |
| `Truncation.FreeTreeClears` | src/fs/inode.c:327-345 | Recursive inode_bfree clears the bits of exactly the zones under its pointer, each once, and fails only for a zone past the bitmap block that bfree finds |
| `Truncation.TruncateClears` | src/fs/inode.c:348-373 | inode_truncate clears the bits of exactly the zones of the file, zeroes its nine slots and its size; it fails if and only if the file has a zone above BLOCK_BITS |
| `Truncation.FileZonesAreReached` | src/fs/inode.c:327-373 | Those zones are the data and index zones that the file reaches, no more and no fewer |
| `Truncation.TruncateKeepsInv` | src/fs/inode.c:348-373 | The volume stays sound: used and singly hung zones of every other file |
| `Truncation.TruncatedState` | src/fs/inode.c:348-373 | Every other file keeps every zone, the truncated one has none, and no other bit changes |
| `Truncation.TruncateFreeZeroIff` | src/fs/inode.c:348-373 | Free zones stay zero, as bmap needs them, exactly when the file held nothing but zeros: truncate clears bits, never blocks |
| `Truncation.TruncatedBlockComesBack` | src/fs/bmap.c:178-196 | A concrete volume on which a truncated data block becomes an index block and bmap returns a zone that was never allocated |
| `Truncation.HighZonePanics` | src/fs/bmap.c:39-70 | A sound volume with one bitmap block, its data zones from 3 on, and a file on zone 8193, on which inode_truncate panics |
| `ZoneMaps.BfreeClearsIff` | src/fs/bmap.c:39-70 | Over several bitmap blocks bfree of a used zone z clears its bit and no other if and only if (z - 1) % 8192 is at least firstdatazone - 2; for every other zone an assertion fails |
| `ZoneMaps.BfreeUndoesBallocIff` | src/fs/bmap.c:8-70 | bfree of the zone that balloc has just returned restores the bitmap under the same condition, and panics otherwise |
| `ZoneMaps.ZoneBits` | src/fs/bmap.c:17-26 | Counted through all bitmap blocks, the bit of the k-th data zone is k + 1; bit 0 belongs to none |
| `ZoneMaps.BallocTakes` | src/fs/bmap.c:8-37 | The zone that balloc returns was not taken, is taken afterwards, lies below the end of the volume, and no other bit changes |
| `ZoneMaps.SecondMapPanics` | src/fs/bmap.c:39-70 | Two bitmap blocks, data zones from 3 on: bfree of the used zone 8193 panics |
| `ZoneMaps.Zmaps.Free` | src/fs/bmap.c:39-70 | The loop over the ZMAP_NR buffers: the outcome of FreeZone, all bits kept when it fails |
| `ZoneMaps.Zmaps.Allocate` | src/fs/bmap.c:8-37 | The loop over the buffers: the first clear bit of the first block that has one, EOF when all are full, a failure at a missing buffer or past the end of the volume |
| `FileRun.MixedRunKeepsInv` | src/fs/inode.c:267-373 | Over every run of writes and truncates the volume stays sound, as long as each block that becomes an index block reads as zero words when it is taken |
| `FileRun.ZeroGrowIsClean` | src/fs/bmap.c:132-202 | While free zones are zero every index block that bmap hangs is such a block |
| `VolumeStore.Store.Balloc` | src/fs/bmap.c:8-37 | Over the bitmap in place: the first clear bit is set and its zone returned; fails exactly when there is none below the end of the volume |
| `VolumeStore.Store.Free` | src/fs/bmap.c:39-70 | The bit is cleared exactly when bfree's loop finds it and it was set |
| `VolumeStore.Store.Reckon` | src/fs/bmap.c:132-176 | The slot, level and divider with which the loop of bmap starts stand for the position of the block |
| `VolumeStore.Store.Entry` | src/fs/bmap.c:176-190 | One level of the loop: the entry of one array, allocated if missing and asked for |
| `VolumeStore.Store.Bmap` | src/fs/bmap.c:132-202 | The loop over index, block, divider and level returns the zone of the block; with create the state is that of Grow, without it nothing changes |
| `VolumeStore.Store.InodeRead` | src/fs/inode.c:212-264 | Every block through bread and brelse of the cache: the loop returns EOF, fails on a hole, or returns the bytes of the range, and changes no byte of the volume |
| `VolumeStore.Store.InodeWrite` | src/fs/inode.c:267-325 | Every block through the cache: the loop ends in the state of WriteAll with all bytes written, or fails exactly when WriteAll does |
| `VolumeStore.Store.InodeBfree` | src/fs/inode.c:327-345 | The recursive method ends in the state of FreeTree, or fails exactly when it does |
| `VolumeStore.Store.InodeTruncate` | src/fs/inode.c:348-373 | The loop over the slots ends in the state of Truncate, or fails exactly when it does |
| `BufferRun.EditsAreKeptIff` | src/kernel/buffer.c:153-211 | bwrite sleeps behind every sector it sends and clears dirty at its end. Over every run of getblk, read, edit, bwrite and brelse with those sleeps: however the run is broken off and ended without edits, the device of every buffer that is let go holds the last edit, if and only if no edit changes a sector that every write of the buffer under way has sent |
| `BufferRun.RunRefines` | src/kernel/buffer.c:104-211 | Over every such run "valid buffer, else device" is a flat disk that changes only by the edits; eviction and write-back never show |
| `BufferRun.UnsafeEditIsLost` | src/kernel/buffer.c:175-211 | For every other edit, the steps that end the run and lose it |
| `BufferRun.MeetingLosesEdit` | src/kernel/buffer.c:153-211 | A run of two tasks and a cache of one buffer: an edit between the first transfer and the end of a write, after which the block reads as it was before the edit |
| `BufferRun.BootInv` | src/kernel/buffer.c:213-228 | The cache as it is set up satisfies the invariant and shows the devices |
| `BufferRun.OneWriteIff` | src/kernel/buffer.c:175-184 | With one write under way, an edit of the whole block is kept exactly if the write has sent nothing yet |
| `BufferRun.ReadAfterRun` | src/kernel/buffer.c:153-172 | bread after a run without such an edit delivers the last edit of its block |
| `BufferRun.StepRefines` | src/kernel/buffer.c:130-211 | Each step, but for such an edit, keeps the structure invariant and is a step of the flat disk |
| `BufferView.GetblkKeepsInv` | src/kernel/buffer.c:30-150 | getblk, in all three ways of finding a buffer, keeps: one buffer per block, each in exactly its hash chain, on the free list exactly at count 0 and then clean, the list in order of release |
| `BufferView.GetblkKeepsView` | src/kernel/buffer.c:104-150 | Recycling a buffer changes no block: nothing of the victim is still to reach the device |
| `BufferCache.SectorBytes` | src/kernel/buffer.c:175-184 | A transfer writes the 512 bytes of its sector to the device, and no other |
| `BufferView.TransferKeepsInv` | src/kernel/buffer.c:175-184 | A sector that is sent is on the device, and the other sectors are as far from it as before |
| `BufferView.EndedKeepsInv` | src/kernel/buffer.c:180-184 | The end of a write clears dirty and loses nothing that was safe: what is still to be sent belongs to another write |
| `BufferView.DropKeepsInv` | src/kernel/buffer.c:199-211 | The end of brelse keeps the structure; a buffer whose count reaches 0 becomes the most recently released |
| `BufferView.VictimIsOldest` | src/kernel/buffer.c:115-123 | The recycled buffer is the one released longest ago |
| `BufferView.HeldStays` | src/kernel/buffer.c:130-150 | getblk leaves every held buffer its block, its data and its count |
| `BufferView.WaitsIff` | src/kernel/buffer.c:104-127 | The caller must sleep exactly when the pool is used up and every buffer is held for another block |
| `BufferView.QuietDisk` | src/kernel/buffer.c:187-211 | When nobody holds a buffer the devices hold the flat disk |
| `BufferRun.StepServes` | src/kernel/buffer.c:153-211 | Under the file layer: the blocks of one device behave as a sequence of blocks that edits update |
| `BufferStore.Buffers.GetFromHashTable` | src/kernel/buffer.c:30-58 | The search of one chain finds the buffer of the block if there is one, and takes it off the free list |
| `BufferStore.Buffers.GetFreeBuffer` | src/kernel/buffer.c:79-127 | A new buffer, or the last of the free list taken out of its chain, or none |
| `BufferStore.Buffers.GetBlock` | src/kernel/buffer.c:130-150 | The new state and the buffer are those of Getblk, the invariant kept |
| `BufferStore.Buffers.Bread` | src/kernel/buffer.c:153-172 | The buffer is valid, held, of that block, and holds what the flat disk holds; the flat disk is unchanged |
| `BufferStore.Buffers.PerformAll` | src/kernel/buffer.c:130-211 | The pieces of the operations, performed on the fields in the order of any run, end in the state of the run; the flat disk takes its edits |
| `BufferStore.Buffers.WriteBack` | src/kernel/buffer.c:175-184 | Undisturbed, bwrite brings a dirty buffer to its device sector by sector and leaves it clean; a clean one does nothing |
| `BufferStore.Buffers.ReleaseBlock` | src/kernel/buffer.c:187-211 | Undisturbed, brelse writes a dirty buffer back, lowers the count, and at zero puts the buffer in front of the free list |
| `BufferStore.Buffers.ReadBlock` | src/kernel/buffer.c:153-211 | bread and brelse by a caller that is alone: the block of the flat disk, which is unchanged |
| `BufferStore.Buffers.WriteBlock` | src/kernel/buffer.c:153-211 | bread, a change that sets dirty, and brelse: the flat disk with this block changed, and nobody holds a buffer |
| `ProcessChild.ForkMakesChild` | src/kernel/task.c:348-404 | The first empty slot, which lies behind idle and init, holds a ready copy of the forker that is its child and is not in waitpid; no other slot changes |
| `ProcessChild.ForkerCanWait` | src/kernel/task.c:348-458 | waitpid of the forker for the new child sleeps: the child is found, alive |
| `ProcessChild.OthersCannotWait` | src/kernel/task.c:410-458 | waitpid of any other task for it finds no child |
| `ProcessChild.ForkFailsIff` | src/kernel/task.c:37-53 | fork panics exactly when every slot is taken |
| `ProcessChild.StatusArrives` | src/kernel/task.c:410-458 | From the call of exit on, over every quiet run, whoever collects the task with waitpid is told the number that it gave |
| `ProcessChild.ExitHandsOver` | src/kernel/task.c:543-554 | At the end of task_exit the children of the dead task, and no others, become children of its parent |
| `ProcessChild.ParentCanWait` | src/kernel/task.c:543-567 | waitpid of the parent for such a child then collects it or sleeps |
| `ProcessRun.NoLostWakeup` | src/kernel/task.c:348-567 | Over every run of fork, exit in its pieces, waitpid, blocking and switching in which no schedule() falls between TASK_DIED and the end of task_exit: a waiting task has no dead child it waits for, a woken one finds a dead child when it scans, each exited task is returned at most once with its own status, and every task ever made was returned or is in the table |
| `ProcessRun.StepKeepsInv` | src/kernel/task.c:348-567 | Every step that does not call schedule() there keeps parents alive and older than their children, dead tasks childless, waiters justified, serials unique, a task in the middle of its exit counted as it was before |
| `ProcessExit.ClaimsHoldIff` | src/kernel/task.c:512-567 | For every run: the claims hold wherever it is broken off and however it goes on quietly, if and only if each dying task met an empty request list, a free lock, a ready port and nobody to hand the lock to |
| `ProcessExit.DyingPassesIff` | src/kernel/task.c:512-567 | The guards: a dying task goes on exactly past an empty request list, a free lock, a ready port and a lock that nobody waits for; at the last it yields, at the others it sleeps |
| `ProcessExit.TailBreaks` | src/kernel/task.c:512-567 | From any sound state, one dying task that meets another state of devices and locks has a continuation after which the claims are false |
| `ProcessExit.YieldStrandsParent` | src/kernel/mutex.c:40-65 | Whenever a dying task releases a lock that somebody waits for while its parent waits for it alone, the parent is stuck |
| `ProcessExit.StuckForEver` | src/kernel/task.c:410-458 | No step of any task, in any order, wakes a stuck parent or takes the dead child out of the table |
| `ProcessExit.ParentWaitsForEver` | src/kernel/task.c:512-583 | Such a run from the table of task_init, after which init sleeps in waitpid whatever follows |
| `ProcessExit.ChildIsNotSeen` | src/kernel/device.c:198-209 | A run from the table of task_init in which the child sleeps in device_request while it exits: init, woken by it, sees a child that is ready and sleeps again |
| `ProcessRun.EveryTaskDescendsFromIdle` | src/kernel/task.c:512-567 | The ppid links form a tree with task 0 at its root |
| `ProcessRun.WaitpidReturns` | src/kernel/task.c:410-458 | What waitpid returns is a child of the caller that matches, had exited with that status, and was not returned before |
| `ProcessRun.WaitpidFaultsIff` | src/kernel/task.c:410-458 | waitpid reads through a null pointer exactly when the caller has no matching child |
| `ProcessRun.ScanFinds` | src/kernel/task.c:417-439 | The scan returns the first dead match, else tells whether there is a living one |
| `ProcessRun.ExitStable` | src/kernel/task.c:512-567 | The whole of task_exit, with its reparenting and its wakeup of the parent, keeps all of the invariant when nothing comes between |
| `ProcessRun.FinishIsExit` | src/kernel/task.c:512-567 | The end of a task_exit that nothing interrupted, from the state with its children handed over on, comes to the whole of it done at once |
| `ProcessRun.ReapedKeeps` | src/kernel/task.c:430-457 | Freeing the slot of a reaped child keeps all of the invariant |
| `ProcessRun.BootedInv` | src/kernel/task.c:573-583 | The table that task_init leaves satisfies it |
| `ProcessTable.Tasks.FindFree` | src/kernel/task.c:37-53 | The first empty slot of the table, or its length |
| `ProcessTable.Tasks.ForkTask` | src/kernel/task.c:348-404 | The new table is that of Fork; it fails exactly for a full table |
| `ProcessTable.Tasks.Adoption` | src/kernel/task.c:543-554 | The loop gives the children of the dying task, and no others, to its parent |
| `ProcessTable.Tasks.Die` | src/kernel/task.c:520-521 | State and status set, and nothing else: the task is in its exit |
| `ProcessTable.Tasks.Finish` | src/kernel/task.c:543-564 | Children handed over, the parent woken if it waits for this task or for any |
| `ProcessTable.Tasks.ExitTask` | src/kernel/task.c:512-565 | Whatever devices, locks and ports it comes to: it reaches its end in the state of Exit if and only if each of them lets it through, else it stops on the way with the table of Die |
| `ProcessTable.Tasks.WaitRound` | src/kernel/task.c:415-457 | One round of the loop: the slot freed and the status returned, or the caller waiting, or a null pointer |
| `LockRun.LockIsSafe` | src/kernel/mutex.c:16-108 | Under every interleaving of any number of tasks, preempted wherever interrupts are on: no assertion fails, at most one task is inside, repeat is how deep, and while tasks wait the mutex is taken or a woken task is about to try |
| `LockRun.StepKeepsInv` | src/kernel/mutex.c:16-108 | Every step keeps one owner, holder and repeat in step with it, the waiters listed once, and the pending wakeup |
| `LockRun.SleepersAreServed` | src/kernel/mutex.c:16-65 | While a task sleeps on the mutex, its owner or a woken task has a step to make that waits for nobody |
| `LockRun.FirstAsleepFirstWoken` | src/kernel/mutex.c:40-65 | mutex_unlock takes the task that has slept longest, and leaves the others in their order |
| `LockObject.LockT.LockAcquire` | src/kernel/mutex.c:74-89 | The whole call over the list of waiters, other tasks running by any schedule wherever it sleeps or may be preempted, is a run of the protocol; it ends with the caller inside once more, holder and repeat saying so, or asleep on the list |
| `LockObject.LockT.LockRelease` | src/kernel/mutex.c:91-108 | The whole call, other tasks running between its writes, is a run of the protocol; its assertions hold and the caller is inside once less |
| `LockObject.LockT.MutexLock` | src/kernel/mutex.c:16-38 | The loop: the caller is on the list of waiters each time it sleeps, and has the mutex when the loop ends |
| `LockObject.LockT.Block` | src/kernel/mutex.c:24-29 | The caller goes to the front of the waiters, with both links set |
| `LockObject.LockT.MutexUnlock` | src/kernel/mutex.c:40-65 | The task whose node is in front of the tail is taken off the list and made ready; null when nobody waits |
| `LockObject.LockT.Others` | src/kernel/mutex.c:16-108 | Other tasks leave a task where it stands, or wake it |
| `LinkedList.List.constructor` | src/lib/list.c:5-11 | Two sentinels linked to each other: the empty list |
| `LinkedList.List.InsertBefore` | src/lib/list.c:13-20 | The four pointer writes insert the node before its anchor, all links in both directions kept |
| `LinkedList.List.InsertAfter` | src/lib/list.c:22-29 | The same behind an anchor |
| `LinkedList.List.Remove` | src/lib/list.c:74-83 | The node is out, its neighbours linked, its own links null |
| `LinkedList.List.Push` | src/lib/list.c:31-35 | In front of all others |
| `LinkedList.List.PushBack` | src/lib/list.c:46-50 | Behind all others |
| `LinkedList.List.Pop` | src/lib/list.c:37-44 | The first node, taken out |
| `LinkedList.List.PopBack` | src/lib/list.c:52-60 | The last node, taken out |
| `LinkedList.List.Search` | src/lib/list.c:62-73 | Whether the list holds the node |
| `LinkedList.List.Size` | src/lib/list.c:90-101 | The number of nodes between the sentinels |
| `LinkedList.List.InsertSort` | src/lib/list.c:103-124 | The node goes before the first larger key |
| `LinkedList.PlaceSorts` | src/lib/list.c:103-124 | That place keeps a sorted list sorted and is behind all equal keys |
| `SleepRun.WakesOnTimeIff` | src/kernel/task.c:285-324 | Against a clock that does not wrap round, for every run of sleeps and clock interrupts: wherever it is broken off all later interrupts wake exactly those whose time has come, if and only if no sleep went past the next multiple of 2^32 or to the other side of 2^31 from a pending one |
| `SleepRun.RunWakesOnTime` | src/kernel/task.c:285-324 | Over such runs every interrupt is on time, and at the end the list holds, each once, exactly the sleepers of the run whose time is not over: nobody was woken early or slept on |
| `SleepRun.StepKeepsGood` | src/kernel/clock.c:48-56 | A safe sleep and any interrupt keep the list sorted and its times in one half of the span the clock is in |
| `SleepRun.UnsafeSleepFails` | src/kernel/task.c:285-302 | After any sleep that is not safe the interrupts alone come to one that wakes too early or too late |
| `SleepRun.EarlySleeperIsWoken` | src/kernel/task.c:293-313 | A sleep of eight jiffies, three before the clock wraps round, ends at the next interrupt |
| `SleepRun.LateSleeperSleepsOn` | src/kernel/task.c:293-313 | Two sleeps just before 2^31: at the time of the first nobody is woken |
| `SleepRun.Sleep` | src/kernel/task.c:285-302 | The linked list and the 32-bit clock go on showing the queue of the unbounded clock, into which the sleeper is put |
| `SleepRun.Tick` | src/kernel/clock.c:48-56 | task_wakeup and jiffies++ on the linked list are one interrupt of the queue, and the tasks woken are its front |
| `SleepQueue.TicksFit` | src/kernel/task.c:289-290 | A sleep lasts as many whole jiffies as fit into its milliseconds, and one if none does |
| `SleepQueue.WakeupIsRightIff` | src/kernel/task.c:304-324 | One sorted list, in 32 bits: at every value of jiffies task_wakeup stops behind exactly the keys that are not above it as unsigned numbers, if and only if all keys have one sign |
| `SleepQueue.LateSleeperIsMissed` | src/kernel/task.c:285-324 | Two sleeps just before 2^31 jiffies: the second goes in front of the first, which is due one jiffy later and not woken |
| `SleepQueue.Sleepers.Sleep` | src/kernel/task.c:285-302 | The deadline is now plus at least one jiffy, and the task is inserted behind all sleepers with no later deadline; the list stays sorted and linked |
| `SleepQueue.Sleepers.Wakeup` | src/kernel/task.c:304-324 | Exactly the leading sleepers whose deadline has passed are taken off and their links cleared; the others keep their order and deadlines |
| `Elevator.OneAtATime` | src/kernel/device.c:173-225 | Any task that is not blocked may complete its request. Over every run of arrivals and completions, of a non-empty list exactly one request has a task that is not blocked, the task to unblock next sleeps, the list is sorted, and what came was executed or is still listed |
| `Elevator.NextIsWoken` | src/kernel/device.c:140-225 | Before a completion the task of the request that request_nextreq names is asleep, and afterwards it is the only one awake; there is one iff the list held more than one |
| `Elevator.ArriveKeeps` | src/kernel/device.c:198-215 | An arrival leaves the list sorted, and the one request that was awake the only one |
| `Elevator.DrainIsSweep` | src/kernel/device.c:140-225 | Without arrivals every run executes the requests in one sweep in the current direction and then one back, one in each step, to the end |
| `Elevator.ServedIsSweep` | src/kernel/device.c:140-169 | The order in which each request names the next is that sweep |
| `Elevator.ServedIsAll` | src/kernel/device.c:140-225 | It executes each request once |
| `Elevator.Device.InsertSort` | src/kernel/device.c:204-206 | The request goes behind all of no larger sector |
| `Elevator.Device.Submit` | src/kernel/device.c:198-215 | The state of Arrive; the caller runs at once exactly when the list was empty |
| `Elevator.Device.NextRequest` | src/kernel/device.c:140-169 | The neighbour in the direction, which turns at an end of the list; none at an end |
| `Elevator.Device.Finish` | src/kernel/device.c:217-224 | The state of Complete; it fails exactly when the next request has no task that sleeps |
| `Fifo.Ring.Full` | src/lib/fifo.c:17-21 | Full exactly when all cells but one hold bytes |
| `Fifo.Ring.Get` | src/lib/fifo.c:28-35 | The oldest byte, taken off the front of the contents |
| `Fifo.Ring.Put` | src/lib/fifo.c:37-45 | The byte behind the contents, the oldest discarded if the ring was full |
| `PipeStream.PipeIsAStream` | src/fs/pipe.c:13-55 | With one reader and one writer, under any scheduling: the bytes read are a prefix of the bytes written, at most length - 1 are in flight, no assertion fails, fifo_put discards nothing |
| `PipeStream.NeverBothBlockedIff` | src/fs/pipe.c:13-55 | Both sides can be blocked at once if and only if the buffer has a single cell |
| `PipeStream.OneCellDeadlocks` | src/fs/pipe.c:13-55 | A run in which, with one cell, they are |
| `PipeStream.TransferDelivers` | src/fs/pipe.c:13-55 | A matched transfer takes at most a bounded number of rounds under any scheduling, and stops only with every byte delivered |
| `PipeStream.StepsEnd` | src/fs/pipe.c:13-55 | Every round makes the work left smaller |
| `PipeObject.Channel.ReadRound` | src/fs/pipe.c:17-31 | One round of pipe_read over the ring and the waiter fields is the reader's step |
| `PipeObject.Channel.WriteRound` | src/fs/pipe.c:39-53 | One round of pipe_write is the writer's step |
| `ArenaInvariant.ArenaIsSafe` | src/kernel/arena.c:40-134 | Over every run of kmalloc and kfree no two live blocks share a byte, none touches a header, a page is owned exactly while a block of it is held, and when all is freed no arena and no listed block is left |
| `ArenaInvariant.StepKeepsInv` | src/kernel/arena.c:40-134 | Every step keeps: a free list holds the blocks of its class that nobody holds, each once; count is their number per page; live blocks are as large as asked; pages apart |
| `ArenaInvariant.LiveBlocksAreDisjoint` | src/kernel/arena.c:26-38 | By addresses: a byte of a live block belongs to no other and to no header |
| `ArenaInvariant.PageIsHeldIff` | src/kernel/arena.c:117-133 | A page belongs to the allocator if and only if somebody holds a block in it |
| `ArenaInvariant.MallocGives` | src/kernel/arena.c:40-101 | The block handed out was not in use, and is recorded for the size asked |
| `ArenaInvariant.GiveBackKeepsInv` | src/kernel/arena.c:123-133 | When the last block of a page is freed all its blocks leave the list with it |
| `Arena.SizesDouble` | src/kernel/arena.c:11-22 | The block sizes double from 16 to 1024, and a page holds as many blocks as fit behind its header |
| `Arena.PagesAreEnoughIff` | src/kernel/arena.c:47-53 | Sizes from 2^32 - 4111 to 2^32 - 16 ask for no page, and alloc_kpage asserts; of the others, those from 2^32 - 15 up get one page, and all smaller ones get pages that hold block and header |
| `Arena.TopSizes` | src/kernel/arena.c:47-53 | The edges of these ranges |
| `ArenaInvariant.MallocLargeIsSoundIff` | src/kernel/arena.c:47-62 | A large request that is served leaves a sound heap if and only if it is below 2^32 - 15 |
| `Arena.MaskFindsArena` | src/kernel/arena.c:35-38 | Masking the address of a live block finds its arena |
| `ArenaStore.Arenas.FindClass` | src/kernel/arena.c:64-69 | The smallest class that fits |
| `ArenaStore.Arenas.CarvePage` | src/kernel/arena.c:73-93 | All blocks of a new page, pushed one by one onto the free list |
| `ArenaStore.Arenas.Kmalloc` | src/kernel/arena.c:40-101 | For every 32-bit size: it fails exactly when alloc_kpage asserts; else the state of Malloc, the address of a block not in use, and the invariant holds afterwards if and only if the sum with the header did not wrap round |
| `ArenaStore.Arenas.Reclaim` | src/kernel/arena.c:123-133 | The loop takes exactly the blocks of the page off their list; it fails exactly when one of them is not there |
| `ArenaStore.Arenas.Kfree` | src/kernel/arena.c:103-134 | From the address alone: the state of Free, the invariant kept, no assertion failing |
| `Printer.PrintedLength` | src/lib/vsprintf.c:32-138 | number writes max(width, sign + prefix + max(precision, digits)) characters |
| `Printer.BodyEvaluates` | src/lib/vsprintf.c:79-134 | The digits shown, padding zeros included, evaluate to the number in its base |
| `Printer.ThirtyTwoDigits` | src/lib/vsprintf.c:79-90 | At most 32 digits, so that tmp holds them |
| `PrinterLaws.WidthPads` | src/lib/vsprintf.c:98-135 | A width fills up with blanks behind the text for LEFT, else with zeros between sign or prefix and the digits for ZEROPAD, else with blanks in front, and changes no other character |
| `PrinterLaws.SignPrepends` | src/lib/vsprintf.c:56-67 | Without a width PLUS puts + in front of everything, and SPACE a blank unless PLUS is given |
| `PrinterLaws.SpecialPrepends` | src/lib/vsprintf.c:108-118 | SPECIAL puts 0x or 0X, after the case of the digits, in front of base 16, 0 in front of base 8, and nothing in front of the others |
| `PrinterLaws.DigitsAlone` | src/lib/vsprintf.c:78-131 | With none of these flags there are digits alone: in the case that SMALL asks for, worth the number, as many as the precision asks for, with no needless zero |
| `Printer.Number` | src/lib/vsprintf.c:32-138 | The loops with size, precision and tmp write exactly blanks, sign, prefix, zeros, digits, blanks as the flags, SIGN included, say; a null result exactly for a base outside 2 to 36 |
| `Printer.Divide` | src/lib/vsprintf.c:79-90 | The division loop fills tmp with the digits, lowest first, inside its 36 characters |
| `Printer.SkipAtoi` | src/lib/vsprintf.c:16-22 | The value of the leading digits and their number; fails exactly from 2147483600 up, where the sum from which the code of 0 is still to be subtracted overflows an int |
| `Printer.ParserUndoesPrinter` | src/lib/vsprintf.c:16-138 | skip_atoi reads back every plainly printed number, and stops behind it |
| `Printer.SignedPrintsIff` | src/lib/vsprintf.c:59-134 | %d: whatever width, precision and flags, the text reads as the signed argument if and only if its unsigned image is below 2^31 |
| `Printer.DecimalReads` | src/lib/vsprintf.c:32-138 | It always reads as the unsigned number |
| `Printer.MinusOneIsLost` | src/lib/vsprintf.c:59-134 | %d of -1 reads as 4294967295 |
| `PathText.ResolveJoins` | src/fs/namei.c:615-682 | Applying x and then y is applying x/y, for relative y and an x that does not end in a separator |
| `PathText.ResolveAppends` | src/fs/namei.c:615-682 | The same for an x written with a final separator |
| `PathLaws.ResolveName` | src/fs/namei.c:654-675 | A name goes on top of the stack |
| `PathLaws.ResolveDots` | src/fs/namei.c:641-682 | .. takes the top off and leaves the root as it is; . and the empty path leave everything |
| `PathLaws.ParentUndoesName` | src/fs/namei.c:641-682 | x and then .., or x/.., leads back to where it started |
| `PathLaws.ResolveAbsolute` | src/fs/namei.c:619-624 | A leading separator starts at the root, whatever the current directory is |
| `PathLaws.TextOfName` | src/fs/namei.c:654-675 | On the text: the name and a slash are written behind it |
| `PathLaws.TextOfParent` | src/fs/namei.c:645-682 | On the text: .. leaves it up to its last separator but one, and the root as it is |
| `PathText.WalkKeepsCanonical` | src/fs/namei.c:615-682 | A path without empty names leaves only real names: none empty, "." or ".." |
| `PathText.RenderInjective` | src/fs/namei.c:615-682 | The text of the current directory determines the stack of names |
| `PathBuffer.AbsPath` | src/fs/namei.c:615-682 | Rewriting the buffer in place turns the text of a stack into the text of the stack that the path leads to, "." skipped, ".." popping but not past the root |
| `PathBuffer.Pop` | src/fs/namei.c:645-653 | ".." in the text: the last name goes, the root stays |
| `PathBuffer.Strrsep` | src/lib/string.c:182-197 | The last separator of a text in a buffer |
| `PathBuffer.Strsep` | src/lib/string.c:165-179 | The first separator of a text |
| `Directory.MatchName` | src/fs/namei.c:36-55 | Whether a path starts with this name as a whole component, and where it goes on |
| `Directory.DirectoryIsAMap` | src/fs/namei.c:58-161 | Over every run of links and unlinks of names of 1 to 13 characters the slots answer every lookup as a finite map does |
| `Directory.InsertBinds` | src/fs/namei.c:111-161 | Binding an absent name keeps every other binding, reuses the first free slot, and grows the directory by one slot only when none is free |
| `Directory.DeleteUnbinds` | src/fs/namei.c:485-540 | Clearing the inode number unbinds one name and keeps every other binding |
| `Directory.FoundAgainIff` | src/fs/namei.c:111-161 | A name just added is found again if and only if it has fewer than 14 characters: longer ones are cut |
| `Directory.FourteenIsLost` | src/fs/namei.c:111-161 | A name of fourteen characters put into an empty directory: it is not found, its first thirteen characters are |
| `PathWalk.Dir.FindEntry` | src/fs/namei.c:58-109 | The first live entry of the first name of the path, and the rest of the path |
| `PathWalk.Dir.AddEntry` | src/fs/namei.c:111-161 | The entry of the name if there is one, else the first free slot, dead as yet |
| `PathWalk.Dir.LinkName` | src/fs/namei.c:465-480 | sys_link's entry update refuses a bound name and binds an absent one |
| `PathWalk.Dir.UnlinkName` | src/fs/namei.c:504-528 | sys_unlink's entry update unbinds the name, and tells whether it was bound |
| `PathWalk.Named` | src/fs/namei.c:164-223 | The loop over the path returns the directory reached by all names but the last, and the last name |
| `PathWalk.Namei` | src/fs/namei.c:225-249 | The fold of the lookups over the names of the path |
| `PathReach.ReachName` | src/fs/namei.c:164-249 | A relative path of one name is looked up in the current directory |
| `PathReach.ReachAbsolute` | src/fs/namei.c:169-174 | A path with a leading separator does not depend on the current directory, and is what follows, walked from the root |
| `PathReach.ReachChild` | src/fs/namei.c:164-249 | x/y for one name y: nothing unless x leads to a directory that may be searched, else the entry y of it |
| `PathReach.ReachSlash` | src/fs/namei.c:225-233 | x/ is what x leads to if that is a directory that may be searched; the empty path is nothing |
| `PathWalk.ReachJoins` | src/fs/namei.c:164-249 | Walking x/y is walking x and then y from there, for an x that does not end in a separator and a y that does not start with one |

## Left out

- CopyOnWrite.StepRefines: the content of a frame that link_page hands out is whatever the frame's bytes were; bytes that a page table left in a reused frame are not modelled, a freshly touched page may hold anything on both machines.
- CopyOnWrite.RunObserves: the runs map only pages that are not mapped; what mapping a page again does is Remap.MmapKeepsInvIff and Remap.ChildSeesRemappedStore. Console output inside memory.c (DEBUG, which writes to the serial port) is taken not to block, so that fork, exit and each page fault are one step.
- MemoryManager.Memory.WriteFaultAt: one step, for the same reason; a sleep in the DEBUG of get_page between the test of the counter and its decrement is not modelled.
- MemoryManager.Memory.MmapPage: the window test of sys_mmap, its file read and the search of the process's own page bitmap are not modelled.
- MemoryManager.Memory.PageFault: user-mode faults only; supervisor writes pass over write protection because only the paging bit of CR0 is set.
- Paging does not have the self-map slot of a directory, TLB flushes, the privilege bits, the temporary mapping that copy_page uses, or load_segment.
- FileData.WriteWrites: modes, times and the dirty flags of the inode's own buffer are not modelled; `assert(ISFILE)` and `assert(ISDIR)` are taken to hold.
- Volume: sizes are unbounded numbers below the largest offset of a file; new_inode's zone array, which is not cleared by the source, is part of the invariant (a slot that is not 0 names a used zone).
- BufferRun.RunRefines: the transfers of different writes may interleave in any way, also in ways that the request queue of the device rules out; a read fills its buffer in one step, while it is not valid and nobody can edit or write it.
- VolumeStore.Store.InodeWrite: no other task uses the cache meanwhile; the inode's own buffer and the order in which bmap holds two index blocks at once are not modelled, and the zone bitmap is in memory.
- VolumeStore.Store.Balloc: one bitmap block; the loop over several is ZoneMaps.Zmaps.Allocate.
- VolumeStore.Store.Free: one bitmap block; the loop over several is ZoneMaps.Zmaps.Free.
- FileRun.MixedRunKeepsInv: soundness only; the bytes of a run that reuses truncated zones are not stated, because a hole in a reused block shows its old bytes.
- BufferStore.Buffers.GetFreeBuffer: the sleep for a free buffer is a result, and what a caller does after waking, without a second look into the hash table, is not modelled.
- BufferStore.Buffers.ReleaseBlock: the wakeup of one waiting task is not modelled.
- BufferCache gives a buffer that was never filled zeros for data; nothing observes them.
- ProcessRun.NoLostWakeup: stated for runs without a schedule() between TASK_DIED and the end of task_exit; ProcessExit.ClaimsHoldIff says that it fails in all others. Task 0 neither forks, waits nor exits. Which ready task schedule() prefers is left open.
- ProcessExit.ChildIsNotSeen: a task that was made ready again after its exit is an ordinary task from then on; what the processor does with it behind its last schedule(), with its page directory freed, is not modelled.
- ProcessTable.Tasks.ExitTask: what is closed and printed on the way is a sequence of devices, locks and ports, each with the state it is found in; the pages, files and inodes given back are not part of the table.
- SleepRun.WakesOnTimeIff: task_wakeup is called by the clock interrupt alone, as in the source; no interrupt is lost.
- ProcessTable.Tasks.ForkTask: page directory, page bitmap, working directory and file references of the child are not part of this table.
- LockRun.LockIsSafe: lock_release by a task that does not hold the lock is excluded, as the source's assertion does; a woken task may find the mutex taken again and sleep again, and no bound on that is stated.
- LockObject.LockT.LockAcquire: what the other tasks do is a finite schedule; when it ends before the caller is woken the call ends asleep.
- LinkedList.List.InsertSort: the key is a field of the node; the source reads it through an offset.
- Elevator.OneAtATime: sectors compare as unbounded numbers; list_insert_sort compares them as int, so sectors from 2^31 on are not modelled. No bound on waiting is stated while requests keep arriving.
- PipeStream.PipeIsAStream: one reader and one writer; a second reader runs into the assertion on rxwaiter. Closing a side is not modelled.
- ArenaInvariant.ArenaIsSafe: alloc_kpage is a parameter that returns pages no arena owns; the sizes at which it asserts are no steps of a run, and those from 2^32 - 15 up, which get a short block, are the subject of ArenaInvariant.MallocLargeIsSoundIff.
- Printer.Number: flags are named fields instead of bits; vsprintf around it is not modelled.
- Printer.SkipAtoi: an int overflow, undefined in C and reached from 2147483600 up, is the failing result.
- PathBuffer.AbsPath: the buffer must have room, which the source does not test; the separators that the source overwrites with '/' in the caller's path are not modelled.
- PathWalk.Named: mount points, reference counts of inodes and buffers, and permission beyond "may be searched" are not modelled; the start must be a directory.
- Directory: the split of slots over blocks is not modelled; 64 slots fill a block exactly.
- Inode allocation, mkfs, mount, the device drivers, the ELF loader, the calendar, the console and the shell are outside the project: hardware, plumbing, or easy members.
