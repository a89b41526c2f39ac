# xv6 for RISC-V: models and proofs

This project models the hard parts of the xv6 kernel and of three of its user programs in Dafny, and
proves what the code promises about them. `dafny verify dfyconfig.toml` checks all of it.

**Crash-safe storage.** `Disk` and `RedoLog` treat the disk as an array of blocks with atomic block
writes; a crash keeps any prefix of the writes issued. `RedoLog` proves that commit is all or nothing
at every crash point, with any number of crashes inside recovery. `LogDevice` is the log as a class
whose methods issue exactly the writes that those theorems speak of. `LogMachine` interleaves
operations, single disk writes and crashes. `LogBudget` proves what begin_op's reservation is worth,
and exactly when. `BufferCache` is the cache with its ring of buffers updated in place, and
`CacheMachine` shows cache, log and disk to be one array of blocks. `FsImage` and `FileSystem` prove
block ownership and file contents for the bitmap, the block map, reading, writing and truncation;
`Mkfs` proves that the image mkfs builds is a valid start; `InodeTable` is the inode cache with the
race between freeing and reallocating an inode.

**Processes and synchronisation.** `SleepWakeup` is the sleep/wakeup protocol at the level of single
lock operations, for one lock over data of any kind; `Disciplined` is what it asks of its users, and no
wakeup is lost. `SleepLocks`, `WaitExit`, `LogAdmission` and `PipeProtocol` are the programs that use
it, each shown to obey and each with its own result. `PipeBuffer` is the pipe's ring buffer.
`Scheduling` is the scheduler, sched, the process states and the spinlocks for any number of CPUs,
with p->lock handed over across swtch.

**Virtual memory.** `PageTable` has the theory of three-level page tables as finite maps and of what
every physical page is used for; `UserPages` and `AddressSpaces` build on it for user memory and for
whole address spaces. `VirtualMemory` has the operations of kernel/vm.c and the memory side of fork,
with every failure path, and `UserCopy` the copies between kernel and user memory.

**Disk driver.** `VirtioRing` has the descriptor table and rings shared with a device that completes
requests in any order; `VirtioDisk` has the driver's operations and the device's steps.

**User programs.** `FreeList` and `Umalloc` are the allocator; `ShellGrammar`, `ShellParser`,
`ShellRoundTrip` and `ShellTokens` the shell's parser; `Matcher` and `Grep` the pattern matcher and
grep's line loop, both over the C strings of `CStrings`.

Code that updates state in place is a class with methods proved against specification functions; code
whose point is interleaving is a transition system with a theorem over all runs. Memory is sequentially
consistent. Panics are results, or end the run where the text says so.

## Code and documentation

- mkfs sets `nlog = LOGSIZE` (mkfs/mkfs.c:25) while the log needs a header block besides LOGSIZE slots;
  the model follows the code, and `LogBudget.FirstWritesSafeIff` states the exact consequence.
- log_write's size test comes before absorption (kernel/log.c:220), so a full log refuses even a block
  it holds; the model follows the code (`LogBudget.FullLogRefusesAbsorption`).
- All buffers start as block 0 of device 0, so "one buffer per block" fails for that block and, as
  `BufferCache.BootDuplicatesIff` and the cache's invariant say, for no other (kernel/bio.c:36-67).
- pipewrite returns without a wakeup when its process was killed (kernel/pipe.c:84-87), although it may
  have stored bytes: `PipeProtocol.KilledWriterHushes` is a run in which a reader sleeps on beside them,
  and `PipeProtocol.SleepersStuck` with `PipeProtocol.HushedIff` says exactly when that is so.
- writei releases a buffer unlogged when a user copy fails part-way (kernel/fs.c:522-525): the bytes
  copied so far show in the cached file (`FileSystem.FileSystem.Writei`) and may vanish with the buffer
  (`CacheMachine.StrayIsLost`). `CacheMachine` says exactly for which blocks cache, log and disk then
  disagree with what was last released.
- malloc hands sbrk a byte count through an int (user/umalloc.c:54): `Umalloc.Allocator.Malloc` says exactly
  when that count is wrong.

## Model

| member | source | states |
|---|---|---|
| Disk.WordAfterSet | kernel/log.c:102-114 | storing a 32-bit word in a block and loading it gives it back and leaves every other word of the block alone |
| Disk.ApplyDistinct | kernel/log.c:68-83 | after a sequence of writes to different blocks each block holds what was written to it |
| RedoLog.HeaderRoundTrip | kernel/log.c:86-114 | the header that write_head stores is the one that read_head loads, whatever the block held before |
| RedoLog.BeforeCommitPoint | kernel/log.c:178-203 | a crash after any number of write_log's copies recovers to the old home blocks |
| RedoLog.AfterCommitPoint | kernel/log.c:193-203 | once the header is on disk the rest of a commit is, write for write, what recovery would do, and the durable state is the new one |
| RedoLog.CommitAtomic | kernel/log.c:178-203 | a crash after any k writes of a commit recovers to all old or all new home blocks, and to the old ones exactly when the first header write is not among the k |
| RedoLog.RecoveryPrefix | kernel/log.c:116-123 | a crash after any number of recovery writes leaves a disk that recovers to the same home blocks |
| RedoLog.AfterReboots | kernel/log.c:116-123 | any number of reboots that crash inside recovery, at any points, change nothing that is durable |
| RedoLog.RecoveryFinished | kernel/log.c:116-123 | a finished recovery leaves an empty log and the durable contents |
| RedoLog.CrashDuringCommit | kernel/log.c:68-123 | a crash anywhere in a commit, then any number of crashes inside recovery, then one full recovery: all home blocks old or all new, and the log empty |
| LogDevice.Log.WriteLog | kernel/log.c:178-191 | issues exactly the copies of the pinned blocks into the log region, in header order |
| LogDevice.Log.WriteHead | kernel/log.c:102-114 | one write: the header block, encoding the in-memory header |
| LogDevice.Log.InstallOne | kernel/log.c:73-81 | one block goes from its log slot to its home, and is unpinned unless recovering |
| LogDevice.Log.InstallTrans | kernel/log.c:68-83 | every logged block goes from its log slot to its home, in order, and nothing stays pinned |
| LogDevice.Log.ReadHead | kernel/log.c:86-97 | the in-memory header becomes the one on disk |
| LogDevice.Log.RecoverFromLog | kernel/log.c:116-123 | issues exactly the recovery writes that the crash theorems speak of, and leaves the recovered disk and an empty log |
| LogDevice.Log.Commit | kernel/log.c:193-203 | issues exactly the commit writes that the crash theorems speak of, in that order; an empty log writes nothing |
| LogDevice.Log.TryBeginOp | kernel/log.c:129-141 | an operation is admitted exactly when no commit is running and its reservation fits |
| LogDevice.Log.EndOp | kernel/log.c:146-175 | the last operation commits everything logged so far, any other writes nothing; it panics exactly while a commit is under way, and then changes only the count |
| LogDevice.Log.LogWrite | kernel/log.c:214-235 | panics exactly when the header is full or no operation is open, and otherwise absorbs or appends the block and pins its contents |
| LogMachine.DurableIsReplay | kernel/log.c:126-235 | in every invariant state the recoverable disk is the replay of all operations up to the durable point, which is no earlier than the last finished commit |
| LogMachine.StepKeeps | kernel/log.c:126-235 | begin_op, log_write, end_op, each single disk write of a commit or recovery, and a crash keep the invariant |
| LogMachine.LastQuiet | kernel/log.c:146-175 | in every run there is such a moment without open operations for the history of the last finished commit, and for the whole history while a commit is under way |
| LogMachine.CrashConsistent | kernel/log.c:126-235 | in every interleaving with crashes, whatever the operations log, recovery at any moment i gives the file system exactly as processes saw it (disk under pinned buffers) at some moment j <= i with no operation open, the start or the end of an end_op; j covers at least what the last finished commit covered, and no operation is split |
| LogBudget.AdmissionBoundsLog | kernel/log.c:126-142 | in every run whose operations keep to MAXOPBLOCKS, logged blocks and what the open operations may still add fit in LOGSIZE entries together |
| LogBudget.FirstWritesSafeIff | mkfs/mkfs.c:25 | in all runs whose operations keep to MAXOPBLOCKS, first-time writes never hit the log-full panic if and only if the log region has more than LOGSIZE blocks, so the LOGSIZE blocks that mkfs lays out are one short |
| LogBudget.FillLog | kernel/log.c:220-221 | a run within budget that fills the header to any given number of entries |
| LogBudget.AbsorptionPanicsIff | kernel/log.c:220-230 | in every run state, re-logging a block that the header holds panics if and only if the header has LOGSIZE entries or fills the log region |
| LogBudget.FullLogRefusesAbsorption | kernel/log.c:220-230 | whatever the size of the log region, a run within budget reaches a state in which re-logging a logged block panics for every open operation |
| BufferCache.LinkFront | kernel/bio.c:47-51 | the four stores put a buffer right behind the head of a well-formed ring and give a well-formed ring |
| BufferCache.Unlink | kernel/bio.c:128-129 | the two stores take a buffer out of a well-formed ring and give a well-formed ring |
| BufferCache.MoveToFront | kernel/bio.c:126-133 | moving the buffer released now to the front keeps the ring in order of last release |
| BufferCache.BootDuplicatesIff | kernel/bio.c:36-53 | the exception is exact: at boot a block has two buffers if and only if it is block 0 of device 0 |
| BufferCache.Bcache.constructor | kernel/bio.c:36-53 | the ring holds all buffers, each as block 0 of device 0 |
| BufferCache.Bcache.LinkIn | kernel/bio.c:46-52 | the list order gains the buffer at its front and stays one ring |
| BufferCache.Bcache.LinkOut | kernel/bio.c:128-129 | the list order loses exactly that buffer and stays one ring |
| BufferCache.Bcache.Bget | kernel/bio.c:58-89 | a hit is the one buffer that holds the block; otherwise the victim is the unreferenced buffer released longest ago, and the panic means that every buffer is referenced; every block but block 0 of device 0 keeps at most one buffer |
| BufferCache.Bcache.Brelse | kernel/bio.c:116-137 | the last reference makes the buffer the most recently released one |
| BufferCache.Bcache.Bpin | kernel/bio.c:139-144 | one reference more, cache and ring intact |
| BufferCache.Bcache.Bunpin | kernel/bio.c:146-151 | one reference less, cache and ring intact |
| CacheMachine.StepKeeps | kernel/bio.c:58-151 | bget, bread, changes, log_write, bwrite, bunpin, both halves of brelse and recycling keep cache, log and disk in agreement with one array of blocks |
| CacheMachine.BreadReturnsLastReleased | kernel/bio.c:91-103 | in every run bread returns the contents last released for its block, except exactly when it reads from disk a block whose last release left a change neither logged nor written |
| CacheMachine.DirtyIsPinned | kernel/log.c:214-235 | in every run an unlocked buffer that differs from the disk is in the log, except exactly when its last release left an unlogged change; what is in the log is referenced, so it cannot be recycled |
| CacheMachine.ArrayIsDiskPlusLog | kernel/log.c:178-235 | in every run the array of blocks is the disk overlaid with the logged buffers, at every block except exactly the unlogged ones whose last release left a change |
| CacheMachine.StrayIff | kernel/bio.c:117-135 | in every run those excepted blocks are exactly the ones for which the last step that logged, wrote or released them was a release of a change, neither logged nor written, from what the disk holds |
| CacheMachine.StrayIsLost | kernel/bio.c:58-151 | the exception is real: on any disk, any change of a block released unlogged can be gone after a recycling, and bread then returns the old block |
| FsImage.MarkUsedOnly | kernel/fs.c:75-77 | setting a bitmap bit changes the status of that block and no other |
| FsImage.MarkFreeOnly | kernel/fs.c:98-102 | clearing a bitmap bit changes the status of that block and no other |
| FsImage.EachBlockOnce | kernel/fs.c:382-421 | a nonzero address occurs in one slot of one inode only, lies in the data area and is marked used |
| FsImage.AllocEffect | kernel/fs.c:382-421 | an allocation into an empty slot keeps every block owned exactly once and changes that slot only |
| FsImage.StoredIsSplice | kernel/fs.c:505-539 | bytes stored at or below the size, of which the size counts a prefix, are a splice of the contents cut off at that size |
| FsImage.StoredKeepsOthers | kernel/fs.c:505-539 | and every other file keeps its contents and has no hole |
| FsImage.ChunkEffect | kernel/fs.c:516-528 | one turn of writei's loop stores exactly its chunk, across direct and indirect blocks |
| FsImage.WriteEffect | kernel/fs.c:505-539 | a whole writei: contents spliced as far as the size counts, ownership kept, no holes, other inodes untouched |
| FsImage.SpliceSplice | kernel/file.c:156-174 | writing two adjoining runs one after the other equals writing them as one |
| FsImage.ChunkBytes | kernel/fs.c:482-494 | the bytes readi copies from a block are the file's bytes at that place |
| FsImage.TruncAccounted | kernel/fs.c:425-453 | truncation gives back exactly the blocks that the inode owned |
| FsImage.TruncContents | kernel/fs.c:425-453 | the truncated file is empty and every other file unchanged |
| FileSystem.ChunkBudget | kernel/file.c:149-160 | a chunk of up to three blocks, at any offset, costs at most MAXOPBLOCKS logged blocks |
| FileSystem.BudgetTotal | kernel/fs.c:505-539 | a writei that began with nothing logged logs at most two blocks per file block it spans, plus three, less one when it starts inside a block |
| FileSystem.FileSystem.constructor | kernel/fs.c:42-47 | a file system over any image whose blocks are accounted for and whose files have no holes |
| FileSystem.FileSystem.Balloc | kernel/fs.c:65-88 | the lowest free block, zeroed and marked, or 0 and nothing changed when the disk is full |
| FileSystem.FileSystem.Bfree | kernel/fs.c:91-105 | exactly that block becomes free; it panics exactly when the block is free already |
| FileSystem.FileSystem.AllocSlot | kernel/fs.c:388-417 | an allocation for one slot: ownership kept, other slots unchanged, nothing leaked when the disk is full |
| FileSystem.FileSystem.LoadIndirect | kernel/fs.c:399-407 | the indirect block, allocated if missing |
| FileSystem.FileSystem.BmapIndirect | kernel/fs.c:397-418 | both levels of an indirect address, allocated as needed; a failure at the second leaks nothing |
| FileSystem.FileSystem.Bmap | kernel/fs.c:382-421 | the address of a file block, found or allocated; only its own slot and the indirect one change; 0 only when the disk is full; its cost in logged blocks |
| FileSystem.FileSystem.WriteChunk | kernel/fs.c:516-528 | one chunk stored and logged whole; or nothing, the disk being full; or the bytes that the failing user copy got, left in the block |
| FileSystem.FileSystem.WriteChunks | kernel/fs.c:516-528 | a prefix of the bytes stored, all unless the disk is full or the user copy failed; whole chunks count, and the bytes beyond them are exactly those the failed copy got; the cost in logged blocks |
| FileSystem.FileSystem.Writei | kernel/fs.c:505-539 | the contents are spliced with the bytes of the whole chunks and, as far as the file already reached, those of a chunk whose copy failed; short only when the disk is full or the copy failed; other files unchanged, ownership and no-hole invariants kept; -1 changes nothing |
| FileSystem.FileSystem.Readi | kernel/fs.c:471-496 | the slice of the contents clipped to the size; nothing is allocated or changed |
| FileSystem.FileSystem.ReadChunk | kernel/fs.c:482-494 | one block's part of the slice, without allocating, because there are no holes |
| FileSystem.FileSystem.Itrunc | kernel/fs.c:425-453 | exactly the inode's blocks become free, the file is empty, all else unchanged |
| FileSystem.FileSystem.FreeDirect | kernel/fs.c:432-437 | the direct blocks are free, and only those |
| FileSystem.FileSystem.FreeIndirect | kernel/fs.c:439-449 | the blocks that the indirect block lists and the indirect block are free, and only those |
| FileSystem.FileSystem.WriteOp | kernel/file.c:158-167 | one transaction of filewrite has writei's effect, is refused exactly when writei's checks say so, and logs at most MAXOPBLOCKS blocks |
| FileSystem.FileSystem.Filewrite | kernel/file.c:134-181 | all chunks together are one splice of the contents at the offset; on failure of a prefix, with the bytes of the failed copy as far as the file already reached; it ends short only when the disk is full, the user's bytes ran out or writei refuses the next chunk; each chunk's transaction keeps to MAXOPBLOCKS |
| InodeTable.ScanTable | kernel/fs.c:253-264 | the live entry for the inode number, else the first empty slot, else none |
| InodeTable.FoundUnique | kernel/fs.c:253-264 | the scan's answer is unique when an inode number has at most one live entry |
| InodeTable.StepKeeps | kernel/fs.c:198-362 | every step of ialloc, iget, ilock, iupdate and iput keeps the table invariant |
| InodeTable.RefsCountHolders | kernel/fs.c:246-362 | in every run ref is the number of holders and an inode number has at most one live entry |
| InodeTable.IlockSeesDisk | kernel/fs.c:292-317 | in every run whoever locks an entry has, or re-reads, the inode that is on disk now, and the no-type panic cannot happen |
| InodeTable.FreeingNeverBlocks | kernel/fs.c:336-362 | when iput decides to free, the sleep lock it takes next is free |
| InodeTable.RecycledEntryIsReread | kernel/fs.c:198-219 | an inode allocated again while iput is between iupdate and its last step is read fresh by its new holder |
| Mkfs.RoundingSafeIff | mkfs/mkfs.c:163-168 | rounding up the root directory's size leaves no hole if and only if the size was not a multiple of the block size |
| Mkfs.TightIsMapped | mkfs/mkfs.c:252-294 | an image whose files own exactly the blocks below their sizes has no holes |
| Mkfs.NeedIsBlocks | mkfs/mkfs.c:266-283 | in a file that owns exactly the blocks below its size, the lookups for the next bytes take the difference of the block counts of the two sizes |
| Mkfs.MarkPrefix | mkfs/mkfs.c:234-248 | a bitmap that marks the first n blocks, with bit n set, marks the first n + 1 |
| Mkfs.Builder.constructor | mkfs/mkfs.c:92-115 | the empty image satisfies the file-system invariants |
| Mkfs.Builder.Ialloc | mkfs/mkfs.c:220-232 | the next inode number, with one link and no blocks; invariants kept |
| Mkfs.Builder.NextBlock | mkfs/mkfs.c:268-281 | freeblock goes into one slot, which is the only change, and every block stays owned once |
| Mkfs.Builder.MapBlock | mkfs/mkfs.c:266-283 | the address of a file block, direct or indirect, allocated if it has none; exactly how many blocks that takes, and failure exactly when the image has fewer left |
| Mkfs.Builder.AppendChunk | mkfs/mkfs.c:265-291 | one turn of the loop stores its bytes, takes exactly the blocks that the longer file needs and keeps every file without holes; failure exactly when the image has fewer left |
| Mkfs.Builder.AppendChunks | mkfs/mkfs.c:265-291 | all turns store all the bytes; or they end, exactly as Fate foretells from freeblock and the sizes, at the longest file or at the end of the image |
| Mkfs.Builder.Iappend | mkfs/mkfs.c:252-294 | the file's contents grow by exactly the bytes given, other files and the invariants are kept, and freeblock grows by the exact block count; the assertion and the end of the image are hit exactly as Fate foretells |
| Mkfs.Builder.RoundRoot | mkfs/mkfs.c:163-168 | the finished image is a valid start of the file system if and only if the root size was not a multiple of the block size |
| Mkfs.Builder.Balloc | mkfs/mkfs.c:234-248 | the bitmap block is the one that the file-system invariants ask for |
| Mkfs.Builder.Mount | mkfs/mkfs.c:161-173 | the finished image, with its bitmap block, is a valid file system for the kernel to start from |
| PageTable.PteParts | kernel/riscv.h:356-367 | page number and flags are recovered from a PTE, and its valid and leaf tests depend on the flags only |
| PageTable.PxInjective | kernel/riscv.h:370-378 | different pages below MAXVA have different index triples |
| PageTable.SlotsApart | kernel/vm.c:85-103 | walk reaches different leaf slots for any two different pages, of one page table or of two |
| PageTable.TranslateIsLeaf | kernel/vm.c:85-103 | following the words in memory from the root, as address translation does, gives the map that the three-level tree stands for |
| PageTable.PoolPartition | kernel/vm.c:174-304 | every page of the pool is on the free list, held, in one place of one page table, or mapped as exactly one user page |
| PageTable.GrowMid | kernel/vm.c:91-101 | linking a zeroed page in at the second level keeps all trees disjoint and all maps unchanged |
| PageTable.GrowLow | kernel/vm.c:91-101 | linking a zeroed page in at the third level keeps all trees disjoint and all maps unchanged |
| UserPages.SizeFitsMemory | kernel/vm.c:232-256 | mapped user pages are different physical pages, so there are no more of them than pages in the pool |
| UserPages.MachineFits | kernel/memlayout.h:39-40 | a pool between KERNBASE and PHYSTOP has fewer pages than user address space |
| UserPages.AddedThenReleased | kernel/vm.c:242-252 | adding pages and then unmapping them leaves only added tables: every PTE and every page in use is as before |
| UserPages.SourceKept | kernel/vm.c:312-340 | while a copy grows, the source keeps its PTEs and its words |
| AddressSpaces.FreedKid | kernel/vm.c:278-294 | freeing the table below one entry frees exactly the pages of that subtree |
| AddressSpaces.FreeEnd | kernel/vm.c:278-304 | releasing the user pages and then walking the tables frees exactly the pages of that address space |
| AddressSpaces.SinceFreed | kernel/proc.c:155-216 | making an address space and freeing it again leaves every page in the use it had |
| AddressSpaces.ForkDone | kernel/proc.c:279-297 | the child's pages have the parent's words and flags, and nothing of the parent or of others changed |
| VirtualMemory.Kernel.constructor | kernel/kalloc.c:26-40 | after kinit every page of the pool is free, which is a valid start |
| VirtualMemory.Kernel.Kalloc | kernel/kalloc.c:68-82 | the first free page, filled with junk and now held, or failure exactly when the list is empty |
| VirtualMemory.Kernel.Kfree | kernel/kalloc.c:46-63 | the page goes on the free list; all page tables keep their maps |
| VirtualMemory.Kernel.WalkRoot | kernel/vm.c:91-101 | level 2 of walk: the second-level table, allocated if asked; maps unchanged |
| VirtualMemory.Kernel.WalkMid | kernel/vm.c:91-101 | level 1 of walk: the third-level table, allocated if asked; maps unchanged |
| VirtualMemory.Kernel.Walk | kernel/vm.c:85-103 | the table that holds the page's PTE; tables allocated before a failure stay linked into this tree only; no map changes; it takes at most two pages, and fails only with at most one left |
| VirtualMemory.Kernel.Mappages | kernel/vm.c:143-172 | adds exactly its range to the map; otherwise a prefix of it, ended by the first page already mapped (the panic) or by memory running out; size 0 is the other panic |
| VirtualMemory.Kernel.Uvmunmap | kernel/vm.c:177-199 | removes exactly its range from the map and frees exactly the pages of it; it panics exactly when a page of the range has no mapping to remove, at the first such page |
| VirtualMemory.Kernel.AddPage | kernel/vm.c:243-252 | one more user page with the given words and flags; on failure its page is back and only tables were added, and fewer than three pages were free |
| VirtualMemory.Kernel.Uvmdealloc | kernel/vm.c:262-274 | user page i is mapped afterwards if and only if i is below the rounded-up new size; exactly the rest was freed |
| VirtualMemory.Kernel.Uvmalloc | kernel/vm.c:232-256 | zeroed pages up to the rounded-up new size, mapped if and only if below it; on failure data pages and map are as before, and fewer than three pages per page asked for were free |
| VirtualMemory.Kernel.Freewalk | kernel/vm.c:278-294 | frees exactly the tables of the dead tree below a table, recursively |
| VirtualMemory.Kernel.Uvmfree | kernel/vm.c:298-304 | frees exactly the pages of the address space; every other page, table and map is as before |
| VirtualMemory.Kernel.Uvmcreate | kernel/vm.c:203-212 | an empty map on one fresh page, or nothing changed |
| VirtualMemory.Kernel.Uvmcopy | kernel/vm.c:312-340 | the new address space has the old one's words and flags page for page on fresh pages; on failure no data page and no PTE is left behind, and fewer than three pages per page to copy were free |
| VirtualMemory.Kernel.DropPagetable | kernel/proc.c:190-204 | a page table with nothing mapped is given back whole: pages, tables and words as before |
| VirtualMemory.Kernel.ProcPagetable | kernel/proc.c:176-206 | trampoline and trapframe mapped and no user memory; every failure restores all pages and maps and means that fewer than five pages were free |
| VirtualMemory.Kernel.ProcFreepagetable | kernel/proc.c:210-216 | frees exactly the address space, and neither the trampoline nor the trapframe page |
| VirtualMemory.Kernel.FreeprocMemory | kernel/proc.c:155-172 | trapframe, tables and user pages of a process are all given back: every page has the use it had before the process |
| VirtualMemory.Kernel.ForkMemory | kernel/proc.c:279-297 | a successful fork gives the child equal words and flags on disjoint pages; any failure returns every page it took, with every map and word in use as before, and means that fewer than six pages and three per page of the parent were free |
| UserCopy.Reach | kernel/vm.c:355-408 | the bytes before the first address whose page the user may not access, and all of those can be accessed |
| UserCopy.PatchWrote | kernel/vm.c:373-376 | a store into one user page changes exactly those user bytes, and no page that the user may not write |
| UserCopy.WroteTwice | kernel/vm.c:364-381 | writing two adjoining runs page by page is writing them as one |
| UserCopy.CopyRoundTrip | kernel/vm.c:355-408 | what copyout wrote is what copyin reads back |
| UserCopy.ProcSpaceUnshared | kernel/proc.c:176-206 | an address space with the two special pages of proc_pagetable and any user memory that the page-table invariants allow shares no user page, which is what copyout asks |
| UserCopy.StringAt | kernel/vm.c:410-451 | the length of a user string: no NUL before its end, a NUL there, every byte readable |
| UserCopy.UserMemory.Walkaddr | kernel/vm.c:105-126 | the physical page exactly when the page is mapped for the user below MAXVA |
| UserCopy.UserMemory.Memmove | kernel/vm.c:372-376 | the piece of the page is replaced and nothing else |
| UserCopy.UserMemory.Copyout | kernel/vm.c:355-383 | across page boundaries, exactly the user bytes from the address on become the source, all of it or the part before the first page the user may not write |
| UserCopy.UserMemory.Copyin | kernel/vm.c:385-408 | the user's bytes from the address on, all of them or those before the first page the user may not read |
| UserCopy.UserMemory.Copyinstr | kernel/vm.c:410-451 | succeeds exactly when the string's NUL is within max bytes and readable up to it, and returns the string |
| UserCopy.FindNul | kernel/vm.c:429-442 | the first NUL of a piece, or none in it |
| SleepWakeup.LkStepKeeps | kernel/spinlock.c:21-72 | taking and giving up the condition lock keeps who holds which lock consistent |
| SleepWakeup.WakeStepKeeps | kernel/proc.c:571-585 | wakeup's lock, test and unlock of each process keep who holds which lock consistent |
| SleepWakeup.AnnouncedKept | kernel/proc.c:540-585 | no step lets a sleeper miss a condition that was announced |
| SleepWakeup.StepKeeps | kernel/proc.c:540-609 | each lock operation and store of sleep, wakeup, kill and the scheduler keeps the invariant, if whoever gives up the lock has announced what it made true |
| SleepWakeup.RunInv | kernel/proc.c:540-609 | the invariant holds in every state of every run |
| SleepWakeup.NoLostWakeup | kernel/proc.c:540-585 | whenever the lock is free nobody sleeps on a channel whose condition holds, for wakeups before or after the change in the same critical section |
| SleepLocks.ObeysDiscipline | kernel/sleeplock.c:21-41 | acquiresleep and releasesleep announce what they make true and test under the lock |
| SleepLocks.StepKeepsInv | kernel/sleeplock.c:21-41 | every step of acquiresleep and releasesleep keeps the invariant |
| SleepLocks.MutualExclusion | kernel/sleeplock.c:21-41 | in every run at most one process holds the sleep lock |
| SleepLocks.SleeperHasOwner | kernel/sleeplock.c:21-31 | in every run, whenever the inner lock is free, a process asleep for the sleep lock has another process that holds it |
| WaitExit.ObeysDiscipline | kernel/proc.c:346-435 | fork, exit and wait keep to the discipline of sleep and wakeup, although exit wakes its parent before it becomes a zombie |
| WaitExit.ChangeOk | kernel/proc.c:328-386 | fork, reparenting, exit and reaping each keep every parent alive |
| WaitExit.StepKeepsInv | kernel/proc.c:279-435 | every step of fork's, exit's and wait's critical sections keeps the invariant |
| WaitExit.ParentsAlive | kernel/proc.c:328-386 | in every run a non-null parent is neither unused nor a zombie |
| WaitExit.ZombiesHaveParents | kernel/proc.c:346-386 | in every run a zombie has a live parent that can reap it |
| WaitExit.SleepingParents | kernel/proc.c:390-435 | in every run, whenever wait_lock is free, a process asleep in wait has a child and none that has exited |
| LogAdmission.ObeysDiscipline | kernel/log.c:126-175 | begin_op, end_op and commit keep to the discipline of sleep and wakeup |
| LogAdmission.StepKeepsInv | kernel/log.c:126-235 | every step of begin_op, log_write, end_op and commit on the counters keeps the invariant |
| LogAdmission.SleepersRefused | kernel/log.c:126-142 | in every run, whenever log.lock is free, a process asleep in begin_op could not be admitted now either |
| LogAdmission.NoCommitPanic | kernel/log.c:146-175 | in every run end_op never finds a commit under way, and a commit runs alone, with no operation open |
| PipeBuffer.SlotOf | kernel/pipe.c:95 | a counter modulo 2^32 names the same ring slot as the full count |
| PipeBuffer.CounterTests | kernel/pipe.c:88-121 | the 32-bit tests for full and empty are exact at any counter value |
| PipeBuffer.PipeRing.PutByte | kernel/pipe.c:95 | the stream gains that byte; no unread byte is overwritten |
| PipeBuffer.PipeRing.Put | kernel/pipe.c:83-98 | the stream gains the next bytes in order, until all are in, the pipe is full, or the user address faults |
| PipeBuffer.PipeRing.Get | kernel/pipe.c:119-126 | the bytes taken are the next ones of the stream in order, however often the counters wrapped; a byte whose copyout faults is lost |
| PipeProtocol.ObeysDiscipline | kernel/pipe.c:58-130 | pipewrite, piperead and pipeclose keep to the discipline of sleep and wakeup, but for the killed writer, which is on record as hushed |
| PipeProtocol.StepKeepsInv | kernel/pipe.c:58-130 | every step of pipewrite, piperead and pipeclose keeps the invariant |
| PipeProtocol.SleepersStuck | kernel/pipe.c:76-130 | in every run, whenever the lock is free, a sleeping writer faces a full pipe open for reading, and a sleeping reader an empty one open for writing if and only if no killed writer's bytes lie there unannounced |
| PipeProtocol.HushedIff | kernel/pipe.c:81-101 | in every run the readers are in that state exactly when a killed writer left bytes without a wakeup, and since then nobody has set out to wake the readers and no reader has emptied the open pipe |
| PipeProtocol.StreamGrows | kernel/pipe.c:76-130 | in every run the stream only grows at its end, the reading point never goes back or past the end, and at most PIPESIZE bytes are unread |
| PipeProtocol.KilledWriterHushes | kernel/pipe.c:84-87 | the exception is real: a run in which a killed writer leaves a reader asleep beside a byte |
| Scheduling.CountsKept | kernel/spinlock.c:21-110 | acquire, release, push_off, pop_off and context switches keep noff equal to locks held plus open push_offs |
| Scheduling.StepKeeps | kernel/proc.c:444-512 | every step of any CPU keeps the invariant |
| Scheduling.RunningIffCurrent | kernel/proc.c:444-501 | in every run, with p->lock free, p is RUNNING if and only if a CPU has it current, and at most one has |
| Scheduling.NoffIsDepth | kernel/spinlock.c:84-110 | in every run noff is the depth of locks and push_offs on the CPU, interrupts on means none, and sched's noff == 1 means that p->lock is the only one |
| Scheduling.LoopHoldsNothing | kernel/proc.c:450-475 | in every run scheduler holds no lock between processes, so its untested intr_on never turns interrupts on in a critical section |
| Scheduling.FreedOffCpu | kernel/proc.c:402-421 | in every run a zombie is reaped only when no CPU has it current or executes its kernel thread |
| Scheduling.ReapedOnce | kernel/proc.c:402-421 | between two reapings of a table entry some process exits in it |
| Scheduling.IntenaFollowsThread | kernel/proc.c:483-501 | in every run a process inside a push_off has the interrupt state from before it, whatever CPUs it moved between |
| VirtioRing.AtMostTwo | kernel/virtio_disk.c:199-213 | three requests are never alive at once: they would need nine of the eight descriptors |
| VirtioRing.RingsHaveRoom | kernel/virtio_disk.c:271-277 | neither ring ever has more than two unread entries |
| VirtioRing.SeenTest | kernel/virtio_disk.c:309-312 | the 16-bit test used_idx != used->idx is exact across wraparound |
| VirtioRing.Partition | kernel/virtio_disk.c:155-213 | free descriptors and the three-descriptor chains of live requests partition the table |
| VirtioRing.SubmitKeeps | kernel/virtio_disk.c:215-281 | posting a request keeps the invariant and overwrites no unread available entry |
| VirtioRing.DeviceReadsNext | kernel/virtio_disk.c:271-281 | the device always finds the oldest unread request, with its chain intact |
| VirtioRing.DidKeeps | kernel/virtio_disk.c:294-327 | a completion in any order and with any status keeps the invariant and overwrites no unseen used entry |
| VirtioRing.UsedIsLive | kernel/virtio_disk.c:312-324 | every used entry to be handled has a live info[id].b whose buffer is still marked busy, and the status the device gave that request |
| VirtioRing.EndKeeps | kernel/virtio_disk.c:288-289 | freeing the chain of a handled request keeps the invariant |
| VirtioRing.RunOnward | kernel/virtio_disk.c:215-327 | in every run a request only moves forward: posted, read, used, handled, finished |
| VirtioRing.CompletesOnce | kernel/virtio_disk.c:312-324 | in every run, under any completion order and index wraparound, the handler completes no request twice |
| VirtioRing.CompletedIff | kernel/virtio_disk.c:312-324 | in every run a request is past the handler if and only if an earlier handler step was its own |
| VirtioRing.CompletesExactlyOnce | kernel/virtio_disk.c:312-324 | in every run, under any completion order and index wraparound, a request past the handler was completed by exactly one handler step, and the device had reported success for it |
| VirtioDisk.Driver.constructor | kernel/virtio_disk.c:144-146 | the initialised ring: all descriptors free |
| VirtioDisk.Driver.AllocDesc | kernel/virtio_disk.c:156-166 | the lowest free descriptor, now in use, or -1 exactly when there is none |
| VirtioDisk.Driver.FreeDesc | kernel/virtio_disk.c:169-182 | that descriptor is blank and free; it panics exactly for an index out of range or a free descriptor |
| VirtioDisk.Driver.Alloc3Desc | kernel/virtio_disk.c:201-213 | three different free descriptors, or nothing changed exactly when there are not three |
| VirtioDisk.Driver.FreeChain | kernel/virtio_disk.c:185-197 | following the links frees exactly the three descriptors of the chain |
| VirtioDisk.Driver.Submit | kernel/virtio_disk.c:215-281 | a new request for the block's first sector, formatted and published, or nothing changed when fewer than three descriptors are free |
| VirtioDisk.Driver.Post | kernel/virtio_disk.c:235-277 | the stores that format and publish a request |
| VirtioDisk.Driver.Finish | kernel/virtio_disk.c:288-289 | the request ends and exactly its three descriptors are free again |
| VirtioDisk.Driver.IntrStep | kernel/virtio_disk.c:312-324 | one used entry completes exactly one request, and only its buffer; it panics exactly when the device reported failure for that request |
| VirtioDisk.Driver.Intr | kernel/virtio_disk.c:294-327 | exactly the requests that the device had finished become handled, in its order, up to the first with a failure status; it panics exactly when there is one |
| VirtioDisk.Driver.DeviceTake | kernel/virtio_disk.c:271-281 | the device's reading of the available ring: the head of the oldest unread request |
| VirtioDisk.Driver.DeviceFinish | kernel/virtio_disk.c:309-314 | the device's completion of any request it has read, with any status |
| FreeList.BlocksApart | user/umalloc.c:24-44 | different blocks, free or live, do not overlap |
| FreeList.InsertKeeps | user/umalloc.c:30-42 | a block put between its neighbours keeps one address-ordered ring and the partition of all units |
| FreeList.MergeKeeps | user/umalloc.c:33-42 | joining two touching blocks keeps the ring and the partition |
| FreeList.FreeKeeps | user/umalloc.c:24-44 | after both joins no two free blocks are adjacent, wherever the block went |
| FreeList.FreedMaps | user/umalloc.c:33-42 | free's stores to s.ptr and s.size produce exactly that list |
| FreeList.StopsAt | user/umalloc.c:30-32 | free's search stops at the block's place in the ring and nowhere else |
| FreeList.TakeKeeps | user/umalloc.c:76-77 | handing out a whole block keeps the ring and the partition |
| FreeList.SplitKeeps | user/umalloc.c:78-82 | handing out the tail of a block keeps the ring and the partition |
| FreeList.GrowKeeps | user/umalloc.c:54-58 | memory from sbrk becomes one more block of the partition |
| FreeList.SearchOver | user/umalloc.c:74-88 | malloc's search comes back to freep only when every free block is too small |
| Umalloc.Units | user/umalloc.c:69 | the fewest headers that hold the bytes and one header |
| Umalloc.SbrkCount | user/umalloc.c:54 | sbrk receives the count that morecore means if and only if it is below 2^31 |
| Umalloc.HugeRequestShrinks | user/umalloc.c:54 | a 2 GB request passes a negative count |
| Umalloc.Allocator.FindPlace | user/umalloc.c:30-32 | the free block that the freed one comes right after, found from any starting point |
| Umalloc.Allocator.Link | user/umalloc.c:33-42 | the stores of free, with either, both or no neighbour joined |
| Umalloc.Allocator.Free | user/umalloc.c:24-44 | the block is free, no unit is lost, no other live block changes, and the list is again one ordered, fully coalesced ring |
| Umalloc.Allocator.Morecore | user/umalloc.c:46-61 | on success some free block at freep or next to it has the units asked for |
| Umalloc.Allocator.Carve | user/umalloc.c:75-84 | exactly n units leave the free list as one new live block |
| Umalloc.Allocator.MallocUnits | user/umalloc.c:74-89 | the search ends: with a block of the size asked for, after at most one morecore; or with 0 only when nothing fits and sbrk refuses or, exactly for a count of 2^31 bytes or more, would be handed a wrong count |
| Umalloc.Allocator.Malloc | user/umalloc.c:63-90 | for every uint request a new live block with room for the bytes; live blocks stay disjoint and unchanged; every unit obtained from sbrk belongs to exactly one block; 0 only when nothing fits, and sbrk would be handed a wrong count exactly when nothing fits and the count is 2^31 bytes or more |
| ShellGrammar.GetToken | user/sh.c:266-309 | a word token is a whole word of the line, and every token but the end moves the cursor on |
| ShellGrammar.ParseLine | user/sh.c:345-360 | parsing terminates on every line, without going back or past the end |
| ShellGrammar.ParseArgs | user/sh.c:432-446 | the loop over words ends on every line |
| ShellGrammar.ParseRedirs | user/sh.c:375-398 | the loop over redirections ends on every line |
| ShellRoundTrip.ArgsParse | user/sh.c:432-446 | written words parse back to themselves |
| ShellRoundTrip.LineParses | user/sh.c:345-447 | wherever a written command stands in a line, before the end or a closing parenthesis, parseline reads it back |
| ShellRoundTrip.RoundTrip | user/sh.c:328-447 | parsing the parenthesised writing of any command, with words free of blanks and symbols and fewer than MAXARGS arguments, gives that command back |
| ShellRoundTrip.ArgumentLimit | user/sh.c:437-441 | a list of words parses if and only if there are fewer than MAXARGS of them |
| ShellParser.Parser.SkipBlanks | user/sh.c:273-274 | the cursor moves to the next character that is not blank |
| ShellParser.Parser.Gettoken | user/sh.c:266-309 | the token, its span and the cursor after it are those of the grammar |
| ShellParser.Parser.PeekAt | user/sh.c:311-321 | whether one of the characters is next, with the blanks skipped |
| ShellParser.Parser.Parseredirs | user/sh.c:375-398 | reads the redirections that the grammar gives, or panics exactly when a file is missing |
| ShellParser.Parser.Parseline | user/sh.c:345-360 | computes the grammar's command, panics exactly where it does, and terminates |
| ShellParser.Parser.Parsepipe | user/sh.c:362-373 | computes the grammar's command, panics exactly where it does, and terminates |
| ShellParser.Parser.Parseblock | user/sh.c:400-414 | computes the grammar's command, panics exactly where it does and when there is no opening parenthesis, and terminates |
| ShellParser.Parser.Parseexec | user/sh.c:416-447 | computes the grammar's command, panics exactly where it does, too many arguments included, and terminates |
| ShellParser.Parser.Parsecmd | user/sh.c:328-343 | the whole line is used up, or panic |
| ShellTokens.LineWords | user/sh.c:345-447 | every string in a parsed command is a whole word of the line |
| ShellTokens.Nulterminate | user/sh.c:449-494 | writes a NUL at the end of each string of the command and changes nothing else |
| ShellTokens.WordsReadable | user/sh.c:449-494 | no string's end is inside another string, so each reads as exactly its own text afterwards |
| ShellTokens.ParseInPlace | user/sh.c:328-343 | parse and terminate in one buffer: every argument and file name of the command is a C string with its token's text |
| Matcher.FirstOne | user/grep.c:93-94 | a pattern that begins with a single character matches exactly when that character and the rest do |
| Matcher.FirstMany | user/grep.c:98-106 | a pattern that begins with a starred character matches exactly when some number of repetitions and the rest do |
| Matcher.MatchHere | user/grep.c:84-96 | true exactly when some prefix of the text, or all of it under $, is in the language of the pattern |
| Matcher.MatchStar | user/grep.c:98-106 | true exactly when some number of repetitions leaves a text that the rest matches |
| Matcher.Match | user/grep.c:72-82 | true if and only if some substring, anchored for ^ and $, is in the language that the pattern denotes |
| Grep.SelectedSplit | user/grep.c:22-29 | selecting lines before and after a line boundary separately gives the same output |
| Grep.ReadsToEndIff | user/grep.c:18-34 | grep goes through to the end of its input if and only if no line fills the buffer |
| Grep.Strchr | user/grep.c:22 | the first such character before the NUL, or none |
| Grep.OneLine | user/grep.c:23-27 | the line with its newline if it matches, else nothing; only the newline's place in the buffer changes |
| Grep.Lines | user/grep.c:21-29 | all complete lines in the buffer are dealt with, and an unfinished one is left |
| Grep.GrepInput | user/grep.c:11-35 | the output is exactly the matching newline-terminated lines, in order, up to the first line too long for the buffer, however read cuts the input |

## Left out

- kernel/vm.c uvmclear, uvmfirst and the kernel's own page table: they use the page-table operations without changing what is proved about them.
- UserCopy.UserMemory.Copyout: here pages hold bytes and the page table is a finite map; asks that user pages be unshared, which `UserCopy.ProcSpaceUnshared` derives from the page-table invariants. In the file system and the pipe a user copy is a parameter that says how many bytes it accepts.
- FileSystem.FileSystem.WriteChunk: the image is the one that readers of the cache see; that the bytes of a failed copy may later be lost with the buffer is stated about the cache alone.
- Mkfs.Builder.Iappend: mkfs goes on past the image's end when it is full; the model ends there.
- Mkfs.Builder.Ialloc: like mkfs, does not bound the inode number by the inodes the layout has room for.
- FileSystem.FileSystem.Filewrite: chunks run without interference from other writers of the same file.
- FsImage.EachBlockOnce: the bitmap is one sequence of bytes rather than blocks read through the cache; that cache and log behave as one array of blocks is `CacheMachine`'s result.
- VirtualMemory.Kernel.Uvmalloc: asks that the pool have fewer pages than user address space has, which `UserPages.MachineFits` proves of xv6's memory layout; growproc itself, a choice between uvmalloc and uvmdealloc, is not modelled.
- VirtualMemory.Kernel.Walk: physical addresses are page numbers, page contents 512 words; that pages are aligned is therefore not a statement of the model.
- PageTable.PteParts: a PTE is a natural number, not 64 bits; its reserved bits and the accessed and dirty flags are not modelled.
- SleepWakeup.NoLostWakeup: liveness is not claimed; a kill may land between a killed test and the sleep (kernel/proc.c:427-433), and a woken process may find its condition false again.
- Scheduling.StepKeeps: kernel code outside the modelled steps is free to take and release locks within what the spinlock calls check; sched's panics end the run.
- WaitExit.StepKeepsInv: an entry counts as alive from the moment its parent is set, so allocproc's USED state is part of fork.
- VirtualMemory.Kernel.Uvmunmap: asks that pages be freed in user memory and only unmapped above it, as every caller does.
- Umalloc.Allocator.Malloc: ends where sbrk would be handed a wrong count; asks that sbrk's memory be fresh and that programs keep to the blocks they were given.
- Grep.GrepInput: asks for a pattern and input without NUL bytes; a read error ends the loop like the end of the input.
- ShellParser.Parser.Parsecmd: allocation of the command nodes is not modelled, nor are runcmd and main.
- Directories, path lookup, link counts and system-call plumbing (kernel/fs.c:544-697, kernel/sysfile.c): the exact link-count invariant does not hold once a removed directory is still in use.
- kernel/exec.c, kernel/trap.c, kernel/console.c, kernel/uart.c, kernel/plic.c, kernel/start.c and the assembly files: hardware registers and format plumbing.
- virtio_disk_init: feature negotiation; the model starts from the initialised ring.
- Fences and weak memory, scheduler fairness and liveness.
- fileread, filedup and fileclose (kernel/file.c): thin wrappers around readi and reference counts.
