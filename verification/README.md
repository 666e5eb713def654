# Proofs about an xv6 kernel with lazy allocation and a bakery simulation

A Dafny model of the parts of the repository with the most state, and proofs of what they are for: a redo log
and a buffer cache that survive crashes, demand paging that looks like flat memory, Sv39 page tables that lose no
frame, a block layer that keeps files apart and brings them whole through crashes, an allocator that keeps blocks
apart, sleep and wakeup that lose no wakeup, a disk driver that completes each request once, a shell parser and a
matcher that agree with their grammars, a pipe, and a bakery whose queues never overflow.

Most parts come in two modules. One defines the state, the steps and what they mean, with the theorems about every
run. The other, whose name ends in `Code`, is the code in the form the source gives it: classes whose methods change
fields, arrays and linked lists in place by loops, each proved to do what the first module says. Panics and early
returns of the source are results, not preconditions.

| modules | source |
|---|---|
| `Wal`, `LogCode` | the redo log, `kernel/log.c` |
| `Bio`, `BioCode` | the buffer cache, `kernel/bio.c` |
| `Pager`, `PagerCode` | demand paging, `kernel/vm.c` and `kernel/trap.c` |
| `PageTable`, `VmCode` | page tables and frames, `kernel/vm.c` and `kernel/kalloc.c` |
| `FileBlocks`, `FileCode`, `Mkfs` | files on blocks, `kernel/fs.c`, `kernel/file.c` and `mkfs/mkfs.c` |
| `FsImage`, `CrashFiles`, `KernelCode` | the disk format of `kernel/fs.h`, and the file system on the log |
| `SwapFile` | the pager on the file system |
| `Umalloc`, `UmallocCode` | the user allocator, `user/umalloc.c` |
| `SleepLock` | sleep, wakeup, the scheduler and sleep locks, `kernel/proc.c` and `kernel/sleeplock.c` |
| `Virtio`, `VirtioCode` | the disk driver and its device, `kernel/virtio_disk.c` |
| `Shell`, `ShellGrammar`, `ShellCode` | the shell parser and its grammar, `user/sh.c` |
| `Grep` | the matcher and the line buffer, `user/grep.c` |
| `Pipe` | the pipe, `kernel/pipe.c` |
| `Bakery` | the simulation, `Concurrent-Bakery-Sim/main.c` |

The disk, the device and other processes are part of the state machines. Results of copies, of sbrk, of disk
writes that may not fit, and of reads of any size are parameters. Page tables follow section 4.4 (Sv39) of the
RISC-V Privileged Architecture, the disk rings sections 2.6 and 5.2 of VirtIO 1.1.

`dafny verify dfyconfig.toml` checks the whole project.

## Model

| member | source | states |
|---|---|---|
| `Wal.CrashAtomicity` | xv6-Lazy-Allocation/kernel/log.c:66-236 | after any run, a crash in any state, and recovery restarted any number of times, what operations see is exactly what they saw at the last commit point, with no operation open |
| `Wal.RecoveryCompletes` | xv6-Lazy-Allocation/kernel/log.c:54-124 | from every state, whatever phase it is in, a crash can be followed by a recovery that completes |
| `Wal.RunRefines` | xv6-Lazy-Allocation/kernel/log.c:66-236 | every run of single block writes and header changes is a run of a disk with atomic transactions, and keeps the invariant of all phases |
| `Wal.StepRefines` | xv6-Lazy-Allocation/kernel/log.c:66-236 | each step of the log is the step of the atomic disk it stands for: only the header write commits, only a crash fails |
| `Wal.DurableIsLastCommit` | xv6-Lazy-Allocation/kernel/log.c:195-204 | what would survive a crash now is what operations saw at the last commit point |
| `Wal.CommitExcludesOps` | xv6-Lazy-Allocation/kernel/log.c:128-176 | in every run a commit has no open operation, reserved and used log blocks fit the log, and whoever waits waits for a commit or an open operation |
| `Wal.NewBlockFits` | xv6-Lazy-Allocation/kernel/log.c:128-143 | an operation within its quota always has room to log a new block |
| `Wal.LogWritePanics` | xv6-Lazy-Allocation/kernel/log.c:216-236 | log_write panics exactly when the header is full, and then only on a block that is already in it |
| `Wal.AbsorbedWriteCanPanic` | xv6-Lazy-Allocation/kernel/log.c:216-236 | three operations fill the header, and rewriting a block already logged panics |
| `Wal.WaiterHasWaker` | xv6-Lazy-Allocation/kernel/log.c:128-176 | whoever sleeps in begin_op would not be admitted now, and somebody will wake them |
| `Wal.BootInv` | xv6-Lazy-Allocation/kernel/log.c:54-63 | a machine that comes up on a disk with a well-formed header satisfies the invariant |
| `Wal.PutHead` | xv6-Lazy-Allocation/kernel/log.c:104-115 | the header block that is written reads back as the list of blocks |
| `Wal.WriteHeadView` | xv6-Lazy-Allocation/kernel/log.c:104-115 | writing the header makes the current disk durable |
| `LogCode.Log.WriteLogBlocks` | xv6-Lazy-Allocation/kernel/log.c:180-192 | the loop copies the blocks to the log without changing the durable or the current disk |
| `LogCode.Log.FillHeader` | xv6-Lazy-Allocation/kernel/log.c:104-115 | the buffer holds the count and the block numbers, the rest of the block unchanged |
| `LogCode.Log.WriteHead` | xv6-Lazy-Allocation/kernel/log.c:104-115 | the one write that commits, or that erases a log already copied home |
| `LogCode.Log.ReadHead` | xv6-Lazy-Allocation/kernel/log.c:88-98 | the in-memory header becomes the list on the disk |
| `LogCode.Log.InstallTrans` | xv6-Lazy-Allocation/kernel/log.c:67-84 | all logged blocks reach their homes, in commit and in recovery, and neither disk changes |
| `LogCode.Log.Commit` | xv6-Lazy-Allocation/kernel/log.c:195-204 | afterwards the durable disk is what operations saw, the log is empty and the current disk unchanged |
| `LogCode.Log.RecoverFromLog` | xv6-Lazy-Allocation/kernel/log.c:118-124 | recovery ends with every home block holding its durable contents |
| `LogCode.Log.BeginOp` | xv6-Lazy-Allocation/kernel/log.c:128-143 | an operation is admitted exactly when no commit is under way and the header, the open operations and one more fit the log; otherwise it sleeps |
| `LogCode.Log.LogWrite` | xv6-Lazy-Allocation/kernel/log.c:216-236 | the block changes for operations and not on the durable disk, absorption adds no entry, and the panics are exactly the two tests |
| `LogCode.Log.EndOp` | xv6-Lazy-Allocation/kernel/log.c:148-176 | the last operation commits what operations saw; every end wakes the sleepers |
| `FsImage.ReadingIs` | xv6-Lazy-Allocation/kernel/fs.h:14-52 | a disk reads as a file system exactly as its superblock, inode blocks, bitmap blocks and data blocks say: if each home block agrees with a file system, the whole disk reads as it |
| `FsImage.ReadingAgrees` | xv6-Lazy-Allocation/kernel/fs.h:14-52 | and each home block of a disk agrees with what the disk reads as |
| `FsImage.CoveredAgrees` | xv6-Lazy-Allocation/kernel/fs.c:66-106 | a change of the file system leaves every block alone that does not hold a changed inode, bit or data block |
| `FsImage.FilledAgrees` | xv6-Lazy-Allocation/kernel/fs.c:227-242 | the buffers as iupdate, the bitmap and the block writes fill them hold the file system in memory |
| `FsImage.StoredReads` | xv6-Lazy-Allocation/kernel/fs.h:14-52 | a file system stored sector by sector reads back as itself |
| `FsImage.InodeSectorInode` | xv6-Lazy-Allocation/kernel/fs.c:227-242 | an inode copied into its block is read back |
| `CrashFiles.MoveKeeps` | xv6-Lazy-Allocation/kernel/log.c:128-236 | any step of the log, and any writei or itrunc by any of the open operations, keeps the durable disk equal to the file system of the last commit, and every block that nobody owes the log equal to memory |
| `CrashFiles.UpdatedKeeps` | xv6-Lazy-Allocation/kernel/fs.c:449-562 | writei and itrunc keep the file system consistent, and do to its files what they say and nothing else |
| `CrashFiles.FilesSurviveCrash` | xv6-Lazy-Allocation/kernel/log.c:66-236 | in every state of every run, with any operations open at once and crashes anywhere, the disk a crash would leave reads as a consistent file system, whose files are those of the last commit: every call before it applied in full, none after it |
| `CrashFiles.RecoveredFiles` | xv6-Lazy-Allocation/kernel/log.c:118-124 | a machine that is up with nothing open reads exactly those files, and is again where runs start |
| `KernelCode.Kernel.Settle` | xv6-Lazy-Allocation/kernel/log.c:216-236 | the blocks a call has logged, written to the log one by one and committed, leave memory and disk equal |
| `KernelCode.Kernel.Write` | xv6-Lazy-Allocation/kernel/file.c:155-165 | begin_op, writei, log_write of its blocks and end_op: the bytes are spliced into the file in memory and on disk, and no log_write panics |
| `KernelCode.Kernel.Truncate` | xv6-Lazy-Allocation/kernel/fs.c:449-476 | itrunc as a transaction, in memory and on disk |
| `KernelCode.Kernel.Filewrite` | xv6-Lazy-Allocation/kernel/file.c:149-173 | filewrite with its transactions: what went in is in the file and on the disk, and it stops short only on a full disk or at a chunk that writei refuses |
| `KernelCode.Kernel.MountedReads` | xv6-Lazy-Allocation/kernel/fs.c:42-49 | between transactions the durable disk reads as the file system in memory |
| `KernelCode.Kernel.MountedStarts` | xv6-Lazy-Allocation/kernel/fs.c:42-49 | a mounted kernel is a state in which the runs of the file system over the log start |
| `KernelCode.Boot` | xv6-Lazy-Allocation/mkfs/mkfs.c:69-175 | from a list of files through mkfs, the sectors and recovery of an empty log to a kernel that has those files in memory and on disk, or mkfs dies |
| `Bio.StepKeeps` | xv6-Lazy-Allocation/kernel/bio.c:58-151 | every step of any number of callers keeps the cache invariant: one buffer for a block, counts equal to references, one holder a buffer |
| `Bio.FindIs` | xv6-Lazy-Allocation/kernel/bio.c:58-76 | the first search finds a buffer for the block if and only if there is one |
| `Bio.VictimIs` | xv6-Lazy-Allocation/kernel/bio.c:77-88 | the buffer recycled has no reference and, of all such, was released longest ago; there is none only if all are referenced |
| `Bio.FrontByRelease` | xv6-Lazy-Allocation/kernel/bio.c:117-137 | moving a released buffer to the front keeps the list in order of release |
| `Bio.GetKeeps` | xv6-Lazy-Allocation/kernel/bio.c:59-89 | bget fails exactly when the block is not cached and every buffer is referenced |
| `Bio.HolderSees` | xv6-Lazy-Allocation/kernel/bio.c:93-103 | whoever holds a valid buffer sees the contents of its block |
| `Bio.StepFlat` | xv6-Lazy-Allocation/kernel/bio.c:58-151 | a step changes the contents of a block only if it is a store to that block by its holder |
| `Bio.RunFlat` | xv6-Lazy-Allocation/kernel/bio.c:58-151 | over every run a block has the contents last stored to it, whatever was recycled, written back or read again in between |
| `Bio.FreshInv` | xv6-Lazy-Allocation/kernel/bio.c:37-53 | the empty cache satisfies the invariant and shows the disk |
| `Bio.PutKeeps` | xv6-Lazy-Allocation/kernel/bio.c:117-137 | brelse keeps the invariant and never takes a count below zero |
| `BioCode.Binit` | xv6-Lazy-Allocation/kernel/bio.c:37-53 | the list built by binit links all buffers |
| `BioCode.BufferCache.MoveToFront` | xv6-Lazy-Allocation/kernel/bio.c:117-137 | the pointer changes of brelse move one buffer to the front of the doubly linked list |
| `BioCode.BufferCache.Bget` | xv6-Lazy-Allocation/kernel/bio.c:59-89 | the two searches on the linked list do what the step of the machine does |
| `BioCode.BufferCache.Bread` | xv6-Lazy-Allocation/kernel/bio.c:93-103 | the value returned is the contents of the block, and no block changes |
| `BioCode.BufferCache.Brelse` | xv6-Lazy-Allocation/kernel/bio.c:117-137 | release drops the reference and reorders the list |
| `BioCode.BufferCache.Bpin` | xv6-Lazy-Allocation/kernel/bio.c:140-144 | a pinned buffer keeps a reference |
| `BioCode.BufferCache.Bunpin` | xv6-Lazy-Allocation/kernel/bio.c:147-151 | unpinning gives the reference back |
| `Pager.HeapReadsLastStore` | xv6-Lazy-Allocation/kernel/vm.c:109-285 | over every run of faults, write traps, stores, growth, evictions and swap-ins a heap byte of a resident page is the last byte stored there, or zero |
| `Pager.HeapByteCanBeLost` | xv6-Lazy-Allocation/kernel/vm.c:109-156 | without a free frame and a resident page at the faults a stored heap byte is gone: its page comes back as zeros |
| `Pager.StepFlat` | xv6-Lazy-Allocation/kernel/vm.c:109-285 | each step keeps the invariant and changes a page only by a store to it |
| `Pager.RunFlat` | xv6-Lazy-Allocation/kernel/vm.c:109-285 | pages of a process read as flat memory after every run, except those of writable program segments |
| `Pager.RunFifo` | xv6-Lazy-Allocation/kernel/vm.c:109-158 | pages leave in exactly the order in which they became resident |
| `Pager.VictimIsNext` | xv6-Lazy-Allocation/kernel/vm.c:112-120 | the search finds the page admitted longest ago among those not yet evicted |
| `Pager.RunBookkeeping` | xv6-Lazy-Allocation/kernel/vm.c:18-48 | no page is listed twice, used slots and swapped pages match one to one, and the lowest free slot is never past the end of the swap file |
| `Pager.SlotFits` | xv6-Lazy-Allocation/kernel/vm.c:18-36 | the lowest free slot is at most the number of pages in the swap file |
| `Pager.FaultCountsIff` | xv6-Lazy-Allocation/kernel/vm.c:109-189 | a fault keeps the resident counter and the lists right if and only if a frame is free or a page is resident |
| `Pager.RunCountsIff` | xv6-Lazy-Allocation/kernel/vm.c:37-158 | over every run the counter is right if and only if no fault met empty memory and an empty resident list |
| `Pager.FirstFaultStarved` | xv6-Lazy-Allocation/kernel/vm.c:109-158 | the first fault of a process without free frames kills it, or, if a frame turns up meanwhile, records its page outside the array |
| `Pager.EvictPreservesIff` | xv6-Lazy-Allocation/kernel/vm.c:109-158 | eviction preserves what a page reads as if and only if it is not the victim, or is dirty, or still has its initial contents |
| `Pager.ProgramDataCanBeLost` | xv6-Lazy-Allocation/kernel/vm.c:243-262 | a page of a writable program segment is stored to and evicted, and the store is gone |
| `Pager.TrapKeeps` | xv6-Lazy-Allocation/kernel/trap.c:80-114 | the write trap keeps the invariant and what every page reads as |
| `Pager.FaultIs` | xv6-Lazy-Allocation/kernel/vm.c:164-285 | which faults are served, and what the page table, the lists and the page are afterwards, said of the states alone |
| `Pager.NeverBlocked` | xv6-Lazy-Allocation/kernel/vm.c:164-285 | a living process can fault at any address and write to any mapped page |
| `PagerCode.Process.SwapAllocatedSlot` | xv6-Lazy-Allocation/kernel/vm.c:18-26 | the lowest free slot, marked, or none |
| `PagerCode.Process.AddToResidentSet` | xv6-Lazy-Allocation/kernel/vm.c:37-48 | the page is appended with the next sequence number; a counter below zero writes before the array |
| `PagerCode.Process.FindVictim` | xv6-Lazy-Allocation/kernel/vm.c:112-117 | the loop finds the smallest sequence number |
| `PagerCode.Process.EvictPage` | xv6-Lazy-Allocation/kernel/vm.c:109-158 | eviction of the oldest page, swapping it out if dirty, with its failures |
| `PagerCode.Process.EvictNothing` | xv6-Lazy-Allocation/kernel/vm.c:109-158 | eviction from an empty resident list, which uses what entry 0 was left with |
| `PagerCode.Process.HandlePgfault` | xv6-Lazy-Allocation/kernel/vm.c:164-285 | the code is the fault of the model; it returns 0 exactly if room can be made and the page is in the swap file or belongs to the process and is unmapped; then the page is mapped with its slot, its part of the executable or zeros, newest in the list, dirty exactly if it was swapped, and out of the swap list |
| `PagerCode.Process.TrapOnWrite` | xv6-Lazy-Allocation/kernel/trap.c:80-114 | the write is granted and the page marked dirty exactly if it belongs to the heap or to a writable segment; otherwise the process is killed |
| `SwapFile.SplicePages` | xv6-Lazy-Allocation/kernel/vm.c:27-36 | a page spliced into a file of whole pages writes or adds exactly that slot |
| `SwapFile.SwapWritePage` | xv6-Lazy-Allocation/kernel/vm.c:27-36 | through writei: the slot written or added and nothing else, at most MAXOPBLOCKS blocks logged; it fails only past the end of the file or on a full disk |
| `SwapFile.SwapReadPage` | xv6-Lazy-Allocation/kernel/vm.c:212-220 | through readi: without holes the whole page of the slot, and nothing changes |
| `SwapFile.SwapOutPage` | xv6-Lazy-Allocation/kernel/vm.c:124-146 | a page sent to the lowest free slot is never rejected, fails only on a full disk, reads back, and leaves the slot bookkeeping right for the real file |
| `PageTable.PteFields` | xv6-Lazy-Allocation/kernel/riscv.h:358-369 | the frame and flags put into an entry are the ones read from it |
| `PageTable.IndicesDetermine` | xv6-Lazy-Allocation/kernel/riscv.h:371-380 | the three 9-bit indices determine a page below MAXVA |
| `PageTable.WalkKeeps` | xv6-Lazy-Allocation/kernel/vm.c:364-381 | walk leaves every translation, adds only empty tables taken from the free list, and fails only when memory is out |
| `PageTable.SetLeafFlat` | xv6-Lazy-Allocation/kernel/vm.c:412-440 | writing a leaf changes the translation of that page and of no other |
| `PageTable.MapOneKeeps` | xv6-Lazy-Allocation/kernel/vm.c:412-440 | mapping one page is a flat-map update, or leaves the flat map |
| `PageTable.UnmapOneReturns` | xv6-Lazy-Allocation/kernel/vm.c:459-478 | unmapping one page without freeing clears it and gives up its frame, and touches no other |
| `PageTable.FillOneKeeps` | xv6-Lazy-Allocation/kernel/vm.c:483-506 | allocating and mapping one page conserves frames, also when the mapping fails |
| `PageTable.OtherKept` | xv6-Lazy-Allocation/kernel/vm.c:562-589 | what is done to one page table leaves a disjoint one, its pages and its frames |
| `VmCode.Memory.Freerange` | xv6-Lazy-Allocation/kernel/kalloc.c:34-40 | the free list grows by exactly the frames of the range, each once |
| `VmCode.Memory.Walk` | xv6-Lazy-Allocation/kernel/vm.c:364-381 | the loop descends as the tree does |
| `VmCode.Memory.Mappages` | xv6-Lazy-Allocation/kernel/vm.c:412-440 | the pages up to where it stopped are mapped to consecutive frames, everything else is kept, it succeeds exactly if it got to the end, and fails only at a page already mapped or without a frame for a table |
| `VmCode.Memory.Uvmunmap` | xv6-Lazy-Allocation/kernel/vm.c:459-478 | the range is gone, the rest kept, and its frames are free again |
| `VmCode.Memory.Uvmdealloc` | xv6-Lazy-Allocation/kernel/vm.c:513-524 | shrinking unmaps exactly the pages above the new size |
| `VmCode.Memory.Uvmalloc` | xv6-Lazy-Allocation/kernel/vm.c:483-506 | growing fills the new pages with zeros and the asked permissions, or puts everything back; frames are conserved; it fails only at a page already mapped or with at most one frame left, and never with three frames for each page |
| `VmCode.Memory.Uvmcopy` | xv6-Lazy-Allocation/kernel/vm.c:562-589 | the child gets a copy of every page below the size, pages the parent has not touched are skipped, the parent is untouched; on failure the pages copied so far are undone; it fails only at a page of the parent that the child has already or with at most one frame left, and never with three frames for each page and an empty child |
| `VmCode.Memory.Uvmcreate` | xv6-Lazy-Allocation/kernel/vm.c:445-453 | a new table holds one frame and disturbs no other page table |
| `VmCode.Memory.Freewalk` | xv6-Lazy-Allocation/kernel/vm.c:529-543 | all tables below a node are given back, each once |
| `VmCode.Memory.Uvmfree` | xv6-Lazy-Allocation/kernel/vm.c:548-553 | every frame of the page table is free again, except those of pages mapped at or above the size |
| `VmCode.LifeConserved` | xv6-Lazy-Allocation/kernel/vm.c:445-553 | from uvmcreate to uvmfree exactly the frames that were free are free again, except stranded ones, whatever kept its frames in between |
| `VmCode.Memory.Perform` | xv6-Lazy-Allocation/kernel/vm.c:459-589 | every call on a page table keeps its frames in its own hands or on the free list, and leaves the page table it was forked from alone |
| `VmCode.Memory.Life` | xv6-Lazy-Allocation/kernel/vm.c:445-589 | a page table is created, any calls are made on it in any order, faults and copies among them, and it is freed: the free frames are those there were before, except stranded ones |
| `VmCode.Memory.LoseFrame` | xv6-Lazy-Allocation/kernel/vm.c:222-276 | a fault that maps a page at or above the process size leaves exactly that page's frame behind when the page table is freed |
| `FileBlocks.FreeIsUnowned` | xv6-Lazy-Allocation/kernel/fs.c:66-106 | a clear bit means a block that no file owns and that is not metadata |
| `FileBlocks.WordOfPut` | xv6-Lazy-Allocation/kernel/fs.c:430-439 | an entry stored in an indirect block is read back, the others unchanged |
| `FileBlocks.BmapKeeps` | xv6-Lazy-Allocation/kernel/fs.c:405-444 | bmap keeps ownership and every byte of every file, changes nothing if the block is there, and fails only on a full disk |
| `FileBlocks.BmapOnly` | xv6-Lazy-Allocation/kernel/fs.c:405-444 | bmap adds at most the one block and the indirect block of that file |
| `FileBlocks.SpliceSplice` | xv6-Lazy-Allocation/kernel/fs.c:529-562 | consecutive splices are one |
| `FileCode.FileSystem.Balloc` | xv6-Lazy-Allocation/kernel/fs.c:67-89 | the lowest free block, zeroed and marked, never metadata and never block 0 |
| `FileCode.FileSystem.Bfree` | xv6-Lazy-Allocation/kernel/fs.c:93-106 | one bit is cleared; freeing a free block is the panic |
| `FileCode.FileSystem.Bmap` | xv6-Lazy-Allocation/kernel/fs.c:406-444 | the code follows direct and indirect references as the model does, and logs the blocks it changes, all of them and no others, but for the inode |
| `FileCode.FileSystem.Itrunc` | xv6-Lazy-Allocation/kernel/fs.c:449-476 | the file is empty, exactly its blocks are free, other files keep their bytes, no free block is freed, no hole appears, and every changed block is logged |
| `FileCode.FileSystem.Readi` | xv6-Lazy-Allocation/kernel/fs.c:495-519 | what is returned is the slice of the file cut to its size and to the request; without holes the whole slice, and nothing is allocated; with holes a short read means a full disk |
| `FileCode.FileSystem.Writei` | xv6-Lazy-Allocation/kernel/fs.c:529-562 | the bytes are spliced into the file and into no other, a short write means a full disk, no hole appears, every changed block is logged, and how many is bounded |
| `FileCode.FileSystem.Filewrite` | xv6-Lazy-Allocation/kernel/file.c:149-173 | writes in transactions splice one after the other, the offset moves past what went in, all is reported only if all went in, and it stops short only on a full disk or at a chunk that writei refuses; past the end of the file nothing goes in |
| `FileCode.FileSystem.FilewriteTurn` | xv6-Lazy-Allocation/kernel/file.c:149-173 | one transaction logs at most MAXOPBLOCKS blocks, is refused exactly if out of range, and is short only on a full disk |
| `FileCode.ChunkFitsLog` | xv6-Lazy-Allocation/kernel/file.c:149-158 | the chunk size of filewrite keeps a transaction within MAXOPBLOCKS |
| `Mkfs.Image.ImageEnd` | xv6-Lazy-Allocation/mkfs/mkfs.c:214-220 | a sector can be read as long as the image is not full; past its end mkfs dies |
| `Mkfs.Image.Iappend` | xv6-Lazy-Allocation/mkfs/mkfs.c:255-296 | the bytes go to the end of one file, files have blocks exactly below their size; it stops only on a full image or a file too long |
| `Mkfs.Image.FixRootSize` | xv6-Lazy-Allocation/mkfs/mkfs.c:165-170 | afterwards the root directory has a hole if and only if its entries filled their last block; other files are kept |
| `Mkfs.RootSizeFix` | xv6-Lazy-Allocation/mkfs/mkfs.c:165-170 | rounding the size up leaves a hole if and only if it was a multiple of the block size |
| `Mkfs.SixtyTwoFiles` | xv6-Lazy-Allocation/mkfs/mkfs.c:165-170 | with 62 files the root directory claims a second block that does not exist |
| `Mkfs.Image.Finish` | xv6-Lazy-Allocation/mkfs/mkfs.c:237-250 | the bitmap bytes mark exactly the blocks handed out |
| `Mkfs.AddFile` | xv6-Lazy-Allocation/mkfs/mkfs.c:158-159 | a file read block by block arrives whole |
| `Mkfs.Build` | xv6-Lazy-Allocation/mkfs/mkfs.c:69-175 | every file given is in the image with its contents, the root directory starts with all entries, and only it can have a hole |
| `Mkfs.Boot` | xv6-Lazy-Allocation/mkfs/mkfs.c:69-175 | the kernel starts on those files, with block ownership intact, and without holes exactly if the root directory has none; otherwise mkfs dies |
| `Umalloc.Circular` | xv6-Lazy-Allocation/user/umalloc.c:24-44 | from every free block the list reaches every other |
| `Umalloc.VisitAll` | xv6-Lazy-Allocation/user/umalloc.c:74-89 | the search has seen every free block when it is back where it began |
| `Umalloc.FreeKeeps` | xv6-Lazy-Allocation/user/umalloc.c:24-44 | insertion with merging on both sides keeps the list circular and in address order, the blocks apart and the arena tiled if and only if the merged block is below 2^32 units; then no two free blocks are adjacent |
| `Umalloc.ArenaFits` | xv6-Lazy-Allocation/user/umalloc.c:33-43 | a merged block is never larger than the arena, so an arena below 2^32 units never loses memory |
| `Umalloc.FreeLoses` | xv6-Lazy-Allocation/user/umalloc.c:33-43 | a block merged to 2^32 units or more leaves part of the arena in no block |
| `UmallocCode.Heap.FindPlace` | xv6-Lazy-Allocation/user/umalloc.c:29-32 | the search loop ends, between the neighbours of the block |
| `UmallocCode.Heap.Coalesce` | xv6-Lazy-Allocation/user/umalloc.c:33-43 | the pointer changes of free insert and merge the block, sizes wrapping at 2^32 |
| `UmallocCode.Heap.Free` | xv6-Lazy-Allocation/user/umalloc.c:24-44 | exactly that block is no longer live and live contents are kept; the heap stays sound if and only if the merged block is below 2^32 units, and then room for its size is left |
| `UmallocCode.Heap.Morecore` | xv6-Lazy-Allocation/user/umalloc.c:46-61 | the arena grows by the region sbrk returned, or nothing changes; memory is lost if and only if the region merges to 2^32 units or more |
| `UmallocCode.Heap.Search` | xv6-Lazy-Allocation/user/umalloc.c:74-89 | first fit from the roving pointer; it ends with a block, or with no memory |
| `UmallocCode.Heap.Take` | xv6-Lazy-Allocation/user/umalloc.c:75-85 | the block is taken whole or from the tail of a larger one |
| `UmallocCode.Heap.Malloc` | xv6-Lazy-Allocation/user/umalloc.c:63-90 | a new block of the asked size that overlaps no live one, with live contents kept; without room it grows the arena, returns null, asks sbrk for a wrapped size or loses memory to a wrapped block, each exactly when stated |
| `UmallocCode.LoseMemory` | xv6-Lazy-Allocation/user/umalloc.c:24-90 | 33 blocks of 2147483600 bytes, each got from malloc, freed in order: the first header says 134217662 units of an arena of 4429184958 |
| `UmallocCode.Heap.Store` | xv6-Lazy-Allocation/user/umalloc.c:63-90 | a user store inside a live block cannot damage the allocator |
| `Shell.LineWellFormed` | xv6-Lazy-Allocation/user/sh.c:350-452 | whatever the parser returns is a well-formed command |
| `Shell.RoundTrip` | xv6-Lazy-Allocation/user/sh.c:333-452 | the tokens printed for a command parse back to it |
| `Shell.ParsedRoundTrip` | xv6-Lazy-Allocation/user/sh.c:333-452 | printing and parsing again what was parsed gives the same command |
| `Shell.LexText` | xv6-Lazy-Allocation/user/sh.c:271-314 | the text written for tokens is scanned back into them |
| `Shell.TextRoundTrip` | xv6-Lazy-Allocation/user/sh.c:271-452 | the text printed for a well-formed command is read back as that command |
| `Shell.ReadTwice` | xv6-Lazy-Allocation/user/sh.c:271-452 | any line that parses can be printed and read again with the same result |
| `ShellGrammar.Accepts` | xv6-Lazy-Allocation/user/sh.c:334-452 | a line of tokens is accepted with a command exactly if the whole of it is written by a tree of the grammar that means the command |
| `ShellGrammar.Rejects` | xv6-Lazy-Allocation/user/sh.c:334-452 | it is rejected exactly if it derives no command, and each error names what is in the tokens: a redirection without a file, a parenthesis after a word, ten words, a parenthesis not closed, or more after a line |
| `ShellGrammar.LineIff` | xv6-Lazy-Allocation/user/sh.c:351-365 | parseline stops after a line that what follows does not continue, and nowhere else |
| `ShellGrammar.LexIff` | xv6-Lazy-Allocation/user/sh.c:268-314 | a text is read as exactly the tokens it is written with, gaps of white space between them where two would stick together |
| `ShellCode.GetToken` | xv6-Lazy-Allocation/user/sh.c:271-314 | the cursor moves over the first token and returns its kind and bounds |
| `ShellCode.Peek` | xv6-Lazy-Allocation/user/sh.c:316-326 | peek says whether the next token begins with one of the characters, and consumes only blanks |
| `ShellCode.ReadRedirs` | xv6-Lazy-Allocation/user/sh.c:380-403 | the loop wraps the command in the redirections that follow, or fails for a missing file name |
| `ShellCode.ReadSimple` | xv6-Lazy-Allocation/user/sh.c:421-452 | the argument vector filled in place holds the words, limited to MAXARGS |
| `ShellCode.ReadExec` | xv6-Lazy-Allocation/user/sh.c:421-452 | a block or a simple command, as the grammar says |
| `ShellCode.ReadBlock` | xv6-Lazy-Allocation/user/sh.c:405-419 | a parenthesised line with its redirections |
| `ShellCode.ReadPipe` | xv6-Lazy-Allocation/user/sh.c:367-378 | pipes nest to the right |
| `ShellCode.ReadLine` | xv6-Lazy-Allocation/user/sh.c:350-365 | pipes, then background marks, then the rest of the list |
| `ShellCode.ReadCmd` | xv6-Lazy-Allocation/user/sh.c:333-348 | on every text it ends with a command exactly if the whole text is a line of the grammar that means it, and otherwise with an error and what is wrong; leftovers exactly if more follows a line that cannot be continued |
| `Grep.MatchStar` | xv6-Lazy-Allocation/user/grep.c:99-106 | some number of repetitions, then the rest, begins the text |
| `Grep.MatchHere` | xv6-Lazy-Allocation/user/grep.c:85-96 | the pattern matches a beginning of the text |
| `Grep.Match` | xv6-Lazy-Allocation/user/grep.c:73-82 | the matcher accepts exactly the texts in the language of the pattern |
| `Grep.Scan` | xv6-Lazy-Allocation/user/grep.c:21-29 | the inner loop prints exactly the matching lines that are complete in the buffer |
| `Grep.Turn` | xv6-Lazy-Allocation/user/grep.c:11-35 | one read moves the buffer along without losing or repeating a line |
| `Grep.GrepFile` | xv6-Lazy-Allocation/user/grep.c:11-35 | whatever the sizes of the reads, the output is the matching lines that fit the buffer |
| `Virtio.InFlight` | xv6-Lazy-Allocation/kernel/virtio_disk.c:156-166 | in every run each descriptor is free or in exactly one chain of three, so at most NUM / 3 requests are in flight and the rings have room for all of them |
| `Virtio.NoneStuck` | xv6-Lazy-Allocation/kernel/virtio_disk.c:216-327 | a request in flight can always move on: taken, completed, noticed or given back |
| `Virtio.FreesItsChain` | xv6-Lazy-Allocation/kernel/virtio_disk.c:185-197 | freeing a chain frees its three descriptors and no others |
| `Virtio.StepRefines` | xv6-Lazy-Allocation/kernel/virtio_disk.c:156-327 | each step of driver and device is a step of a plain set of requests |
| `Virtio.RunRefines` | xv6-Lazy-Allocation/kernel/virtio_disk.c:156-327 | over every run, descriptor chains, rings with wrapping indices and reused heads behave as a plain set of requests |
| `Virtio.RequestReturns` | xv6-Lazy-Allocation/kernel/virtio_disk.c:215-292 | a request that returns was completed by the device exactly once: a read left its block in the buffer, and a write put on the block what the buffer held, unless another has written it since |
| `VirtioCode.Disk.AllocDesc` | xv6-Lazy-Allocation/kernel/virtio_disk.c:156-166 | the lowest free descriptor, or none is free |
| `VirtioCode.Disk.FreeDesc` | xv6-Lazy-Allocation/kernel/virtio_disk.c:169-182 | one descriptor is cleared and freed; a bad or free one is the panic |
| `VirtioCode.Disk.FreeAll` | xv6-Lazy-Allocation/kernel/virtio_disk.c:185-197 | the loop follows the chain to its end |
| `VirtioCode.Disk.Alloc3Desc` | xv6-Lazy-Allocation/kernel/virtio_disk.c:201-213 | three descriptors, or all put back |
| `VirtioCode.Disk.Publish` | xv6-Lazy-Allocation/kernel/virtio_disk.c:235-279 | the chain is formatted before it is published |
| `VirtioCode.Disk.Request` | xv6-Lazy-Allocation/kernel/virtio_disk.c:215-279 | either a request is queued or no three descriptors are free |
| `VirtioCode.Disk.Intr` | xv6-Lazy-Allocation/kernel/virtio_disk.c:294-327 | every completed request is noticed once, in order, and its buffer is no longer busy |
| `VirtioCode.Disk.Done` | xv6-Lazy-Allocation/kernel/virtio_disk.c:283-292 | the waiting caller gives its chain back |
| `SleepLock.NextKeeps` | xv6-Lazy-Allocation/kernel/proc.c:467-654 | every step of every CPU keeps the invariant of locks, states, sleepers and sleep locks |
| `SleepLock.OneCpu` | xv6-Lazy-Allocation/kernel/proc.c:467-506 | no process runs on two CPUs |
| `SleepLock.SchedChecks` | xv6-Lazy-Allocation/kernel/proc.c:515-533 | whoever switches to the scheduler holds its own lock and no other and is not running, so sched never panics |
| `SleepLock.NoLostWakeup` | xv6-Lazy-Allocation/kernel/proc.c:585-630 | in every run, whoever sleeps on a channel waits for a condition that is false, or whose wakeup has not begun, or a wakeup has not yet come to them; for any number of channels, locks, processes and CPUs |
| `SleepLock.WakesAll` | xv6-Lazy-Allocation/kernel/proc.c:616-630 | a finished wakeup leaves nobody asleep on its channel until the lock is released |
| `SleepLock.NobodyLeftAsleep` | xv6-Lazy-Allocation/kernel/proc.c:585-630 | if every critical section that makes a condition true wakes its channel, nobody sleeps on a true condition whose lock is free |
| `SleepLock.MutualExclusion` | xv6-Lazy-Allocation/kernel/sleeplock.c:21-41 | at most one process has a sleep lock, and the lock names it |
| `SleepLock.AcquireSleep` | xv6-Lazy-Allocation/kernel/sleeplock.c:22-32 | a free sleep lock is taken, a taken one is slept for, and not otherwise |
| `SleepLock.ReleaseSleep` | xv6-Lazy-Allocation/kernel/sleeplock.c:34-42 | the owner frees the lock and can start the wakeup |
| `SleepLock.WakesOne` | xv6-Lazy-Allocation/kernel/proc.c:617-630 | at each process the wakeup makes a sleeper on its channel runnable and leaves every other process |
| `SleepLock.SchedulerRuns` | xv6-Lazy-Allocation/kernel/proc.c:468-506 | a runnable process that a CPU looks at, with its lock free, is running two steps later |
| `SleepLock.SchedulerGoesRound` | xv6-Lazy-Allocation/kernel/proc.c:468-506 | a CPU that finds nothing to run lets the lock go and looks at the next process |
| `SleepLock.KillWakes` | xv6-Lazy-Allocation/kernel/proc.c:636-654 | a killed process does not stay asleep, and nobody else is woken |
| `SleepLock.CarelessExit` | xv6-Lazy-Allocation/kernel/pipe.c:84-87 | a critical section that makes a condition true and leaves without a wakeup, as pipewrite does when killed, leaves its sleepers asleep |
| `SleepLock.ReaderLeftAsleep` | xv6-Lazy-Allocation/kernel/pipe.c:76-135 | a run from a fresh system of two processes on two CPUs that ends so: the reader asleep, the lock free, the pipe not empty, nobody waking |
| `SleepLock.ReleaseIff` | xv6-Lazy-Allocation/kernel/pipe.c:84-87 | releasing the lock of a channel leaves a sleeper behind with a true condition and no waker if and only if a wakeup was due |
| `Pipe.EmptyAndFull` | xv6-Lazy-Allocation/kernel/pipe.c:88-114 | the two counter tests mean empty and full, also after the counters wrap |
| `Pipe.Put` | xv6-Lazy-Allocation/kernel/pipe.c:96-97 | a byte stored at the write counter comes last in the ring |
| `Pipe.Take` | xv6-Lazy-Allocation/kernel/pipe.c:121-131 | the byte at the read counter is the oldest |
| `Pipe.PipeBuffer.Write` | xv6-Lazy-Allocation/kernel/pipe.c:76-104 | the bytes put are those of the source in order; it is refused, sleeps, fails or ends exactly if the read end, a kill, a full pipe, the source or the count say so, and no byte is put after a closed read end, a kill or a bad address |
| `Pipe.PipeBuffer.Read` | xv6-Lazy-Allocation/kernel/pipe.c:121-131 | the bytes got are the oldest of those put, as many as there are, as asked for and as the destination takes |
| `Pipe.PipeBuffer.Piperead` | xv6-Lazy-Allocation/kernel/pipe.c:106-135 | it waits if and only if the pipe is empty and can be written, fails if and only if killed there or the first byte cannot be copied, and returns 0 only at the end of the stream |
| `Pipe.Session` | xv6-Lazy-Allocation/kernel/pipe.c:58-135 | after each of any calls of pipewrite, piperead and pipeclose, in any order, the bytes read are the first of those written, in order, and at most 512 are left |
| `Pipe.PipeBuffer.Close` | xv6-Lazy-Allocation/kernel/pipe.c:58-74 | one end is closed, and the pipe is gone when both are |
| `Bakery.Queue.Enqueue` | Concurrent-Bakery-Sim/main.c:76-87 | the item comes last, or the queue is full and unchanged |
| `Bakery.Queue.Dequeue` | Concurrent-Bakery-Sim/main.c:89-100 | the oldest item, or none |
| `Bakery.Conservation` | Concurrent-Bakery-Sim/main.c:109-189 | in every run free slots and customers inside add up to 25, and no queue is full when a customer is put into it |
| `Bakery.OneStage` | Concurrent-Bakery-Sim/main.c:109-189 | in every run an admitted and queued customer is in exactly one stage |
| `Bakery.ServedInOrder` | Concurrent-Bakery-Sim/main.c:109-146 | customers are served in the order they asked, each at most once |
| `Bakery.LeavesAfterPaying` | Concurrent-Bakery-Sim/main.c:179-189 | nobody leaves before baking and payment, and baking comes first |
| `Bakery.OneRegister` | Concurrent-Bakery-Sim/main.c:122-125 | one chef at a time has the cash register |
| `Bakery.Admission` | Concurrent-Bakery-Sim/main.c:148-176 | in every run a customer is turned away exactly if 25 are inside, and sits exactly if nobody stands and a seat is free |
| `Bakery.QuietIsOver` | Concurrent-Bakery-Sim/main.c:109-189 | when no step of anybody changes anything, everyone has left or was turned away, or somebody stands and nobody is left to call them |
| `Bakery.CalledIff` | Concurrent-Bakery-Sim/main.c:109-176 | in every run whoever stands first can still be called if and only if somebody is on the sofa, about to sit or with a chef, or a chef is about to call |
| `Bakery.StrandedForever` | Concurrent-Bakery-Sim/main.c:127-176 | those who stand then stand for ever, whoever else comes |
| `Bakery.FifthStranded` | Concurrent-Bakery-Sim/main.c:109-176 | a run of one chef that gets there: all who sit have paid, and the fifth comes before a seat is given back |
| `Bakery.SeatLaw` | Concurrent-Bakery-Sim/main.c:127-185 | in every run the free seats and those who hold one add up to four and all who were called from standing; more than four sit if and only if more have been called than seats are free, and the semaphore is above four if and only if more have been called than hold a seat |
| `Bakery.FiveSit` | Concurrent-Bakery-Sim/main.c:127-185 | a run of six customers and one chef in which five sit on four seats, before anyone who stood has left |
| `Bakery.FiveFree` | Concurrent-Bakery-Sim/main.c:127-185 | a run in which the seat semaphore reaches five |

## Findings

Properties one would expect of the code that are false, each with an input and the exact condition.

- The log: log_write never panics within the quotas. `Wal.AbsorbedWriteCanPanic` fills the header with three operations and rewrites a block that is already logged. `Wal.LogWritePanics`: it panics if and only if the header is full.
- Paging: what a page reads as survives eviction. `Pager.ProgramDataCanBeLost` stores to a page of a writable program segment, which is mapped writable at once and never marked dirty, and evicts it. `Pager.EvictPreservesIff`: a page survives if and only if it is not the victim, or is dirty, or still has its initial contents.
- Paging: a fault keeps the resident list. `Pager.FirstFaultStarved` takes the first fault of a process when no frame is free. `Pager.FaultCountsIff` and `Pager.RunCountsIff`: the list and its counter stay right if and only if every fault finds a free frame or a resident page.
- mkfs: no file has a hole. `Mkfs.SixtyTwoFiles` gives 62 files. `Mkfs.RootSizeFix`, `Mkfs.Image.FixRootSize` and `Mkfs.Build`: only the root directory can have one, if and only if its entries fill their last block.
- malloc: without room it either grows or returns null. `UmallocCode.Heap.Malloc`: without room the argument of sbrk, an int, is not the size needed if and only if at least 2^31 - 31 bytes are asked for; it is negative then, or 0 or 16 for the last few sizes.
- malloc and free: every unit of the arena is in one block. `UmallocCode.LoseMemory` frees 33 blocks that merge to more than 2^32 units. `Umalloc.FreeKeeps`, `UmallocCode.Heap.Free` and `UmallocCode.Heap.Morecore`: it holds after a free if and only if the merged block is below 2^32 units, which an arena below 2^32 units makes sure of (`Umalloc.ArenaFits`).
- uvmfree: all frames come back. `VmCode.Memory.LoseFrame` creates a page table, faults on a page at or above the size and frees it; sbrk below the start of the heap and a touch of the program segment above the new size lead there. `VmCode.Memory.Uvmfree` and `VmCode.Memory.Life`: all come back but those of pages mapped at or above the given size.
- Paging: the heap reads as it was stored. `Pager.HeapByteCanBeLost` stores to a page that a starved fault recorded outside the list, and two starved faults later it is gone. `Pager.HeapReadsLastStore`: it holds in every run whose faults find a free frame or a resident page.
- sleep and wakeup: with the lock free, nobody sleeps on a true condition. `SleepLock.CarelessExit` is the early return of pipewrite, and `SleepLock.ReaderLeftAsleep` a run that gets there. `SleepLock.ReleaseIff`: a sleeper is left behind if and only if the lock is released with a wakeup due, and `SleepLock.NobodyLeftAsleep` says that this never happens if nobody releases it so.
- The bakery: at most four sit, and the seat semaphore never exceeds four. `Bakery.FiveSit` and `Bakery.FiveFree` are runs where they do. `Bakery.SeatLaw`: more than four sit if and only if more customers have been called from standing than seats are free, and the semaphore is above four if and only if more have been called than hold a seat.
- The bakery: everyone who is let in is served. `Bakery.FifthStranded` is a run after which a standing customer is never called, and `Bakery.StrandedForever` says so of every continuation. `Bakery.CalledIff`: whoever stands first can still be called if and only if somebody is on the sofa, about to sit or with a chef, or a chef is about to call. `Bakery.QuietIsOver`: that is the only way for the shop to get stuck.

## Left out

- Terminal-Packet-Sniffer, the console, printing, strings, directories, paths, boot and assembly: they would add easier members.
- Locks are atomic steps, and spinning is not modelled; a process holds at most one spin lock beside process locks, so nested spin locks (kwait, kexit) are not.
- Conditions are one truth value a channel, so sys_pause, whose sleepers wait for different times, is not covered; interrupt handlers that call wakeup are steps of the process they interrupt, not of an idle CPU.
- A file-system call changes the buffers and in-core inodes in one step; in `CrashFiles` its log_writes are steps of their own and calls of several open operations alternate, but two calls are never in the middle at once.
- The on-disk format leaves out inode types and link counts, so ialloc and iput are not calls of `CrashFiles`; a disk with more than one bitmap block is outside `KernelCode`, as mkfs makes none.
- The nested begin_op in kexit: operations are not nested.
- FileCode.FileSystem.Readi: copies to user memory succeed; the error paths of copies are modelled in the pipe only.
- FileCode.FileSystem.Writei: copies from user memory succeed, so a short write is a full disk.
- Paging follows one process that neither forks nor shrinks; frames of other processes come and go in a step of their own.
- Paging stops before the sequence number of admissions would pass 2^31 - 1, which overflows in the code.
- Pager.HeapReadsLastStore: is about runs in which every fault finds a free frame or a resident page, since without that it is false (`Pager.HeapByteCanBeLost`).
- The kernel page table, TLB flushes and the trampoline pages.
- Mkfs.Build: takes at most as many files as there are inodes, since mkfs counts inodes without a limit; what the image holds after mkfs dies is not described.
- Mkfs: inode types, link counts and byte order; names in directory entries are any 16 bytes.
- UmallocCode.Heap.Malloc: follows a request of 2^31 - 31 bytes or more only to the wrapped argument of sbrk, not to what sbrk does with it, and a heap only up to the first size that wraps.
- Shell: nulterminate and the sharing of nodes between commands; commands are values. Running commands is left out.
- Grep.GrepFile: takes input without zero bytes, which the code would treat as ends of lines.
- Virtio: the device always completes a request with status 0, as the handler demands; a device that reports an error is not modelled, and "Intr never panics" rests on that. Initialisation of the device is left out.
- Bio: requests for device 0, which fresh buffers carry; that bget never runs out of buffers does not follow from the log bound and is not claimed.
- The pipe: that readers and writers make progress; copying out fails at a given byte.
- The bakery: times.
