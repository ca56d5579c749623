# TuixOS: kernel memory, scheduler and disk image builder

A Dafny model of the parts of TuixOS (a 32-bit x86 teaching kernel) that hold
state across functions, with proofs about them:

* **Memory** (`Options`, `Bits`, `Mmu`, `Kalloc`, `Vm`, `MapRuns`, `KernelSpace`, `UserSpace`, `Boot`,
  `FirstProcess`).
  Physical memory is one array of page frames of 1024 words. The free list of
  `kalloc.c` is threaded through the free frames themselves; page directories,
  page tables and user pages live in the same array, and pointers are 32-bit words
  with wrap-around. `Lookup` is the flat view (page number to entry) of a two-level
  directory, and the lemmas say how each function changes that view, what becomes of
  every frame, and exactly when the functions fail; `MapRuns` carries this over any
  sequence of `walk_pgdir` and `map_pages` calls.
* **Disk image** (`FsLayout`, `Mkfs`, `Append`, `Image`, `RoundTrip`, `Stops`, `MkfsProgram`).
  The disk is an array of 1000 blocks of 512 bytes. `Owned` says which inode slot owns
  which block; `Contents` reads a file back through its pointers. `RoundTrip.MkfsCorrect`
  is the end-to-end result: when `mkfs` succeeds and what a reader then finds. `Stops` is
  what it leaves behind when it does not succeed. `MkfsProgram` is the program in imperative form, proved to do what these functions say.
* **Scheduling** (`Spinlock`, `Sched`, `SchedRuns`, `Wakeups`, `Fairness`, `Effects`).
  A transition system for one CPU and 64 processes. Each process's kernel thread and
  the scheduler's thread have a program counter inside `yield`, `sleep`, `wakeup`,
  `fork_ret` or `launch_first_proc`; interrupt handlers that call `wakeup` may come in
  whenever the interrupt flag is set. Results hold for every run.
* **Context switch and traps** (`Asm`, `Switch`, `Trap`). The instruction sequences of
  `switch.asm` and `trap.asm` on registers and memory.
* **The first process** (`ProcTable`, `ProcStart`). `init_user` on the process table and
  on physical memory, and the way from its table entry to user mode.
* **Decimal printing** (`DecimalString`): `int_to_str` on a character array.

Functions in the model compute what the C code computes, including its error exits.
Where the code works on state in place there is also a class with methods
(`PhysicalMemory`, `MkfsProgram.Builder`, `CpuState`, `SpinLock`, `ProcessTable`) whose
contracts equate the new state with those functions.

Three places where the code does less than its surroundings suggest, each with the
exact condition proved:

* `init_uvm` ignores the result of `map_pages` and of `kalloc`: it maps page 0 if and
  only if two frames are free (`UserSpace.InitUvmIff`). So `init_user` makes a process
  RUNNABLE from 66 free pages on (`ProcStart.UserReadyCases`), while its page 0 is mapped
  only from 68 on (`ProcStart.SpaceBuilt`, after the page for the kernel stack).
* `mkfs` rounds the root directory's size up past its last block when the entries fill
  their blocks exactly, so the last block is then read through a null pointer. It
  stays inside the allocated blocks if and only if the number of entries is not a
  multiple of 32 (`RoundTrip.RoundedRootAllocated`; thirty files are an example,
  `RoundTrip.RoundedRootNull`). The extra block reads as zeros from
  block 0, so the image still reads back.
* `int_to_str` negates the least 32-bit number to itself and prints a lone minus sign;
  it is right for every other number (`DecimalString.TextParsesIff`).

The comment beside the rounding in `tools/mkfs.c:274` says the size is aligned up to a
block; the code adds a block even when it is aligned already, and the model follows
the code.

## Model

| member | source | states |
|---|---|---|
| Mmu.MakePteFields | include/Tuix/mmu.h:13-26 | an entry `pa \| perm \| PTE_P` for an aligned frame gives back frame address, flags, W and U separately |
| Mmu.PdeBits | kernel/mm/vm.c:65 | the three ORs of a new directory entry set exactly the bits P, W, U above an aligned address |
| Mmu.IndexPair | include/Tuix/mmu.h:23-24 | PDX and PTX split a page number into directory slot and table slot |
| Mmu.PageBounds | include/Tuix/mmu.h:19-20 | PGROUNDUP is the first page boundary at or after an address (up to the last page), PGROUNDDOWN the last one at or before it |
| PageAllocator.AllocPops | kernel/mm/kalloc.c:34-40 | kalloc returns the head page and leaves exactly the rest of the list; null on an empty list |
| PageAllocator.FreePushes | kernel/mm/kalloc.c:42-53 | freeing a page that is not free puts it in front; it holds the link and then 0xdeadbeef; the chain in raw memory is again finite and without duplicates |
| PageAllocator.DoubleFreeCycle | kernel/mm/kalloc.c:42-53 | freeing a free page leaves no finite list at all |
| PageAllocator.FreeFiniteIff | kernel/mm/kalloc.c:42-53 | kfree leaves a finite list if and only if the page was not free |
| PageAllocator.RangeStep | kernel/mm/kalloc.c:27-32 | free_range pushes, once each, exactly the pages f with vstart <= f and f + 4096 <= vend |
| PageAllocator.StepSimulates | kernel/mm/kalloc.c:27-53 | one kalloc, kfree, free_range or client write on raw memory is one step on a list of free pages and a map of owned ones |
| PageAllocator.RunSimulates | kernel/mm/kalloc.c:27-66 | the same for every sequence: links stay acyclic, free and allocated pages stay apart, client data is kept |
| PageAllocator.StepConserves | kernel/mm/kalloc.c:27-53 | no page is lost or duplicated: known pages change only by those handed in |
| PageAllocator.PhysicalMemory.Kalloc | kernel/mm/kalloc.c:34-40 | on the real memory array, the result and new state of kalloc |
| PageAllocator.PhysicalMemory.Kfree | kernel/mm/kalloc.c:42-53 | for a page address, the fill loop and the link, as one new state |
| PageAllocator.PhysicalMemory.FreeRange | kernel/mm/kalloc.c:27-32 | the loop over the pages, without leaving RAM or wrapping |
| PageAllocator.PhysicalMemory.KmemSize | kernel/mm/kalloc.c:55-66 | terminates and returns 4096 times the list length, which fits 32 bits |
| Vm.WalkStep | kernel/mm/vm.c:44-70 | the three cases of walk_pgdir with allocation: existing table, no frame, new zeroed table entered with 7 |
| Vm.WalkLooks | kernel/mm/vm.c:44-70 | walk_pgdir without allocation changes nothing; null exactly when the page has no table, and otherwise the word it points to is the page's translation |
| Vm.WalkGrown | kernel/mm/vm.c:44-70 | a bare walk with allocation changes no translation, takes at most one frame, and returns the entry's address |
| Vm.NewTable | kernel/mm/vm.c:59-65 | adding a table keeps tables, directory and free pages in separate frames and changes no translation |
| Vm.SetEntry | kernel/mm/vm.c:34 | writing one entry changes exactly one translation and no other table |
| Vm.MapLoopCorrect | kernel/mm/vm.c:28-41 | map_pages maps exactly a prefix of the range to consecutive frames with the given flags; frames it took are all attached; which exit it takes says how long the prefix is |
| Vm.MapLoopIff | kernel/mm/vm.c:28-41 | it succeeds if and only if no page of the range is mapped and the list has enough frames for the missing tables |
| Vm.RangePageCount | kernel/mm/vm.c:24-25 | without overflow the loop makes (last - start)/4096 + 1 turns, also up to the top page |
| Vm.AddTable | kernel/mm/vm.c:59-65 | in-place form of the allocating branch, with no access outside RAM |
| Vm.WalkPgdir | kernel/mm/vm.c:44-70 | in-place form of walk_pgdir |
| Vm.MapRange | kernel/mm/vm.c:19-42 | in-place form of map_pages with its three exits |
| MapRuns.CallEffect | kernel/mm/vm.c:19-70 | one call of walk_pgdir or map_pages, successful or not: a walk changes no translation, map_pages maps a prefix of its range, which is the whole range when it succeeds |
| MapRuns.RunRefinesFlatMap | kernel/mm/vm.c:19-70 | any sequence of such calls: the directory stays well-formed and its translations are those of the flat map; each page is as before or was unmapped and has the frame and flags of a call that covers it |
| MapRuns.FramesConserved | kernel/mm/vm.c:44-70 | over any such sequence free frames and attached tables add up, tables come from the free list, and all other frames are untouched |
| KernelSpace.KmapStep | kernel/mm/vm.c:118-119 | mapping one range of k_maps, including the one whose size wraps: succeeds if and only if its pages are free and frames suffice |
| KernelSpace.SetupLoopCorrect | kernel/mm/vm.c:116-125 | the loop over any list of ranges: succeeds exactly if they do not overlap and frames suffice, and then maps exactly them |
| KernelSpace.KmapsApartIff | kernel/mm/vm.c:79-105 | the four kernel ranges are disjoint if and only if kdata is page-aligned and strictly between KERNLINK and P2V(PHYSTOP) |
| KernelSpace.KernelSlots | kernel/mm/vm.c:79-105 | the ranges need exactly the directory slots 512..567 and 1016..1023, 64 tables |
| KernelSpace.KernelLookup | kernel/mm/vm.c:79-105 | the four ranges together give the promised kernel map, page by page |
| KernelSpace.SetupKvmCorrect | kernel/mm/vm.c:107-128 | null if and only if no frame is free; ready if and only if kdata is admissible and 65 frames are free; then the map is exact, 65 frames are used and all others untouched |
| KernelSpace.MapAll | kernel/mm/vm.c:116-125 | in-place form of the loop |
| KernelSpace.SetupKernel | kernel/mm/vm.c:107-128 | in-place form of setup_kvm |
| UserSpace.PutBytesAt | kernel/mm/vm.c:139 | byte k of the page after memmove |
| UserSpace.InitUvmSteps | kernel/mm/vm.c:130-140 | with two free frames: page 0 maps to a new frame holding init then zeros, one new table, everything else as before |
| UserSpace.InitUvmStarved | kernel/mm/vm.c:130-140 | with fewer it still returns, page 0 stays unmapped, and no page changes that was neither free nor part of the directory |
| UserSpace.InitUvmIff | kernel/mm/vm.c:130-140 | page 0 is mapped if and only if two frames were free |
| UserSpace.InitUvmPanicsIff | kernel/mm/vm.c:130-140 | init_uvm panics if and only if the image is longer than a page or page 0 is already mapped, never for want of memory |
| UserSpace.FirstProcessSpace | kernel/mm/vm.c:130-140 | init_uvm on a directory that setup_kvm has built: user mode reaches exactly page 0 and the kernel half is unchanged |
| UserSpace.CopyToPage | kernel/mm/vm.c:139 | in-place copy loop |
| UserSpace.InitUser | kernel/mm/vm.c:130-140 | in-place form of init_uvm |
| Boot.EarlyPhase | init/main.c:74 | the first init_physical_memory frees exactly the pages that lie between the kernel's end and 4 MB, each once |
| Boot.KvmPhase | init/main.c:77 | init_kvm takes exactly 65 frames off the list |
| Boot.DirStable | kernel/mm/kalloc.c:34-53 | a directory is unaffected by allocation and freeing of other frames |
| Boot.LatePhase | init/main.c:80 | the second init_physical_memory frees no page twice and leaves the kernel map as it is |
| Boot.BootMemory | init/main.c:74-80 | the whole boot sequence: number of pages on the list at first, whether it succeeds, list and translations after |
| Boot.FreePagesMapped | init/main.c:74-80 | every page that is free after boot is mapped writable at its direct-map address by kpgdir, in memory as it is then |
| Boot.BootLogSizes | init/main.c:74-81 | for a kernel image that ends in the page 0x80111000, the three free-list sizes printed while booting are those of the repository's log: 3000, 2740 and 228020 KB |
| FirstProcess.SecondDirectory | kernel/mm/vm.c:107-128 | setup_kvm while another directory is in use: the new directory is complete, and the other translates as before |
| FirstProcess.SecondUserPage | kernel/mm/vm.c:130-140 | init_uvm on the new directory: the other one translates as before |
| FirstProcess.ProcessSpace | kernel/sys/process.c:55-59 | setup_kvm and init_uvm beside a directory in use: of 67 frames taken none belongs to it and it translates as before; the new directory is made of them, shows the kernel half and, to user mode, exactly page 0 with the image |
| FirstProcess.BootedKernel | init/main.c:74-80 | after boot kpgdir translates exactly the kernel's address space and at least 68 pages are free |
| FsLayout.InodeRoundTrip | include/Tuix/fs.h:45-53 | an inode written as bytes reads back |
| FsLayout.InodeBytesInverse | include/Tuix/fs.h:45-53 | 64 bytes read as an inode and written back are the same bytes |
| FsLayout.GetPutInode | tools/mkfs.c:99-101 | writing one inode of a block changes that one only |
| FsLayout.GetPutPtr | tools/mkfs.c:163-169 | writing one entry of an indirect block changes that one only |
| FsLayout.PutLayout | include/Tuix/fs.h:45-53 | byte by byte, little-endian: where the fields of an inode lie in its block, and an entry in its indirect block; all other bytes stay |
| FsLayout.BlankInodeBytes | tools/mkfs.c:228-229 | a cleared block holds blank inodes |
| Mkfs.WinodeLaws | tools/mkfs.c:78-103 | winode changes one inode and nothing outside the inode blocks |
| Mkfs.WinodeSame | tools/mkfs.c:78-103 | rinode then winode is the identity |
| Mkfs.TakeAddrStep | tools/mkfs.c:152-153 | a new direct or indirect block gets one owner, the inode in memory |
| Mkfs.TakeEntryStep | tools/mkfs.c:163-168 | the same for an entry of the indirect block; no other block's pointers move |
| Mkfs.TakeBlockStep | tools/mkfs.c:148-170 | all four situations of a file block: ownership kept, data of existing blocks kept, a new block is zero |
| Mkfs.StoreOwned | tools/mkfs.c:173-175 | storing file data moves no pointer of any inode |
| Mkfs.NeededTotal | tools/mkfs.c:148-170 | blocks taken by one piece are the growth of the file's block count, the indirect block included |
| Append.PieceStep | tools/mkfs.c:146-179 | one iteration keeps the invariant and appends exactly its piece |
| Append.LoopCorrect | tools/mkfs.c:146-179 | the loop appends exactly the data and takes exactly the blocks it needs |
| Append.LoopFails | tools/mkfs.c:149 | the assertion fails exactly for a file that would pass MAX_FILE blocks |
| Append.PieceSplit | tools/mkfs.c:172-178 | two appends within a block are one |
| Append.LoopSplit | tools/mkfs.c:146-179 | the loop over a + b is the loop over a, then over b |
| Append.IappendCorrect | tools/mkfs.c:134-182 | the file grows by the data, all other files are unchanged, every block still has one owner, freeblock grows by the blocks needed |
| Append.IappendFails | tools/mkfs.c:134-182 | when iappend stops at its assertion, in any state of the disk |
| Append.IappendSplit | tools/mkfs.c:134-182 | two calls leave the identical disk and counters as one call |
| Append.IappendNothing | tools/mkfs.c:134-182 | an empty append changes nothing |
| Append.ChunkIndependence | tools/mkfs.c:269-270 | any cutting of a file's data into reads gives the identical image, or the same failure |
| Image.BitmapBits | tools/mkfs.c:118-131 | bit b is set if and only if b is below `used` |
| Image.DirentLies | tools/mkfs.c:264-266 | the 16 bytes of a directory entry: inode number, then the name cut or padded with zeros to 14 bytes |
| RoundTrip.IallocInv | tools/mkfs.c:105-116 | ialloc gives a fresh inode and changes no other |
| RoundTrip.NewEntry | tools/mkfs.c:262-267 | a new file inode with its directory entry keeps the invariant of main |
| RoundTrip.FillFile | tools/mkfs.c:269-270 | the read loop completes if and only if the file fits MAX_FILE blocks, and then the file holds its data |
| RoundTrip.AddFileCorrect | tools/mkfs.c:251-273 | one argument is added if and only if it has no '/', opens and is not too long |
| RoundTrip.AddAllCorrect | tools/mkfs.c:251-273 | the same for all arguments, in order |
| RoundTrip.RootInv | tools/mkfs.c:225-249 | the formatted image with "." and ".." |
| RoundTrip.NameFieldCut | tools/mkfs.c:266 | the strncpy'd name field reads back as the first 14 bytes of the name |
| RoundTrip.EntriesOfDir | tools/mkfs.c:239-267 | the root directory's bytes decode to its entries in order |
| RoundTrip.HeadNumbers | tools/mkfs.c:213-234 | the superblock block reads size 1000, nblocks 941, ninodes 200, nlog 30, logstart 2, inodestart 32, bmapstart 58 and zeros; log, inode blocks, bitmap and data blocks follow each other |
| RoundTrip.FormattedDisk | tools/mkfs.c:222-234 | after formatting: that superblock, blank inodes, and zeros everywhere else |
| RoundTrip.BallocWrites | tools/mkfs.c:118-131 | balloc's assertion, the one block that it writes, and which bits of it are set |
| RoundTrip.FinishedInodes | tools/mkfs.c:105-116 | in the finished image inode 1 is a directory and the next ones are files, with one link each, and all others are blank |
| RoundTrip.RootPadding | tools/mkfs.c:274-279 | past its entries the rounded root reads as zeros; which pointer is null |
| RoundTrip.ImageReads | tools/mkfs.c:184-285 | reading the finished disk from the superblock gives the expected listing |
| RoundTrip.OwnedInUse | tools/mkfs.c:280-281 | a block is metadata or owned if and only if it is below freeblock, has one owner, and is zero otherwise |
| RoundTrip.MkfsCorrect | tools/mkfs.c:184-285 | mkfs completes if and only if every argument is acceptable; then listing, names, inode numbers, contents, every inode's type and link count, the superblock's numbers, the empty log, the bitmap in the block the superblock names, and ownership are all right |
| RoundTrip.RoundedRootAllocated | tools/mkfs.c:274-279 | all blocks of the rounded root are allocated if and only if the number of entries is not a multiple of 32; otherwise its last pointer is null |
| RoundTrip.RoundedRootNull | tools/mkfs.c:274-279 | thirty empty files: the root is recorded as 1024 bytes and its second pointer is null |
| Stops.LoopStopIs | tools/mkfs.c:146-179 | where the loop of iappend ends, its assertion included: it has written the longest part of the data that the file can take |
| Stops.FailedAppendKeepsFiles | tools/mkfs.c:146-181 | an iappend that stops at its assertion has used up blocks, but every inode and the contents of every file are as before |
| Stops.BuildDone | tools/mkfs.c:184-285 | a run that completes leaves the disk that the other results are about |
| Stops.RootFull | tools/mkfs.c:261-268 | with a root directory of 140 blocks the run ends at the next file's entry, with that file's inode and nothing else written |
| Stops.FilesStopped | tools/mkfs.c:251-273 | the loop over the arguments stops at the first one that is not acceptable |
| Stops.MkfsStopped | tools/mkfs.c:251-273 | a run that does not complete leaves every file before the bad argument in place with its directory entry; of a file that is too long, its entry and the pieces before the one that did not fit |
| MkfsProgram.Builder.ReadSector | tools/mkfs.c:64-76 | rsect on the disk array |
| MkfsProgram.Builder.WriteSector | tools/mkfs.c:50-62 | wsect on the disk array |
| MkfsProgram.Builder.ReadInodeAt | tools/mkfs.c:78-88 | rinode |
| MkfsProgram.Builder.WriteInode | tools/mkfs.c:91-103 | winode, read-modify-write of its block |
| MkfsProgram.Builder.AllocInode | tools/mkfs.c:105-116 | ialloc with its counter |
| MkfsProgram.Builder.GetAddr | tools/mkfs.c:152-153 | allocation of a direct (or the indirect) block |
| MkfsProgram.Builder.GetEntry | tools/mkfs.c:163-169 | allocation in the indirect block, written back |
| MkfsProgram.Builder.GetBlock | tools/mkfs.c:148-170 | the block number for a file block, always on the disk |
| MkfsProgram.Builder.WritePiece | tools/mkfs.c:148-178 | one iteration of iappend in place |
| MkfsProgram.Builder.AppendData | tools/mkfs.c:134-182 | iappend in place: result and whole new state, also when its assertion fails |
| MkfsProgram.Builder.Format | tools/mkfs.c:210-234 | clearing loop and superblock, with the numbers of HeadNumbers on the disk |
| MkfsProgram.Builder.WriteBitmap | tools/mkfs.c:118-131 | balloc with its loop and assertion |
| MkfsProgram.Builder.MakeRoot | tools/mkfs.c:236-249 | root inode with its two entries |
| MkfsProgram.Builder.FillChunks | tools/mkfs.c:269-270 | the read loop: result and whole new state, also when it stops |
| MkfsProgram.Builder.AddOne | tools/mkfs.c:251-273 | one argument: result and whole new state, also for a bad name, a file that cannot be opened, and a failed assertion |
| MkfsProgram.Builder.Finish | tools/mkfs.c:274-281 | root rounding and bitmap |
| MkfsProgram.Builder.Build | tools/mkfs.c:184-285 | main in place: result and whole disk, whether it completes or stops |
| Spinlock.PopCliCases | kernel/sys/spinlock.c:53-61 | which panic popcli takes when; otherwise one level less, and pushcli and popcli cancel |
| Spinlock.HoldingIs | kernel/sys/spinlock.c:63-70 | holding answers whether this CPU holds the lock and leaves the CPU's level and flag as they were |
| Spinlock.AcquireOk | kernel/sys/spinlock.c:16-28 | panics exactly on a lock already held, never spins; the new CPU and lock state |
| Spinlock.ReleaseOk | kernel/sys/spinlock.c:30-39 | panics exactly on a lock not held; the last release restores the flag |
| Spinlock.ForeignLock | kernel/sys/spinlock.c:16-39 | a lock taken by another CPU: acquire spins on it and release panics |
| Spinlock.NestingRestoresFlag | kernel/sys/spinlock.c:16-61 | any sequence of acquire and release: succeeds exactly if disciplined, ncli counts the locks held, interrupts are off meanwhile, the flag comes back |
| Spinlock.CpuState.Pushcli | kernel/sys/spinlock.c:41-51 | pushcli on the CPU's fields |
| Spinlock.CpuState.Popcli | kernel/sys/spinlock.c:53-61 | popcli with its two panics |
| Spinlock.SpinLock.constructor | kernel/sys/spinlock.c:9-14 | init_lock gives a free lock |
| Spinlock.SpinLock.HoldingLock | kernel/sys/spinlock.c:63-70 | holding with its pushcli and popcli |
| Spinlock.SpinLock.AcquireLock | kernel/sys/spinlock.c:16-28 | acquire on the lock's and CPU's fields |
| Spinlock.SpinLock.ReleaseLock | kernel/sys/spinlock.c:30-39 | release on the lock's and CPU's fields |
| Sched.InitInv | kernel/sys/process.c:113-117 | the invariant holds on entry to launch_first_proc |
| Sched.HandlerOk | kernel/drivers/ide.c:97-125 | a handler that locks, calls wakeup unless there is nothing to do, and unlocks: it finds its locks free and leaves flag, ncli and locks as they were |
| Sched.WakeAllAwakens | kernel/sys/process.c:216-218 | entry by entry: a process that sleeps on the channel becomes RUNNABLE, every other entry stays as it was |
| Sched.IrqEffect | kernel/drivers/ide.c:97-125 | an interrupt changes nothing in the system but the sleepers on its channel |
| Sched.HandlerPanicsIff | kernel/drivers/ide.c:97-125 | whatever the flag, a handler would panic if and only if its own lock is held or, with somebody to wake, ptable.lock is |
| Sched.PushCliUninterrupted | kernel/sys/spinlock.c:41-51 | any number of interrupts between reading the flags and cli do not change the outcome of pushcli, nor any lock |
| Sched.SchedulerStepOk | kernel/sys/process.c:113-149 | every statement of the scheduler's loop keeps the invariant and never panics |
| Sched.ProcessStepOk | kernel/sys/process.c:30-221 | every statement of fork_ret, yield, sched, sleep and wakeup keeps the invariant or panics exactly as listed |
| Sched.CallOk | kernel/sys/process.c:152-221 | every call of a lock or process function keeps the invariant or panics exactly as listed |
| Sched.SchedChecks | kernel/sys/process.c:160-176 | sched's checks on any state: which panic comes when; the one for enabled interrupts never comes, because holding has just turned them off |
| Sched.SleepChecks | kernel/sys/process.c:182-188 | sleep's two checks on any state |
| Sched.StepOk | kernel/sys/process.c:113-221 | for every action: panics if and only if it is one of the listed misuses, otherwise the invariant holds after it |
| SchedRuns.RunInv | kernel/sys/process.c:113-221 | the invariant holds in every state of every run |
| SchedRuns.SwitchHoldsPtable | kernel/sys/process.c:140-176 | at every switch_to in either direction ptable.lock is the only lock held, ncli is 1, interrupts are off |
| SchedRuns.AtMostOneRunning | kernel/sys/process.c:132-135 | at most one process is RUNNING, and it is c->proc |
| SchedRuns.YieldSwitchesIff | kernel/sys/process.c:152-178 | yield reaches the scheduler if and only if no lock is held; which panic otherwise; the state then |
| SchedRuns.SleepSwitchesIff | kernel/sys/process.c:180-199 | sleep with a lock other than ptable.lock reaches the scheduler if and only if exactly that lock is held; which panic otherwise; the state then |
| SchedRuns.SleepUnderPtableIff | kernel/sys/process.c:180-199 | sleep with ptable.lock itself reaches the scheduler if and only if it is held and no other lock is; which panic otherwise; the state then |
| SchedRuns.YieldRestoresFlag | kernel/sys/process.c:152-178 | in any run, when yield returns the caller's interrupt flag is in force and no lock is held |
| SchedRuns.SleepRestoresLock | kernel/sys/process.c:180-209 | in any run, when sleep returns exactly its lock is held and the same flag is remembered |
| Wakeups.WakeupEffect | kernel/sys/process.c:211-221 | one wakeup, from call to return: entry by entry exactly the sleepers on its channel become RUNNABLE, and nothing else changes |
| Wakeups.LockHolderAlone | kernel/sys/process.c:190-199 | between the call of sleep and the switch nothing but the sleeper's own steps can happen |
| Wakeups.AsleepStep | kernel/sys/process.c:180-221 | only a wakeup of its channel ends a sleep |
| Wakeups.NoLostWakeup | kernel/sys/process.c:180-221 | a process that calls sleep with any lock (with ptable.lock: holding it) is RUNNABLE at the latest when any later wakeup of the channel returns |
| Wakeups.NoLostInterrupt | kernel/drivers/ide.c:115-118 | the same for a wakeup from an interrupt handler |
| Fairness.OnlyDispatchEndsWait | kernel/sys/process.c:125-135 | only being dispatched ends a process's RUNNABLE state |
| Fairness.SchedulerStepProgress | kernel/sys/process.c:119-148 | the scan never passes over a RUNNABLE process, and each scheduler step brings it nearer |
| Fairness.BoundedBypass | kernel/sys/process.c:119-148 | before a RUNNABLE process is dispatched at most 63 others are, each once, and the scheduler makes at most 194 steps |
| Effects.SleepResumes | kernel/sys/process.c:199-208 | a dispatched sleeper returns from sleep in four steps: the whole state, with its channel cleared, its own lock held and no other |
| Effects.SleepUnderPtableResumes | kernel/sys/process.c:199-201 | the same in two steps for sleep with ptable.lock, which stays held |
| Effects.YieldResumes | kernel/sys/process.c:157-177 | a process dispatched after yield returns in two steps: the whole state, with ptable.lock free and its flag in force |
| Effects.ForkReturns | kernel/sys/process.c:30-33 | fork_ret releases the ptable.lock that the scheduler handed over: the whole state |
| Effects.LockCallEffects | kernel/sys/spinlock.c:16-39 | acquire, release, cli and sti as a process calls them: panic or the whole state |
| Effects.SchedulerBegins | kernel/sys/process.c:119-123 | the top of the scheduler's loop: sti, then ptable.lock taken with that flag remembered |
| Effects.SchedulerDispatches | kernel/sys/process.c:125-140 | the scan dispatches the first RUNNABLE process from where it is: the whole state |
| Effects.SchedulerGoesOn | kernel/sys/process.c:140-146 | after a process switches back c->proc is cleared and the scan goes on at the next entry |
| Effects.SchedulerIdles | kernel/sys/process.c:125-148 | a pass that finds nothing RUNNABLE ends at the top of the loop with ptable.lock free: the whole state |
| Effects.ReturnStep | kernel/sys/process.c:30-209 | a thread on its way back out of sleep, yield or fork_ret: only its own steps and interrupt handlers happen, and each own step brings it nearer to its return |
| Effects.SwitchedToReturns | kernel/sys/process.c:30-209 | in any run such a thread has returned after at most four steps of its own, whatever interrupts come in |
| Switch.SwitchToEffect | kernel/asm/switch.asm:5-27 | the 13 instructions: old context stored below the caller's stack, *prev set, new registers, stack pointer and return address from the new context, no other word changed |
| Switch.SwitchStep | kernel/asm/switch.asm:5-27 | one switch among threads with disjoint stacks |
| Switch.ResumesWhatItSaved | kernel/asm/switch.asm:5-27 | over any interleaving each thread resumes with the registers, stack pointer and return address it had when it switched away |
| Trap.TrapRetLoads | kernel/asm/trap.asm:23-32 | trap_ret loads every register from the frame, the stack only on return to user mode |
| Trap.TrapSaves | kernel/asm/trap.asm:5-10 | trap completes a frame with the layout of struct trap_frame |
| Trap.HandlerCalled | kernel/asm/trap.asm:12-20 | isr_handler is called with the address of the frame, the return address above it, and the kernel's data selector in all four registers |
| Trap.InterruptTransparent | kernel/asm/trap.asm:5-32 | an interrupt from user or kernel mode: isr_handler finds the interrupted registers in its frame, and when it returns with the frame as it was, every register is back, flags included |
| Trap.HandlerFlagOff | kernel/asm/trap.asm:5-10 | inside the handler the interrupt flag is off |
| ProcTable.UserSelectors | include/Tuix/gdt.h:17-21 | the macros USR_CS \| USR_DPL and USR_DS \| USR_DPL are 0x1B and 0x23 |
| ProcTable.FirstUnused | kernel/sys/process.c:75-77 | the search finds the first UNUSED entry |
| ProcTable.StackOnly | kernel/sys/process.c:95-109 | laying out a kernel stack changes no page but the stack's |
| ProcTable.ConfiguredCases | kernel/sys/process.c:82-111 | without a free page everything but the number is undone; with one, the first free page becomes the stack, the entry is filled in and no other page changes |
| ProcTable.AllocatedCases | kernel/sys/process.c:73-80 | a process is returned if and only if there is an unused entry and a free page, and then it is the first unused entry |
| ProcTable.AllocKeepsPids | kernel/sys/process.c:73-93 | on every path of alloc_process the numbers of the processes in use stay distinct; the new process has the next number, and a number is used up also when kalloc fails |
| ProcTable.ProcessTable.LayStack | kernel/sys/process.c:95-109 | in-place form of the stack layout |
| ProcTable.ProcessTable.ConfigStack | kernel/sys/process.c:82-111 | in-place form of config_proc_kstack, with kalloc on the free list |
| ProcTable.ProcessTable.AllocProcess | kernel/sys/process.c:73-80 | in-place form of alloc_process: result, table, counter and memory |
| ProcTable.ProcessTable.FillFrame | kernel/sys/process.c:61-68 | in-place form of the stores into the trap frame |
| ProcTable.ProcessTable.InitUser | kernel/sys/process.c:47-71 | in-place form of init_user with setup_kvm and init_uvm: outcome, table, counter and memory |
| ProcTable.ProcessTable.Wakeup | kernel/sys/process.c:216-218 | the loop over the table: exactly the sleepers on the channel become RUNNABLE, every other entry stays as it was |
| ProcStart.StackPrepared | kernel/sys/process.c:95-109 | the stack holds a cleared context with fork_ret and above it the address of trap_ret |
| ProcStart.FrameFilled | kernel/sys/process.c:61-68 | the trap frame of the first process, field by field, and nothing else changed |
| ProcStart.SpaceBuilt | kernel/sys/process.c:55-59 | with 65 free pages setup_kvm and init_uvm end well and leave the kernel stack alone; page 0 is mapped if and only if there are 67 |
| ProcStart.UserReadyCases | kernel/sys/process.c:47-71 | how init_user ends for any table and free list; it starts a process if and only if there is an unused entry, 66 free pages, an admissible kdata and an image that fits a page; the whole table then |
| ProcStart.StackReady | kernel/sys/process.c:47-71 | after init_user the kernel stack holds context, return address and trap frame |
| ProcStart.PreparedIsParked | kernel/sys/process.c:99-109 | a prepared process is a suspended thread that will resume in fork_ret |
| ProcStart.FirstRun | kernel/sys/process.c:30-41 | from a prepared stack: switch_to, fork_ret, trap_ret, and then exactly the registers of the trap frame: user mode, interrupt flag set and no other flag |
| ProcStart.FirstProcessRuns | kernel/sys/process.c:30-71 | from an unused table entry through init_user, the first switch_to, the return of fork_ret and trap_ret to user mode with exactly the intended registers, interrupts enabled |
| ProcStart.SchedulerStarts | kernel/sys/process.c:70-119 | the table that init_user leaves satisfies the scheduler's invariant |
| ProcStart.FirstUserSpace | kernel/sys/process.c:47-71 | init_user beside a directory in use: of 68 pages taken none belongs to it, it translates as before, and the process's directory shows the kernel half and, to user mode, exactly page 0 with the image |
| ProcStart.BootThenInitUser | init/main.c:74-92 | from power-on: booting and init_user succeed, with the first process in entry 0, number 1, its address space beside kpgdir |
| DecimalString.TextParsesIff | lib/string.c:75-103 | the text parses back to the number if and only if it is not the least 32-bit number |
| DecimalString.NoLeadingZero | lib/string.c:75-103 | no leading zero, and a minus sign exactly for negative numbers |
| DecimalString.TextFits | lib/string.c:75-103 | at most 12 bytes with the terminator, no NUL inside |
| DecimalString.ReverseStr | lib/string.c:105-116 | in-place reversal up to the terminator |
| DecimalString.StoreDigits | lib/string.c:91-95 | the digit loop |
| DecimalString.IntToStr | lib/string.c:75-103 | the buffer holds the text and a terminator, the rest is unchanged |

## Left out

- Mkfs.Rsect and Mkfs.Wsect: as functions they read zeros and drop writes past the last block; `MkfsProgram.Builder` proves that no such access happens. Errors of `lseek`, `read` and `write` are not modelled.
- RoundTrip.MkfsCorrect: needs that inodes and blocks suffice (`Image.Fits`), which the code does not check; up to 206 files fit the inode blocks, of which the first 198 stay below the `ninodes` of the superblock.
- MkfsProgram.Builder.Build: a file that cannot be opened (main returns 1) and a failed assertion (the program aborts) are both `ok == false`; messages and exit codes are left out.
- PageAllocator.Load and PageAllocator.Store: as functions they read zero and drop writes outside RAM; the methods of `PhysicalMemory` prove that no such access happens. On a null pointer `memset` and `memmove` return at once, and so do their models.
- memset of a whole page is one assignment of a zero frame; kfree's fill loop and the memset of trap frame and context are written out.
- PageAllocator.PhysicalMemory.Kfree: the lock that the comment in kalloc.c announces does not exist in the code.
- Sched: one CPU (MAX_CPUS is 1), so a spinning `acquire` never waits for another CPU; `xchg` and memory ordering are single steps. acquire and release are single steps too: after `cli` nothing can come in, and `Sched.PushCliUninterrupted` covers the point before it.
- Sched.HandlerOk: a handler is acquire, one wakeup or none, release, with interrupts off, as in `ide_handler` (which `isr_ata1_handler` does not call yet); its buffers, queue and device are left out, so the channel may be any. Handlers do not call yield by themselves, but a process may yield with any value of its interrupt flag.
- Sched: SYS_EXIT calls sched without ptable.lock and is outside the protocol; sleeplock.c has empty release functions and is not modelled; processes are only created before launch_first_proc, as in the code.
- Sched.Next: switch_uvm and switch_kvm between table and thread switch are address-space changes and not part of the transition system.
- ProcTable.UserReady: with no unused entry or no page for the stack `init_user` goes on through a null pointer; the model ends with `NoProcess` there. Process numbers do not wrap around at 2^31; parents and open files are left out. The process table and the kernel's other variables are kept apart from the modelled page frames.
- ProcStart.FirstProcessRuns: fork_ret is compiled C; it stands for any code that returns with its stack pointer back and the stack above it unchanged. In the same way isr_handler in `Trap.InterruptTransparent` stands for any code that returns and leaves the frame alone.
- Asm: words at 4-byte steps; the upper half of a pushed segment register keeps what memory held. The C interrupt stubs and the exception error codes depend on the compiler and the CPU: the trap model starts from the stub's two pushes.
- Switch.ResumesWhatItSaved: eax, ecx and edx are the caller's to save and are not covered, as in the C calling convention.
- kernel_end_addr and kdata_start_addr come from the boot loader's information and are parameters; multiboot parsing is not part of this model.
- TLB, loading of cr3 and tr, port I/O, screen, serial, keyboard, PIC, timer and disk drivers, GDT and IDT packing, and the unused queue: hardware effects or independent small pieces.
- The other functions of lib/string.c: standard and independent of the rest.
