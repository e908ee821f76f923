# Verified models of the operating-systems course's reference code

This project models the reference solutions of the course's labs and the xv6 kernel files they build on, and
proves what they are for. `dafny verify dfyconfig.toml` checks all of it. Each component has one or two modules.

- **Crash recovery.** `CrashDisk` is a disk whose barrier may install any subset of the queued writes before a
  crash; `BlockDev` shows the fifo and reverse-draining devices to be instances of it. `WalProtocol` and
  `WalTheorems` prove the journal's protocol on that disk, and `Journal` plays the protocol's phases on the device,
  install by install. `GroupCommit` is the kernel's concurrent log as a state machine over any number of processes,
  with its runs in `GroupCommitRuns`.
- **Synchronisation.** `FutexLock`, `Barrier`, `RwLock` and `Philosophers` are program-counter state machines for
  any number of threads, with inductive invariants and a measure that shows every call to return.
- **Files.** `FsLayout` says what inodes and blocks stand for (a byte sequence per file, one owner per block);
  `Files` is the allocator, block map, truncate, read and write against it. `Xfsck` is the offline checker and the
  exact meaning of its verdict. `BufferCache` is the cache below, with its ring
  and its coherence, and `LogCache` is the log's work on it: pinning, logging, installing and committing.
- **Page tables.** `PageLayout` relates three-level Sv39 tables (section 4.4 of the RISC-V Privileged Architecture
  specification) to flat maps and accounts for every page; `PageTree` is the table as a tree to be freed;
  `PageTable` holds the kernel's operations.
- **Allocator.** `HeapLayout` (tiling, address-ordered list, split, insert, merge), `Malloc` (the operations and
  their error cases), `HeapWalk` (statistics and the consistency check).
- **RAID.** `RaidLayout` (placement), `Parity` (exclusive-or algebra), `Raid` (reads, writes, failure, rebuild).
- **Remote calls.** `Rpc` (server and counter service) and `RpcRuns` (whole runs over a network that loses,
  duplicates, delays and reorders).
- **Disk scheduling.** `Elevator`.
- `Bytes`, `Sums`, `Counting` and `Division` are shared groundwork.

Some promises hold only under a condition, which is proved exactly.

- Freeing leaves the heap alone for every pointer that is not a live block, unless the sixteen bytes before it pass the
  header tests (`Malloc.Allocator.Myfree`); `Malloc.LookAlike` reaches such a pointer in every arena. The header
  comment promises it for all pointers.
- The journal with its commit record written first is crash-atomic exactly when the stale log slots are harmless
  (`WalTheorems.CommitFirstAtomicIff`). A fifo device shows the difference in full
  (`WalTheorems.FifoExposesCommitFirst`), the reverse-draining device never does.
- The server executes each call at most once exactly when it has a cache slot for every client
  (`RpcRuns.AtMostOnceIff`); its interface promises it without limit.
- The kernel's commit finds a buffer for its log blocks exactly when fewer blocks are logged than there are buffers
  (`LogCache.CachedLog.Commit`). The log holds as many blocks as the cache has buffers, and
  `GroupCommitProofs.FullLogReachable` fills it.

A write to a failed data disk of a parity array is lost, as the code's comment admits and
`Raid.Engine.LogicalWrite` states; fault tolerance (`Raid.Engine.Drill`) is therefore about writes made while the array
is healthy.

## Model

| member | source | states |
|---|---|---|
| CrashDisk.SelectionMayCrash | our-course/labs/lab09-crash/solutions/blockdev.py:77-85 | installing any selection of the issued writes, in any order, is a crash the abstract disk allows |
| CrashDisk.MayCrashIsSelection | our-course/labs/lab09-crash/solutions/blockdev.py:77-85 | and it allows nothing else: every crash is such a selection |
| BlockDevice.BlockDev.Install | our-course/labs/lab09-crash/solutions/blockdev.py:47-53 | one durable write, or the crash when the install budget is spent; counts installs |
| BlockDevice.BlockDev.Read | our-course/labs/lab09-crash/solutions/blockdev.py:57-62 | the last write issued to the block, queued or durable, else the platter |
| BlockDevice.BlockDev.Write | our-course/labs/lab09-crash/solutions/blockdev.py:64-73 | fifo installs at once, otherwise queues and coalesces; a crash leaves a disk the abstract device allows |
| BlockDevice.BlockDev.Barrier | our-course/labs/lab09-crash/solutions/blockdev.py:77-81 | the queue drains in reverse; without crash everything issued is durable, and a crash leaves an allowed selection |
| BlockDevice.BlockDev.CrashNow | our-course/labs/lab09-crash/solutions/blockdev.py:83-85 | the queue is lost and the platter stays |
| BlockDevice.Enqueue | our-course/labs/lab09-crash/solutions/blockdev.py:69-73 | coalescing in place keeps the effect of the issued writes and the one-entry-per-block queue |
| BlockDevice.SuffixMayCrash | our-course/labs/lab09-crash/solutions/blockdev.py:77-81 | a crash after any part of the reverse drain is a crash of the abstract disk |
| LogHeader.ParsePack | our-course/labs/lab09-crash/starter/xv6fs.py:99-113 | the commit record read back gives the sequence number and destinations packed, for every record that fits |
| LogHeader.PackLayout | our-course/labs/lab09-crash/starter/xv6fs.py:99-105 | the record byte by byte: magic, number, count and destinations, least significant byte first, then zeros |
| LogHeader.RecordIff | our-course/labs/lab09-crash/starter/xv6fs.py:108-113 | a block is a record exactly by its magic and a count that fits, and otherwise names no blocks |
| WalTheorems.CrashAtomicity | our-course/labs/lab09-crash/solutions/wal.py:83-128 | crash at any install, any number of crashed recoveries, one complete recovery: home blocks are new exactly when the commit record was installed, else unmoved |
| WalTheorems.DataModeAllOrNothing | our-course/labs/lab09-crash/solutions/wal.py:83-128 | in data mode the recovered disk is the old one or the new one, whole |
| WalTheorems.OrderedDataFirst | our-course/labs/lab09-crash/solutions/wal.py:63-109 | ordered mode: if the new metadata survives, every block written in place holds its last content |
| WalTheorems.TxnCompletes | our-course/labs/lab09-crash/solutions/wal.py:83-113 | without a crash the transaction reaches its goal and leaves the log idle |
| WalTheorems.RunsAreSerial | our-course/labs/lab09-crash/solutions/wal.py:63-128 | any run of transactions, crashes and recoveries equals applying, one after the other, exactly the transactions whose commit survived; one that did not survive leaves at most some of its in-place writes |
| WalTheorems.MetadataSurvives | our-course/labs/lab09-crash/solutions/wal.py:56-128 | over any run a block never written in place holds what the last surviving transaction journaled for it |
| WalTheorems.NumberSurvives | our-course/labs/lab09-crash/solutions/wal.py:86-128 | after a completed transaction, or any recoveries of one whose commit survived, the header holds its number and no entries; otherwise it is what it was |
| WalTheorems.NumberOfRun | our-course/labs/lab09-crash/solutions/wal.py:86-128 | after any run the header holds the number of the last surviving transaction |
| WalTheorems.CommitFirstAtomicIff | our-course/labs/lab09-crash/solutions/wal.py:93-97 | the misordered commit is crash-atomic exactly when the stale log slots are harmless |
| WalTheorems.CommitFirstLater | our-course/labs/lab09-crash/solutions/wal.py:93-109 | past its barrier the misordered commit is in the state of the correct order |
| WalTheorems.ReverseDrainHidesCommitFirst | our-course/labs/lab09-crash/solutions/blockdev.py:77-81 | on the reverse-draining device the misordered commit is still atomic, wherever it crashes |
| WalTheorems.FifoExposesCommitFirst | our-course/labs/lab09-crash/solutions/blockdev.py:64-68 | a fifo device, which can only stop between two of the writes, is crash-atomic under exactly the same condition |
| WalProtocol.RecoveriesConverge | our-course/labs/lab09-crash/solutions/wal.py:116-128 | any number of crashed recoveries followed by a complete one reaches the same disk as one recovery |
| WalProtocol.BoundRecovers | our-course/labs/lab09-crash/solutions/wal.py:116-128 | a recovery crashed anywhere leaves a disk that still recovers to the same goal |
| WalProtocol.SaneReplays | our-course/labs/lab09-crash/solutions/wal.py:122-123 | when no destination is a log block, copying slot by slot is the replay of the log as it stood |
| WalProtocol.CommittedIsLogged | our-course/labs/lab09-crash/solutions/wal.py:99-103 | with the commit record durable the log holds the transaction |
| Journaling.Journal.Read | our-course/labs/lab09-crash/solutions/wal.py:51-54 | reads give the buffered block, else the device's |
| Journaling.Journal.Write | our-course/labs/lab09-crash/solutions/wal.py:56-61 | the block is buffered, its first write fixing its place in the order |
| Journaling.Journal.WriteData | our-course/labs/lab09-crash/solutions/wal.py:63-69 | ordered mode writes in place now, otherwise the block is journaled |
| Journaling.Journal.BeginOp | our-course/labs/lab09-crash/solutions/wal.py:76-81 | a new transaction starts empty |
| Journaling.Journal.EndOp | our-course/labs/lab09-crash/solutions/wal.py:83-113 | plays the phases of the protocol on the device: 2m + 2 installs and 4 barriers, 5 after direct data; a crash lies in the phase reported, after a prefix of its writes on a fifo device and a suffix on a draining one |
| Journaling.Recover | our-course/labs/lab09-crash/solutions/wal.py:116-128 | copies every slot to the block its header names, log blocks included, then clears the header; a crash is a crash of the recovery protocol |
| Journaling.PlayCommitFirst | our-course/labs/lab09-crash/solutions/wal.py:93-97 | the misordered commit as the device sees it |
| GroupCommitProofs.CrashConsistency | our-course/labs/xv6-riscv/kernel/log.c:66-236 | in every reachable state, whatever the interleaving and earlier crashes, the disk recovers to exactly the committed groups |
| GroupCommitProofs.OperationsAtomic | our-course/labs/xv6-riscv/kernel/log.c:126-236 | each operation's writes are all in one committed group or in none |
| GroupCommitProofs.InFlightUncommitted | our-course/labs/xv6-riscv/kernel/log.c:145-176 | an operation still in progress has nothing committed, and no commit is running |
| GroupCommitProofs.NeverPanics | our-course/labs/xv6-riscv/kernel/log.c:215-224 | an operation within its allowance never finds the log full or itself outside a transaction |
| GroupCommitProofs.FullLogReachable | our-course/labs/xv6-riscv/kernel/log.c:127-143 | with two processes and enough blocks some run reaches a commit whose log is full |
| GroupCommitProofs.ProcStep | our-course/labs/xv6-riscv/kernel/log.c:127-143 | every step keeps header entries plus unused allowances within the log |
| GroupCommitProofs.StateStep | our-course/labs/xv6-riscv/kernel/log.c:66-236 | every step, crash and recovery steps included, keeps the disk and memory invariants |
| GroupCommitProofs.HeadingKeeps | our-course/labs/xv6-riscv/kernel/log.c:103-115 | the header write is the commit point |
| GroupCommitProofs.InstallingKeeps | our-course/labs/xv6-riscv/kernel/log.c:66-84 | installing one block keeps the platter recoverable |
| GroupCommitProofs.LogWriteKeeps | our-course/labs/xv6-riscv/kernel/log.c:215-236 | a log_write, absorbed or not, extends the open group by one write |
| GroupCommitProofs.HistoryGrows | our-course/labs/xv6-riscv/kernel/log.c:194-204 | what is committed stays committed |
| GroupCommitProofs.QuietMeansDurable | our-course/labs/xv6-riscv/kernel/log.c:147-176 | with no operation left and the commit done, nothing is pending and the disk is exactly the committed groups |
| GroupCommitRuns.ReadsSeeWrites | our-course/labs/xv6-riscv/kernel/log.c:126-236 | since a boot or a crash every block reads as the disk that survived with the writes issued since laid over it in order; once quiet the disk itself is that |
| GroupCommitRuns.NothingLost | our-course/labs/xv6-riscv/kernel/log.c:147-176 | no step but a crash loses an operation |
| GroupCommitRuns.FinishedIsCommitted | our-course/labs/xv6-riscv/kernel/log.c:147-204 | once quiet, every operation begun since the last crash has exactly what it wrote, in order, in one committed group |
| GroupCommitRuns.CommitGoesOn | our-course/labs/xv6-riscv/kernel/log.c:194-204 | a commit or recovery under way can always go on and ends within 2 * LOGBLOCKS + 3 steps |
| GroupCommitRuns.NoDeadlock | our-course/labs/xv6-riscv/kernel/log.c:126-176 | an operation can always end; one that cannot begin waits for a commit or an operation that can go on |
| FutexLock.MutualExclusion | our-course/labs/lab05-concurrency/part2-locks/solutions/mylock.c:128-165 | at most one thread is inside, a releaser between fetch_sub and store counting as inside |
| FutexLock.NoLostWakeup | our-course/labs/lab05-concurrency/part2-locks/solutions/mylock.c:128-165 | a parked thread always has someone responsible for waking it |
| FutexLock.ExclusiveStep | our-course/labs/lab05-concurrency/part2-locks/solutions/mylock.c:128-165 | every atomic step and futex call keeps the lock word and the threads consistent |
| FutexLock.WatchedStep | our-course/labs/lab05-concurrency/part2-locks/solutions/mylock.c:133-160 | no step leaves the parked threads without someone responsible |
| FutexLock.ContenderAcquires | our-course/labs/lab05-concurrency/part2-locks/solutions/mylock.c:128-151 | a contender that finds the lock free has it within three of its own steps |
| FutexLock.ReleaseWakes | our-course/labs/lab05-concurrency/part2-locks/solutions/mylock.c:153-161 | a release that saw the word at 2 wakes a sleeper if there is one |
| FutexLock.WorkFalls | our-course/labs/lab05-concurrency/part2-locks/solutions/mylock.c:128-165 | every step of a thread giving the lock up, and every step of a contender at a free lock, brings a measure of the steps ahead down |
| FutexLock.EveryScheduleReturns | our-course/labs/lab05-concurrency/part2-locks/solutions/mylock.c:128-165 | from every reachable state any schedule of such steps is bounded, and where it can go no further every thread has returned |
| FutexLock.HoldsBetween | our-course/labs/lab05-concurrency/part2-locks/solutions/mylock.c:128-151 | between calling acquire and being idle again a thread has held the lock |
| Barrier.NobodyLeavesEarly | our-course/labs/lab05-concurrency/part4-toolkit/solutions/toolkit.c:107-128 | no thread has returned from its r-th call before all have entered theirs |
| Barrier.NobodyLaps | our-course/labs/lab05-concurrency/part4-toolkit/solutions/toolkit.c:107-128 | a thread past the first turnstile has everyone in the same call |
| Barrier.NoDeadlock | our-course/labs/lab05-concurrency/part4-toolkit/solutions/toolkit.c:107-128 | while any thread is inside a call, some thread inside can step, or all threads inside wait at the first turnstile for one that has yet to make that call |
| Barrier.WorkFalls | our-course/labs/lab05-concurrency/part4-toolkit/solutions/toolkit.c:107-128 | every step of a thread inside a call brings it closer to returning |
| Barrier.EveryScheduleReturns | our-course/labs/lab05-concurrency/part4-toolkit/solutions/toolkit.c:107-128 | with all n threads inside call r any schedule is bounded, and where it can go no further every thread is back from call r |
| Barrier.SomeScheduleReturns | our-course/labs/lab05-concurrency/part4-toolkit/solutions/toolkit.c:107-128 | and some schedule gets all of them back |
| Barrier.RoundAfterRound | our-course/labs/lab05-concurrency/part4-toolkit/solutions/toolkit.c:97-128 | from the start any number of threads can go through any number of calls |
| Barrier.InvStep | our-course/labs/lab05-concurrency/part4-toolkit/solutions/toolkit.c:107-128 | every step keeps the counts, the gates and every thread's place |
| Philosophers.ForksExclusive | our-course/labs/lab05-concurrency/part4-toolkit/solutions/toolkit.c:257-280 | neighbours never hold the same fork |
| Philosophers.RingNeverCloses | our-course/labs/lab05-concurrency/part4-toolkit/solutions/toolkit.c:257-273 | nobody is stuck on the right fork, for then all would be, one more than the footman seats |
| Philosophers.NoDeadlock | our-course/labs/lab05-concurrency/part4-toolkit/solutions/toolkit.c:257-280 | whenever someone is not thinking, someone not thinking can step |
| Philosophers.EveryScheduleServes | our-course/labs/lab05-concurrency/part4-toolkit/solutions/toolkit.c:257-280 | from every reachable state any schedule without new hunger is bounded, and where it can go no further everybody is thinking |
| Philosophers.EatsBetween | our-course/labs/lab05-concurrency/part4-toolkit/solutions/toolkit.c:257-280 | between wanting a seat and thinking again lies a meal |
| Philosophers.CanEat | our-course/labs/lab05-concurrency/part4-toolkit/solutions/toolkit.c:257-273 | at a table of any size any philosopher can come to eat |
| RwLock.WriterAlone | our-course/labs/lab05-concurrency/part4-toolkit/solutions/toolkit.c:198-227 | a writer is inside with no other writer and no reader |
| RwLock.DoorShut | our-course/labs/lab05-concurrency/part4-toolkit/solutions/toolkit.c:177-221 | while a writer waits for the room or works, nobody else gets past the door |
| RwLock.NoDeadlock | our-course/labs/lab05-concurrency/part4-toolkit/solutions/toolkit.c:198-227 | unless everyone is idle, someone can step |
| RwLock.EveryScheduleServes | our-course/labs/lab05-concurrency/part4-toolkit/solutions/toolkit.c:190-227 | from every reachable state any schedule without new calls is bounded, and where it can go no further everybody is idle |
| RwLock.WorksBetween | our-course/labs/lab05-concurrency/part4-toolkit/solutions/toolkit.c:190-227 | between coming to the door and being idle again a reader has read and a writer has written |
| RwLock.ReadersShare | our-course/labs/lab05-concurrency/part4-toolkit/solutions/toolkit.c:190-213 | any number of threads can be reading at the same time |
| RwLock.InvStep | our-course/labs/lab05-concurrency/part4-toolkit/solutions/toolkit.c:190-227 | every step keeps the semaphore counts and who holds the room |
| FsLayout.OwnedExactlyOnce | our-course/labs/xv6-riscv/kernel/fs.c:66-106 | a data block is marked in use exactly when some address slot names it, and then exactly one does |
| FsLayout.AttachKeeps | our-course/labs/xv6-riscv/kernel/fs.c:406-444 | a fresh block attached to an empty slot keeps the invariant and every byte of every file |
| FsLayout.ExtendsContent | our-course/labs/xv6-riscv/kernel/fs.c:406-444 | mapping a block on demand changes no file's content |
| FsLayout.PutKeeps | our-course/labs/xv6-riscv/kernel/fs.c:529-562 | writing into a data block changes those bytes of that file and no others |
| FsLayout.WrittenContent | our-course/labs/xv6-riscv/kernel/fs.c:529-562 | after a write the file is its old bytes with the new ones laid over |
| FsLayout.OthersKept | our-course/labs/xv6-riscv/kernel/fs.c:529-562 | every other file keeps its bytes |
| FsLayout.TruncateStep | our-course/labs/xv6-riscv/kernel/fs.c:449-476 | the block of the next slot is still marked in use when its turn to be freed comes |
| FsLayout.TruncatedKeeps | our-course/labs/xv6-riscv/kernel/fs.c:449-476 | a truncated file is empty, the others keep their bytes, and the invariant holds |
| Files.FileSystem.Balloc | our-course/labs/xv6-riscv/kernel/fs.c:66-89 | the lowest free block, marked and zeroed; 0 exactly when all are in use |
| Files.FileSystem.Bmap | our-course/labs/xv6-riscv/kernel/fs.c:406-444 | the block of the given file position, allocated on demand; a mapped position changes nothing |
| Files.FileSystem.Readi | our-course/labs/xv6-riscv/kernel/fs.c:495-519 | the file's bytes in the range, clipped at its size |
| Files.FileSystem.Writei | our-course/labs/xv6-riscv/kernel/fs.c:529-562 | -1 exactly for a bad range; else the bytes returned are laid over the file, short only when the disk is full |
| Files.FileSystem.Itrunc | our-course/labs/xv6-riscv/kernel/fs.c:449-476 | frees every block of the file once, so "freeing free block" never occurs; other files unchanged |
| Files.FileSystem.WriteThenRead | our-course/labs/xv6-riscv/kernel/fs.c:495-562 | reading back the range a write covered gives what was written; the other bytes of that file and all other files are as before |
| PageLayout.PteRoundTrip | our-course/labs/xv6-riscv/kernel/vm.c:98-115 | physical page and flags survive encoding as a page-table entry |
| PageLayout.StoredGood | our-course/labs/xv6-riscv/kernel/vm.c:146-174 | storing a leaf entry changes that entry of that table and no other entry of any table |
| PageLayout.GrownGood | our-course/labs/xv6-riscv/kernel/vm.c:104-112 | hanging a zeroed table below an empty entry changes no other entry |
| PageLayout.ExtendSame | our-course/labs/xv6-riscv/kernel/vm.c:104-112 | a walk that allocates shows in no map |
| PageLayout.Undone | our-course/labs/xv6-riscv/kernel/vm.c:217-240 | unmapping what was added restores the maps and the pages in use, tables aside |
| PageLayout.OnlyTablesKept | our-course/labs/xv6-riscv/kernel/vm.c:217-240 | a failed operation keeps at most table pages; every other page it took is free again |
| PageLayout.FreedAccounted | our-course/labs/xv6-riscv/kernel/kalloc.c:47-63 | freeing a page in use keeps the free list without repetition |
| PageLayout.TakenGood | our-course/labs/xv6-riscv/kernel/kalloc.c:69-82 | taking a page keeps every table entry and the accounting |
| PageTree.TreeOf | our-course/labs/xv6-riscv/kernel/vm.c:261-278 | with all leaves unmapped the table pages form a tree that names each once |
| PageTree.PrunedGood | our-course/labs/xv6-riscv/kernel/vm.c:263-288 | freeing a whole table frees exactly its pages and leaves other tables as they were |
| PageTable.Kernel.Kalloc | our-course/labs/xv6-riscv/kernel/kalloc.c:69-82 | the head of the free list, or none exactly when it is empty |
| PageTable.Kernel.Kfree | our-course/labs/xv6-riscv/kernel/kalloc.c:47-63 | a page in use goes back to the list |
| PageTable.Kernel.FreeRange | our-course/labs/xv6-riscv/kernel/kalloc.c:33-39 | every page is free, the last one first, and the invariant holds |
| PageTable.Kernel.Walk | our-course/labs/xv6-riscv/kernel/vm.c:98-115 | the leaf table of the page and the slot in it; no map changes, and without alloc nothing does |
| PageTable.Kernel.Mappages | our-course/labs/xv6-riscv/kernel/vm.c:146-174 | maps consecutive pages and changes no other page; on failure the ones done stay |
| PageTable.Kernel.Uvmunmap | our-course/labs/xv6-riscv/kernel/vm.c:193-212 | exactly the given pages are unmapped, and with free exactly their own pages freed |
| PageTable.Kernel.Uvmalloc | our-course/labs/xv6-riscv/kernel/vm.c:217-240 | fresh zeroed pages for the whole growth, or 0 with the maps and user pages as before |
| PageTable.Kernel.Uvmdealloc | our-course/labs/xv6-riscv/kernel/vm.c:247-258 | exactly the pages beyond the new size are unmapped and freed |
| PageTable.Kernel.Uvmcopy | our-course/labs/xv6-riscv/kernel/vm.c:297-324 | same flags and content on pages of its own, or failure with the user pages as before |
| PageTable.Kernel.Uvmcreate | our-course/labs/xv6-riscv/kernel/vm.c:179-187 | an empty table, or none without memory |
| PageTable.Kernel.Freewalk | our-course/labs/xv6-riscv/kernel/vm.c:263-278 | frees exactly the table pages below, each once |
| PageTable.Kernel.Uvmfree | our-course/labs/xv6-riscv/kernel/vm.c:283-288 | frees everything the table owns and nothing else |
| HeapLayout.TakenGood | our-course/labs/lab03-allocator/solutions/mymalloc.c:185-231 | taking a block keeps the tiling, the list, every live payload and coalescedness; the block is big enough |
| HeapLayout.SplitGood | our-course/labs/lab03-allocator/solutions/mymalloc.c:212-222 | a split keeps the tiling and the address-ordered list |
| HeapLayout.InsertGood | our-course/labs/lab03-allocator/solutions/mymalloc.c:259-270 | insertion keeps the list in address order and exactly the free blocks |
| HeapLayout.MergeGood | our-course/labs/lab03-allocator/solutions/mymalloc.c:280-293 | a merge keeps the tiling and the list |
| HeapLayout.ReleasedGood | our-course/labs/lab03-allocator/solutions/mymalloc.c:235-294 | freeing keeps the heap good and every other live payload; with merging on no two free blocks touch |
| HeapLayout.ReleasedApart | our-course/labs/lab03-allocator/solutions/mymalloc.c:257-273 | with merging off every block keeps its place and size |
| HeapLayout.EverythingFree | our-course/labs/lab03-allocator/solutions/mymalloc.c:235-294 | with merging on, a heap without live blocks is one free block |
| HeapLayout.Apart | our-course/labs/lab03-allocator/solutions/mymalloc.c:322-365 | two blocks never overlap |
| HeapLayout.StoredGood | our-course/labs/lab03-allocator/solutions/mymalloc.c:185-231 | whatever a program stores in the payload of a live block, the heap stays good and other live blocks keep their bytes |
| Malloc.NeedExact | our-course/labs/lab03-allocator/solutions/mymalloc.c:193-201 | the rounded size is the least that holds the request; it fails exactly where rounding wraps |
| Malloc.ArenaBytesOk | our-course/labs/lab03-allocator/solutions/mymalloc.c:92-111 | the clamped size rounded up to whole pages: the first multiple not smaller, and a multiple of the alignment |
| Malloc.BlockVerdict | our-course/labs/lab03-allocator/solutions/mymalloc.c:235-259 | a live payload passes the tests of freeing, a free block reports a double free |
| Malloc.FreedAgain | our-course/labs/lab03-allocator/solutions/mymalloc.c:254-259 | freeing a pointer twice is caught, merged away or not |
| Malloc.LookAlike | our-course/labs/lab03-allocator/solutions/mymalloc.c:240-259 | in every arena and under every policy, a first block of 112 bytes whose third cell the program fills like a live header makes freeing accept a pointer into it |
| Malloc.Allocator.FindBlock | our-course/labs/lab03-allocator/solutions/mymalloc.c:158-181 | the block the policy specifies, ties to the lowest address; none exactly when none fits |
| Malloc.Allocator.Reset | our-course/labs/lab03-allocator/solutions/mymalloc.c:136-144 | the arena is gone and the last error with it |
| Malloc.Allocator.Mymalloc | our-course/labs/lab03-allocator/solutions/mymalloc.c:185-231 | refuses exactly when the policy finds nothing or the size wraps, else takes the chosen block, aligned |
| Malloc.Allocator.Myfree | our-course/labs/lab03-allocator/solutions/mymalloc.c:235-294 | each error exactly by its test, leaving the heap alone; a live block is released; a look-alike header is the one other case |
| HeapWalk.TotalsNext | our-course/labs/lab03-allocator/solutions/mymalloc.c:298-318 | adding the next block keeps in-use plus free plus header bytes equal to the bytes walked |
| HeapWalk.GetStats | our-course/labs/lab03-allocator/solutions/mymalloc.c:298-318 | in-use plus free plus header bytes are the arena; the free blocks are those listed, with the largest |
| HeapWalk.CheckHeap | our-course/labs/lab03-allocator/solutions/mymalloc.c:322-404 | good heaps pass untouched; an arena that passes is tiled, and coalesced if merging is on |
| RaidLayout.MapInRange | our-course/labs/lab06-io-storage/solutions/raidsim.c:116-143 | every logical block has a data cell in range, never a parity cell, in the stripe rebuild computes |
| RaidLayout.MapInjective | our-course/labs/lab06-io-storage/solutions/raidsim.c:116-143 | no two logical blocks share a cell |
| RaidLayout.MapOnto | our-course/labs/lab06-io-storage/solutions/raidsim.c:116-148 | every data cell holds a logical block below the capacity |
| RaidLayout.MapNext | our-course/labs/lab06-io-storage/solutions/raidsim.c:116-143 | within a unit consecutive blocks are consecutive rows of one disk; the next unit is on a later disk of the stripe or in the next stripe |
| RaidLayout.UnitDisk | our-course/labs/lab06-io-storage/solutions/raidsim.c:127-138 | the j-th unit of a stripe is on the disk with exactly j data disks below it |
| RaidLayout.MapUnique | our-course/labs/lab06-io-storage/solutions/raidsim.c:116-148 | the map is the one way to go through all data cells stripe by stripe, within a stripe disk by disk, within a disk row by row |
| RaidLayout.ParityMarches | our-course/labs/lab06-io-storage/solutions/raidsim.c:105-112 | parity starts on the last disk; on level 4 it stays, on level 5 it goes down by one per stripe, wrapping |
| RaidLayout.ParityRotates | our-course/labs/lab06-io-storage/solutions/raidsim.c:105-112 | level 5 puts parity on every disk exactly once per ndisks consecutive stripes |
| Parity.Extract | our-course/labs/lab06-io-storage/solutions/raidsim.c:155-179 | one disk's block can be taken out of a row's sum |
| Parity.Missing | our-course/labs/lab06-io-storage/solutions/raidsim.c:155-179 | in a row that sums to zero each block is the sum of the others |
| Parity.BalancedZero | our-course/labs/lab06-io-storage/solutions/raidsim.c:259-293 | the parity a write stores makes the row sum to zero |
| Parity.Subtractive | our-course/labs/lab06-io-storage/solutions/raidsim.c:270-278 | the subtractive update gives the additive parity |
| Raid.UpdatedRedundant | our-course/labs/lab06-io-storage/solutions/raidsim.c:259-293 | a parity write keeps every row summing to zero |
| Raid.ParityWritten | our-course/labs/lab06-io-storage/solutions/raidsim.c:225-293 | a healthy write changes that logical block and no other |
| Raid.AllReadable | our-course/labs/lab06-io-storage/solutions/raidsim.c:204-222 | with at most one parity disk, or not all mirrors, gone every block can be read |
| Raid.Engine.Reconstruct | our-course/labs/lab06-io-storage/solutions/raidsim.c:155-179 | the sum of the other blocks, reading each once; fails exactly if another disk has failed |
| Raid.Engine.LogicalRead | our-course/labs/lab06-io-storage/solutions/raidsim.c:204-222 | succeeds exactly when enough disks are left, and then gives the block's content |
| Raid.Engine.LogicalWrite | our-course/labs/lab06-io-storage/solutions/raidsim.c:225-296 | healthy: that block changes, the array stays redundant; degraded: exactly what is written, a write to a failed data disk being lost |
| Raid.DegradedWrite | our-course/labs/lab06-io-storage/solutions/raidsim.c:245-256 | with one disk of a parity array gone a write is lost if it is the block's own disk, and otherwise changes that block and no other |
| Raid.Engine.WriteParity | our-course/labs/lab06-io-storage/solutions/raidsim.c:258-293 | both modes store the same disks; two reads or one per other data disk, two writes |
| Raid.Engine.ParityRecompute | our-course/labs/lab06-io-storage/solutions/raidsim.c:183-198 | the parity block becomes the sum of the data blocks |
| Raid.Engine.Fail | our-course/labs/lab06-io-storage/solutions/raidsim.c:479-484 | only marks the disk |
| Raid.Engine.Rebuild | our-course/labs/lab06-io-storage/solutions/raidsim.c:302-341 | with the rest alive every cell comes back, reading (ndisks - 1) * rows blocks |
| Raid.Engine.Drill | our-course/labs/lab06-io-storage/solutions/raidsim.c:204-341 | after any writes in any modes to a healthy array, any one disk fails and every block reads as written, and again after its rebuild, which reads (ndisks - 1) * rows blocks |
| Rpc.RpcServer.CacheFind | our-course/labs/lab10-distributed/solutions/rpc.c:161-167 | the first slot of the client |
| Rpc.RpcServer.CacheTake | our-course/labs/lab10-distributed/solutions/rpc.c:169-182 | a free slot, else the round-robin victim |
| Rpc.RpcServer.Handle | our-course/labs/lab10-distributed/solutions/rpc.c:184-240 | a repeat is answered from the cache, an older call dropped, anything else executed and cached |
| Rpc.BigEndian | our-course/labs/lab10-distributed/solutions/rpcdemo.c:75-83 | a word goes out as four bytes, most significant first, and is read back as itself |
| Rpc.HandlerPays | our-course/labs/lab10-distributed/solutions/rpcdemo.c:57-99 | the status, result and counter every call is owed: an inc answers with the counter after the addition, a get with the counter, malformed and unknown calls with their statuses; only a shutdown stops the server |
| Rpc.ServeByNumber | our-course/labs/lab10-distributed/solutions/rpc.c:203-213 | a client with a slot is answered again, dropped or executed by comparing its number with the last one |
| Rpc.ServeRemembers | our-course/labs/lab10-distributed/solutions/rpc.c:169-240 | an execution is remembered in the client's slot, else a free one, else the one at the cursor, which moves on by one |
| RpcRuns.AtMostOnce | our-course/labs/lab10-distributed/solutions/rpc.c:184-240 | up to 64 clients: no call is executed twice, each client's calls in increasing order |
| RpcRuns.ExactlyOnce | our-course/labs/lab10-distributed/solutions/rpc.c:56-112 | a call that returned a reply was executed exactly once, as made, and got that execution's reply, which is what the service owes for it |
| RpcRuns.RepliesTell | our-course/labs/lab10-distributed/solutions/rpcdemo.c:57-99 | over any run each execution replied what its call is owed, with the counter as the executions before left it, starting from nothing |
| RpcRuns.CanBeAnswered | our-course/labs/lab10-distributed/solutions/rpc.c:56-112 | while the server runs, every waiting client is two steps from the answer to its call |
| RpcRuns.CounterSum | our-course/labs/lab10-distributed/solutions/rpcdemo.c:71-80 | the counter is the sum of the executed inc amounts modulo 2^32 |
| RpcRuns.OneRequest | our-course/labs/lab10-distributed/solutions/rpc.c:70-77 | a request is determined by its client and number, so copies are copies |
| RpcRuns.HandlerValue | our-course/labs/lab10-distributed/solutions/rpcdemo.c:49-99 | each call adds its amount to the counter modulo 2^32 |
| RpcRuns.RoomLeft | our-course/labs/lab10-distributed/solutions/rpc.c:169-176 | with at most 64 clients a client without slot finds a free one |
| RpcRuns.ServeStep | our-course/labs/lab10-distributed/solutions/rpc.c:184-240 | serving any copy of any request keeps the invariant |
| RpcRuns.EvictedRunsTwice | our-course/labs/lab10-distributed/solutions/rpc.c:177-181 | with all slots taken and the server running, one more client makes a repeated call run a second time |
| RpcRuns.AtMostOnceIff | our-course/labs/lab10-distributed/solutions/rpc.c:161-240 | every run with n clients executes each call at most once if and only if n is at most 64 |
| Elevator.SweepTwice | our-course/labs/lab06-io-storage/solutions/disksim.c:160-181 | a sweep out and back moves at most twice as far as any path through the same places |
| Elevator.FactorTwoIsTight | our-course/labs/lab06-io-storage/solutions/disksim.c:160-181 | for every factor p / q below two and either direction some requests make the elevator move more than p / q times as far as another order |
| Elevator.ScanTwice | our-course/labs/lab06-io-storage/solutions/disksim.c:160-181 | the elevator moves at most twice as far as any service order |
| Elevator.SchedScan | our-course/labs/lab06-io-storage/solutions/disksim.c:160-181 | a permutation of the requests within that bound: those ahead of the head or at its cylinder in cylinder order, then the rest on the way back, ties by arrival |
| Elevator.SchedCscan | our-course/labs/lab06-io-storage/solutions/disksim.c:187-206 | a permutation: those ahead of the head or at its cylinder in cylinder order, then the rest the same way once more, ties by arrival |
| Elevator.OneSweep | our-course/labs/lab06-io-storage/solutions/disksim.c:160-206 | and this order is unique for its requests, head and direction |
| Elevator.SchedSstf | our-course/labs/lab06-io-storage/solutions/disksim.c:120-143 | a permutation in which every choice is the nearest waiting request, ties as specified |
| Elevator.WaitLands | our-course/labs/lab06-io-storage/solutions/disksim.c:226-234 | the rotational wait is within a turn and ends on the target sector |
| Elevator.Serve | our-course/labs/lab06-io-storage/solutions/disksim.c:212-250 | each service starts with the target sector under the head; the seek total is the path's length |
| BufferCache.Unlinked | our-course/labs/xv6-riscv/kernel/bio.c:127-130 | taking a buffer out leaves a ring of the others |
| BufferCache.PushedFront | our-course/labs/xv6-riscv/kernel/bio.c:46-52 | pushing a buffer in front keeps the ring |
| BufferCache.Recycled | our-course/labs/xv6-riscv/kernel/bio.c:73-84 | recycling an unreferenced buffer changes no block's content |
| BufferCache.ContentAt | our-course/labs/xv6-riscv/kernel/bio.c:93-103 | a valid buffer holds the current content of its block |
| BufferCache.Cache.constructor | our-course/labs/xv6-riscv/kernel/bio.c:37-53 | the ring of all buffers |
| BufferCache.Cache.Lookup | our-course/labs/xv6-riscv/kernel/bio.c:65-73 | a buffer of the block, or none exactly when there is none |
| BufferCache.Cache.Victim | our-course/labs/xv6-riscv/kernel/bio.c:75-87 | the least recently used unreferenced buffer, or none exactly when all are referenced |
| BufferCache.Cache.Bget | our-course/labs/xv6-riscv/kernel/bio.c:59-89 | the block's buffer or a recycled one, refused exactly when all are referred to and none holds the block; referenced buffers are never recycled and every block reads as before |
| BufferCache.Cache.Fill | our-course/labs/xv6-riscv/kernel/bio.c:96-103 | what is read is the current content of the block |
| BufferCache.Cache.Bread | our-course/labs/xv6-riscv/kernel/bio.c:93-103 | the current content, in a locked buffer; if another process has it locked, the reference is taken and the caller waits |
| BufferCache.Cache.Bwrite | our-course/labs/xv6-riscv/kernel/bio.c:107-112 | the disk gets the content; every block of a device other than 0 reads as before |
| BufferCache.Cache.Brelse | our-course/labs/xv6-riscv/kernel/bio.c:117-137 | the last release makes the buffer the most recently used; every block reads as before |
| BufferCache.Cache.Bpin | our-course/labs/xv6-riscv/kernel/bio.c:139-144 | one more reference, nothing else |
| BufferCache.Cache.Bunpin | our-course/labs/xv6-riscv/kernel/bio.c:146-151 | one reference less, nothing else |
| LogCache.RoomIff | our-course/labs/xv6-riscv/kernel/bio.c:59-89 | with no other references a block that is not pinned can be had exactly when fewer blocks are pinned than there are buffers |
| LogCache.CachedLog.LogWrite | our-course/labs/xv6-riscv/kernel/log.c:215-236 | a listed block stays as it is, a new one is pinned and listed; a full log refuses both |
| LogCache.CachedLog.OpenPair | our-course/labs/xv6-riscv/kernel/log.c:179-192 | a log block and a pinned block can be held together exactly when not every buffer is pinned, and the pinned one holds its current content |
| LogCache.CachedLog.WriteLog | our-course/labs/xv6-riscv/kernel/log.c:179-192 | every slot gets the current content of its block, and outside the log nothing reads or is stored differently |
| LogCache.CachedLog.WriteHead | our-course/labs/xv6-riscv/kernel/log.c:103-115 | the header block gets the list and nothing else changes |
| LogCache.HeadReads | our-course/labs/xv6-riscv/kernel/log.c:86-115 | the list read from a header block is the one written to it |
| LogCache.CachedLog.InstallTrans | our-course/labs/xv6-riscv/kernel/log.c:66-84 | every listed block is home and unpinned, and no block reads differently |
| LogCache.CachedLog.Commit | our-course/labs/xv6-riscv/kernel/log.c:194-204 | succeeds exactly when not every buffer is pinned; then every logged block is on disk as it reads, the header is erased, nothing is pinned and outside the log nothing reads differently; no block moves before the header names them all and every slot holds its content, nor does any of that change until all are home; otherwise nothing is written |
| Xfsck.ClaimKeeps | our-course/labs/lab07-filesystem/solutions/xfsck/xfsck.c:102-117 | the owner table records exactly the claimed blocks, and problems are counted exactly when claims clash or leave the data region |
| Xfsck.CleanIff | our-course/labs/lab07-filesystem/solutions/xfsck/xfsck.c:122-158 | the claims are clean exactly when every reached address is in the data region and no block is reached twice |
| Xfsck.ReachedIsDue | our-course/labs/lab07-filesystem/solutions/xfsck/xfsck.c:133-157 | nothing is reached except through blocks the walk goes down |
| Xfsck.Checker.WalkInode | our-course/labs/lab07-filesystem/solutions/xfsck/xfsck.c:122-158 | claims every address due, in order and once |
| Xfsck.Checker.Check | our-course/labs/lab07-filesystem/solutions/xfsck/xfsck.c:193-216 | no problem is reported exactly for the images whose addresses are in range, distinct, and equal to the bitmap |

## Left out

- Weak memory ordering, interrupts and context switches: each atomic builtin, lock-protected section and single-block disk write is one step.
- Log and buffer cache under crashes and interleavings: `LogCache` runs a whole commit on the cache without a crash; the crashes and interleavings are those of `GroupCommit`, which keeps pinned contents in a map and home blocks apart from the log region.
- Journal: headers naming blocks beyond the device, which recovery would extend it for, and changing a device's mode in mid-run; sequence numbers stop short of 2^32.
- Sleep and wakeup in the kernel log: a blocked process is a step that is not enabled.
- Fairness: calls are shown to return under every schedule that keeps going without new calls (for the futex lock, under those in which contenders look at the word when it is free); that each single thread gets its turn under a scheduler that may prefer others is not.
- Ticket lock and spin lock in mylock.c: smaller instances of the futex lock's argument.
- Files: the image a file system starts from is empty, without the root directory; the bitmap is a sequence of flags rather than packed bits, the in-memory inode is the on-disk one, copies to and from user space never fault, and the log under each block write is `GroupCommit`'s business.
- Files.FileSystem.Bfree: takes a block in use as its precondition, which is the original's panic; `Itrunc` proves it is met.
- Directories, path names and links, in the kernel and in the checker's later passes: no part of the block invariants.
- Page tables: virtual addresses are page numbers, so the alignment panics are types; the panics on a remap, an address past the maximum and a leaf met while freeing are preconditions; free pages form a sequence rather than links inside the pages; copyin, copyout and lazy faults are not modelled.
- Allocator: pointer sums do not wrap around (only a forged header could make them), and the environment and the mapping call are parameters.
- RAID: failures of several disks on levels 4 and 5, the checksum and the command language.
- Remote calls: packets are parsed values and the retransmission counter is not kept, since a repeated request changes no set of packets; sequence numbers do not wrap.
- Disk scheduling: the library sort is a precondition (the index list is sorted), and parsing is left out.
- Buffer cache: device 0, the key of buffers never used, may be in several buffers, so uniqueness and coherence are about other devices; who waits for a sleep lock is not modelled; the holder's promise to write a changed block before dropping the last reference is a precondition of Brelse and Bunpin.
- Checker: the super block, root, directory and link-count passes; the image is given as blocks of words and must be as long as its super block says.
