# Verified models of the xv6 kernel and its tools

Dafny models of the parts of this xv6 system where correctness is hard to see: the crash-safe log over the buffer
cache, inode contents and block allocation, the process table with its lottery run queue, the memory allocators and
address spaces, pipes, and the shell's parser and grep's matcher. Each file holds one module. `dafny verify
dfyconfig.toml` checks all of them.

The C code updates its state in place, so most components come in two layers. Value modules define the state, what
each operation makes of it, and prove the results about operations and about whole runs. Class modules hold the loops
of the source on mutable fields, each method proved to do what the value functions say.

| component | value modules | loops |
|---|---|---|
| log.c | `BlockStore`, `LogRecovery`, `GroupCommit`, `LogCapacity` | `Log` |
| bio.c, memide.c | `BufferCache`, `BufferRecency` | `Bio` |
| fs.c, file.c | `Bitmap`, `InodeMap`, `InodeBytes`, `FileRuns`, `WriteCost`, `Paths` | `FileSystem`, `Directory`, `DirectoryLink`, `InodeCache` |
| proc.c | `Lottery`, `Lifecycle`, `Kinship`, `ProcSteps` | `RunQueue`, `ProcTable` |
| umalloc.c | `Heap` | `Heap` (class `Allocator`) |
| vm.c, kalloc.c | `PageTable`, `AddressSpace`, `FrameCounts`, `PageAccess` | `VirtualMemory` |
| pipe.c | `PipeCalls` | `Pipe` |
| sh.c | `ShellGrammar`, `ShellSyntax`, `ShellRoundTrip`, `ShellAccepts`, `ShellPrinter`, `ShellTokens`, `ShellBlanks` | `ShellParser` |
| grep.c | `Grep` | `Grep` |

How the machine is abstracted:

- A region between taking and dropping a spinlock is one atomic step; sleep and wakeup are steps with guards.
- Pointers are numbers: process-table slots, buffer numbers, page frames, header units of the heap, positions in text.
- Integers are unbounded except where width matters: pipe counters and malloc's unit count wrap at 2^32, the lottery's
  remainder is C's signed one, and file offsets are tested with 32-bit wrap-around.
- What the environment decides is a parameter: the random draw, what sbrk returns, whether a sleeper was killed, the
  kernel's link address.
- Running out of blocks, buffers, cache entries or table slots is an outcome of the operation, not an assumption.

Properties that turned out not to hold of the code, with their exact conditions:

- The log's size panic is unreachable for operations within budget exactly if the log has more than LOGSIZE sectors;
  mkfs makes it one short (`LogCapacity.PanicFreeIffLargeLog`). The budget has to count log_write calls, not blocks
  (`LogCapacity.AbsorbedWritePanics`).
- filewrite's chunks of 13 blocks, meant to fit in the log, exceed that budget: a writei keeps to it in every state
  exactly if it writes at most one block (`WriteCost.WithinBudgetIff`, `WriteCost.FilewriteOverBudget`).
- balloc can hand out blocks of the log region, exactly when all blocks before it are in use and some later one is free
  (`InodeMap.BallocInLogIff`, `InodeMap.BallocInLogExample`).
- The run queue holds every RUNNABLE process exactly if sigsend woke no sleeper (`Lifecycle.QueueExactIff`,
  `Lifecycle.StrayExample`); a process so woken never runs again (`Lifecycle.StrayForever`).
- A new process does not start out killed exactly as long as kill finds no free slot (all have pid 0) and fork gives up
  no killed child (`ProcSteps.TaintsExactly`, `ProcSteps.BornUnkilled`, `ProcSteps.BornKilledExample`); it does start
  with the signals sent to earlier owners of its slot (`ProcSteps.PendingIs`).
- A top-priority process outweighs the whole middle class a hundredfold exactly in small cases
  (`Lottery.ClassesOutweigh`).
- malloc returns too small a block for the seven largest requests (`Heap.RequestFits`).
- deallocuvm can jump over mapped pages (`AddressSpace.DeallocClearsIff`, `AddressSpace.SkipExample`).
- allocuvm can succeed without its last page, exactly if it is one free page short and that page is the first under a
  missing table (`FrameCounts.AllocLoopCount`, `AddressSpace.LastPageExample`).
- setupkvm loses pages exactly if some are free and fewer than it needs (`FrameCounts.SetupKvmCount`,
  `FrameCounts.SetupLosesExample`), and copyuvm loses exactly one in an exact set of cases of the free pages against
  the size (`FrameCounts.CopyUvmCount`, `FrameCounts.CopyLosesExample`).
- A writer killed on a full pipe can leave readers asleep on its bytes (`PipeCalls.StrandsExactly`,
  `PipeCalls.KilledWriterStrandsReader`).
- The shell's `>>` means the same as `>` in every command line (`ShellPrinter.AppendIsOut`), and no two other
  redirection signs do (`ShellPrinter.SignsCollideIff`).

## Model

| member | source | states |
|---|---|---|
| `LogRecovery.HeadRoundTrip` | log.c:84-112 | reading the log header gives back exactly the sectors that were written into it, whatever the block held before |
| `LogRecovery.RecoverClears` | log.c:114-121 | recovery leaves a readable, empty header |
| `LogRecovery.RecoverIdempotent` | log.c:114-121 | recovering twice is recovering once |
| `LogRecovery.CrashInRecovery` | log.c:68-121 | a crash after any number of recovery's sector writes leaves a disk from which recovery reaches the same final disk |
| `LogRecovery.RepeatedCrashes` | log.c:68-121 | the same after any number of crashes inside recoveries |
| `LogRecovery.BeforeHeader` | log.c:174-187 | while write_log runs, home sectors and the header are untouched and the log sectors filled so far hold the new data |
| `LogRecovery.DuringInstall` | log.c:190-199 | between the two header writes of commit the disk always holds the committed header and the full log |
| `LogRecovery.CommittedRecovers` | log.c:68-121 | from such a disk recovery produces exactly the new home sectors |
| `LogRecovery.EmptyHeadRecovers` | log.c:114-121 | with an empty header recovery changes no home sector |
| `LogRecovery.CommitIsAtomic` | log.c:174-199 | stopped after any j sector writes of commit, the recovered home sectors are exactly the old ones if the header had not been written and exactly the new ones if it had |
| `LogRecovery.CommitIsAtomicEverywhere` | log.c:174-199 | that statement for all j at once |
| `LogRecovery.AfterCommit` | log.c:190-199 | after the whole of commit the disk holds the new home sectors, the header is empty and no buffer is pinned |
| `LogRecovery.ViewDuringCommit` | log.c:190-199 | readers see the new home sectors at every moment of a commit |
| `GroupCommit.StepKeeps` | log.c:124-230 | every step of the machine (begin_op, log_write, end_op, one sector write of commit or of recovery, their end, a crash) keeps the log's invariant, or panics |
| `GroupCommit.RunKeeps` | log.c:124-230 | so does every run |
| `GroupCommit.RecoveredIsDurable` | log.c:68-121 | in any state with the invariant, what recovery would yield is the replay of the durable part of the history |
| `GroupCommit.GroupCommitSafe` | log.c:124-230 | for every interleaving with crashes anywhere: recovery yields the effect of a prefix of the history that consists of whole operations, and readers see the effect of the whole history |
| `GroupCommit.OnlySizePanic` | log.c:145-171 | committing implies that no operation is outstanding, and of the three panics only "too big a transaction" is reachable |
| `GroupCommit.StepPanics` | log.c:211-218 | and that one exactly in log_write when its size test says so |
| `GroupCommit.DurableGrows` | log.c:189-199 | no step, a crash included, loses or reorders a durable event |
| `GroupCommit.DurableForever` | log.c:189-199 | nor does a run |
| `GroupCommit.CommitReturnsDurable` | log.c:162-170 | when the committing end_op is done, everything its group did is durable and on the home sectors |
| `GroupCommit.SleeperWillBeWoken` | log.c:125-171 | whoever sleeps in begin_op is still blocked, and a commit or an outstanding operation is there to wake it |
| `GroupCommit.AdmitsExactly` | log.c:124-140 | over every run begin_op lets an operation in exactly when no commit is under way and the sectors in the log plus ten for each open operation plus ten are at most thirty; otherwise it only sleeps |
| `LogCapacity.RunReserves` | log.c:125-140 | if every operation makes at most MAXOPBLOCKS log_write calls, logged sectors plus unused reservations never exceed LOGSIZE, over every run |
| `LogCapacity.LargeLogNeverPanics` | log.c:211-218 | so with more than LOGSIZE log sectors such operations never panic |
| `LogCapacity.SmallLogPanics` | log.c:211-218 | with at most LOGSIZE log sectors every quiet state has a run of three operations within budget that panics |
| `LogCapacity.PanicFreeIffLargeLog` | mkfs.c:17 | operations within budget are free of panics exactly on logs of more than LOGSIZE sectors; mkfs makes logs of LOGSIZE |
| `LogCapacity.AbsorbedWritePanics` | log.c:215-227 | a budget of distinct blocks would not do: with LOGSIZE sectors logged, a log_write that would be absorbed still panics |
| `Log.CommitInStages` | log.c:190-199 | write_log, write_head, install_trans and write_head together send exactly the sector writes that the atomicity results speak of |
| `Log.Log.WriteLog` | log.c:174-187 | the loop sends the contents of the logged sectors to the log, in order |
| `Log.Log.WriteHead` | log.c:100-112 | the header on disk becomes the one in memory |
| `Log.Log.ReadHead` | log.c:84-95 | the header in memory becomes the one on disk |
| `Log.Log.InstallTrans` | log.c:68-81 | the loop sends the log sectors to their homes, in order |
| `Log.Log.RecoverFromLog` | log.c:114-121 | the disk becomes the recovered one; stopped after any of its writes and run again it reaches the same disk |
| `Log.Log.Commit` | log.c:189-199 | the home sectors become the new ones, atomically at every write |
| `Log.Log.BeginOpPass` | log.c:124-140 | one pass of the loop: sleep exactly when blocked, else one more outstanding operation |
| `Log.Log.EndOpAll` | log.c:144-171 | wake waiters, or commit and then wake them; panics exactly when the machine's end_op does |
| `Log.Log.LogWrite` | log.c:210-230 | panics exactly when the transaction is too big or absent; else the sector is in the header once and its data pinned |
| `BufferCache.StepKeeps` | bio.c:61-140 | every step of processes taking, filling, changing, logging, writing and releasing buffers keeps: one buffer for a sector, unchanged valid buffers equal to the plain disk, clean sectors up to date on disk, every buffer once in the list |
| `BufferCache.InvAlways` | bio.c:61-140 | so does every run in which no buffer is released changed but neither logged nor written |
| `BufferCache.BreadIsPlain` | bio.c:97-107 | bread returns a busy buffer with what a plain disk would hold, and iderw does not panic on the way |
| `BufferCache.NeverRecycled` | bio.c:80-93 | no step gives a busy or dirty buffer to another sector |
| `BufferCache.FindsSector` | bio.c:69-78 | the scan for a cached sector misses no buffer |
| `BufferCache.StepRefines` | bio.c:61-140 | each step is one of the store that the log is modelled on: log_write pins the sector, bwrite writes it through, and taking, filling, changing and releasing a buffer change nothing |
| `BufferCache.StoreIsPlain` | log.c:211-230 | at every moment dirty buffers over the disk read as the plain disk |
| `BufferCache.CacheIsStore` | log.c:211-230 | from boot, over every run, the cache over the disk is that store after the log_writes and bwrites of the run, in order |
| `BufferCache.BreadReadsStore` | bio.c:97-107 | and bread returns the sector as they left it |
| `BufferCache.FillKeeps` | memide.c:37-58 | a buffer taken and not valid can be read without a panic, and then agrees with the plain disk |
| `BufferCache.WriteKeeps` | memide.c:37-58 | a written buffer reaches the disk without a panic and is clean |
| `BufferRecency.ListByRecency` | bio.c:119-140 | from boot, over every run, the list of buffers is in the order of their last releases, the latest first |
| `BufferRecency.RecyclesOldest` | bio.c:80-94 | bget for a sector that is not cached takes, of all free clean buffers, one whose last release is the longest ago, and fails only if there is no such buffer |
| `BufferRecency.ReleasedIsHad` | bio.c:119-140 | after brelse the next bget of the sector gets the buffer, with flags and data as they were |
| `BufferRecency.HeldIsWaitedFor` | bio.c:69-78 | while a buffer is held, bget of its sector waits for it and gets no other |
| `Bio.UnlinkKeeps` | bio.c:129-130 | unlinking a buffer leaves a well-formed ring of the others in order |
| `Bio.PushFrontKeeps` | bio.c:131-134 | linking it behind the head makes it first and keeps the ring |
| `Bio.Bcache.constructor` | bio.c:38-56 | binit: all buffers on one ring, none for a sector of the disk |
| `Bio.Bcache.Bget` | bio.c:61-95 | returns the cached buffer, waits for it, recycles the least recently used clean free one, or finds none, and changes only the buffer it returns |
| `Bio.Bcache.Cached` | bio.c:69-78 | the forward loop finds the first buffer for the sector |
| `Bio.Bcache.Spare` | bio.c:83-92 | the backward loop finds the last buffer that is neither busy nor dirty |
| `Bio.Bcache.Iderw` | memide.c:36-58 | copies to the disk and cleans, or from the disk and validates |
| `Bio.Bcache.Bread` | bio.c:97-107 | the returned buffer holds the sector of the plain disk |
| `Bio.Bcache.Bwrite` | bio.c:109-117 | the sector of the disk becomes the buffer's data |
| `Bio.Bcache.Brelse` | bio.c:119-140 | the buffer is free and first in the list, the others keep their order |
| `Bitmap.MarkOnly` | fs.c:65-68 | setting a block's bit changes no other block's bit, whatever shares the byte |
| `Bitmap.ClearOnly` | fs.c:88-92 | nor does clearing it |
| `Bitmap.FindFree` | fs.c:61-74 | the two loops of balloc find the least free block, or none |
| `Bitmap.LeastFreeIs` | fs.c:61-74 | it is free, and every block before it is in use |
| `Bitmap.BitLayout` | fs.c:61-68 | block b is in use exactly if bit b modulo 8 of its byte of bitmap block b / 4096 is set |
| `InodeMap.BallocInLogIff` | fs.c:61-63 | the bitmap does not mark the log: balloc hands out a block of the log or behind it exactly when every block before the log is in use and some later one is free |
| `InodeMap.BallocInLogExample` | fs.c:61-63 | a sound disk on which it hands out the first block of the log |
| `InodeMap.PutWordOnly` | fs.c:376-379 | writing an entry of an indirect block changes that entry and no other |
| `InodeMap.InstallRef` | fs.c:365-379 | giving a slot of an inode a free block changes that slot's block and no other's, also when a new indirect block starts out all zero |
| `InodeMap.InstallKeeps` | fs.c:52-76 | ownership is kept: slots hold distinct blocks, in range, with their bits set |
| `InodeMap.BmapKeeps` | fs.c:358-386 | bmap keeps ownership, gives the block a place of its own, zeroed if it is new, leaves all other slots, all data in use and the inode's type, links and size alone, and fails only on a full disk |
| `InodeMap.BmapFinds` | fs.c:358-386 | a block that is there is found without a change |
| `InodeMap.NeverFreesFree` | fs.c:78-95 | at each bfree of itrunc the bit is set: the panic on freeing a free block is unreachable |
| `InodeMap.TruncFrees` | fs.c:393-421 | itrunc clears the bits of the inode's own blocks and no others |
| `InodeMap.TruncKeeps` | fs.c:393-421 | and keeps ownership |
| `InodeBytes.ChunkExtent` | fs.c:476-481 | a turn of writei's loop allocates only when it writes at the end of the contents, and the blocks there are then again exactly those below the new end |
| `InodeBytes.WriteLoopSplices` | fs.c:476-482 | the loop splices its bytes into the contents over direct and indirect blocks and unaligned ends, or stops on a full disk; addresses change only if the contents grow |
| `InodeBytes.WriteLoopOthers` | fs.c:476-482 | and leaves every other inode, its blocks and its bytes alone |
| `InodeBytes.AcceptsExactly` | fs.c:471-474 | the tests of writei, 32-bit wrap-around included, accept exactly the writes that leave no gap and stay within the largest file |
| `InodeBytes.WriteiSplices` | fs.c:463-494 | writei rejects exactly the others; else the file is the old one with src spliced in at off, the inode keeps its type and link count, all other files are as before, no file has holes, and every inode on disk equals the one in memory |
| `InodeBytes.ReadAllocatesNothing` | fs.c:453-458 | no bmap of readi allocates, and it finds the block with the wanted bytes |
| `InodeBytes.FileLayout` | fs.c:355-386 | where a file's bytes are on the disk: byte x is byte x modulo 512 of block x / 512, the first twelve blocks named by the inode, the others by the little-endian words of its indirect block |
| `InodeBytes.TruncEmpties` | fs.c:393-421 | itrunc empties its file, on disk too, and leaves its type and link count and all other files alone |
| `InodeBytes.FreeInodeFrees` | fs.c:323-335 | freeing an inode leaves it with type 0 and no bytes, in memory and on disk, gives back exactly its blocks, and leaves every other file alone |
| `InodeBytes.FileWriteSplices` | file.c:124-152 | filewrite is one big splice that keeps the inode's type and link count: it returns n exactly if all fits, and otherwise has written the whole pieces that fit |
| `WriteCost.LoopCost` | fs.c:476-482 | writei's loop succeeds exactly if as many blocks are free as it has to allocate, and its log_write calls depend only on the size of the file, the offset and the count |
| `WriteCost.WriteiCost` | fs.c:463-494 | so does writei: it runs out of disk exactly if fewer blocks are free than it needs, and else makes exactly the counted log_write calls |
| `WriteCost.WithinBudgetIff` | file.c:126-143 | a writei of n bytes makes at most MAXOPBLOCKS log_write calls, whatever the file and the offset, exactly if n is at most one block |
| `WriteCost.FirstIndirectCalls` | fs.c:372-383 | appending k blocks to a file that fills its direct blocks takes 4k + 3 log_write calls |
| `WriteCost.FilewriteOverBudget` | file.c:132 | a concrete file to which one chunk of filewrite, 13 blocks, makes 55 log_write calls in one operation |
| `FileRuns.StepRefines` | fs.c:393-494 | an operation on the disk is the operation on plain byte sequences, and changes no inode's type or link count |
| `FileRuns.RunRefines` | fs.c:358-494 | over every run of writes and truncations that does not fill the disk, ownership, absence of holes and agreement with the disk inodes hold throughout, the files are what the operations make of plain byte sequences, and every inode keeps its type and link count |
| `FileSystem.FileSystem.Balloc` | fs.c:49-76 | takes the least free block, which then is in use, and zeroes it; no other block's bit changes; none on a full disk |
| `FileSystem.FileSystem.Bfree` | fs.c:78-95 | of all blocks exactly this one, which was in use, is no longer in use |
| `FileSystem.FileSystem.Bmap` | fs.c:355-386 | does what the block map function says, in its order of allocations |
| `FileSystem.FileSystem.Readi` | fs.c:434-460 | returns the slice of the file clipped to its size, or -1, and changes nothing |
| `FileSystem.FileSystem.CopyOut` | fs.c:453-458 | its loop copies exactly that slice, block by block |
| `FileSystem.FileSystem.Writei` | fs.c:462-494 | the tests, the loop and iupdate together are the write function, with its number of log_write calls |
| `FileSystem.FileSystem.CopyIn` | fs.c:476-482 | its loop is the recursive splice |
| `FileSystem.FileSystem.Itrunc` | fs.c:388-421 | both loops together are the truncation, each bfree on a block in use |
| `FileSystem.FileSystem.FreeInode` | fs.c:329-331 | itrunc, type 0 and iupdate together are the freeing of an inode |
| `FileSystem.FileSystem.FileWrite` | file.c:124-152 | the chunk loop is the file write function |
| `Paths.SkipElemIs` | fs.c:565-601 | skipelem takes the first element, clipped to DIRSIZ characters, off a path and leaves the others; what it leaves has no leading slash and is empty exactly after the last element |
| `Paths.Skipelem` | fs.c:578-601 | its three loops compute that |
| `Directory.SameIsEqual` | string.c:59-66 | namecmp finds a name equal to an entry's exactly if it is the text of the entry up to its first zero byte or its end |
| `Directory.LookIs` | fs.c:516-530 | dirlookup finds the first entry in use with the name, and panics exactly if there is none and the file ends inside an entry |
| `Directory.Namecmp` | fs.c:500-503 | the loop of strncmp decides that equality |
| `Directory.Dirlookup` | fs.c:508-531 | the loop over readi is that search in the bytes of the file, and changes nothing |
| `DirectoryLink.DirentMatches` | fs.c:555-556 | the entry that dirlink writes is found under exactly the names that agree with its own in their first DIRSIZ characters, and under none if the inode number is 0 modulo 2^16 |
| `DirectoryLink.LinkThenLook` | fs.c:534-561 | after dirlink of a name that was not there dirlookup finds the inode under it, and under every other name just what it found before |
| `DirectoryLink.FindFree` | fs.c:547-553 | the scan finds the first entry not in use, or the end |
| `DirectoryLink.Dirlink` | fs.c:534-561 | fails if the name is there; panics exactly on a torn directory, on one of the largest size and on a full disk; else writes the entry in the first free place, and the directory keeps its type and links and every other file its bytes |
| `InodeCache.IgetAdds` | fs.c:222-253 | iget adds one reference to its inode and none to others, keeps one entry in use for each inode, and an entry it has just taken counts as not read |
| `InodeCache.AddRefAdds` | fs.c:255-338 | idup adds one and iput drops one, of that inode only, and both keep that |
| `InodeCache.LiveHoldsAll` | fs.c:222-253 | an entry in use holds all the references to its inode |
| `InodeCache.TargetStep` | fs.c:617-634 | the turns of namex's loop follow the path from the front, with the panics of ilock on a free inode and of dirlookup on a torn directory |
| `InodeCache.FollowStays` | fs.c:603-640 | a path leads to an inode on the device it starts on |
| `InodeCache.ParentThenLast` | fs.c:642-653 | the inode that namei finds is what the last name is in the directory that nameiparent finds, and fails in the same way where nameiparent fails |
| `InodeCache.ICache.Iget` | fs.c:222-253 | finds the entry in use, or takes the first free one, or there is none free |
| `InodeCache.ICache.Idup` | fs.c:255-264 | one reference more |
| `InodeCache.ICache.Ilock` | fs.c:269-297 | the inode has been read and is marked so, no other entry changes; panics exactly if it has to be read and is free |
| `InodeCache.ICache.Iput` | fs.c:319-338 | one reference less; exactly the last reference to an inode that has been read and has no links frees the inode and its blocks, and the entry then counts as not read |
| `InodeCache.ICache.Namex` | fs.c:603-640 | finds exactly the inode the path names through the bytes of its directories, or the directory before its last name, and adds exactly one reference, to it; if there is none it adds no reference anywhere; frees an inode on the way only if one without links is named |
| `Lottery.TicketsTile` | proc.c:131-186 | tickets tile 1..total: each has exactly one owner and no other number has any |
| `Lottery.RemIsC` | proc.c:103 | the remainder that draws use is C's: the quotient truncates, so it has the sign of the random number |
| `Lottery.PickSelectsOwner` | proc.c:95-118 | a draw selects the owner of its ticket; exactly the draws whose signed remainder is zero or negative select nobody |
| `Lottery.EveryoneCanWin` | proc.c:95-118 | every queued process can be drawn |
| `Lottery.HeadOutweighs` | proc.c:139-146 | under FRR and FCFS the head of the queue holds more than 100 times all others together |
| `Lottery.ClassesOutweigh` | proc.c:174-182 | under PRS each process above the lowest class holds more than 100 times the tickets that all processes of the lowest class hold together; each process of the top class holds more than any of class 1, and more than 100 times all of class 1 together exactly if a lower class is empty or both have one process |
| `Lottery.TopOutweighsMidIff` | proc.c:177-182 | the same on the numbers of processes in the classes |
| `Lottery.PriorityTotal` | proc.c:171-185 | in numbers, with a, b and c processes in the classes: they hold 10a, 10b + 1000ab and 10c + 1000ac + 100000bc tickets, and the total is the sum of these |
| `Lottery.TotalFits` | proc.c:121-189 | for up to NPROC processes no total exceeds a 32-bit int |
| `RunQueue.PushKeeps` | proc.c:55-70 | pushing keeps the doubly linked list well formed and adds one at its end |
| `RunQueue.RemoveKeeps` | proc.c:73-92 | unlinking from any place keeps it well formed and the others in order |
| `RunQueue.KeptAll` | proc.c:121-189 | delivery drops nobody from a queue of RUNNABLE processes |
| `RunQueue.KeptExactly` | proc.c:121-169 | delivery leaves queued exactly the RUNNABLE processes and, under FRR and FCFS, the first one |
| `RunQueue.RunQueue.Push` | proc.c:55-70 | the queue is one longer |
| `RunQueue.RunQueue.Remove` | proc.c:72-92 | the queue is without that process |
| `RunQueue.RunQueue.DeliverFifo` | proc.c:121-147 | drops processes that are not RUNNABLE behind the first, and deals the tickets of the lottery |
| `RunQueue.RunQueue.DeliverPriority` | proc.c:148-189 | drops processes that are not RUNNABLE, counts the classes and deals their tickets |
| `RunQueue.RunQueue.DealTens` | proc.c:132-143 | its FRR loop from the last process to the first |
| `RunQueue.RunQueue.DropIdle` | proc.c:149-169 | its PRS counting loop |
| `RunQueue.RunQueue.DealByClass` | proc.c:171-185 | its PRS dealing loop |
| `RunQueue.RunQueue.PickProcess` | proc.c:95-118 | returns the process that the lottery picks for the random number, or none |
| `Lifecycle.BootOk` | proc.c:251-282 | the table that userinit leaves has the invariant |
| `Lifecycle.WakesExactly` | proc.c:611-624 | wakeup1 makes exactly the sleepers on the channel RUNNABLE and queues exactly them, each once |
| `Lifecycle.WakeKeeps` | proc.c:611-624 | and keeps the invariant of the table |
| `Lifecycle.ExitKeeps` | proc.c:361-405 | so does exit, with its wakeups and the handing of its children to init |
| `Lifecycle.ReapKeeps` | proc.c:419-439 | so does wait when it reaps |
| `Lifecycle.WaitSleepKeeps` | proc.c:441-448 | and when it sleeps or gives up |
| `Lifecycle.KillKeeps` | proc.c:638-660 | so does kill |
| `Lifecycle.KillReaches` | proc.c:638-660 | kill marks the one process with the pid; if asleep it is then RUNNABLE and queued, if not it keeps its status and the queue does not change; no other process is touched |
| `Lifecycle.SigsendKeeps` | proc.c:712-733 | so does sigsend, which marks the signal pending and wakes a sleeper without queueing it |
| `Lifecycle.ScheduleKeeps` | proc.c:492-511 | so does the scheduler taking any process off the queue |
| `Lifecycle.StepKeeps` | proc.c:203-660 | so does every action on the table |
| `Lifecycle.LifecycleSafe` | proc.c:307-450 | over every run from boot: parents are alive, nobody sleeps in wait with a zombie child, a pid is reaped at most once and only after exit, and until then it is a zombie with a live parent |
| `Lifecycle.QueueExactIff` | proc.c:611-660 | the run queue is always free of duplicates and holds only RUNNABLE processes, and holds all of them on exactly the runs in which sigsend woke no sleeper |
| `Lifecycle.StrayForever` | proc.c:725-726 | a process that sigsend woke stays RUNNABLE and off the queue for ever |
| `Lifecycle.StrayExample` | proc.c:725-726 | a run of three steps from boot after which init is RUNNABLE and the queue is empty |
| `Kinship.StepKin` | proc.c:307-450 | every action keeps: a child's parent is the process that forked it, or init if that one has exited; who was reaped was reaped by its forker, or by init after the forker's exit |
| `Kinship.FamilySafe` | proc.c:307-450 | so over every run from boot each child not yet reaped has its forker as parent until the forker exits and init from then on, and is reaped by that process only |
| `Kinship.ForkRecorded` | proc.c:307-356 | the record of who forked whom grows only when fork hands out a pid, by that pid and the caller's |
| `Kinship.ForksStay` | proc.c:307-356 | and never changes over a run |
| `ProcSteps.StatusMoves` | proc.c:203-660 | a process changes its status only along the edges of the state diagram, each made by its own operation and by no other |
| `ProcSteps.SleepEndsIff` | proc.c:611-660 | a sleeper becomes RUNNABLE exactly by wakeup of its channel, by kill or a valid signal to its pid, by the exit of a child it waits for, or, for init in wait, by an exit that leaves it a zombie; every other step leaves it asleep |
| `ProcSteps.SleepsOnItsChannel` | proc.c:572-633 | sleep followed by wakeup of the same channel makes the process RUNNABLE and queued, wakeup of any other leaves it asleep |
| `ProcSteps.QueueFifo` | proc.c:55-92 | no step lets a process overtake another in the run queue: newcomers go to its end and the scheduler takes out the one it chose |
| `ProcSteps.SigsendReaches` | proc.c:712-733 | sigsend adds the signal to those pending in the one process with the pid and wakes it if asleep, and changes nothing else, the queue included |
| `ProcSteps.PendingIs` | proc.c:712-733 | over every run a slot has pending exactly the signals it had and those sent to it: neither wait nor allocproc forgets any |
| `ProcSteps.ReapClears` | proc.c:419-438 | wait reaps the first zombie child: its slot is free, without pid, parent and mark of kill, and no other slot changes |
| `ProcSteps.TaintsExactly` | proc.c:639-647 | exactly a kill that finds a free slot and a fork that gives up a killed child leave a free slot marked as killed |
| `ProcSteps.BornUnkilled` | proc.c:204-218 | on every run from boot without such a step a new process does not start out killed |
| `ProcSteps.BornKilledExample` | proc.c:639-647 | after kill(0) the next child starts out killed |
| `ProcTable.PTable.constructor` | proc.c:251-282 | builds the table that userinit leaves |
| `ProcTable.PTable.AllocProc` | proc.c:203-223 | the scan takes the first UNUSED slot and a new pid, or finds that no slot is UNUSED; this is the machine's step Alloc |
| `ProcTable.PTable.ForkFail` | proc.c:317-322 | fork without memory gives the slot back, as the machine's step does |
| `ProcTable.PTable.ForkParent` | proc.c:324 | the child gets its parent, as in the machine's step of which `Kinship.FamilySafe` speaks, and nothing else changes |
| `ProcTable.PTable.ForkReady` | proc.c:347-355 | the child is RUNNABLE and at the end of the queue, as in the machine's step; its pid is returned |
| `ProcTable.PTable.Sleep` | proc.c:592-596 | SLEEPING on the channel, and not queued |
| `ProcTable.PTable.Wakeup1` | proc.c:611-624 | the loop wakes and queues exactly the sleepers, in table order |
| `ProcTable.PTable.Wakeup` | proc.c:627-633 | wakeup on a channel is the machine's step |
| `ProcTable.PTable.Exit` | proc.c:383-402 | wakeup, the loop over the children with its wakeups of init, and the change to ZOMBIE together are the exit function |
| `ProcTable.PTable.PassChildren` | proc.c:389-396 | its loop over the children |
| `ProcTable.PTable.WaitScan` | proc.c:410-448 | one scan reaps the first zombie child and returns its pid, or returns -1 without children or when killed, or sleeps |
| `ProcTable.PTable.Kill` | proc.c:638-660 | marks the first process with the pid and wakes and queues it if asleep |
| `ProcTable.PTable.Sigsend` | proc.c:712-733 | returns -1 for a signal number outside 0..30 or an unknown pid; else marks the signal pending in the first process with the pid and wakes it if asleep, and does not queue it |
| `ProcTable.PTable.Yield` | proc.c:537-547 | RUNNABLE and at the end of the queue |
| `ProcTable.PTable.Schedule` | proc.c:492-511 | deals, draws, and runs exactly the process the lottery picks, taking it off the queue; changes nothing if it picks none |
| `Heap.FreeKeeps` | umalloc.c:24-44 | free keeps the heap sound: one address-ordered cycle of free blocks, no two of them touching, live and free blocks tiling the memory |
| `Heap.FreedHeaders` | umalloc.c:33-42 | its header updates are those of linking the block and merging it with its neighbours |
| `Heap.FreeFrees` | umalloc.c:24-44 | it gives back exactly that block; every other live block keeps place and size |
| `Heap.AllocKeeps` | umalloc.c:75-84 | taking a block, whole or from the tail of one, keeps the heap sound and yields a new live block of the size asked for |
| `Heap.OneCycle` | umalloc.c:24-90 | from any header, as many steps as there are free blocks visit each of them once and come back |
| `Heap.ExactlyOneBlock` | umalloc.c:24-90 | every unit of memory lies in exactly one block |
| `Heap.HeapAlwaysSound` | umalloc.c:24-90 | over every sequence of frees, mallocs and morecores the heap is sound and its units are exactly those obtained from sbrk |
| `Heap.RequestFits` | umalloc.c:69 | for requests of at most 2^32 - 8 bytes the unit count is the least that holds the header and the request; it wraps, to too few, exactly for the seven larger ones |
| `Heap.FreedFits` | umalloc.c:46-61 | what morecore frees is part of a free block at least as large, merged or not |
| `Heap.Allocator.Free` | umalloc.c:24-44 | finds the block's place in the list, also at its ends, links and merges it |
| `Heap.Allocator.FindSlot` | umalloc.c:29-32 | the search loop ends at the header before the block |
| `Heap.Allocator.MoreCore` | umalloc.c:46-61 | adds the region sbrk returns, if any, to the free memory; then the request fits |
| `Heap.Allocator.Take` | umalloc.c:76-84 | unlinks the block or cuts its tail off |
| `Heap.Allocator.Malloc` | umalloc.c:63-90 | terminates for every heap and every request; asks morecore once if nothing fits and never otherwise; fails exactly if that fails, or stops there exactly if sbrk's argument is not positive as an int; else returns a new block of the size asked for and leaves all live blocks alone |
| `PageTable.KfreeShape` | kalloc.c:59-77 | freeing a page keeps the free list linked through its pages, in range and without duplicates |
| `PageTable.KfreeErases` | kalloc.c:66-73 | a freed page holds the link and bytes of 1 and nothing of what it held, and no other page changes |
| `PageTable.TakeShape` | kalloc.c:82-95 | so does taking its head |
| `PageTable.NewTableSpace` | vm.c:45-65 | a new page table keeps the address space sound: every frame it maps is allocated, in range and in one place only |
| `PageTable.SetPteIs` | vm.c:70-90 | writing the entry of a page changes that entry and no other |
| `AddressSpace.MapPageKeeps` | vm.c:70-90 | mapping a page sets its entry alone and accounts for every page; it fails only without a free page |
| `AddressSpace.KernelMapValid` | vm.c:114-125 | the kernel's table maps no page twice, wherever its data starts |
| `AddressSpace.SetupKvmOutcome` | vm.c:127-144 | setupkvm makes a directory with exactly the kernel's mappings out of free pages; if it fails, no page is left free |
| `AddressSpace.CopyLoopOutcome` | vm.c:318-331 | copyuvm's loop copies bytes and flags of all pages, or stops with every page, or every page but one, accounted for |
| `AddressSpace.ChildPagesFresh` | vm.c:325-329 | the child's pages were free before and are distinct |
| `AddressSpace.CopyUvmOutcome` | vm.c:309-337 | copyuvm: on success the child has the parent's bytes and flags at every page, no other user page and the kernel's mappings, and freevm would restore the free pages exactly; on failure all pages are accounted for but those that are lost |
| `AddressSpace.DeallocKeeps` | vm.c:249-273 | deallocuvm unmaps only in its range and accounts for every page |
| `AddressSpace.DeallocClearsIff` | vm.c:258-270 | it frees all pages of its range exactly if it starts at a table's start or in a table that is there, or nothing is mapped in the part of the next table that its jump passes over |
| `AddressSpace.ContiguousClears` | vm.c:249-273 | user memory without gaps is always freed completely |
| `AddressSpace.SkipExample` | vm.c:261-262 | a concrete machine on which deallocuvm leaves a page of its range mapped |
| `AddressSpace.FreevmRestores` | vm.c:275-292 | freevm gives back exactly the pages the address space was made of, each once, and touches no page in use elsewhere |
| `AddressSpace.AllocLoopOutcome` | vm.c:231-242 | allocuvm maps zeroed user pages or runs out with every page but at most one accounted for |
| `AddressSpace.LastPageExample` | vm.c:240 | a concrete machine on which allocuvm succeeds and maps nothing |
| `FrameCounts.MapPageCount` | vm.c:45-65 | mapping a page takes a free page exactly if its table is missing, and fails exactly if then none is free |
| `FrameCounts.AllocLoopCount` | vm.c:231-242 | allocuvm maps all its pages exactly if as many pages are free as it maps plus tables it misses; it loses a page exactly if the last free one goes to the first page under a missing table, and if that is its last page it succeeds all the same |
| `FrameCounts.AllocFailure` | vm.c:234-238 | allocuvm that fails leaves no page of its range mapped, every other entry and table as it was, and every page free that was, but for the tables it added and the page it lost |
| `FrameCounts.SetupKvmCount` | vm.c:127-144 | setupkvm succeeds exactly if as many pages are free as its directory and the tables under it, and takes just those; otherwise it loses all that were free |
| `FrameCounts.KernelPagesAre` | vm.c:114-125 | for the kernel's own table these are 65, wherever its data start |
| `FrameCounts.CopyUvmCount` | vm.c:309-337 | with r pages free beyond those, copyuvm of n pages succeeds exactly if r is at least n plus one for each 1024; if it fails it restores the free pages exactly, except that it loses exactly one if r is 1 modulo 1025 and 1024 for each whole 1025 in r is below n, and all if setupkvm fails |
| `FrameCounts.SetupLosesExample` | vm.c:131-142 | with one free page setupkvm fails and loses it |
| `FrameCounts.CopyLosesExample` | vm.c:325-336 | a process of one page and 66 free pages, of which a failed copyuvm gives back 65 |
| `PageAccess.EntryDecides` | vm.c:54-62 | with every page table entered in the directory with all permissions, the entry of a page alone decides what user code may do with it |
| `PageAccess.MapPageOpen` | vm.c:42-90 | walkpgdir and mappages keep it so |
| `PageAccess.AllocAccess` | vm.c:231-242 | after allocuvm user code may read and write every new page, and do with all others what it could before |
| `PageAccess.CopyAccess` | vm.c:309-337 | in the child that copyuvm makes user code may read and write each page exactly as the flags of the parent's entry say, and touch no other page, the kernel's included |
| `PageAccess.KernelView` | vm.c:114-144 | setupkvm's address space page by page: physical memory at KERNBASE, writable but for text and read-only data, the devices in place, nothing else, and nothing open to user code |
| `PageAccess.DeallocAccess` | vm.c:249-273 | after deallocuvm user code may do nothing it could not do before, and outside the range all that it could |
| `VirtualMemory.Machine.Kalloc` | kalloc.c:79-95 | unlinks the head of the free list, or returns 0 |
| `VirtualMemory.Machine.Kfree` | kalloc.c:54-77 | fills the page with junk and links it in front |
| `VirtualMemory.Machine.Freerange` | kalloc.c:45-52 | the loop frees exactly the pages of the range |
| `VirtualMemory.Machine.Walkpgdir` | vm.c:42-65 | finds the page's table or makes one, entered in the directory with the permissions that `PageAccess.EntryDecides` relies on |
| `VirtualMemory.Machine.Mappages` | vm.c:67-90 | the loop maps the range page by page, none of them mapped before, user pages to frames of their own, and keeps the address space sound |
| `VirtualMemory.Machine.Setupkvm` | vm.c:127-144 | the loop over the kernel's mappings is the setup function; the remap panic is unreachable |
| `VirtualMemory.Machine.Allocuvm` | vm.c:218-243 | the tests, the loop and the cleanup together are the growth function; a call that fails has unmapped its range again and accounts for every page it keeps |
| `VirtualMemory.Machine.Deallocuvm` | vm.c:245-273 | the loop with its jump is the deallocation function |
| `VirtualMemory.Machine.Freevm` | vm.c:275-292 | deallocation, the loop over the directory and the directory itself; each kfree on a page in range that is not free |
| `VirtualMemory.Machine.Copyuvm` | vm.c:307-337 | the loop with its cleanup is the copy function |
| `Pipe.CountersTell` | pipe.c:84-113 | the tests on the counters mean full and empty, also after they wrap at 2^32 |
| `Pipe.PutKeeps` | pipe.c:92 | a byte put is the last of the bytes in flight |
| `Pipe.GetKeeps` | pipe.c:112-116 | a byte got is the first of them |
| `Pipe.PutBytesKeeps` | pipe.c:83-93 | pipewrite's loop, with its test on the counters, puts in order as many bytes as there is room for |
| `Pipe.GetBytesKeeps` | pipe.c:111-116 | piperead's loop takes out the oldest bytes, as many as there are up to n |
| `Pipe.Pipe.Write` | pipe.c:77-97 | between two sleeps pipewrite puts as many bytes as there is room for, in order, and wakes readers exactly when it returns or sleeps, except on failure |
| `Pipe.Pipe.ReadUpTo` | pipe.c:99-120 | piperead sleeps exactly on an empty open pipe, else takes the next bytes, up to n, and wakes writers |
| `Pipe.Pipe.Close` | pipe.c:58-74 | closes one end and wakes the sleepers at the other; the pipe is gone when both are closed |
| `PipeCalls.FifoAlways` | pipe.c:58-120 | for every interleaving of calls on the ring with its counters wrapping at 2^32: the ring holds exactly the bytes written and not yet read, what was read is a prefix of what was written, at most PIPESIZE bytes are in flight, the counter tests mean full and empty, and a writer sleeps only on a full pipe that may still be read |
| `PipeCalls.FlowGrows` | pipe.c:77-120 | no step loses or reorders a byte |
| `PipeCalls.WriterEnds` | pipe.c:77-97 | a writer puts what there is room for; it is gone with the readers woken if that is all, gone with nobody woken if it is killed or nobody can read, and else asleep at its next byte with the readers woken, just as the outcome function of the flow says |
| `PipeCalls.ReaderEnds` | pipe.c:99-120 | a reader sleeps, or fails if killed, exactly on an empty pipe that may still be written, changing nothing else; any other reader is gone with the oldest bytes, up to its count, and the writers woken, just as the outcome function says |
| `PipeCalls.EndOfFile` | pipe.c:105-120 | a read of an empty pipe whose write end is closed ends at once without bytes |
| `PipeCalls.KilledNeverSleeps` | pipe.c:85-109 | a killed process never goes to sleep on a pipe |
| `PipeCalls.StrandsExactly` | pipe.c:84-88 | a step leaves a reader asleep on bytes exactly if a writer with bytes placed gives up on a full pipe while readers sleep |
| `PipeCalls.ReadersNeverMiss` | pipe.c:77-120 | without such a step a reader sleeps only on an empty pipe that may still be written |
| `PipeCalls.KilledWriterStrandsReader` | pipe.c:85-88 | such a step can happen |
| `ShellPrinter.RoundTrip` | sh.c:343-462 | parsecmd recovers every command from its printed form, with parentheses only around parts of a pipeline that are not words and redirections |
| `ShellRoundTrip.LineRead` | sh.c:360-375 | parseline reads a well-formed line, wherever it stands and up to the end or a closing parenthesis, as the command it stands for |
| `ShellRoundTrip.ArgsRead` | sh.c:431-462 | parseexec reads arguments and the redirections among them as exactly those |
| `ShellRoundTrip.RedirsRead` | sh.c:390-413 | parseredirs reads redirections with any spaces as exactly those files, modes and descriptors |
| `ShellRoundTrip.AcceptsLines` | sh.c:343-358 | parsecmd accepts every well-formed line and builds the command it stands for |
| `ShellAccepts.LineBack` | sh.c:360-462 | whatever parseline accepts is a well-formed line |
| `ShellAccepts.AcceptsExactly` | sh.c:343-462 | parsecmd accepts exactly the well-formed lines |
| `ShellAccepts.Unambiguous` | sh.c:343-462 | a line stands for one command only, however it is divided into parts |
| `ShellPrinter.AppendIsOut` | sh.c:402-409 | every command line means the same with > for >> |
| `ShellPrinter.SignsCollideIff` | sh.c:390-413 | two redirection signs before the same word give the same file, mode and descriptor exactly if they are equal or are > and >> |
| `ShellRoundTrip.WordToken` | sh.c:281-324 | gettoken reads a word whole, up to a space, a symbol or the end |
| `ShellTokens.LineWords` | sh.c:360-462 | in every line that parses, each argument and file name is a whole word of the line |
| `ShellTokens.TerminateIs` | sh.c:464-509 | nulterminate sets the end of each of them to NUL and changes no character of any word |
| `ShellTokens.TokensReadBack` | sh.c:343-358 | after parsecmd every argument and file name, read as a C string, is exactly its token's text |
| `ShellBlanks.BlanksAlike` | sh.c:278-279 | exchanging space, tab, return, newline and vertical tab for one another anywhere in a line changes neither whether it is accepted nor what it means |
| `ShellBlanks.TrailingBlanks` | sh.c:278-279 | nor do blanks at its end |
| `ShellBlanks.NewlineIgnored` | sh.c:343-358 | in particular the newline that ends the line the shell reads |
| `ShellBlanks.WordsAreTheRest` | sh.c:278-324 | a character of an accepted line is in one of its arguments or file names exactly if it is neither one of those five blanks nor one of the seven symbols |
| `ShellParser.Gettoken` | sh.c:281-324 | the loops compute kind, ends and next position of the token |
| `ShellParser.Peek` | sh.c:326-336 | skips spaces and tells whether one of the characters is there |
| `ShellParser.Parseredirs` | sh.c:390-413 | the loop wraps the command in the redirections at the cursor, or fails |
| `ShellParser.Parseexec` | sh.c:431-462 | a block, or words and redirections in any order; terminates on every line |
| `ShellParser.Parseblock` | sh.c:415-429 | a line in parentheses with its redirections; terminates on every line |
| `ShellParser.Parsepipe` | sh.c:377-388 | commands joined by bars, to the right; terminates on every line |
| `ShellParser.Parseline` | sh.c:360-375 | the loop on ampersands and the rest after a semicolon; terminates on every line |
| `ShellParser.Parsecmd` | sh.c:343-358 | parses the whole buffer and terminates its tokens in place, or fails and leaves it alone |
| `ShellParser.Nulterminate` | sh.c:464-509 | in place, in the order of the tree |
| `Grep.MatchDecides` | grep.c:71-81 | match decides the language of its pattern: at the start of the text after a caret, anywhere otherwise |
| `Grep.HereDecides` | grep.c:84-95 | matchhere decides whether the pattern's items match consecutive pieces of the text from here on, in both directions |
| `Grep.HereSound` | grep.c:84-105 | what matchhere accepts has such a division into pieces |
| `Grep.HereComplete` | grep.c:84-105 | whatever has one is accepted, so backtracking misses nothing |
| `Grep.Matchhere` | grep.c:84-95 | the recursion of the source |
| `Grep.Matchstar` | grep.c:98-105 | the loop tries every number of repetitions |
| `Grep.MatchText` | grep.c:71-81 | the loop tries every start, the end of the text included |

## Left out

- Heap.Allocator.Malloc: stops where sbrk's argument is not positive as a signed int, because sbrk would then take memory away from the process; the block for the seven largest requests is smaller than asked for, as `Heap.RequestFits` states.
- Heap.Allocator.Free: is for a live block, as in the source; freeing anything else corrupts the list there.
- Pipe.Pipe.ReadUpTo: does not model a negative count, for which the source's loop does not run.
- FileSystem.FileSystem.FileWrite: does not model a negative count, for which the source returns -1 at once, nor other writers between the pieces of one call.
- FileSystem.FileSystem.Readi: does not model device files, whose driver the source calls instead.
- FileSystem.FileSystem.Writei: does not model device files either.
- InodeCache.ICache.Iput: does not model the lock on an inode and its panic, nor a reference taken by another process while it frees.
- InodeCache.ICache.Namex: does not model locks on inodes or other processes between its turns; an inode number outside the disk's inodes counts as a free inode, where the source would read another block; when an inode without links was freed on the way, it promises the references but not which inode is found.
- InodeCache.ICache.Ilock: does not model waiting for the lock.
- ProcTable.PTable.WaitScan: is one pass of wait's endless loop; the next pass is the next call.
- Log.Log.BeginOpPass: is one pass of begin_op's endless loop.
- Bio.Bcache.Bget: is one pass; after the sleep the source starts over.
- ShellAccepts.AcceptsExactly: is for lines without a NUL, which C strings cannot hold.
- ProcTable.PTable.Sleep: is sleep up to the switch; locks other than ptable.lock are not modelled.
- ShellParser.Parseexec: builds the arguments first and wraps the redirections around them, where the source fills an argument array inside a node already wrapped.
- Lifecycle.StepKeeps: lets a process take other steps between those of its fork, which allows more runs than the kernel has; pids do not wrap at 2^31.
- AddressSpace.MapPageKeeps: does not require a kernel page to be unmapped; `VirtualMemory.Machine.Mappages` does, as the source panics on it, and `VirtualMemory.Machine.Setupkvm` meets it.
- Fields that the source keeps in fixed C arrays (bitmap, buffers, inodes, process table, pages) are sequences in fields that methods reassign, except for the pipe's ring and the shell's buffer, which are arrays; updates that alias through two pointers to one element are not distinguished.
- Blocks of the disk that hold inodes, the bitmap and file data are separate parts of the file system state; the bits of the first blocks being set keeps balloc out of them.
- Fairness and progress of the scheduler beyond what a single draw can select, and the statistics of xorshift128.
- The DEFAULT scheduler, which scans the table and has no queue.
- fork's copying of files and trap frame, exit's closing of files, sched's checks, wait_stat, and the timing fields of processes.
- exec, system call plumbing, delivery of pending signals, traps and all hardware drivers but memide.c.
- DirectoryLink.Dirlink: does not model the iget and iput of the inode that is already there under the name.
- ProcSteps.PendingIs: is over the actions on the table; trap, which takes a pending signal when it delivers it, is not one of them.
- ShellBlanks.BlanksAlike: is for lines without a NUL.
- ShellBlanks.TrailingBlanks: is for lines without a NUL.
- ialloc, changes of link counts and directory trees: they would add scans like those shown.
- loaduvm, inituvm, copyout, uva2ka and clearpteu: single walks of the page table.
- runcmd, getcmd and main in sh.c, grep's line buffering, and the other user programs.
