# xv6 with signals: a model and its proofs

The repository is xv6 for x86 with a signal subsystem. This project models its most intricate
parts and proves what they are for. Each part keeps the form of its source: state that the C
code updates in place is a class whose methods carry the loops of the source, protocols between
processes are transition systems over single steps, and the shell's grammar and grep's patterns
are functions.

- **Write-ahead log** (`LogDisk`, `LogDevice`, `LogSystem`, `LogInvariant`, `LogRefinement`,
  `LogRuns`, `LogTrace`, `LogCapacity`). What commit and recovery write, in order, and what any crash leaves;
  the code that does the writing; the log, the buffers and any number of calls as one transition
  system with power failures, refined to a disk with a current and a durable version. Two things
  turn out otherwise than the reservation in begin_op suggests. log_write's size test comes before
  absorption, so calls that use their whole budget can meet its panic. And it comes before the
  lock, so two calls can pass it together; the header can then list a block more than the log
  holds, and the commit overwrites a home block before its header is on disk. `LogCapacity` gives
  the exact condition for each. A log on which the second cannot happen is called roomy below:
  log.size is 1, or more than MAXOPBLOCKS plus twice the most blocks a call logs. mkfs's log is
  roomy for calls that log at most MAXOPBLOCKS - 1 blocks.
- **Buffer cache** (`Bio`): the ring of buffers, least recent first to go, and the cache as a
  plain map from blocks to bytes.
- **Files** (`FsLayout`, `FsTable`, `FileSystem`, `File`): bit map, inodes, direct and indirect
  blocks, exact ownership of blocks, reading and writing as splice and slice of one flat
  sequence, truncation, and the write budget against the log.
- **Log and files together** (`FsCrash`): a crash leaves a file system if the calls keep one,
  filewrite's transactions and iput do, a call is all or nothing for every file wherever power
  fails, and on which disks filewrite's transactions fit the log.
- **Storage allocator** (`FreeList`, `Umalloc`), the one of section 8.7 of The C Programming
  Language, 2nd edition.
- **Virtual memory** (`PageTable`, `Vm`): two-level page tables, the page allocator, and where
  every physical page is.
- **Processes** (`SleepLock`, `ProcTable`, `ProcRuns`): sleep and wakeup under a sleep lock, one
  store at a time, and fork, exit and wait over the process table. One thing fails: kill can mark
  a slot that no process is in, and the next process there is born killed. `ProcRuns` says when.
- **Shell parser** (`ShGrammar`, `ShSyntax`, `ShLexer`, `ShText`, `ShParser`): the grammar as
  functions and as the recursive methods of the source, against a definition of what a line of
  text says that is apart from both. **grep** (`Grep`): the matcher against what a pattern means.
- **Pipes** (`Pipe`): the ring with its 32-bit counters, and who sleeps when. Here too a property
  one would expect fails: a writer that is killed while the pipe fills gives up without waking
  the readers. `Pipe` shows such a run and says exactly when it happens.
- **Signals** (`SignalFrames`, `Signal`): nested frames on the user's stack, masks, dispositions
  and handlers, sending, and psig. Three things one would expect of handlers fail, and `Signal`
  says exactly when: exec leaves the marks of handlers it drops, signal and fork can leave a
  handler nowhere to return to, and psig runs the first handler marked, pending or not.

`Basics` and `Blocks` hold what several parts share. Ghost fields and auxiliary variables, named
as such where they are declared, record histories and owners; no step depends on them. (`child` in
the process table is not one of them: it is fork's local np.) Where the
documentation and the code differ the code is followed: `>>` gives the shell the same command as
`>`.

## Model

| member | source | states |
|---|---|---|
| `LogDisk.HeadRoundTrip` | log.c:86-113 | the count is the header's first word and the block numbers follow it in order, so reading the header back gives exactly what was written |
| `LogDisk.InstallTwice` | log.c:70-82 | installing the whole log over one that is already partly installed gives the same home blocks: install_trans may be repeated after any crash |
| `LogDisk.CommitPoint` | log.c:178-202 | wherever commit is cut short, what a recovery would leave is every old home block up to the header write and every new one from it on |
| `LogDisk.RecoveryKeepsDurable` | log.c:69-122 | no write of recovery changes what a completed recovery leaves, and a completed one leaves exactly that with an empty header |
| `LogDisk.CrashAtomicity` | log.c:178-202 | cut commit after any number of its disk writes, crash any number of times inside recovery, then let one recovery finish: the home blocks are all old or all new, and all new exactly when the first header write was reached |
| `LogDevice.Log.WriteLog` | log.c:178-190 | the disks write_log goes through are, write by write, those the crash theorem cuts |
| `LogDevice.Log.WriteHead` | log.c:102-113 | one disk write, after which the header on disk names exactly the logged blocks |
| `LogDevice.Log.InstallTrans` | log.c:70-82 | the disks install_trans goes through, write by write; each home block named gets its log copy |
| `LogDevice.Log.Commit` | log.c:193-202 | the trace of disks is exactly the one the crash theorem cuts; afterwards the home blocks hold what the buffers showed, readers see no difference, the header is empty, and exactly the logged buffers are clean again |
| `LogDevice.Log.RecoverFromLog` | log.c:116-122 | the trace of disks is exactly recovery's; the home blocks are left durable and the header empty |
| `LogDevice.Log.ReadHead` | log.c:86-96 | the header in memory is the one on disk |
| `LogDevice.Log.BeginOp` | log.c:126-141 | a call that is let in has no commit to wait for and can list MAXOPBLOCKS blocks without touching what is reserved for the calls already in; one that is turned away changes nothing and could not have been promised that much |
| `LogDevice.Log.EndOp` | log.c:146-174 | the reservations of the calls that remain are kept; whoever must commit leaves no call behind and nobody is admitted until the commit is over; otherwise, if space was reserved, a waiter that is woken finds room; the panic exactly when a commit was under way |
| `LogDevice.Log.LogWrite` | log.c:214-233 | the block is absorbed if already listed and appended otherwise, its buffer is pinned dirty, and readers see the change; each panic exactly under its test |
| `LogInvariant.BeginReserves` | log.c:126-141 | a call begin_op lets in leaves the header length plus all unspent budgets at most LOGSIZE, and at most MAXOPBLOCKS plus two budgets at the calls' own budget |
| `LogInvariant.LogAppendKeepsInv` | log.c:223-232 | on a roomy log, appending under the lock keeps the whole-system invariant however long ago the size test outside the lock was, and whoever has passed it meanwhile: distinct numbers, header within the log, header length plus unspent budgets at most LOGSIZE |
| `LogInvariant.EvictKeepsInv` | bio.c:78-90 | recycling a clean unreferenced buffer at any time keeps the invariant: logged blocks cannot be evicted |
| `LogInvariant.HeadWriteCommits` | log.c:102-113 | the header write replaces the durable version by the current one, all at once |
| `LogInvariant.InstallOneKeepsDurable` | log.c:70-82 | one block installed home leaves the durable version as it is |
| `LogInvariant.ClearKeepsDurable` | log.c:193-202 | erasing the header after every block is home leaves the durable version as it is |
| `LogRefinement.StepRefines` | log.c:126-233 | every step of calls (log_write's test and its append apart), buffers, commit, recovery and power failure is one step, or none, of a disk with two versions, where only a whole current version, between calls, ever becomes durable; the append on a roomy log, the others on any |
| `LogRuns.RunRefines` | log.c:126-233 | the same over every run of every length on a roomy log, event by event, and the invariant at its end |
| `LogRuns.AllOrNothing` | log.c:69-233 | on a roomy log, after any run with crashes anywhere, wherever it ends, what is durable is the disk the run started from or everything readers saw at a moment when the last call under way had just ended |
| `LogRuns.OneCall` | log.c:69-233 | a call that has the log to itself is all or nothing: whatever readers, evictions, commits, crashes and recoveries come in between, and wherever the run is cut, durable is what was there before it or, only once it has ended, that with every one of its writes |
| `LogRuns.Isolation` | log.c:126-233 | in every reachable state on a roomy log: commit only with no call outstanding, the panics of end_op and the one of log_write for being outside a call out of reach, every held buffer reads as the current version, header numbers distinct and at most log.size - 1, and header plus unspent budgets at most LOGSIZE |
| `LogRuns.HomeWritesFollowHeader` | log.c:193-202 | no home block on disk changes except by an install, with the block the header on disk names and the bytes its log entry holds |
| `LogRuns.CrashesKeep` | log.c:69-233 | on a roomy log, what holds of the disk at the start and is handed on by every group of overlapping calls that runs to its end holds of what a crash at any point of any run leaves, with any crashes and recoveries before: an invariant the calls keep needs no repair |
| `LogTrace.CommitAsInCode` | log.c:178-202 | in the transition system too, however readers and evictions come in between, a commit takes the disk through exactly the writes that the code's trace and the crash theorem speak of |
| `LogRuns.NeverStuck` | log.c:116-122 | recovery can always take its next step, a call past log_write's size test can always go on, and so can a commit unless a reader holds the buffer it needs |
| `LogCapacity.PanicExactly` | log.c:214-222 | the panic for too big a transaction can be reached by calls within their budget exactly when the header holds at most MAXOPBLOCKS plus twice that budget: the test comes before absorption, so the reservation does not always cover it |
| `LogCapacity.PanicOnRealLog` | log.c:214-222 | on a log of LOGSIZE blocks or more that panic is out of reach exactly for calls that log fewer than MAXOPBLOCKS blocks |
| `LogCapacity.OverflowExactly` | log.c:218-230 | two calls can pass the size test before either has the lock: the header then lists more than log.size - 1 blocks in some run of calls within their budget exactly when the log takes a block at all but is no larger than MAXOPBLOCKS plus twice that budget, that is, when it is not roomy |
| `LogCapacity.HeaderFirstExactly` | log.c:178-202 | in every run home blocks on disk change only by installs that the header on disk names, exactly when the log is roomy; otherwise some commit stores its last log block over a home block before the header is written |
| `LogCapacity.MkfsOverflow` | mkfs.c:95-102 | on the disk mkfs makes: calls within MAXOPBLOCKS, 28 blocks listed, two calls past the test, then 30 entries and a commit that writes the first inode block before the header; with at most MAXOPBLOCKS - 1 blocks a call no run does this |
| `FsCrash.CrashLeavesFileSystem` | log.c:69-233 | started from a file system (bit map and inodes in exact agreement, no holes), with every group of calls taking one to one, recovery after a crash at any point of any run on a roomy log leaves one |
| `FsCrash.CallAllOrNothing` | log.c:69-233 | a call alone in the log is all or nothing for every inode and every file's bytes at once, wherever the run is cut, in the middle of the call too: recovery finds the files of the disk it started from or, only once it has ended, of the disk its writes amount to |
| `FsCrash.ChunkKeepsFileSystem` | file.c:136-145 | with the disk in step with core, one transaction of filewrite takes a file system to a file system in which that file has the bytes at the offset and every other inode and file is as it was; on an error nothing changes |
| `FsCrash.ChunkAllOrNothing` | file.c:136-145 | such a transaction against a power failure at any point: recovery finds every file as it was or, only once end_op has been called, that file with all the bytes and the others as they were |
| `FsCrash.IputKeepsFileSystem` | fs.c:332-352 | iput takes a file system to a file system with every other inode and file as it was, whether or not it frees the inode |
| `FsCrash.FormattedIsSane` | mkfs.c:238-251 | zeroed blocks with the metadata's bits set are a file system, for every layout |
| `FsCrash.LogApart` | fs.c:221-236 | disks that differ only in the log have the same inodes, the same files and the same ownership |
| `FsCrash.ChunksFit` | file.c:126-146 | calls of the budget proved for a chunk of filewrite meet, on a log of mkfs's size, neither the panic nor the overflow of log_write in any run exactly if the bit map has at most three blocks, as on disks of up to 12288 blocks |
| `Bio.Cache.constructor` | bio.c:39-56 | after binit the list holds every buffer once and the cache shows the disk |
| `Bio.Cache.Find` | bio.c:68-76 | the buffer with that key, or the knowledge that no buffer has it |
| `Bio.Cache.Victim` | bio.c:78-91 | of all buffers that are unreferenced and clean, the one let go longest ago; none exactly when there are none |
| `Bio.Cache.Bget` | bio.c:62-93 | the one buffer that has the block, or the recycled victim; panics exactly when it is not cached and nothing may be recycled; keys stay unique, every other buffer and what the cache shows stay as they were |
| `Bio.Cache.ReadIn` | bio.c:97-106 | whatever has been evicted and read again in between, the caller gets what was last written to that block |
| `Bio.Cache.LogWrite` | log.c:214-233 | the map from blocks to bytes changes in one place, and the buffer is pinned |
| `Bio.Cache.Bwrite` | bio.c:110-116 | the map and the disk change in one place, to the bytes written |
| `Bio.Cache.Drop` | bio.c:121-141 | the last one to let go moves the buffer, and only it, to the front of the list; the ring still holds every buffer once |
| `Bio.Unlinked` | bio.c:132-133 | joining a buffer's neighbours leaves a ring of all the others in the same order |
| `Bio.Pushed` | bio.c:134-137 | the four stores that insert at the head leave a ring with the buffer in front |
| `FsLayout.MapBitOfSet` | fs.c:63-70 | setting or clearing one bit of a bit map block changes that bit and no other |
| `FsLayout.DinodeRoundTrip` | fs.c:221-236 | writing one inode into its block and reading any inode back gives the new one in its place and the old ones elsewhere |
| `FsLayout.UsedBit` | fs.h:44-48 | block b is in use exactly if bit b % 8 of byte b % 4096 / 8 of bit map block b / 4096 is set |
| `FsTable.InodeBytes` | fs.h:28-42 | inode i is the 64 bytes from 64 * (i % 8) on in inode block i / 8, field by field |
| `FsTable.FileByte` | fs.c:373-400 | where byte o of a file is on disk, by one of the twelve addresses in the inode or through the block the thirteenth names |
| `FsTable.GiveKeepsOwns` | fs.c:373-400 | handing a freshly allocated block to an empty slot keeps exact ownership: a bit is set exactly for metadata and for blocks held by exactly one slot |
| `FsTable.PutData` | fs.c:482-511 | overwriting a mapped data block changes that block of that file, no other file, no address and no bit |
| `FsTable.FreeSlot` | fs.c:408-435 | a slot not yet emptied still has its bit set, and clearing it frees exactly that block |
| `FsTable.TruncateKeepsOwns` | fs.c:408-435 | with one inode's bits cleared and addresses gone, everyone else owns and reads what they did |
| `FsTable.UpdateKeepsOwns` | fs.c:221-236 | writing an inode back touches no bit, no address and no file's bytes |
| `FsTable.BlockSplice` | fs.c:499-502 | overwriting part of one block is a splice of the flat file |
| `FileSystem.Fs.Balloc` | fs.c:57-78 | the first free block, its bit set and its bytes zeroed, both blocks it changes logged; panics exactly when every block is in use |
| `FileSystem.Fs.Bfree` | fs.c:82-95 | clears exactly that bit; panics exactly when the block was free |
| `FileSystem.Fs.Iupdate` | fs.c:221-236 | writes the inode in core to its place on disk |
| `FileSystem.Fs.Bmap` | fs.c:373-400 | the address of the block, allocated on demand along with the indirect block; ownership kept, every file's bytes and every other mapping unchanged, nothing written when it was mapped already, and the blocks logged bounded |
| `FileSystem.Fs.WritePass` | fs.c:498-504 | one pass splices its piece into the flat file, leaves every other file alone, and logs a bit map block only if it allocated |
| `FileSystem.Fs.Writei` | fs.c:482-511 | the file is the old one with the bytes spliced in, every other file's bytes and blocks unchanged, size the larger of old size and end of the write, no holes, exact ownership; an inode that was up to date on disk still is, new addresses included; every block changed is passed to log_write, at most MAXOPBLOCKS distinct ones, and at most six more than the bit map has blocks, for a write of filewrite's size; each error exactly under its test, a panic only with no block free; a panic only when the write grows the file and every block is in use |
| `FileSystem.Fs.Readi` | fs.c:453-476 | exactly the stretch of the flat file asked for, cut at the end of the file; nothing is allocated or logged |
| `FileSystem.Fs.WriteThenRead` | fs.c:453-511 | reading anywhere after writing anywhere: the new bytes where the two overlap, the old file elsewhere |
| `FileSystem.Fs.Itrunc` | fs.c:408-435 | frees exactly the inode's blocks, direct, indirect and the indirect block itself, never a free one; empties and writes back the inode; every other file and owner unchanged, every block changed logged |
| `FileSystem.Fs.Ialloc` | fs.c:195-214 | the first free inode, and only it, becomes a new empty one of that kind; no block is lost by clearing it, no file changes; panics exactly when no inode is free |
| `FileSystem.Fs.Iput` | fs.c:332-352 | the last reference to an inode without links frees exactly its blocks and the inode, on disk too; otherwise nothing changes; free inodes have no blocks, before and after |
| `File.OpenFile.Fileread` | file.c:97-113 | the bytes at the file's offset, which moves past them; an error exactly when the file is not readable, the offset is past the end or the sum of the two wraps, and a device exactly for a device file |
| `File.OpenFile.ReadOn` | file.c:97-113 | reading n bytes and then m gives two stretches one after the other, together what one read of n + m gives; the second fails exactly when its length wraps on the new offset |
| `File.OpenFile.WriteChunk` | file.c:136-145 | one pass of the loop is one transaction that logs at most MAXOPBLOCKS blocks and at most six more than the bit map has, every one it changes among them, and splices its piece at the offset |
| `File.OpenFile.Filewrite` | file.c:118-156 | the whole write, whatever its length, is one splice at the old offset and moves the offset past it; one transaction a chunk, each logging at most MAXOPBLOCKS blocks and at most six more than the bit map has, every block changed in one of them; an error exactly when the offset is past the end or the write would pass the largest file, after whole chunks only |
| `FreeList.OneWrap` | umalloc.c:25-44 | from base the list climbs in address order through every free header once and then comes back to base |
| `FreeList.FreedInv` | umalloc.c:33-42 | the two if statements of free keep the list circular, ordered and coalesced, disjoint from what is allocated, and lose or gain no unit |
| `FreeList.GrantedInv` | umalloc.c:47-61 | memory from sbrk, above all before, joins the arena as one block |
| `FreeList.TakeWhole` | umalloc.c:75-77 | unlinking a block of just the right size keeps all of that |
| `FreeList.TakeTail` | umalloc.c:78-82 | cutting the end off a larger block keeps all of that |
| `Umalloc.Allocator.Search` | umalloc.c:29-32 | from any starting point the loop ends, at the last free header below the block |
| `Umalloc.Allocator.Free` | umalloc.c:25-44 | exactly that block leaves the allocated ones; the list stays circular, ordered and merged with its neighbours, every unit is in one free or one allocated block, and no allocated unit is written |
| `Umalloc.Allocator.Morecore` | umalloc.c:47-61 | asks for at least 4096 units; granted, they are in the arena and some free block has enough; refused, nothing changes |
| `Umalloc.Allocator.Malloc` | umalloc.c:64-90 | a block of enough units disjoint from all allocated ones, cut from the first fit after freep; sbrk is asked only if no free block is long enough, at most once, and the search after it, merged block or not, ends with a fit; null exactly when it refuses; allocated memory is untouched and units are conserved |
| `PageTable.EntrySet` | vm.c:61-80 | storing one entry of one table changes what is mapped in one place of one address space |
| `PageTable.InstallTab` | vm.c:44-53 | a new zeroed table maps nothing new, and the page is labelled with the one entry that points to it |
| `PageTable.UnmapUser` | vm.c:269-276 | clearing an entry releases exactly the page it mapped |
| `Vm.Machine.Freerange` | kalloc.c:47-53 | every page of the range is on the free list, once; every other page is where it was |
| `Vm.Machine.Kalloc` | kalloc.c:83-95 | a page off the free list, now in no other place; none exactly when no page is free |
| `Vm.Machine.Kfree` | kalloc.c:60-77 | a page not on the free list goes on it |
| `Vm.Machine.Walk` | vm.c:36-55 | the table that covers the page, made writable for users if it was missing; only free pages become tables, and every mapping of every address space is as it was; asked to make one it fails only if there is none and no page is free |
| `Vm.Machine.MapPage` | vm.c:69-73 | one pass for a user page: one new mapping and no other change; the remap panic exactly when the page was mapped; out of memory, which is when its table is missing and no page is free, nothing changed |
| `Vm.Machine.MapPages` | vm.c:61-80 | mappages over user pages: they map in order to the physical pages given, with their bytes, up to where a page is found mapped or a table is missing with no page free, and nothing else changes but new tables |
| `Vm.Machine.MapRange` | vm.c:60-79 | mappages for a stretch of kernel pages not mapped yet: on success exactly these map, in order, to the physical pages asked for, at the cost of exactly the tables missing; on failure no page is free, fewer were than tables missing, and no other mapping has changed |
| `Vm.Machine.Deallocuvm` | vm.c:256-279 | page by page, every page of the stretch is unmapped and freed and no other mapping, page or byte changes: skipping a missing table is the same as looking at each of its pages |
| `Vm.Machine.Allocuvm` | vm.c:222-249 | grown, a zeroed page that was free is mapped writable at each new place, and exactly these pages and the missing tables are taken; failed below KERNBASE, there were fewer free pages than that, the stretch is empty again and every other mapping and page is as it was, but for free pages that have become tables |
| `Vm.RollbackExact` | vm.c:235-245 | a failed allocuvm leaves every mapping as it was exactly when nothing was mapped in the stretch before |
| `Vm.Machine.Setupkvm` | vm.c:119-136 | an address space with exactly kmap's rows and no user page, at the cost of the directory and its tables; it fails exactly when fewer pages than that are free, and then every page is back where it was |
| `Vm.KmapReal` | vm.c:105-115 | the four rows of the source do not overlap, and the kernel's part of an address space takes 65 pages |
| `Vm.Machine.Freevm` | vm.c:284-298 | every user page, every table and the directory of that address space is freed, each once; every other page and mapping is as it was |
| `Vm.Machine.Copyuvm` | vm.c:316-345 | a new address space with equal bytes and flags on pages of its own that were free, exactly as many as the kernel's part, the pages and their tables need; the old one is untouched; out of memory, fewer were free than that and every page is back where it was; the panics exactly when a page is missing |
| `SleepLock.StepInv` | sleeplock.c:23-42 | every instruction of acquiresleep, releasesleep, sleep, wakeup, kill, yield and the scheduler keeps the invariant of both spin locks, the sleep lock and every process |
| `SleepLock.NoLostWakeup` | proc.c:448-509 | for any number of processes and any interleaving, woken spuriously or not: when the sleep lock and its spin lock are free, no process is asleep on the lock or committed to sleeping on it |
| `SleepLock.SleeperHasWaker` | sleeplock.c:35-42 | whoever sleeps on the lock has another process to wake it: the holder, or a releaser whose scan has not reached it |
| `SleepLock.MutualExclusion` | sleeplock.c:23-53 | at most one process has the sleep lock, one has it exactly when locked is set, and holdingsleep tells each process the truth |
| `SleepLock.NoLockPanics` | spinlock.c:25-68 | acquire never finds its lock already held by the caller, release always does, and sched is entered with ptable.lock only and the process not RUNNING |
| `SleepLock.HoldersMove` | spinlock.c:25-68 | no deadlock on the two spin locks: whenever one is held, a holder can take its next step |
| `ProcTable.Table.AllocProc` | proc.c:77-93 | the first unused slot becomes EMBRYO with the next pid; none exactly when no slot is unused |
| `ProcTable.Table.Wakeup1` | proc.c:490-500 | each process asleep on that channel is made runnable with nothing else of it changed, and every other slot is as it was |
| `ProcTable.Table.Exit` | proc.c:274-290 | slot by slot: the parent is woken, every child goes to init, init is woken exactly if one of them is a zombie, and the process is a zombie |
| `ProcTable.Table.WaitPass` | proc.c:303-340 | the first zombie child is reaped, its pid returned, and its slot is free with no pid, no parent and no kill mark; otherwise -1 exactly without children or when killed, else asleep on its own slot |
| `ProcTable.Table.Kill` | proc.c:515-532 | the first slot with that pid is marked killed and woken if it sleeps; nothing otherwise |
| `ProcRuns.StepInv` | proc.c:199-342 | every step of fork, exit, wait, scheduling, sleep, kill, stop and continue keeps the table's invariant |
| `ProcRuns.TableSound` | proc.c:199-342 | in every state of every run: processes have distinct pids, every process but init has a parent that is alive, and none sleeps in wait while it has a zombie child |
| `ProcRuns.ReapedOnce` | proc.c:297-342 | wait never returns a pid twice, nor one that a process still has |
| `ProcRuns.ZombieLeaves` | proc.c:297-342 | a zombie stays one, with its pid, until its parent of that moment reaps it |
| `ProcRuns.ReapedByParent` | proc.c:297-342 | only a zombie is ever reaped, and only by its parent |
| `ProcRuns.WakeExactly` | proc.c:490-509 | after a wakeup nobody sleeps on that event, and who slept elsewhere still does |
| `ProcRuns.CleanExactly` | proc.c:199-342 | while no unused slot is marked killed, a step marks one exactly if kill finds its pid in an unused slot or a fork that was killed meanwhile fails; a process starts out not killed |
| `ProcRuns.BornUnkilled` | proc.c:199-342 | over every run without such a step, no unused slot is marked killed and every new process starts out not killed |
| `ProcRuns.BornKilled` | proc.c:515-532 | otherwise not: kill(0) marks an unused slot, and the next fork's child is killed from the start |
| `ShGrammar.PrintedLine` | sh.c:345-446 | what the printer writes for any tree parses back to that tree and stops where the printing ended |
| `ShGrammar.PrintedExec` | sh.c:375-446 | the same for a command with redirections, in parentheses or not |
| `ShGrammar.Reprinted` | sh.c:345-446 | any line the parser accepts, printed and parsed again, gives the same tree |
| `ShSyntax.SimpleAccepted` | sh.c:416-446 | words and redirections in any order, fewer than MAXARGS words: the words in order are the command's arguments, the redirections in order are around it, and the parse stops at the rest |
| `ShSyntax.LineAccepted` | sh.c:345-446 | every spelling of the grammar's lines, defined apart from the parser, is accepted with its meaning |
| `ShSyntax.LineOnly` | sh.c:345-446 | whatever is accepted is such a spelling, and the command is its meaning |
| `ShSyntax.AcceptsExactly` | sh.c:345-446 | a line is accepted as a command if and only if it spells syntax that means it, so no line has two meanings |
| `ShLexer.LexRender` | sh.c:266-308 | tokens written out and scanned again are the same tokens |
| `ShLexer.RoundTrip` | sh.c:328-446 | every tree over legal words with fewer than MAXARGS words a command, printed as text with parentheses by precedence, parses to itself |
| `ShLexer.AppendIsWrite` | sh.c:384-394 | `>>` gives the same tree as `>` |
| `ShText.LexBlank` | sh.c:262-273 | any run of blank, tab, return, newline and vertical tab in front of a text changes nothing |
| `ShText.ReadsExactly` | sh.c:262-308 | a text is scanned as those tokens if and only if it is the tokens with blanks around them, at least one where two would run together |
| `ShText.ParsesExactly` | sh.c:262-446 | a text is accepted as a command if and only if it writes out, with any blanks, syntax that means it |
| `ShParser.Parser.GetToken` | sh.c:266-308 | the next token of the line, with the stretch it lies in, and the cursor after it |
| `ShParser.Parser.Peek` | sh.c:311-320 | whether the next token begins with one of the characters; no token is consumed |
| `ShParser.Parser.Redirections` | sh.c:375-397 | what the grammar gives for redirections from the cursor on, and the cursor after them |
| `ShParser.Parser.Command` | sh.c:416-446 | the same for a simple command, words and redirections mixed, or a block, with both of its panics |
| `ShParser.Parser.Pipeline` | sh.c:362-372 | the same for a pipeline |
| `ShParser.Parser.Line` | sh.c:345-359 | the same for a line; the mutual recursion ends |
| `ShParser.Parser.ParseCmd` | sh.c:328-342 | the command that the text says, by the definition of syntax and blanks apart from the parser, or a panic exactly when it says none |
| `ShParser.Line.NulTerminate` | sh.c:450-493 | the line changes exactly at the ends of the tree's words, which become NUL |
| `ShParser.WordsTerminated` | sh.c:450-493 | afterwards every argument and file name reads, as a C string, as exactly its token |
| `Grep.Match` | grep.c:73-82 | true exactly when a string the pattern means is somewhere in the text, at its start after ^ and reaching its end before $ |
| `Grep.MatchHere` | grep.c:85-96 | true exactly when such a string begins the text |
| `Grep.MatchStar` | grep.c:99-106 | true exactly when some run of fitting characters is followed by such a string |
| `Grep.PlainMatches` | grep.c:73-96 | a pattern of plain characters matches exactly the texts that contain it, after ^ those that begin with it, before $ those that end in it, and with both itself only |
| `Grep.DotAndStar` | grep.c:85-106 | a dot is any one character, dot star any text, and a character with a star any number of it |
| `Pipe.Pipe.Pipewrite` | pipe.c:79-98 | bytes are accepted in order until all are, the pipe is full, or the writer gives up, which it does exactly when full with no reader or killed; the ring holds exactly what was accepted and not delivered; no writer sleeps while there is room. That no reader sleeps while there are bytes holds afterwards exactly unless readers slept, the writer is killed and it had more to write than fits |
| `Pipe.LostReader` | pipe.c:79-98 | a reader left asleep with 512 bytes to read, by a writer killed while it fills the pipe |
| `Pipe.Pipe.Piperead` | pipe.c:101-121 | the next bytes accepted, as many as asked for and there; end of file only when no writer is left and everything is delivered; writers are woken, and a reader sleeps only on an empty pipe someone may write |
| `Pipe.Pipe.Pipeclose` | pipe.c:60-75 | who waits for that end is woken, and the page is freed once, when the second end is closed |
| `Pipe.CountersMeet` | pipe.c:84-114 | the 32-bit counters tell empty and full rightly however often they have wrapped |
| `SignalFrames.UserContext.SaveContext` | signal.c:222-243 | the handler finds the return address on top of the stack, the signal number under it and the 17 registers below those, and memory above the old stack pointer is as it was |
| `SignalFrames.Returned` | signal.c:265-295 | from a frame, with the return address popped, kernel_sigreturn reads all 17 registers as they were saved |
| `SignalFrames.StepInv` | signal.c:222-295 | deliveries, handlers that leave their saved frame alone, and returns keep every frame in memory; a return gives the newest one |
| `SignalFrames.LastInFirstOut` | signal.c:222-295 | however many deliveries nest in between, the sigreturn that ends a handler gives back every register of the context that handler interrupted |
| `SignalFrames.HandlerReturns` | signal.c:222-295 | a handler that does not overwrite its return address returns into sigreturn's code, however many deliveries nest in between, and the system call made there gives back every register |
| `Signal.Process.Sigsetmask` | signal.c:505-524 | the mask is set unless it has bit 0, SIGKILL, SIGCONT or SIGSTOP, which are never blocked |
| `Signal.Process.Sigblock` | signal.c:532-542 | adds that one signal to the mask, or refuses |
| `Signal.Process.Sigunblock` | signal.c:546-556 | takes that one signal out of the mask, or refuses |
| `Signal.Process.Signal` | signal.c:306-355 | sets what that one signal does, never SIGKILL or SIGSTOP, and returns what it did before, so that setting it to the result sets it back; the marks in userdefed stay in step; handlers keep an address to return to exactly if a handler was set or no other is left |
| `Signal.Process.Exec` | exec.c:107-117 | handlers are dropped, ignored signals stay ignored, and the invariant holds; userdefed, left alone, marks the handlers afterwards exactly if there were none |
| `Signal.Process.Fork` | proc.c:219-225 | mask, dispositions, handlers and their marks are the parent's, nothing is pending, and the invariant holds; handlers have an address to return to exactly if there are none or the slot still held one, and the parent's exactly if there are none or the slot held the same |
| `Signal.Process.Terminate` | signal.c:152-168 | takes off every due signal of the list and kills exactly when there is one; of what arrives while the kill has given up the lock, only signals of the list left to their default can go with them |
| `Signal.Process.StopOrContinue` | signal.c:187-206 | takes off every due stop signal and SIGCONT, stops at most once, exactly when more stops are due than one SIGCONT makes up for, and keeps whatever else arrives during the stop |
| `Signal.Process.Send` | signal.c:364-467 | to one process: pending exactly if it is not SIGKILL, not ignored, and not SIGCHLD or SIGCONT left to its default; SIGKILL kills and wakes, SIGCONT wakes, and nothing else about the process changes |
| `Signal.Process.Psig` | signal.c:132-255 | whatever arrives whenever it gives up the lock, in term, in core or stopped: of what was pending exactly the due signals of its classes are taken off, the process is killed exactly when one of them terminates it and stopped at most once, exactly when stops are due by then; what arrives stays unless psig is still to deal with it; the handler run is the lowest one marked, and there is one exactly if one is marked |
| `Signal.ByTable` | signal.c:22 | by the table of default actions: with nothing arriving, psig kills exactly when a signal whose action is to terminate is pending, neither blocked nor handled nor ignored, and takes off exactly the pending ones that have an action and are left to it |
| `Signal.DroppedHandler` | exec.c:107-117 | a run in which exec drops a handler and psig runs it afterwards |
| `Signal.WrongHandler` | signal.c:209-219 | a run in which psig runs the handler of a signal that is not pending, and the one that is stays pending |
| `Signal.LostReturn` | signal.c:328-351 | a run in which signal leaves an installed handler with nowhere to return to |
| `Signal.InheritedHandler` | proc.c:221-225 | a run in which fork gives a child its parent's handler and nowhere for it to return to |

## Left out

- ide.c, memide.c: a disk write or read is one atomic step; port I/O, interrupts and the disk queue are not modelled.
- spinlock.c: pushcli and popcli nesting, and memory ordering; steps are sequentially consistent and a held lock word is its holder.
- proc.c: the number of processors does not bound how many processes run at once; the scheduler picks any runnable process.
- proc.c: nextpid is unbounded, so pids after 2^31 forks are not covered.
- proc.c: kernel stacks, contexts and open files of a process are left to the other parts.
- fs.c: the inode cache's table (iget, idup, ilock) and reference counts, directories and path names would add easy members or plumbing; iput is told how many references there are.
- fs.c: other inodes in core may be ahead of the disk in any way, but calls on different inodes are not interleaved inside balloc, bmap or the loops.
- mkfs.c: only the empty file system it starts from; the root directory and the files it adds are not modelled.
- fs.c: a device file's read and write go to a driver that is not modelled; readi and writei then answer ToDevice.
- file.c: reference counts of open files, and dispatch to pipes.
- umalloc.c: sbrk is outside the model; malloc is told what it would answer, and addresses are counted in header units, so a misaligned break is not covered.
- vm.c: inituvm, loaduvm, copyout, clearpteu and switching of address spaces.
- sh.c: running commands, fork and exec, and reading the line.
- grep.c: the loop that reads lines, which depends on read boundaries.
- pipe.c: pipealloc; each method is one stretch under the pipe's lock, which sleep gives up and goes to sleep in one step.
- signal.c: Kill's search for the process and its privilege test, and Kill of several processes; the saved user frame is modelled for any handler.
- signal.c, trap.c: a handler that psig starts from a timer interrupt taken in the kernel never comes back to what the kernel was doing; the log, sleep locks and process table are modelled without such deliveries.
- Umalloc.Allocator.Malloc: does not cover requests of 2 GB and more, whose size in bytes sbrk's int argument cannot hold.
- sleeplock.c: one sleep lock is followed at a time; all other channels count as one, which only makes more wakeups possible.
- console.c, printf, boot code and drivers: hardware and output.
