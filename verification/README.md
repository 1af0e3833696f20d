# zeptOS, modelled and verified in Dafny

zeptOS is an xv6-style kernel for RISC-V with OpenSBI firmware, a small userland and a set of
benchmark programs. This project models its hardest parts and proves what they are for:

- **Crash safety.** The write-ahead log over the buffer cache (`Bio`, `Wal`, `Journal`), the
  reservation of log space (`Reservation`), the block and file layer (`FileSystem`, `FileWrite`,
  `Mkfs`), groups of file operations over crashes (`CrashSafety`), and all of them together
  (`FsOnLog`): from the command line of mkfs to a disk and back to the bytes that a lookup by name
  (`Directory`) and a read give, the operations run through the log and the
  cache on it, and whatever the crashes, also during recovery, the disk holds a consistent file system,
  with all of a group of operations or nothing of it. With room for each operation no list of them ever
  panics, whatever its length.
- **Concurrency.** Sleep, wakeup and sleep locks (`SleepLock`), fork, exit, wait and the scheduler
  (`WaitExit`), the shared buffer cache (`SharedCache`) and a commit while other processes use it
  (`SharedCommit`), as state machines over every interleaving of any number of processes and CPUs.
- **Memory.** Sv39 page tables and the page allocator (`PageTable`, `PageFree`, `UserCopy`), the life
  of an address space (`AddressSpace`), the user heap (`Umalloc`) and the firmware heap (`SbiHeap`).
- **Firmware protection.** Domain memory regions (`SbiDomain`) and the PMP encoding (`Pmp`).
- **Algorithms.** AES in CBC mode (`Aes`) and that it is the cipher of the standard (`Fips197`), the
  shell's parser (`Shell`) and the language that it accepts (`ShellGrammar`), and the fast Fourier
  transform (`BitReverse`, `Fft`).

`Common` holds what several of them share.

Code that updates things in place is a class or a method over an array, with a specification that its
`ensures` clauses tie it to; protocols are steps with an inductive invariant; the rest is functions
and lemmas. Table sizes and block counts are parameters wherever the proofs do not need their values.
`dafny verify dfyconfig.toml` checks the whole project.

## What turned out to be false

Where the code does not meet the obvious property, the exact condition is proved.

- *Log reservation.* `begin_op` reserves MAXOPBLOCKS = 10 entries an operation, but `log_write` also
  refuses at `size - 1`, so with the log that mkfs makes ten entries an operation can reach the panic
  and nine cannot (`Reservation.PanicExactly`, `Reservation.NineNotTen`). The chunks of `filewrite`
  stay at seven on a disk with one bitmap block.
- *Range check.* Without a region for all of memory `sbi_domain_check_addr_range` answers true exactly
  if every address of the range passes and the range does not end in a region that reaches 2^64. If it
  does end there, its cursor wraps to 0: then it never returns exactly if every address from 0 to the
  end of the range passes, and answers false otherwise (`SbiDomain.AnswerIs`, `SbiDomain.RunsForEver`;
  `SbiDomain.NeverReturns` is such a domain of two regions). A range whose end wraps is accepted without
  a look (`SbiDomain.CheckAddrRange`).
- *Range check with a region for all of memory.* Its order is 64, and the code computes `BIT(64)`, which
  C leaves open; its value is the parameter `bit`. With 0 all is as above. With 1, which is what a shift
  register gives, the loop leaves at the first address that this region decides: exactly the ranges that
  pass up to such an address and not after it are accepted wrongly (`SbiDomain.AcceptsUnseen`), one of
  them into memory of the firmware (`SbiDomain.RunsIntoFirmware`).
- *Region setup.* `sbi_domain_memregion_init` accepts a block exactly if it holds the range and ends
  below 2^64; for the last page of the address space it takes the whole of it (`SbiDomain.AcceptsIs`,
  `SbiDomain.TopPage`).
- *Merging.* `sbi_free_from` merges with one neighbour at most, the first one it stops at; three
  allocations, freed first, third, second, leave two neighbouring free regions
  (`SbiHeap.FreeCoalesces`, `SbiHeap.MergesOnce`).
- *Size rounding.* `alloc_with_align` rounds the size up in 64 bits; the result covers the request
  exactly when `size <= 2^64 - align`, and a request for 2^64 - 1 bytes succeeds with none
  (`SbiHeap.RoundedCovers`, `SbiHeap.HugeRequest`).
- *malloc.* `sbrk` takes an `int`: it is asked for the bytes needed exactly up to requests of
  2^31 - 32 bytes (`Umalloc.SbrkArgumentFaithful`); for 2^31 it is asked to take almost as much away
  (`Umalloc.TwoGigabytes`). For every first request above that, when sbrk succeeds, malloc returns a
  block of which no payload byte is memory of the process (`Umalloc.HugeMalloc`).
- *A write that faults.* When the source cannot be read to the end of a block, `writei` stops without
  `log_write`, but the bytes before the fault are in the buffer. It has logged all that it changed exactly
  if the file did not have that block, or the block was in the log already, or these bytes are those of the
  file (`FileSystem.SpillIsLogged`); `FileSystem.FaultLeaks` is such a write, which returns 0 while the file
  shows its byte. That buffer is dirty and not pinned, against the rule of the cache below.
- *kill.* A process that is killed before wait has decided to sleep does not sleep in it
  (`WaitExit.KilledDecides`); between its test and its sleep `kill` finds nobody to wake, and the process
  sleeps on, killed (`WaitExit.KilledSleeper`).
- *mkfs.* Rounding the size of the root directory up makes a hole exactly when the size was a multiple
  of the block size, as with 62 files beside `.` and `..` (`Mkfs.Image.FixRoot`, `Mkfs.Make`,
  `Mkfs.FullRoot`). The inodes fit their blocks exactly up to 202 files, and mkfs does not look
  (`FsOnLog.InodesFit`).
- *Buffer cache.* A store survives the recycling of its buffer only under the log's rule, to leave a
  buffer dirty only if it is pinned. The invariant says what holds without the rule and what with it, and
  `SharedCache.StoreLost` is a run that breaks it and loses a store.

## Model

| member | source | states |
|---|---|---|
| Bio.UnlinkRing | kernel/bio.c:133-134 | taking a buffer out of the doubly linked list leaves the list through all the others, linked both ways |
| Bio.PushFrontRing | kernel/bio.c:135-138 | putting it behind the head makes it the first, and keeps every other link both ways |
| Bio.FrontRing | kernel/bio.c:130-139 | the whole surgery of brelse moves one buffer to the front and keeps the order of the others |
| Bio.LinkAll | kernel/bio.c:43-53 | binit's loop links every buffer into one ring, whatever their number |
| Bio.Cache.constructor | kernel/bio.c:37-54 | the cache starts coherent: a permutation of all buffers, no block cached, nothing referenced |
| Bio.Cache.Lookup | kernel/bio.c:67-76 | the scan from the most recent end finds the buffer of a block if and only if the block is cached |
| Bio.Cache.FindUnused | kernel/bio.c:80-93 | the scan from the other end finds the least recently used buffer without references, or there is none |
| Bio.Cache.Retain | kernel/bio.c:69-75 | one more reference and the lock, and nothing else |
| Bio.Cache.Reuse | kernel/bio.c:82-91 | recycling an unreferenced buffer for another block loses nothing, because its old block is clean on disk |
| Bio.Cache.Allocate | kernel/bio.c:78-93 | a block that is not cached gets the least recently used free buffer; failure changes nothing and means that all are referenced |
| Bio.Cache.Bget | kernel/bio.c:60-94 | a locked buffer for the block, and never a second one for a block that is cached |
| Bio.Cache.Load | kernel/bio.c:103-107 | after the disk read the buffer holds the block's latest contents |
| Bio.Cache.Bread | kernel/bio.c:98-109 | the buffer holds the latest contents of the block, cached or not; other holders keep theirs; it succeeds exactly if the block and those in use fit the buffers |
| Bio.Cache.Modify | kernel/log.c:205-213 | the holder changes the latest contents of its block and of no other |
| Bio.Cache.Bwrite | kernel/bio.c:112-117 | one disk write of the buffer's contents, refused unless the lock is held |
| Bio.Cache.Brelse | kernel/bio.c:121-142 | drops the lock and one reference; the last reference moves the buffer to the front, any other leaves the order |
| Bio.Cache.ToFront | kernel/bio.c:130-139 | the list surgery, keeping coherence and every held buffer |
| Bio.Cache.Bpin | kernel/bio.c:144-149 | one more reference, which keeps the buffer from being recycled |
| Bio.Cache.Bunpin | kernel/bio.c:151-156 | one reference less |
| Bio.UsedFits | kernel/bio.c:60-94 | each block in use takes one buffer, and all buffers are referenced exactly if the blocks in use are as many |
| Bio.BreadFits | kernel/bio.c:60-94 | so bget panics exactly if the block and those in use are more than the buffers |
| SharedCache.InitialInv | kernel/bio.c:37-54 | the invariant holds after binit |
| SharedCache.CountStep | kernel/bio.c:60-156 | in every step refcnt stays the number of pins and of processes that wait for, hold or are releasing the buffer |
| SharedCache.StepKeepsInv | kernel/bio.c:60-156 | every step of bget, acquiresleep, bread, bwrite, brelse, bpin and bunpin by any process keeps the invariant, whose clauses on data hold while the log's rule is kept |
| SharedCache.RunKeepsInv | kernel/bio.c:60-156 | so over every interleaving |
| SharedCache.WaiterKeepsBuffer | kernel/bio.c:66-93 | a process that sleeps in bget wakes up to a buffer that still caches its block and was not recycled |
| SharedCache.HolderReadsLatest | kernel/bio.c:98-109 | the holder of a buffer has the block it asked for and, while the rule is kept, what any process last stored to it |
| SharedCache.LoadReads | kernel/bio.c:98-109 | a holder whose buffer is not read yet can read it, and then has the contents on the disk |
| SharedCache.WriteReaches | kernel/bio.c:112-117 | a holder can write its buffer, and then the disk has it, in that block and no other |
| SharedCache.NobodyStuck | kernel/bio.c:60-142 | a process inside acquiresleep can take the lock or somebody holds it, one inside brelse can finish, a holder can let go |
| SharedCache.BlockHeldOnce | kernel/bio.c:60-94 | no block is in the hands of two processes or in two buffers |
| SharedCache.RecycleLosesNothing | kernel/bio.c:80-92 | when a buffer is recycled no process refers to it and, while the rule is kept, the latest contents of its block are on the disk |
| SharedCache.StoreLost | kernel/bio.c:60-156 | a run that breaks the rule and loses a store: it is in no buffer and not on the disk |
| SharedCommit.StepKeepsInv | kernel/log.c:69-203 | every step of commit, and every step of bget, acquiresleep, bread and brelse by any other process, keeps the invariant |
| SharedCommit.RunKeepsInv | kernel/log.c:69-203 | so over every interleaving of commit with the others |
| SharedCommit.WritesAre | kernel/log.c:194-203 | the disk writes of commit's steps are the list that CommitIsAtomic is about |
| SharedCommit.DuringCommit | kernel/log.c:194-203 | at any time of a commit beside other processes the disk has a prefix of these writes and nothing else |
| SharedCommit.CrashBesideReaders | kernel/log.c:117-203 | whatever the others do with the cache and wherever commit is at the crash, recovery gives the old blocks or the whole transaction, the latter exactly if the header was written |
| SharedCommit.ReadersSeeNothing | kernel/log.c:194-203 | a process that reads a block of the file system at any time of a commit sees what was last stored to it before |
| Wal.InstallPrefix | kernel/log.c:69-83 | after k of install_trans's writes exactly the first k logged blocks are at home |
| Wal.RecoveredIs | kernel/log.c:117-123 | completed recovery puts every logged block at home, changes no other block, and leaves the log empty |
| Wal.RecoveryCanCrash | kernel/log.c:117-123 | a crash after any number of recovery's writes changes nothing about what recovery arrives at |
| Wal.TargetsAre | kernel/log.c:87-97 | the header is the count and then the block numbers |
| Wal.CommitList | kernel/log.c:179-203 | commit's writes in numbers: block i to start + 1 + i, the header to start, each block to its home, a header without blocks |
| Wal.RecoverList | kernel/log.c:117-123 | and recovery's |
| Wal.CommitPoint | kernel/log.c:194-198 | after write_log and the header the log describes the whole transaction and the home blocks are untouched |
| Wal.CommitTail | kernel/log.c:199-201 | what commit does after the header write is what recovery would do |
| Wal.CommitPointRecovers | kernel/log.c:194-203 | recovery from the commit point gives the new contents of the whole transaction |
| Wal.CommitIsAtomic | kernel/log.c:194-203 | for every crash point in commit, recovery gives the old home blocks or all the new ones; new exactly when the header was written |
| Wal.RoundIsAtomic | kernel/log.c:117-123 | the same with any number of interrupted recoveries after the crash, and the log is empty again |
| Wal.RunsAreAtomic | kernel/log.c:55-65 | over whole runs with crashes anywhere the persistent blocks are those of applying, in order, exactly the transactions whose header write happened |
| Journal.Log.LogWrite | kernel/log.c:215-235 | appends the block once and pins it, absorbs a repeated one, and fails exactly in its two panics; the log stays committable |
| Journal.Log.Update | kernel/log.c:205-213 | bread, change, log_write, brelse: the cache has the new contents, the disk is untouched, the block is in the log once; it succeeds exactly if there is a buffer, the log is not full and an operation is outstanding |
| Journal.Log.WriteLog | kernel/log.c:179-191 | its disk writes are the cached contents of the logged blocks, in order, into the log blocks; it panics exactly for lack of a buffer |
| Journal.Log.WriteHead | kernel/log.c:103-114 | one disk write, of the count and the block numbers; it fails exactly for lack of a buffer |
| Journal.Log.InstallTrans | kernel/log.c:69-83 | its disk writes are the log blocks to their homes, in order; after a commit every pin is dropped, once; it panics exactly for lack of a buffer |
| Journal.Log.ReadHead | kernel/log.c:87-97 | the list in memory becomes the one on disk; it fails exactly for lack of a buffer |
| Journal.Log.Commit | kernel/log.c:194-203 | its disk writes are a prefix of the list that CommitIsAtomic is about, all of it on success; no cached block outside the log changes, no pin is left; it succeeds exactly if nothing is logged or fewer blocks than there are buffers |
| Journal.Log.Publish | kernel/log.c:196-202 | the part from the header write on, as the rest of that list; it fails exactly for lack of a buffer |
| Journal.Log.InstallCommitted | kernel/log.c:199-202 | the part after the commit point; it fails exactly for lack of a buffer |
| Journal.Log.InstallAndClear | kernel/log.c:117-123 | installing and erasing the header are recovery's writes, in order; it fails exactly for lack of a buffer |
| Journal.Log.Recover | kernel/log.c:117-123 | the disk becomes the recovered one and the log is ready for operations; it succeeds exactly with one buffer, or two if there is something to install |
| Journal.Log.EndOp | kernel/log.c:147-175 | the last operation commits, any other only leaves; it succeeds exactly when that commit does |
| Journal.OpenUsed | kernel/log.c:215-235 | while no buffer is held the blocks in use are the logged ones, each once |
| Journal.CommitSurvivesCrash | kernel/log.c:117-123 | wherever Commit stopped, the log is accepted and recovery gives the old blocks or the whole transaction |
| Reservation.StepKeepsInv | kernel/log.c:127-175 | begin_op, log_write, end_op and commit keep it: a commit runs alone, an idle log is empty, and entries plus outstanding promises stay bounded |
| Reservation.BeginFits | kernel/log.c:127-142 | whenever begin_op lets an operation start, what is logged and promised stays within 10 + 2 * bound entries |
| Reservation.InvNoPanic | kernel/log.c:215-235 | while they do, neither guard of log_write fires and end_op finds no commit running |
| Reservation.RunKeepsInv | kernel/log.c:127-175 | so over every interleaving |
| Reservation.FillTo | kernel/log.c:127-142 | operations can come and go beside one that is open until ten entries are logged |
| Reservation.WriteAll | kernel/log.c:215-235 | two more can then use all they promised |
| Reservation.PanicExactly | kernel/log.c:127-175 | some interleaving reaches a panic if and only if the log cannot take 10 + 2 * bound entries and one more log_write |
| Reservation.NineNotTen | tools/mkfs.c:25 | with the log that mkfs makes, nine entries an operation are safe and ten are not |
| FileSystem.EmptyOk | tools/mkfs.c:92-110 | metadata blocks only, and inodes without blocks, are a consistent file system |
| FileSystem.AddRef | kernel/fs.c:383-421 | giving a free block to a reference that had none keeps "bits set are exactly metadata and referenced blocks, each referenced once" |
| FileSystem.DropRef | kernel/fs.c:426-453 | taking a reference's block away and clearing its bit keeps it too, and the bit was set |
| FileSystem.AddKeepsFiles | kernel/fs.c:383-421 | a cleared block in place of a hole leaves every byte of every file |
| FileSystem.EditKeeps | kernel/fs.c:383-539 | each single change of an operation keeps the file system consistent |
| FileSystem.LeadsKeeps | kernel/fs.c:383-539 | so does every sequence of them, which is what bmap, writei and itrunc are proved to be |
| FileSystem.Fs.Balloc | kernel/fs.c:66-88 | the first clear bit, set, its block cleared, bitmap block and block logged; 0 exactly when no bit is clear |
| FileSystem.Fs.Bmap | kernel/fs.c:383-421 | the file's block, allocated if missing, direct or listed; consistency and all contents are kept, also when the disk fills half-way; what changed is logged |
| FileSystem.Fs.AddIndirect | kernel/fs.c:401-406 | a cleared indirect block, or nothing |
| FileSystem.Fs.Listed | kernel/fs.c:407-417 | the block listed in the indirect block, allocated and listed if missing |
| FileSystem.Fs.NextBlock | kernel/fs.c:517-519 | the block for the next bytes; nothing changes if the file has it |
| FileSystem.Fs.StoreNext | kernel/fs.c:520-522 | storing bytes in it keeps consistency, and they show in this file only |
| FileSystem.Fs.WriteBlock | kernel/fs.c:516-528 | one round of the loop, with its three ways to stop |
| FileSystem.Fs.FinishSize | kernel/fs.c:530-536 | the size grows to the end of what was written, and no byte changes |
| FileSystem.Fs.Writei | kernel/fs.c:506-539 | -1 exactly if its tests refuse; otherwise the bytes written are in this file and no other changes, the size is the maximum, and what changed is logged; fewer than asked exactly at a hole on a full disk or at a byte that cannot be read, then up to the last whole block; what a fault leaves in its block is told apart |
| FileSystem.Fs.WriteBlocks | kernel/fs.c:516-528 | the loop: whole blocks up to the end, a hole on a full disk, or a fault |
| FileSystem.SpillInPlace | kernel/fs.c:516-528 | after a fault a block that the file had is logged only if it was, and only it may have changed without |
| FileSystem.SpillIsLogged | kernel/fs.c:516-528 | exactly when a write that faults has logged all that it changed |
| FileSystem.FaultLeaks | kernel/fs.c:516-528 | a write that returns 0 while the file shows its byte, in a block that is not logged |
| FileSystem.Fs.ReadBlock | kernel/fs.c:482-494 | one round of readi, with its three ways to stop |
| FileSystem.Fs.Readi | kernel/fs.c:472-496 | the bytes of the file up to its size, for every destination: -1 exactly with the bytes it takes delivered; without holes nothing changes and it fails exactly if the destination takes too few |
| FileSystem.Fs.Itrunc | kernel/fs.c:426-453 | frees every block of the file, each once, so that bfree never panics; nothing of another file changes; what changed is logged |
| FileSystem.Fs.FreeIndirect | kernel/fs.c:439-449 | the listed blocks and then the indirect block |
| FileSystem.WrittenContents | kernel/fs.c:506-539 | read as a byte sequence, writing replaces a slice and extends the file; every other file stays |
| FileSystem.ReadContents | kernel/fs.c:472-496 | reading returns that slice of the sequence |
| FileSystem.StoreBlock | kernel/fs.c:516-528 | storing into one block changes exactly its bytes of exactly one file |
| FileSystem.SpansHold | kernel/fs.c:516-528 | the bytes of a write lie in the blocks that its span counts |
| FileWrite.ChunkSpans | kernel/file.c:155-160 | a chunk touches at most four data blocks, wherever it starts |
| FileWrite.MineCard | kernel/file.c:148-154 | a file's blocks in a range, with the indirect block, are no more than the range and one |
| FileWrite.LogsCard | kernel/file.c:148-154 | so an operation on a file logs at most that, the inode and the bitmap blocks |
| FileWrite.ChunksAreSafe | kernel/file.c:148-174 | chunks overfill the log in no interleaving, on disks of up to three bitmap blocks |
| FileWrite.File.WriteChunk | kernel/file.c:158-167 | one transaction: at most seven log entries (one bitmap block), and what writei promises |
| FileWrite.File.Write | kernel/file.c:135-181 | n or -1, n exactly if w is n, and either way the first w bytes are in the file and the offset is past them; it fails only if writei refuses, the disk is full or a byte cannot be read, and then at most the rest of one block shows beside them; every transaction stays within its bound |
| Mkfs.Image.constructor | tools/mkfs.c:92-110 | zeroed sectors are a consistent file system once the bitmap is written |
| Mkfs.Image.Ialloc | tools/mkfs.c:222-233 | a new empty inode, keeping consistency and that no file has a block past its end |
| Mkfs.Image.Place | tools/mkfs.c:269-284 | the file's block, the next one in order if missing; consistent and without holes |
| Mkfs.Image.PlaceIndirect | tools/mkfs.c:275-277 | the indirect block, the next one in order |
| Mkfs.Image.PlaceListed | tools/mkfs.c:278-284 | the listed block, the next one in order |
| Mkfs.Image.AppendBlock | tools/mkfs.c:266-292 | one round of iappend |
| Mkfs.Image.Iappend | tools/mkfs.c:254-295 | the bytes go to the end of this file, every other file stays, no file has a hole, and the image is consistent; it stops only for a file too large or a full image |
| Mkfs.Image.FixRoot | tools/mkfs.c:164-169 | the directory has no hole afterwards exactly if its size was not a multiple of the block size; consistent exactly below the largest size |
| Mkfs.LastBlock | tools/mkfs.c:164-169 | a file of an image has a block at its end exactly if its last block is not full |
| Mkfs.FullRoot | tools/mkfs.c:119-169 | with 62 files mkfs makes an image that ends with a hole in its root directory, and is a consistent file system all the same |
| Mkfs.Image.Balloc | tools/mkfs.c:236-249 | the bitmap block has exactly the bits of the blocks handed out, so that the image is a consistent file system |
| Mkfs.AppendFile | tools/mkfs.c:158-159 | the loop over a file stores its bytes and changes no other file; it stops only for a file too large or a full image |
| Mkfs.AddFile | tools/mkfs.c:151-159 | a file of the command line: its inode, its directory entry and its contents |
| Mkfs.AddFiles | tools/mkfs.c:129-162 | all of them, in order |
| Mkfs.Make | tools/mkfs.c:68-173 | mkfs from its command line: the image shows the root directory with every entry and every file's bytes; it fails only for a file too large or for lack of sectors; the root directory ends in a hole exactly if its entries fill its blocks |
| Directory.Namecmp | kernel/fs.c:544-547 | the same name as far as fourteen bytes count, the field ending at its first zero |
| Directory.Dirlookup | kernel/fs.c:552-575 | the inode number of the first entry in use with the name, 0 exactly if there is none; it panics only for a directory that ends within an entry or at a hole on a full disk, and changes nothing before the first hole |
| Directory.EntryIs | tools/mkfs.c:151-155 | an entry that mkfs writes reads back as its inode number and its name |
| Directory.MadeFinds | tools/mkfs.c:129-162 | in the image that mkfs makes file k is found under its name, unless an earlier file has the same |
| CrashSafety.OpCovers | kernel/fs.c:426-539 | what writei or itrunc logs covers everything it changes: bitmap, blocks and inode |
| CrashSafety.OpKeeps | kernel/fs.c:426-539 | and they keep consistency |
| CrashSafety.CoveredTrans | kernel/log.c:9-23 | operations of one group add up |
| CrashSafety.GroupKeeps | kernel/log.c:9-23 | a group of operations keeps consistency, and what they logged covers what they changed |
| CrashSafety.UnloggedSame | kernel/log.c:9-23 | a block that was not logged has the same contents before and after |
| CrashSafety.AfterEncodes | kernel/log.c:194-203 | installing the logged blocks takes the disk from the state before the group to the one after it |
| CrashSafety.GroupIsAtomic | kernel/log.c:117-123 | after commit, or any crash in it and in recovery, the disk holds the file system before the group or after it, after it exactly if the header was written; the one after it is consistent |
| CrashSafety.RunIsConsistent | kernel/log.c:55-65 | over whole runs of groups of writei and itrunc with crashes anywhere the disk holds the outcome of the last durable group, and that is consistent if the first state was |
| FsOnLog.Perform | kernel/fs.c:426-539 | running writei or itrunc is one such operation, with its log_write calls at home blocks only |
| FsOnLog.Record | kernel/log.c:205-235 | the log_write calls put the new contents of exactly those blocks into the cache and the log; the disk is untouched; it succeeds only if they fit the log and the buffers, and always if they do with an entry to spare where a block is logged already |
| FsOnLog.RunOp | kernel/log.c:9-23 | an operation through the log: the cache then holds the file system after it, and the log lists what it logged; success as for Record |
| FsOnLog.RunGroup | kernel/log.c:127-142 | operations that begin_op lets start form a group that the log can commit, which ends exactly where begin_op makes one wait; until then the disk is untouched; with room for each operation it does not fail |
| FsOnLog.CrashAnywhere | kernel/log.c:194-203 | for every crash point in the commit of that group, and any in recovery, the disk holds its outcome or what was there before |
| FsOnLog.CommitGroup | kernel/log.c:147-203 | the last end_op commits: the disk holds the outcome; it succeeds exactly with more buffers than logged blocks, always with as many as the log has; if the cache panics half-way, recovery gives the outcome or what was there before |
| FsOnLog.Serve | kernel/log.c:127-175 | any list of operations, in as many groups as begin_op makes of it, is done to the end without a panic, and the file system is the one after the last |
| FsOnLog.KernelRoom | kernel/param.h:9-11 | with the kernel's 30 buffers and 30 log blocks there is room exactly for operations that log at most 18 blocks, so for every chunk of filewrite |
| FsOnLog.Boot | kernel/log.c:55-65 | initlog with its recovery over an empty cache gives a running file system that is what the recovered disk holds; it succeeds exactly with one buffer, or two if there is something to install |
| FsOnLog.Format | tools/mkfs.c:68-173 | an image that mkfs finishes, with or without a hole in its root directory, is a disk with an empty log that holds a consistent file system |
| FsOnLog.InodesFit | tools/mkfs.c:18-24 | the inodes fit the inode blocks exactly up to 202 files |
| FsOnLog.MakeDisk | tools/mkfs.c:68-173 | mkfs from its command line to the disk: the files are on it, in a consistent file system with an empty log; it fails only for a file too large or for lack of sectors |
| FsOnLog.ReadNamed | kernel/fs.c:472-575 | on the running file system of an image dirlookup and readi give the bytes of the file, and change nothing |
| FsOnLog.ReadBack | tools/mkfs.c:68-173 | from the command line of mkfs over the disk, a boot, a lookup by name and a read come the bytes that mkfs was given |
| FsOnLog.OneStore | kernel/fs.c:1-12 | a disk holds one file system: with an encoding that keeps contents apart, bitmap, inodes and data blocks are determined |
| FsOnLog.RunFromMkfs | kernel/log.c:55-65 | from there every run with crashes anywhere leaves a consistent file system |
| SleepLock.InitialInv | kernel/sleeplock.c:13-19 | the invariant holds at boot |
| SleepLock.StepKeepsInv | kernel/proc.c:560-604 | every step of sleep, wakeup, kill, the scheduler and the sleep locks keeps it, in any order, for any number of processes, sleep locks and other channels |
| SleepLock.RunKeepsInv | kernel/proc.c:560-604 | so over every run |
| SleepLock.ReachableInv | kernel/proc.c:560-604 | in every reachable state |
| SleepLock.MutualExclusion | kernel/sleeplock.c:22-41 | at most one process holds a sleep lock, also while it sleeps elsewhere, and the lock is marked with its pid |
| SleepLock.LockedIsHeld | kernel/sleeplock.c:22-41 | a sleep lock is marked held exactly while a process holds it or is about to release it |
| SleepLock.NoLostWakeup | kernel/proc.c:560-604 | on every channel: while its condition is true and its spin lock is free, no process sleeps on it or is about to |
| SleepLock.WakeupIsComing | kernel/proc.c:591-604 | a process that sleeps on a ready channel is ahead of a wakeup that is still running |
| SleepLock.WakesExactly | kernel/proc.c:590-628 | a sleeping process is made runnable by a wakeup on its channel and by a kill, each of them, and by nothing else |
| SleepLock.KilledExactly | kernel/proc.c:609-628 | over every run a process is marked killed exactly if a kill has hit it |
| SleepLock.HolderCanSleep | kernel/sleeplock.c:22-41 | a state where the holder of a sleep lock sleeps on another channel is reachable |
| SleepLock.SwitchHoldsOnlyOwnLock | kernel/proc.c:503-520 | sched finds no lock but the process's own, so its panics cannot happen |
| SleepLock.ProcLockHolderMoves | kernel/proc.c:591-604 | whoever holds a p->lock can take its next step |
| SleepLock.SpinLockHolderMoves | kernel/sleeplock.c:22-41 | the holder of a spin lock can move, or waits for one who can: no spin-lock deadlock |
| WaitExit.InitialInv | kernel/proc.c:252-275 | the invariant holds when only initproc exists |
| WaitExit.StepKeepsInv | kernel/proc.c:299-520 | every step of fork, exit, wait, kill and the scheduler keeps the invariant; during wait's scan havekids is set exactly if a child is in the part scanned, and no zombie child is |
| WaitExit.RunKeepsInv | kernel/proc.c:299-520 | so over every run |
| WaitExit.ReachableInv | kernel/proc.c:299-520 | in every reachable state |
| WaitExit.NoZombieChildOfSleeper | kernel/proc.c:410-454 | while wait_lock is free, a process that sleeps in wait has no zombie child, its own or one that exit gave to it |
| WaitExit.ReapIsSafe | kernel/proc.c:423-440 | when wait frees a child, no CPU runs it any more and no process has it as parent |
| WaitExit.ParentIsLive | kernel/proc.c:350-405 | every process that exited or may exit has a live parent to collect it; init never exits |
| WaitExit.RunningOnOneCpu | kernel/proc.c:464-520 | while p->lock is free, p is RUNNING exactly when a CPU has it, and never two |
| WaitExit.GivesUpWithoutChildren | kernel/proc.c:410-453 | wait gives up, in a process that is not killed, only if no process has it as parent |
| WaitExit.SleepsForAChild | kernel/proc.c:410-453 | wait goes to sleep only with a child, and without one that has exited |
| WaitExit.ReapDelivers | kernel/proc.c:395-441 | the status that wait finds in the child that it reaps is the one that the child gave to exit |
| WaitExit.RunnerMoves | kernel/proc.c:353-453 | a process on a CPU can take its next step, or waits for wait_lock, or for the lock of the process it is about to visit |
| WaitExit.KilledExactly | kernel/proc.c:609-628 | in every run a process is marked killed exactly if kill has hit its slot since that was last freed |
| WaitExit.KillWakes | kernel/proc.c:609-628 | kill leaves its victim marked and not asleep; a victim at the end of wait's scan does not stay |
| WaitExit.KilledDecides | kernel/proc.c:446-452 | a process killed before wait has decided does not go to sleep in it |
| WaitExit.KilledSleeper | kernel/proc.c:446-452 | a run after which a killed process sleeps in wait beside a running child |
| WaitExit.Lives | kernel/proc.c:299-454 | in every run each process dies at most once and each zombie is reaped at most once: births, deaths and reaps of a slot balance, but for who is alive or a zombie now |
| PageTable.PathOk | kernel/vm.c:87-104 | the tables that walk passes are the ones at the places it looks for, in this tree |
| PageTable.Sv39 | kernel/riscv.h:254-257 | the upper, middle and lower nine bits of the page number choose the entries of the three tables, as in section 4.4.1 of the RISC-V Privileged Architecture |
| PageTable.PagesForIs | kernel/riscv.h:238 | PGROUNDUP counts the pages that hold the bytes, and no more |
| PageTable.TableUnique | kernel/vm.c:87-104 | there is one table at each place |
| PageTable.FrameUnique | kernel/vm.c:145-173 | an owned frame backs exactly the page recorded for it |
| PageTable.SetLeafAt | kernel/vm.c:162-166 | writing a leaf entry changes the meaning of one page of one page table |
| PageTable.LinkLeaf | kernel/vm.c:96-101 | linking a new table changes the meaning of no page |
| PageTable.RolledBack | kernel/vm.c:245-254 | after the rollback every page table means what it meant before |
| PageTable.Memory.constructor | kernel/kalloc.c:29-45 | after kinit exactly the whole pages from the end of the kernel to the end of RAM are free, each once |
| PageTable.Memory.Kalloc | kernel/kalloc.c:74-87 | the head of the free list changes owner, filled with junk; None exactly when the list is empty |
| PageTable.Memory.Kfree | kernel/kalloc.c:52-68 | the page goes to the front of the list; it fails exactly outside RAM |
| PageTable.Memory.UvmCreate | kernel/vm.c:205-213 | a new page table that maps nothing; all others keep their meaning |
| PageTable.Memory.Descend | kernel/vm.c:92-102 | one level of walk, building the table if asked to |
| PageTable.Memory.Walk | kernel/vm.c:87-104 | finds the level-0 table, building at most two tables of this tree; no page changes meaning; without alloc nothing changes; it fails only with fewer than two free pages |
| PageTable.Memory.MapOne | kernel/vm.c:162-166 | exactly one page gets its entry; remap and lack of memory are told apart |
| PageTable.Memory.MapPages | kernel/vm.c:145-173 | exactly the pages of the range get consecutive frames; on failure exactly the first k, and it says why; memory suffices with two free pages for each |
| PageTable.Memory.UnmapOne | kernel/vm.c:188-198 | exactly one page loses its entry and, if asked, its frame is freed |
| PageTable.Memory.UvmUnmap | kernel/vm.c:179-200 | exactly the pages of the range, stopping at the first that is not mapped |
| PageTable.Memory.AllocOne | kernel/vm.c:244-254 | one new page with its bytes, or nothing; it succeeds with three free pages |
| PageTable.Memory.UvmAlloc | kernel/vm.c:234-257 | all pages up to the new size, zeroed and owned, or the page map as it was; it succeeds with three free pages for each, and not with fewer than one |
| PageTable.Memory.UndoAlloc | kernel/vm.c:245-254 | the error path gives back every page mapped so far |
| PageTable.Memory.UvmDealloc | kernel/vm.c:264-275 | unmaps and frees exactly the pages between the sizes |
| PageTable.Memory.UvmCopy | kernel/vm.c:314-341 | the child gets every page of the parent with flags and bytes, or its page map stays as it was; it succeeds with three free pages for each |
| PageFree.PlaceUnique | kernel/vm.c:280-295 | one table at each place at every level |
| PageFree.SubtreeLinked | kernel/vm.c:280-295 | a table of a subtree exists only below a valid entry |
| PageFree.NoLeavesFrom | kernel/vm.c:300-305 | if no page is mapped, no table has a leaf and no frame is left |
| PageFree.FreeWalk | kernel/vm.c:280-295 | frees every table of the subtree, each once, and meets no leaf |
| PageFree.ReleasedOk | kernel/vm.c:280-305 | after that every page is on the free list or owned once, and other page tables keep their meaning |
| PageFree.UvmFree | kernel/vm.c:300-305 | every page the page table owned is free, no other page is |
| PageFree.ProcFreePagetable | kernel/proc.c:227-235 | trampoline and trapframe are unmapped but not freed, everything else of the process is freed, once |
| AddressSpace.RootOwned | kernel/vm.c:87-104 | a page that belongs to a page table leads up to its root |
| AddressSpace.BuiltGrew | kernel/vm.c:145-173 | mappages turns free pages into pages of this table and changes no other table |
| AddressSpace.TornDown | kernel/vm.c:300-305 | freeing a table that was built out of free pages gives exactly those back |
| AddressSpace.ProcPagetable | kernel/proc.c:183-222 | a page table with the trampoline, readable and executable, and the trapframe, readable and writable, neither for the user, and nothing else; on either error path every page is where it was; five free pages suffice |
| AddressSpace.GrowProc | kernel/proc.c:279-294 | the new size, with the pages below both sizes as they were, bytes included; every new page is readable and writable by the user, not executable, and shows zeros; it fails only for lack of memory, then as if not called; a size below 0 wraps and changes nothing |
| AddressSpace.Life | kernel/proc.c:183-294 | created, grown and shrunk and copied into any number of times, and freed: the same pages are free as before, and every other page table is as it was |
| AddressSpace.BuiltClean | kernel/proc.c:183-294 | a process's page table beside others keeps what copyout and copyin need: the pages the user may reach are frames of that page table |
| AddressSpace.FramesFit | kernel/vm.c:234-257 | the user's pages and the free ones are different frames, so that a process cannot grow past the memory |
| AddressSpace.Perform | kernel/proc.c:279-294 | one growproc or copyout in such a life |
| AddressSpace.Boot | kernel/kalloc.c:29-45 | from kinit on, after any number of such lives, all of the memory is free again |
| UserCopy.Find | kernel/vm.c:87-104 | walk without alloc, as a pure lookup |
| UserCopy.LookUp | kernel/vm.c:369-373 | the entry the flat map has |
| UserCopy.DataAt | kernel/vm.c:373-377 | storing into a user page shows in one page of one address space |
| UserCopy.CopyOut | kernel/vm.c:360-384 | the bytes up to the first page the user may not write, and no other user byte; success exactly if that is all |
| UserCopy.CopyIn | kernel/vm.c:390-409 | succeeds exactly if every address is readable, and returns its bytes |
| UserCopy.RoundTrip | kernel/vm.c:360-409 | copyin after a successful copyout returns the same bytes |
| UserCopy.WritableIsReadable | kernel/vm.c:360-409 | and that copyin succeeds |
| UserCopy.FreshOwned | kernel/kalloc.c:29-45 | a memory without page tables has what CopyOut and CopyIn need |
| UserCopy.FilledOwned | kernel/vm.c:234-341 | uvmalloc and uvmcopy keep it, whether they succeed or not |
| Umalloc.SbrkArgumentFaithful | user/umalloc.c:47-61 | sbrk is asked for the bytes needed exactly up to 2^31 - 32 |
| Umalloc.TwoGigabytes | user/umalloc.c:47-61 | for 2^31 bytes it is asked to shrink the process |
| Umalloc.HugeMalloc | user/umalloc.c:47-90 | for every first request above 2^31 - 32 bytes, when sbrk succeeds, no payload byte of the block is memory of the process |
| Umalloc.FreeIsTheRest | user/umalloc.c:25-44 | free and live units partition the memory from sbrk |
| Umalloc.SlotUnique | user/umalloc.c:30-32 | there is one place for a block in the address-ordered list |
| Umalloc.FreeMemIsSurgery | user/umalloc.c:33-43 | the header writes of free are an insertion and up to two merges |
| Umalloc.FreeLinks | user/umalloc.c:33-43 | after them the headers link exactly the new free list |
| Umalloc.AfterFreeIsCoalesced | user/umalloc.c:33-42 | no two free blocks are adjacent afterwards |
| Umalloc.FreeStep | user/umalloc.c:25-44 | free keeps the whole invariant |
| Umalloc.TakeStep | user/umalloc.c:75-85 | carving the tail, or the whole block, keeps it |
| Umalloc.GrowStep | user/umalloc.c:47-61 | memory from sbrk joins the heap |
| Umalloc.FullCircle | user/umalloc.c:74-89 | a search that went all the way round has seen every block |
| Umalloc.Heap.constructor | user/umalloc.c:21-22 | a program starts without a list |
| Umalloc.Heap.FindSlot | user/umalloc.c:30-32 | free's search loop ends, at the block below, from wherever it starts |
| Umalloc.Heap.Free | user/umalloc.c:25-44 | exactly this block is live no more, its units are free, and the list is one address-ordered, fully merged ring |
| Umalloc.Heap.Morecore | user/umalloc.c:47-61 | the new memory is free and there is a fit now; failure changes nothing |
| Umalloc.Heap.InitList | user/umalloc.c:70-73 | the list of base alone |
| Umalloc.Heap.Search | user/umalloc.c:74-89 | malloc's loop ends, with the next fit or after a full circle exactly if none fits |
| Umalloc.Heap.Carve | user/umalloc.c:75-85 | n units of the block become live, and no others |
| Umalloc.Heap.Malloc | user/umalloc.c:64-90 | a block that overlaps no live block, header included, and 0 exactly if nothing fits and sbrk fails; for every size |
| SbiHeap.TiledApart | firmware/lib/sbi/sbi_heap.c:40-123 | no address is in two regions |
| SbiHeap.RoundedCovers | firmware/lib/sbi/sbi_heap.c:51-52 | the rounded size is a multiple, covers the request exactly when the addition does not wrap, then by less than the alignment, and is 0 when it wraps |
| SbiHeap.FitsIs | firmware/lib/sbi/sbi_heap.c:58-66 | a region fits exactly if there is an aligned address in it with the bytes from it on |
| SbiHeap.PowerOfTwoIs | firmware/lib/sbi/sbi_heap.c:134-136 | the alignments accepted are the powers of two |
| SbiHeap.CarveTiled | firmware/lib/sbi/sbi_heap.c:69-117 | padding, allocation and remainder tile what the region covered |
| SbiHeap.ReturnTiled | firmware/lib/sbi/sbi_heap.c:178-199 | so do the ways of giving a region back |
| SbiHeap.FreeCoalesces | firmware/lib/sbi/sbi_heap.c:180-197 | freeing leaves no two neighbouring free regions exactly if the region touches none but the one where the scan stops |
| SbiHeap.MergesOnce | firmware/lib/sbi/sbi_heap.c:156-202 | a run from an empty heap after which two neighbouring free regions stay apart |
| SbiHeap.HugeRequest | firmware/lib/sbi/sbi_heap.c:40-123 | a run in which 2^64 - 1 bytes are asked for and a region of no bytes is handed out |
| SbiHeap.Heap.constructor | firmware/lib/sbi/sbi_heap.c:227-260 | one free region after the housekeeping part, and the node count that part holds |
| SbiHeap.Heap.AllocWithAlign | firmware/lib/sbi/sbi_heap.c:40-123 | aligned and disjoint from everything in use; it succeeds exactly if the first region that fits has the list nodes it needs, and the free list is that region carved; failure changes nothing; the node count is constant |
| SbiHeap.Heap.Carve | firmware/lib/sbi/sbi_heap.c:69-117 | the same once a region is chosen |
| SbiHeap.Heap.AlignedAlloc | firmware/lib/sbi/sbi_heap.c:130-145 | and with the tests of alignment and size |
| SbiHeap.Heap.FreeFrom | firmware/lib/sbi/sbi_heap.c:156-202 | exactly the used region that holds the pointer is given back, into the free list as FreeCoalesces describes it; any other pointer changes nothing |
| SbiDomain.Nested | firmware/lib/sbi/sbi_domain.c:175-205 | regions that share an address are nested |
| SbiDomain.FindRegion | firmware/lib/sbi/sbi_domain.c:231-247 | the first region that contains the address |
| SbiDomain.SmallestDecides | firmware/lib/sbi/sbi_domain.c:125-172 | on a sorted list the permission is that of the smallest region that contains the address |
| SbiDomain.OutsideRegions | firmware/lib/sbi/sbi_domain.c:125-172 | without a region for the address exactly machine mode passes |
| SbiDomain.InsideRegions | firmware/lib/sbi/sbi_domain.c:125-172 | otherwise, on a sorted list, the smallest region decides, by its mmio flag and right by right in the mode asked for |
| SbiDomain.TestBitsIs | firmware/lib/sbi/sbi_domain.c:136-167 | the masks and the shift on the stored flags are these tests of single bits |
| SbiDomain.RunCheckAddr | firmware/lib/sbi/sbi_domain.c:125-172 | the loop over the stored flags gives that answer |
| SbiDomain.Settle | firmware/lib/sbi/sbi_domain.c:336-343 | one comparison of the sort |
| SbiDomain.SortRegions | firmware/lib/sbi/sbi_domain.c:333-344 | sorted by is_region_before, and a rearrangement |
| SbiDomain.SortedIs | firmware/lib/sbi/sbi_domain.c:218-229 | sorted means by order, and by base for the same order |
| SbiDomain.NextBase | firmware/lib/sbi/sbi_domain.c:249-267 | the lowest base of a region inside region i and above the address |
| SbiDomain.FindNextSubset | firmware/lib/sbi/sbi_domain.c:249-267 | finds a region with that base, exactly if there is one |
| SbiDomain.SameRegion | firmware/lib/sbi/sbi_domain.c:401-430 | up to the next stop of the walk the same region decides |
| SbiDomain.CheckAddrRange | firmware/lib/sbi/sbi_domain.c:401-430 | the loop gives the answer that AnswerIs describes, and a range that wraps passes |
| SbiDomain.WalkIs | firmware/lib/sbi/sbi_domain.c:401-430 | the walk passes exactly if every address up to the first where the loop leaves is in a region and passes its check, and there is such an address or the range does not end in a region that reaches 2^64 |
| SbiDomain.WalkRounds | firmware/lib/sbi/sbi_domain.c:412-427 | the walk is a number of rounds of the loop, to an answer or to cursor 0 |
| SbiDomain.AnswerIs | firmware/lib/sbi/sbi_domain.c:401-430 | true exactly if every address passes and the range does not end in a region that reaches 2^64; no answer exactly if it does and every address from 0 on passes; with a region for all of memory and bit 1, as far as the first address where the loop leaves |
| SbiDomain.NoHalt | firmware/lib/sbi/sbi_domain.c:401-430 | where the loop does not leave early every address is looked at |
| SbiDomain.AcceptsUnseen | firmware/lib/sbi/sbi_domain.c:401-430 | with bit 1 the ranges accepted in spite of an address that does not pass are exactly those that pass up to an address that the region for all of memory decides, and not after it |
| SbiDomain.RunsIntoFirmware | firmware/lib/sbi/sbi_domain.c:401-430 | sixteen bytes that run into memory of the firmware, accepted with bit 1 and not with 0 |
| SbiDomain.RunsForEver | firmware/lib/sbi/sbi_domain.c:412-427 | then no number of rounds ends the loop |
| SbiDomain.ReturnsAnswer | firmware/lib/sbi/sbi_domain.c:412-427 | otherwise some number of rounds ends it, with that answer |
| SbiDomain.NeverReturns | firmware/lib/sbi/sbi_domain.c:412-427 | two regions and eight bytes for which it never returns |
| SbiDomain.WrapsAtTop | firmware/lib/sbi/sbi_domain.c:420-426 | eight readable bytes that it does not accept |
| SbiDomain.Log2Roundup | firmware/lib/sbi/sbi_math.c:12-23 | the least order whose power of two covers x, 64 if none does |
| SbiDomain.AcceptsIs | firmware/lib/sbi/sbi_domain.c:96-123 | the test accepts an order exactly if its block holds the first and the last address, in 64 bits, and ends below 2^64 |
| SbiDomain.HoldsIsCovers | firmware/lib/sbi/sbi_domain.c:96-123 | on a range that does not wrap that is: it covers the range |
| SbiDomain.MemregionInit | firmware/lib/sbi/sbi_domain.c:96-123 | for every address and size the smallest such block, order 64 and base 0 if there is none |
| SbiDomain.TopPage | firmware/lib/sbi/sbi_domain.c:96-123 | the last page of the address space gets the whole of it |
| Pmp.RunCtz | firmware/lib/sbi/riscv_asm.c:246-259 | the place of the lowest one bit, 64 for zero |
| Pmp.LowestUnique | firmware/lib/sbi/riscv_asm.c:246-259 | there is one such place |
| Pmp.ByteSet | firmware/lib/sbi/riscv_asm.c:330-332 | writing an entry's configuration byte sets that byte |
| Pmp.ByteKept | firmware/lib/sbi/riscv_asm.c:330-332 | and keeps the other seven |
| Pmp.ByteIsOctet | firmware/lib/sbi/riscv_asm.c:320-321 | the byte of entry n is bits 8 (n mod 8) to 8 (n mod 8) + 7 |
| Pmp.IndexIs | firmware/lib/sbi/riscv_asm.c:319-325 | of configuration register 2 (n / 8) |
| Pmp.Registers.SetProt | firmware/lib/sbi/riscv_asm.c:330-332 | exactly this byte of this register is written |
| Pmp.EncodeDecode | firmware/lib/sbi/riscv_asm.c:304-405 | decoding an encoded entry gives address and length back, for every length from 2 to 64 |
| Pmp.EncodeProtIs | firmware/lib/sbi/riscv_asm.c:327-329 | the byte keeps the rights and the lock, with NA4 or NAPOT by the length |
| Pmp.EncodeFloor | firmware/lib/sbi/riscv_asm.c:334-345 | the low bits of an address do not matter: the aligned block that it is in is encoded |
| Pmp.DecodesUnique | firmware/lib/sbi/riscv_asm.c:354-405 | a register value decodes one way only |
| Pmp.NapotRange | firmware/lib/sbi/riscv_asm.c:334-345 | the bits that a NAPOT entry compares agree exactly for the addresses of its block |
| Pmp.MatchesIs | firmware/lib/sbi/riscv_asm.c:304-352 | by section 3.7.1 of the RISC-V Privileged Architecture an encoded entry matches exactly the addresses it is meant for, for every length from 2 to 64 |
| Pmp.RunDecode | firmware/lib/sbi/riscv_asm.c:383-397 | pmp_get's second half is that decoding |
| Pmp.Registers.Set | firmware/lib/sbi/riscv_asm.c:304-352 | refused exactly for a bad index or length; otherwise the entry reads back with the rights and the lock as given, the mode by the length, and the aligned block of the address, it matches exactly the addresses of that block, and no other entry and no other register changes |
| Pmp.Registers.Get | firmware/lib/sbi/riscv_asm.c:354-405 | what the entry reads back as |
| Pmp.Registers.EntryUnique | firmware/lib/sbi/riscv_asm.c:304-405 | so pmp_get after pmp_set returns what was set |
| Pmp.Registers.Disable | firmware/lib/sbi/riscv_asm.c:261-286 | this entry matches no address any more, the others are unchanged |
| Aes.SboxInverse | bench/aes.c:137-140 | rsbox undoes sbox |
| Aes.SboxIs | bench/aes.c:137-140 | sbox is the affine map of the inverse in GF(2^8), section 5.1.1 of FIPS 197 |
| Aes.MultiplyIs | bench/aes.c:319-334 | Multiply is the product of polynomials modulo x^8 + x^4 + x^3 + x + 1, section 4.2 of FIPS 197, for factors of five bits |
| Aes.MixIs | bench/aes.c:299-312 | MixColumns is the matrix of section 5.1.3 of FIPS 197 |
| Aes.InvMixIs | bench/aes.c:349-365 | InvMixColumns is the matrix of section 5.3.3 of FIPS 197 |
| Aes.MixInverse | bench/aes.c:349-365 | InvMixColumns undoes MixColumns on a column |
| Aes.MixColumnsInverse | bench/aes.c:349-365 | and on the state |
| Aes.SubInverse | bench/aes.c:370-380 | InvSubBytes undoes SubBytes |
| Aes.ShiftInverse | bench/aes.c:382-408 | InvShiftRows undoes ShiftRows |
| Aes.AddBlockInverse | bench/aes.c:236-246 | AddRoundKey undoes itself |
| Aes.Cipher | bench/aes.c:412-435 | the loop over the rounds is CipherOf, which CipherIs is about |
| Aes.InvCipher | bench/aes.c:438-460 | and so is the inverse's |
| Aes.InvRoundsUndo | bench/aes.c:438-460 | from the middle of any round the inverse gets back to the start |
| Aes.CipherInverse | bench/aes.c:412-460 | InvCipher undoes Cipher, whatever the round keys and their number |
| Aes.RconIs | bench/aes.c:118-120 | entry n of the table is the power n - 1 of x in the field |
| Aes.KeyExpansion | bench/aes.c:145-216 | the words of the key schedule of section 5.2 of FIPS 197 |
| Aes.KeyDetermined | bench/aes.c:145-216 | any eight words in a row of the schedule determine the key |
| Aes.CbcRoundTrip | bench/aes.c:500-528 | decrypting an encryption under the same starting value gives the buffer back |
| Aes.EncryptInTwo | bench/aes.c:500-513 | encrypting in two calls is encrypting in one |
| Aes.DecryptInTwo | bench/aes.c:515-528 | and so is decrypting |
| Aes.Context.constructor | bench/aes.c:223-227 | the round keys of the key, and the starting value |
| Aes.Context.EncryptBuffer | bench/aes.c:500-513 | in place, the CBC encryption of the buffer; the chaining value is the last cipher block |
| Aes.Context.DecryptBuffer | bench/aes.c:515-528 | in place, the CBC decryption; the chaining value is the last cipher block |
| Fips197.SubIs | bench/aes.c:250-260 | every byte goes through the table |
| Fips197.ShiftIs | bench/aes.c:265-291 | row r turns left by r places |
| Fips197.MixColumnsIs | bench/aes.c:299-313 | every column is multiplied by the matrix of section 5.1.3 of FIPS 197 |
| Fips197.KeyIs | bench/aes.c:236-247 | words 4 r to 4 r + 3 of the schedule are added, one for each column |
| Fips197.RoundsAre | bench/aes.c:412-437 | the state after any number of rounds is the one of the standard, and no other is |
| Fips197.CipherIs | bench/aes.c:412-437 | what Cipher computes from a schedule is the cipher of section 5.1 of FIPS 197, stated byte by byte, and only that |
| Fips197.CbcIs | bench/aes.c:500-513 | block j of the ciphertext is the cipher of block j plus the ciphertext block before it |
| Shell.SkipFrom | user/sh.c:273-274 | skips exactly the leading whitespace |
| Shell.WordEnd | user/sh.c:298-299 | takes exactly the leading word |
| Shell.RunTokenAt | user/sh.c:277-303 | the switch of gettoken gives the token at the cursor and its length |
| Shell.RunGetToken | user/sh.c:267-309 | the cursor program gives the token and the rest of the input |
| Shell.GetToken | user/sh.c:267-309 | a token always shortens the input |
| Shell.ParseRedirs | user/sh.c:376-398 | terminates, and never lengthens the input |
| Shell.ParseArgs | user/sh.c:432-443 | likewise, for the loop of parseexec |
| Shell.ParseExec | user/sh.c:417-447 | likewise |
| Shell.ParseBlock | user/sh.c:401-414 | likewise |
| Shell.ParsePipe | user/sh.c:363-373 | likewise |
| Shell.ParseAmps | user/sh.c:351-354 | likewise, for the loop over & |
| Shell.ParseLine | user/sh.c:346-360 | likewise |
| Shell.TokenOk | user/sh.c:267-309 | gettoken finds each token behind any run of the five whitespace characters |
| Shell.LexLaid | user/sh.c:267-321 | every layout of a token list lexes to the list: any whitespace before, between and after, also none except between two that would join |
| Shell.LexParts | user/sh.c:267-321 | every text is such a layout of the tokens that it lexes to |
| Shell.RedirsOk | user/sh.c:376-398 | printed redirections parse back, in order |
| Shell.WordsOk | user/sh.c:432-443 | printed words parse back |
| Shell.SimpleOk | user/sh.c:417-447 | so does a simple command |
| Shell.ExecOk | user/sh.c:401-447 | so does a simple command or a block with redirections |
| Shell.PipeOk | user/sh.c:363-373 | so does a pipe |
| Shell.AmpsOk | user/sh.c:346-354 | so does a background command |
| Shell.LineOk | user/sh.c:346-360 | so does a list |
| Shell.ParsePrint | user/sh.c:329-343 | parsing the printed text of any tree with plain words, nine an exec at most, in any layout, gives the tree |
| Shell.Cursor.Sees | user/sh.c:312-321 | peek skips space and no token, and tells whether the next token starts with one of the symbols |
| Shell.Cursor.Take | user/sh.c:267-309 | gettoken moves the cursor past exactly one token |
| Shell.Cursor.RunRedirs | user/sh.c:376-398 | the loop over a cursor parses what ParseRedirs does, wrapping the command in order |
| Shell.Cursor.RunExec | user/sh.c:417-447 | what ParseExec does, with the words put into the innermost node as it is being wrapped |
| Shell.Cursor.RunBlock | user/sh.c:401-414 | what ParseBlock does |
| Shell.Cursor.RunPipe | user/sh.c:363-373 | what ParsePipe does |
| Shell.Cursor.RunLine | user/sh.c:346-360 | what ParseLine does; the mutual recursion ends on every input |
| Shell.Cursor.RunCmd | user/sh.c:329-343 | so parsecmd over a cursor is the parse that ParsePrint is about |
| ShellGrammar.ItemsAccepted | user/sh.c:417-447 | words and redirections in any order: the words in order, the redirections around them, the first innermost |
| ShellGrammar.ExecAccepted | user/sh.c:401-447 | simple commands and blocks of the grammar are accepted with their tree |
| ShellGrammar.PipeAccepted | user/sh.c:363-373 | so are pipelines |
| ShellGrammar.LineAccepted | user/sh.c:346-360 | and lines |
| ShellGrammar.ExecFound | user/sh.c:401-447 | what parseexec accepts is a command of the grammar |
| ShellGrammar.PipeFound | user/sh.c:363-373 | what parsepipe accepts is a pipeline of it |
| ShellGrammar.LineFound | user/sh.c:346-360 | what parseline accepts is a line of it |
| ShellGrammar.Spelling | user/sh.c:278-303 | how each symbol is written, < > and >> for the three kinds of redirection |
| ShellGrammar.ParsesExactly | user/sh.c:329-343 | parsecmd gives a tree exactly for the texts that are a layout of a line of the grammar with that tree, and panics on every other text |
| BitReverse.RevInvolution | bench/FFT.c:104-139 | reversing bits twice gives the number back |
| BitReverse.RevBits | bench/FFT.c:104-139 | bit k of the reversal is bit m - 1 - k of the number |
| BitReverse.CarryIsNext | bench/FFT.c:120-137 | the inner loop ends, and steps from the reversal of i to that of i + 1 |
| BitReverse.FftBitReverse | bench/FFT.c:104-139 | for every power of two, element rev(i) is at i, for all i |
| BitReverse.TwiceIsIdentity | bench/FFT.c:104-139 | running it twice is the identity |
| Fft.IntLog2 | bench/FFT.c:21-32 | the logarithm, and failure exactly if n is no power of two |
| Fft.TurnTwice | bench/FFT.c:57-60 | the factors from the two sines are points of the unit circle: squaring doubles the angle |
| Fft.TurnStep | bench/FFT.c:79-82 | the trigonometric recurrence multiplies by the root |
| Fft.RootPow | bench/FFT.c:57-60 | the root of a stage is a root of unity of its order, half-way it is -1 |
| Fft.DftSplit | bench/FFT.c:34-101 | a transform is the one of the even places plus a factor times the one of the odd places |
| Fft.Joined | bench/FFT.c:62-98 | so a butterfly gives two coefficients of the joined block |
| Fft.PassedStep | bench/FFT.c:84-98 | one butterfly changes its two places and no others |
| Fft.StageStep | bench/FFT.c:51-100 | a stage turns transforms of blocks into transforms of blocks twice as long |
| Fft.FirstPass | bench/FFT.c:62-73 | the loop for place 0 |
| Fft.Pass | bench/FFT.c:84-98 | the loop for place a |
| Fft.RunStage | bench/FFT.c:51-100 | all butterflies of a stage |
| Fft.TransformInternal | bench/FFT.c:34-101 | in place, exactly the discrete Fourier transform, for every power of two; any other length fails |
| Fft.Transform | bench/FFT.c:142-145 | the forward transform |
| Fft.Inverse | bench/FFT.c:148-162 | the normalized backward transform |
| Fft.GeometricZero | bench/FFT.c:148-162 | the powers of a root other than 1 sum to zero |
| Fft.RoundTrip | bench/FFT.c:142-162 | FFT_inverse after FFT_transform gives every number back |

## Left out

- Bio.Cache.Bget: one process at a time, so that the block must not be held by somebody, where the kernel sleeps; `SharedCache` models that wait. The buffers are a `seq` field, and links are indices.
- Bio.Cache.Retain: as for Bget, a block that another process holds is not its case.
- Bio.Cache.Bread: as for Bget.
- Bio.Cache.Brelse: the panic without the lock is not modelled, and the last reference must leave the block clean, as the log sees to.
- Bio.Cache.Bpin: by the holder of the buffer, as log_write calls it; `SharedCache` has it by any process.
- Bio.Cache.Bunpin: by the holder, as install_trans calls it; `SharedCache` has it by any process.
- SharedCache.StepKeepsInv: the clauses on data hold while the log's rule is kept, which the cache itself does not enforce; StoreLost shows that they need it. The order of recycling is in `Bio`.
- Journal.Log.Commit: runs without other processes in between, which are in `SharedCommit`. The sleep of begin_op is left to the caller.
- SharedCommit.StepKeepsInv: the other processes only read meanwhile, as begin_op sees to by making every operation wait.
- FileSystem.Fs: the view through the buffer cache, with blocks as values; inode cache, inode locks, link counts, changing a directory and path names are not modelled.
- FileWrite.File.Write: files on inodes only, not pipes or devices.
- Mkfs.Image: stops at the allocation where mkfs stops at reading the sector after it. File names come as they go into the directory entry; cutting the command line's names is not modelled.
- FsOnLog.MakeDisk: for at most 202 files; the writes of mkfs past its inode blocks, with more, are not modelled.
- CrashSafety.RunIsConsistent: the operations are writei and itrunc; the layout of words in a block is a parameter.
- FsOnLog.Perform: the bytes of a write can be read; a write that faults is in `FileSystem`.
- FsOnLog.Record: the order of the log_write calls of an operation is open, and with it whether a repeated block comes before or after the one that fills the log.
- FsOnLog.RunGroup: the operations of a group run one after the other; `Reservation` has their interleavings.
- FsOnLog.Boot: is given the state that the disk encodes, instead of decoding it.
- SleepLock.StepKeepsInv: spin locks are atomic; memory ordering and interrupts are not modelled. Nothing is proved about progress beyond the absence of spin-lock deadlock.
- WaitExit.StepKeepsInv: a visit under another process's p->lock is one step, and so is a fork that fails. Wakeups on channels other than wait's may come at any time. Process ids are places in the table.
- PageTable.Memory.Walk: sizes in pages; page-table entries are records of validity, flags and page number instead of bits. The kernel's own page table, the shadow-stack build and copyinstr are not modelled.
- AddressSpace.GrowProc: sizes past the trapframe are its case only with too little memory to get there, as on every machine with less than about 2^38 bytes; where memory would reach it the kernel panics.
- Umalloc.Heap.Malloc: addresses are in units of a header, and sbrk returns an aligned address.
- SbiDomain.WalkIs: the value of `BIT(64)` is 0 or 1. The loop that should remove covered regions never runs and is not modelled.
- SbiHeap.Heap.AllocWithAlign: for powers of two, as its mask needs.
- Aes.Cipher: the state is four columns of bytes, changed as values; ECB and CTR mode are not modelled, and the key schedule is the one for 256 bits, as built.
- Shell.Cursor.RunCmd: the words are substrings, so that nulterminate has nothing to do; executing commands is not modelled.
- Fft.TransformInternal: exact reals instead of doubles, and the sine is a parameter with its doubling laws.
- Devices, traps, system-call dispatch, printf, the device tree, the ELF loader, pipes, and the other benchmarks and user programs.
