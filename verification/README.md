# Verified models of the xv6 kernel and user library

This project models the parts of xv6 for RISC-V whose correctness is hardest to see, and proves what
they promise. `dafny verify dfyconfig.toml` checks all of it with Dafny 4.11.

**Storage.** `Blocks` has disk blocks as bytes and 32-bit words. `Crash` and `CrashRuns` treat the log as
a sequence of atomic block writes that may stop anywhere: commit, recovery, and whole runs of both.
`LruList` and `BufferCache` are the buffer cache with its linked list; `Coherence` relates cache, log and
disk to one logical disk; `Reservation` is the space accounting of begin_op, log_write, end_op and
commit; `Log` puts them together, with other processes reading while a commit runs, so that the writes it
issues are those of the crash theorems. `Bitmap`, `Inodes`,
`FsState` and `FileSystem` are block allocation, inodes, files as byte sequences and the bound on what one
write logs; `Mkfs` builds the image from which the invariants of the file system start.

**Memory.** `PageTable` has Sv39 tables stored in pages (section 4.4 of the RISC-V Privileged
Architecture), with a role for every physical page; `Pages`, `Spaces`, `UserCopy` and `Processes` are the
theory of single pages, address spaces, byte-wise access and live processes; `Vm` is the imperative code of
the allocator, the page tables and fork. `FreeList` and `Heap` are the allocator of user programs.

**Waiting.** `ExitWait`, `SleepLock` and `PipeWakeup` are step systems: every process advances one step at
a time, spinlocks are atomic, and the theorems hold of every interleaving. `Monitor` proves the same for any
use of sleep and wakeup that keeps to one rule, and `Waiters` applies it to begin_op and the disk driver.
`Pipe` is the ring itself.

**Devices and languages.** `Virtqueue` and `Virtio` are the disk driver and its device (sections 2.6 and
5.2 of VirtIO 1.1). `Shell`, `ShellTrip` and `ShellNul` are the shell's parser, its inverse printer, and
the step that ends tokens with NUL. `Grep` is the regular-expression matcher. `Common` holds a few shared
facts.

Code that changes state in the source changes state here: classes with methods and loops, each proved
against a specification on values about which the lemmas speak.

Where a promise does not hold of the code, the code is kept and the exact condition is proved:

- log_write tests for room before it absorbs a repeated block. A call that has used its allowance and logs
  one of its blocks again can therefore meet the panic, also with a log area larger than LOGSIZE
  (`Reservation.AbsorbedWriteCanPanic`); it does so exactly if LOGSIZE entries are taken
  (`Reservation.AbsorbedWritePanicsIffFull`). With the size that mkfs sets the test is one entry tighter: a
  call within its allowance can meet the panic (`Reservation.AllowanceCanPanic`), exactly if LOGSIZE - 1
  entries are taken (`Reservation.RoomForAllowance`).
- mkfs always rounds the size of the root directory up to a further block. If the directory ends on a block
  boundary the last block of its size is unmapped; the image is as the kernel expects exactly if two plus the
  number of files is not a multiple of 64 (`Mkfs.Image.Make`; `Mkfs.FullDirectory` makes a failing one).
- A writer that is killed returns from pipewrite without waking readers. A reader can then sleep on a pipe
  that is not empty (`PipeWakeup.ForgottenReader`); `PipeWakeup.KilledWriter` says exactly when not.
- growproc with a negative argument beyond the size computes a huge size and changes nothing, without
  reporting an error (`Vm.Machine.GrowProc`, `Processes.WrapsAround`).

## Model

| member | source | states |
|---|---|---|
| `Crash.HeadRoundTrip` | kernel/log.c:86-114 | what write_head stores in the header block, read_head gives back, whatever the block held before |
| `Crash.ApplyTwice` | kernel/log.c:68-83 | redoing a list of block writes after any prefix of it has the effect of doing it once: installing is idempotent |
| `Crash.RecoveryCut` | kernel/log.c:68-123 | recovery cut after any number of block writes leaves a readable log, and the next complete recovery ends on exactly the disk the uninterrupted one produces |
| `Crash.RecoveryCutManyTimes` | kernel/log.c:116-123 | the same for any number of interrupted recoveries in a row |
| `Crash.RecoveredEmpty` | kernel/log.c:116-123 | a complete recovery leaves an empty log |
| `Crash.RestOfCommitIsRecovery` | kernel/log.c:193-203 | past the write of the header, the remaining writes of commit are exactly the writes of a recovery |
| `Crash.RecoveredInstallsAll` | kernel/log.c:68-83 | recovery from the commit point puts every logged block home and changes no other home block |
| `Crash.CutBeforeCommitPoint` | kernel/log.c:177-198 | commit cut before the header write leaves the log empty and every home block as it was |
| `Crash.CutAfterCommitPoint` | kernel/log.c:193-203 | commit cut after the header write leaves exactly the disk of a recovery cut at that place |
| `Crash.CommitIsAtomic` | kernel/log.c:68-203 | if the machine stops after any block write of commit, and recovery is then cut any number of times, the first complete recovery leaves the home blocks with all updates of the transaction if the header was written, and with none otherwise |
| `CrashRuns.AbsorptionSound` | kernel/log.c:215-235 | installing the last contents of each distinct logged block equals performing every logged update in order, so absorbing repeats loses nothing |
| `CrashRuns.CrashInCommit` | kernel/log.c:147-203 | a crash in the commit of a group of calls, with recoveries cut at will, leaves all updates of all calls in the group or none |
| `CrashRuns.CommitIsRecovery` | kernel/log.c:193-203 | a commit that is not interrupted ends on the disk that recovery makes of its commit point |
| `CrashRuns.CommitCompletes` | kernel/log.c:193-203 | a commit that is not interrupted leaves an empty log and every update of the group on the home blocks |
| `CrashRuns.RunIsAtomic` | kernel/log.c:116-203 | over every run of commits and crashes, the home blocks hold exactly the updates of the calls whose commit reached the header write, in order: each call whole or not at all |
| `LruList.Unlinked` | kernel/bio.c:125-127 | the two link assignments take a node out of a doubly linked ring and leave a ring of the others |
| `LruList.Pushed` | kernel/bio.c:128-132 | the four link assignments put a node right behind the head of the ring |
| `BufferCache.Requeued` | kernel/bio.c:125-133 | the assignments of brelse, in their order, turn the ring into the ring with the buffer in front |
| `BufferCache.MovedToFront` | kernel/bio.c:123-133 | moving a buffer to the front when it is released keeps the list sorted by time of release |
| `BufferCache.Cache.constructor` | kernel/bio.c:36-53 | an empty cache whose links form one ring through the head and all NBUF buffers |
| `BufferCache.Cache.FindCached` | kernel/bio.c:65-73 | the scan finds the buffer of the block exactly if there is one |
| `BufferCache.Cache.FindFree` | kernel/bio.c:75-87 | the scan from the tail finds, among the unreferenced buffers, the one released longest ago; none only if all are referenced |
| `BufferCache.Cache.BGet` | kernel/bio.c:58-89 | a locked buffer for the block: the cached one with one more reference, or the unreferenced buffer released longest ago, marked invalid; a wait exactly if somebody else has the cached one locked, the panic exactly if the block is not cached and all are referenced, both with nothing changed; at most one buffer per block and one ring through all buffers are kept |
| `BufferCache.Cache.MoveToFront` | kernel/bio.c:123-133 | the list keeps every buffer, with this one first, and its order of release |
| `BufferCache.Cache.BRelse` | kernel/bio.c:115-137 | one reference fewer; at zero the buffer becomes the most recently released, otherwise the list is untouched |
| `BufferCache.Cache.BPin` | kernel/bio.c:139-144 | one reference more, nothing else changed |
| `BufferCache.Cache.BUnpin` | kernel/bio.c:146-151 | one reference fewer on a buffer that is held, nothing else changed |
| `BufferCache.Cache.BRead` | kernel/bio.c:91-103 | a locked valid buffer with the cached contents if they were valid, else the contents of the disk block; no other buffer changes; a wait exactly for a buffer that is locked, none only if the block is not cached and every buffer is in use |
| `BufferCache.Cache.BWrite` | kernel/bio.c:105-112 | the disk block takes the contents of the buffer, as one atomic write at the end of the trace |
| `BufferCache.Cache.SetData` | kernel/bio.c:1-15 | the holder of a buffer changes its contents and nothing else |
| `Coherence.UncachedIsClean` | kernel/bio.c:58-89 | a block that no valid buffer holds is not in the log, so the disk has its latest contents |
| `Coherence.ReadSeesLogical` | kernel/bio.c:58-103 | bread returns the latest contents of the block whichever buffer it gets, and no logged block loses its buffer to recycling |
| `Coherence.LogFirst` | kernel/log.c:225-233 | logging a new block pins its buffer and makes its contents the latest; cache, log and disk stay in agreement |
| `Coherence.LogAgain` | kernel/log.c:225-233 | logging a block that is already in the log makes the new contents the latest and pins nothing |
| `Coherence.PinOf` | kernel/log.c:68-83 | the buffer that holds a logged block has the pin of the log besides its holder, so unpinning never drops the last reference |
| `Coherence.InstallFirst` | kernel/log.c:73-82 | writing a logged block home and unpinning it takes it out of the log with cache and disk in agreement |
| `Coherence.WriteThrough` | kernel/log.c:178-191 | a block outside the log that is written through is up to date on disk and in the cache |
| `Coherence.ReleaseKeeps` | kernel/bio.c:115-137 | releasing a buffer whose changes have been logged keeps the agreement |
| `Reservation.StepKeepsReserved` | kernel/log.c:125-235 | begin_op, log_write, end_op and the two steps of a commit keep the reservation: entries are distinct, their number plus the unused allowance of all calls in progress is at most LOGSIZE, the counter outstanding is the number of calls, none is outstanding during a commit, and the header is empty when neither call nor commit is in progress |
| `Reservation.RunKeepsReserved` | kernel/log.c:125-235 | so does every run of them, with commits running while calls want to begin |
| `Reservation.RoomForAllowance` | kernel/log.c:220-223 | a call that has logged fewer than MAXOPBLOCKS blocks passes log_write's test when the log area is larger than LOGSIZE; with the LOGSIZE blocks mkfs makes it fails exactly if LOGSIZE - 1 entries are taken, and then all calls together have one more block to log |
| `Reservation.AllowanceCanPanic` | kernel/log.c:220-223 | with the log area that mkfs makes the panic is reachable by a call within its allowance: two calls have logged ten blocks each, the third nine, and its tenth finds no room |
| `Reservation.CommitUndisturbed` | kernel/log.c:125-175 | in every run, while a commit runs no call is outstanding, and the only change of the header is that the committer empties it |
| `Reservation.NeverOutside` | kernel/log.c:147-175 | in every run a call in progress meets neither the panic of end_op during a commit nor that of log_write outside a transaction |
| `Reservation.AbsorbedWriteCanPanic` | kernel/log.c:220-231 | the panic is reachable even with a larger log area: three calls fill the log, then one logs a block again, and the test comes before the absorption |
| `Reservation.AbsorbedWritePanicsIffFull` | kernel/log.c:220-231 | with a larger log area log_write panics exactly if LOGSIZE entries are taken, and then every call in progress has used its whole allowance |
| `Reservation.FillReachable` | kernel/log.c:125-235 | three admitted calls can fill the log to any number of entries below its area and up to LOGSIZE, for every size of the area |
| `Log.Log.constructor` | kernel/log.c:54-65 | the log layer over a disk before recovery: nothing logged, no call in progress, the latest contents are those on disk |
| `Log.Log.BeginOp` | kernel/log.c:125-142 | the call is admitted exactly if no commit is running and the log has room for MAXOPBLOCKS more blocks for every call in progress and this one; otherwise nothing changes and the call waits |
| `Log.Log.Read` | kernel/bio.c:91-103 | bread returns the latest contents of the block, what was last logged or what is on disk; it waits exactly for a buffer that somebody else has locked |
| `Log.Log.Others` | kernel/bio.c:58-137 | reads and releases by other processes between two rounds of a commit keep cache, log and disk in agreement and write nothing |
| `Log.Log.Change` | kernel/log.c:205-213 | a holder changes its buffer, which then has to be logged before it is released |
| `Log.Log.Release` | kernel/bio.c:115-137 | brelse of a buffer with no unlogged change keeps cache, log and disk in agreement and writes nothing |
| `Log.Log.FindEntry` | kernel/log.c:226-229 | the scan stops at the entry of the block, or at the end if there is none |
| `Log.Log.LogWrite` | kernel/log.c:205-235 | the panic is taken exactly if the log is full by its test; otherwise the block is in the log once, its buffer has a pin if the block is new, and its contents are the latest; the reservation is kept |
| `Log.Log.Record` | kernel/log.c:225-233 | the second half of log_write: an entry and a pin for a new block, neither for a repeated one |
| `Log.Log.WriteLogEntry` | kernel/log.c:182-190 | the contents of the logged block go to its log block as one disk write |
| `Log.Log.WriteLog` | kernel/log.c:177-191 | with other processes reading in between, the log blocks get the latest contents of the logged blocks, in order, or a prefix of them if it gets stuck, because every buffer is in use or somebody else keeps a block of the transaction locked |
| `Log.Log.CopyRound` | kernel/log.c:183-190 | one round copies one more logged block, whatever others have read before it |
| `Log.Log.WriteHead` | kernel/log.c:99-114 | the header block gets the count and the entries, keeping its other bytes, as one disk write |
| `Log.Log.InstallEntry` | kernel/log.c:73-82 | a log block goes home as one disk write, and outside recovery the home buffer is unpinned |
| `Log.Log.PutHome` | kernel/log.c:74-79 | the home block takes the contents from the log on disk and in the cache, as one disk write, and outside recovery loses its pin |
| `Log.Log.InstallTrans` | kernel/log.c:67-83 | with other processes reading in between, every log block goes home, in order, or a prefix of them if it gets stuck, because every buffer is in use or somebody else keeps a block of the transaction locked |
| `Log.Log.InstallRound` | kernel/log.c:73-82 | one round brings one more log block home, whatever others have read before it |
| `Log.Log.ToCommitPoint` | kernel/log.c:196-198 | the first half of commit issues exactly the log writes and the header write, and the log blocks then hold the latest contents |
| `Log.Log.FinishCommit` | kernel/log.c:199-201 | the second half of commit issues exactly the home writes and the write that erases the header, and leaves no block in the log |
| `Log.Log.Commit` | kernel/log.c:193-203 | with other processes reading in between, the disk writes are exactly the writes of the crash theorems, in order, or a prefix of them if it gets stuck, because every buffer is in use or somebody else keeps a block of the transaction locked; after a complete commit disk, cache and latest contents agree on every block |
| `Log.Log.GroupCommit` | kernel/log.c:163-174 | while new calls are kept waiting and others read, the commit is that of the updates logged since the last one; afterwards calls are admitted again |
| `Log.Log.Leave` | kernel/log.c:147-165 | the call is no longer outstanding, a commit starts exactly if it was the last, and the panic is not reached |
| `Log.Log.EndOp` | kernel/log.c:144-175 | only the last call in progress commits, and its disk writes are exactly those of committing all updates logged since the last commit, or a prefix of them if it gets stuck, because every buffer is in use or somebody else keeps a block of the transaction locked; other calls write nothing |
| `Log.Log.ReadHeader` | kernel/log.c:85-97 | the in-memory header becomes what the header block holds |
| `Log.Log.RecoverFromLog` | kernel/log.c:116-123 | at boot the disk writes are exactly those of recovery, or a prefix of them if it gets stuck; afterwards the log is empty and cache and disk agree |
| `Log.Log.EndRecovery` | kernel/log.c:121-122 | erasing the header completes the writes of recovery |
| `Bitmap.MarkAt` | kernel/fs.c:65-88 | setting the bit of one block marks that block and leaves every other block's bit as it was |
| `Bitmap.UnmarkAt` | kernel/fs.c:90-105 | clearing the bit of one block frees that block and leaves every other block's bit as it was |
| `Inodes.InodeRoundTrip` | kernel/fs.c:221-241 | an inode written into its place in an inode block reads back as it was, and the other inodes of the block read as before |
| `FsState.OwnedOnce` | kernel/fs.c:372-421 | under the ownership invariant two different slots of any two files never hold the same block, and a block that is held is marked in the bitmap |
| `FsState.NoLeak` | kernel/fs.c:61-105 | a block of the data area that is marked in the bitmap is held by some slot of some file |
| `FsState.AttachDirect` | kernel/fs.c:388-396 | giving a free block to an empty direct slot or to the indirect pointer keeps the ownership invariant |
| `FsState.AttachIndirect` | kernel/fs.c:399-417 | giving a free block to an empty entry of an indirect block keeps the ownership invariant |
| `FsState.DetachDirect` | kernel/fs.c:432-437 | freeing the block of a slot keeps the ownership invariant |
| `FsState.DetachIndirect` | kernel/fs.c:442-445 | freeing the block of an indirect entry keeps the ownership invariant |
| `FsState.OtherFileSame` | kernel/fs.c:498-539 | what is written to one file leaves the blocks and bytes of every other file as they were |
| `FsState.AfterWrite` | kernel/fs.c:498-539 | after a write the file is the old contents with the bytes spliced in, and every other file is unchanged |
| `FileSystem.FileSystem.ScanBlock` | kernel/fs.c:74-84 | the inner loop of balloc finds the first clear bit of a bitmap block |
| `FileSystem.FileSystem.FindClear` | kernel/fs.c:71-86 | balloc's scan finds the first free block of the whole disk, over any number of bitmap blocks |
| `FileSystem.FileSystem.BAlloc` | kernel/fs.c:61-88 | the first free block, marked and zeroed, belonging to no file before; 0 exactly if every block is in use, and then nothing changes; every block changed is logged |
| `FileSystem.FileSystem.BFree` | kernel/fs.c:90-105 | frees the block exactly if its bit was set; the panic is taken otherwise and changes nothing |
| `FileSystem.FileSystem.AllocSlot` | kernel/fs.c:388-396 | an empty direct slot or indirect pointer gets a fresh block or the disk is full; no other slot changes; ownership is kept |
| `FileSystem.FileSystem.AllocEntry` | kernel/fs.c:407-415 | the same for an entry of the indirect block |
| `FileSystem.FileSystem.BMap` | kernel/fs.c:372-421 | the block behind block index bn, allocated if it was missing, 0 only if the disk is full; no slot loses its block, no other file changes, ownership is kept, and at most the new block and one bitmap block are added to the blocks logged besides indirect block and inode |
| `FileSystem.FileSystem.IUpdate` | kernel/fs.c:221-241 | the on-disk inode becomes the in-memory one, in one logged block; other inodes and all files stay as they were |
| `FileSystem.FileSystem.WriteChunk` | kernel/fs.c:518-530 | one round of writei puts the chunk at its place in the file or changes no byte of any file, the latter only if the copy fails or the disk is full; the price in logged blocks is two for a new block and one for a mapped one |
| `FileSystem.FileSystem.WriteI` | kernel/fs.c:498-539 | -1 exactly for a start beyond the end or a range beyond the largest file, and then nothing changes; otherwise the file becomes the old contents with the first r bytes spliced in at off, r falling short only if the disk is full or the copy fails in the next block; no other file changes; every block of the disk that changes is logged, and for a write of the size filewrite uses these are at most MAXOPBLOCKS distinct blocks |
| `FileSystem.FileSystem.WriteLoop` | kernel/fs.c:518-530 | the loop of writei, with the number of blocks logged bounded by the blocks touched |
| `FileSystem.FileSystem.WriteRound` | kernel/fs.c:519-529 | one round adds the next chunk to the bytes written and at most the price of one more block to the blocks logged |
| `FileSystem.FileSystem.SetSize` | kernel/fs.c:532-538 | the end of writei: the size covers the bytes written, the inode is on disk, the file is the old contents with the bytes spliced in |
| `FileSystem.FileSystem.ReadI` | kernel/fs.c:467-496 | exactly contents[off..min(off+n, size)], 0 for a start beyond the end or a wrapping range, -1 exactly if the copy fails; no block is allocated and nothing changes |
| `FileSystem.FileSystem.ReadChunk` | kernel/fs.c:482-494 | one round of readi returns the bytes of the file at that place and allocates nothing |
| `FileSystem.FileSystem.ReadLoop` | kernel/fs.c:482-495 | the loop returns exactly the bytes of the range, or -1 exactly if the copy fails |
| `FileSystem.FileSystem.WritePiece` | kernel/file.c:160-171 | one transaction of filewrite changes and logs at most MAXOPBLOCKS distinct blocks, whatever the offset and the state of the file, and splices what it reports into the file |
| `FileSystem.FileSystem.FileWrite` | kernel/file.c:149-176 | over all pieces the file becomes the old contents with the bytes up to the new offset spliced in, no other file changes, no transaction logs more than MAXOPBLOCKS blocks; n exactly if all bytes were written, -1 only for a start beyond the end, a piece beyond the largest file, a failing copy or a full disk |
| `FileSystem.FileSystem.FreeDirect` | kernel/fs.c:432-437 | the direct blocks of the inode become free, and no others |
| `FileSystem.FileSystem.FreeSlot` | kernel/fs.c:432-437 | one round empties one direct slot and frees its block, and no other |
| `FileSystem.FileSystem.FreeEntry` | kernel/fs.c:442-445 | freeing one listed block takes exactly that block from its owner and keeps the ownership invariant of the disk as it will be once the indirect block is gone |
| `FileSystem.FileSystem.FreeEntries` | kernel/fs.c:439-446 | the blocks listed in the indirect block become free, and no others |
| `FileSystem.FileSystem.FreeRound` | kernel/fs.c:442-445 | one round frees the block of one more entry of the indirect block, if there is one |
| `FileSystem.FileSystem.FreeIndirect` | kernel/fs.c:439-449 | those blocks and the indirect block become free |
| `FileSystem.FileSystem.ITrunc` | kernel/fs.c:423-453 | the file becomes empty, exactly its blocks lose their owner, every other file is unchanged, every block changed is logged, and the panic of bfree is not reached |
| `FileSystem.FileSystem.SetEmpty` | kernel/fs.c:451-452 | the inode without blocks gets size zero and goes to disk, with every other file as it was |
| `FileSystem.ExactlyFreed` | kernel/fs.c:423-453 | after truncation the bitmap has exactly the bits of the metadata and of the other files' blocks |
| `FileSystem.TriedBound` | kernel/file.c:149-158 | a write of at most 3072 bytes from any offset tries so few blocks, the first of them mapped already if it starts inside one, that data and bitmap blocks cost at most seven log entries |
| `FileSystem.FileSystem.IPut` | kernel/fs.c:329-362 | the last reference to an unlinked inode frees the inode and exactly its blocks; any other leaves disk and inodes alone; every block changed is logged |
| `FileSystem.FileSystem.SetKind` | kernel/fs.c:351-352 | changing the type of an empty inode and writing it back leaves every other file as it was |
| `FileSystem.FileSystem.IAlloc` | kernel/fs.c:195-219 | the first free inode, cleared and given its type; 0 exactly if there is none; no file changes |
| `FileSystem.FileSystem.FindInode` | kernel/fs.c:202-216 | the scan of ialloc finds the first free inode |
| `Mkfs.BallocBitmap` | mkfs/mkfs.c:234-248 | the bitmap block marks exactly the first used blocks |
| `Mkfs.Image.constructor` | mkfs/mkfs.c:108-111 | an image of zeroed blocks satisfies the construction invariant |
| `Mkfs.Image.IAlloc` | mkfs/mkfs.c:220-232 | the next inode gets its type and one link; no file changes; false exactly if there is no further inode |
| `Mkfs.Image.TakeSlot` | mkfs/mkfs.c:269-276 | the next block goes to an empty slot of the inode, exactly if there is one; no other slot changes, ownership is kept |
| `Mkfs.Image.TakeEntry` | mkfs/mkfs.c:277-281 | the same for an entry of the indirect block, which is written back |
| `Mkfs.Image.MapBlock` | mkfs/mkfs.c:266-285 | the block behind a block index, the next free ones if it or the indirect block was missing; no other slot changes, ownership is kept; it fits exactly if the blocks needed are left |
| `Mkfs.Image.MapEntry` | mkfs/mkfs.c:274-283 | the same for a block named by the indirect block |
| `Mkfs.Image.PutChunk` | mkfs/mkfs.c:286-289 | the chunk is in the file at its place and no other file changes |
| `Mkfs.Image.AppendLoop` | mkfs/mkfs.c:265-291 | the loop of iappend puts all bytes behind the end of the file, maps no block beyond them and takes exactly the blocks by which the file grows |
| `Mkfs.Image.IAppend` | mkfs/mkfs.c:252-294 | the bytes are appended to the file and every other file is unchanged; it fits exactly if the file stays within the largest size and the blocks by which it grows are left |
| `Mkfs.Image.WriteBack` | mkfs/mkfs.c:292-293 | the size covers the bytes, the inode is on disk, and the file is the old contents with the bytes behind them |
| `Mkfs.Image.AppendFile` | mkfs/mkfs.c:157-158 | a host file read in pieces ends up in the image byte for byte, exactly if it is no longer than a file can be and its blocks are left |
| `Mkfs.Image.AddFile` | mkfs/mkfs.c:150-158 | the next inode holds the file, the root directory has one more entry naming it, and the files before are unchanged; it fits exactly if there is an inode, the file is not too long and the blocks for both are left |
| `Mkfs.Image.MakeRoot` | mkfs/mkfs.c:117-128 | inode 1 is a directory with the entries for itself and its parent |
| `Mkfs.Image.Populate` | mkfs/mkfs.c:117-161 | every file of the command line is in its inode and the root directory lists them in order, exactly if the files fit: inodes, lengths, and metadata, directory and file blocks within FSSIZE |
| `Mkfs.Image.RoundRoot` | mkfs/mkfs.c:163-168 | the size of the root directory is rounded up to the next multiple of the block size, one further if it is one already |
| `Mkfs.Image.WriteBitmap` | mkfs/mkfs.c:170 | with its bitmap the image satisfies the kernel's ownership invariant |
| `Mkfs.Image.Make` | mkfs/mkfs.c:117-170 | exactly if the files fit, the image satisfies the kernel's ownership invariant and holds the files, and every byte below every size is in a mapped block exactly if two plus the number of files is not a multiple of 64 |
| `Mkfs.FullDirectory` | mkfs/mkfs.c:163-168 | 62 empty files fit, and in the image made of them a byte of the root directory is in no mapped block |
| `Mkfs.Rounded` | mkfs/mkfs.c:163-168 | rounding the size up keeps every byte below it mapped exactly if the last block was not full |
| `Mkfs.NeededIs` | mkfs/mkfs.c:266-283 | going on at the end of a file takes exactly the difference between the blocks of the longer and of the shorter file |
| `PageTable.PteRoundTrip` | kernel/riscv.h:347-352 | encoding an aligned physical address with flags and decoding it gives both back |
| `PageTable.RoleAt` | kernel/vm.c:73-103 | every table page of a tree is the one that walk reaches for its addresses: one table per prefix |
| `PageTable.OwnEntry` | kernel/vm.c:138-165 | the entry that walk finds for the virtual page a page belongs to is valid and maps that page |
| `PageTable.LeafSet` | kernel/vm.c:156-158 | writing a last-level entry changes the map at one virtual page of one address space |
| `PageTable.AddTableMap` | kernel/vm.c:96-99 | adding a zeroed table page changes no translation of any address space |
| `PageTable.PteFrame` | kernel/vm.c:85-103 | an address space whose table pages are unchanged translates as before |
| `PageTable.DropTable` | kernel/vm.c:269-287 | giving up an empty table keeps every other tree in order |
| `Vm.Machine.constructor` | kernel/kalloc.c:26-31 | after kinit every page above the kernel is on the free list once |
| `Vm.Machine.FreeRange` | kernel/kalloc.c:33-40 | every page of the range becomes free |
| `Vm.Machine.KAlloc` | kernel/kalloc.c:65-82 | the head of the free list, filled with junk, or 0 exactly if the list is empty; the links stay in order |
| `Vm.Machine.KFree` | kernel/kalloc.c:42-63 | the page is filled with junk and becomes the head of the free list, which holds each free page once |
| `Vm.Machine.NewTable` | kernel/vm.c:96-99 | a free page becomes an empty table behind the entry, or there is none; no translation changes |
| `Vm.Machine.Walk` | kernel/vm.c:73-103 | the last-level table for the address, or 0 if it is missing and none may or can be made; table pages may be added, translations and data pages stay; without alloc nothing changes |
| `Vm.Machine.MapPage` | kernel/vm.c:153-163 | one virtual page maps the physical page with its flags; every other translation stays |
| `Vm.Machine.MapPages` | kernel/vm.c:138-165 | exactly the pages touched by the byte range are mapped, to consecutive physical pages with the given flags; every other virtual page translates as before; failure only with no free page left and fewer than two per page at the start; remap is not reached |
| `Vm.Machine.UnmapPage` | kernel/vm.c:179-191 | one virtual page is no longer mapped, and its page is freed if asked |
| `Vm.Machine.Unmap` | kernel/vm.c:167-192 | exactly the range is unmapped; with do_free exactly its pages go to the free list, each once; all else is as before; the panics are not reached |
| `Vm.Machine.FreeWalk` | kernel/vm.c:269-287 | exactly the table pages of the subtree become free, each once; leaf panics are not reached |
| `Vm.Machine.UvmCreate` | kernel/vm.c:194-205 | a new address space that maps nothing, from one free page; 0 only if there is none, with nothing changed |
| `Vm.Machine.AllocPage` | kernel/vm.c:235-247 | a free page with the given contents at the next virtual page; failure only with fewer than three free pages, and then only tables have been gained |
| `Vm.Machine.UvmAlloc` | kernel/vm.c:223-249 | the address space gains zeroed pages with the given permissions up to the new size, old pages keep place and contents; it fails only with fewer than three free pages per page wanted, and has then gained nothing but tables; the panic of walk is not reached because sizes stay below physical memory |
| `Vm.Machine.UvmDealloc` | kernel/vm.c:251-267 | exactly the pages between the two rounded sizes are unmapped and freed; the result is the smaller size |
| `Vm.Machine.UvmFree` | kernel/vm.c:289-297 | exactly the pages of the address space, data and tables, become free |
| `Vm.Machine.UvmCopy` | kernel/vm.c:299-333 | on success the copy maps the same virtual pages with equal flags and equal contents in pages of its own; it fails only with fewer than three free pages per page to copy, and has then gained nothing but tables; the original and all others are untouched |
| `Vm.Machine.Hook` | kernel/proc.c:190-203 | one kernel page is mapped at the top of an address space; nothing is only if fewer than two pages are free |
| `Vm.Machine.ProcPagetable` | kernel/proc.c:174-206 | an address space with the trampoline and the trapframe page and nothing else; failure only with fewer than five free pages, and then every page is where it was |
| `Vm.Machine.ProcFreePagetable` | kernel/proc.c:208-216 | exactly the pages of the address space become free; trampoline and trapframe pages do not |
| `Vm.Machine.WalkAddr` | kernel/vm.c:105-126 | the physical page behind the address exactly if user code may reach it, else 0 |
| `Vm.Machine.CopyOut` | kernel/vm.c:348-371 | the bytes up to the first unreachable address are written there, as byte-wise stores would, no other byte of this address space and no page of another changes; success exactly if all are reachable |
| `Vm.Machine.CopyIn` | kernel/vm.c:373-396 | the bytes up to the first unreachable address, as byte-wise loads would give them; success exactly if all are reachable |
| `Vm.Machine.ScanPage` | kernel/vm.c:417-430 | the inner loop of copyinstr agrees with reading byte by byte |
| `Vm.Machine.CopyInStr` | kernel/vm.c:398-439 | the result is that of reading byte by byte up to a NUL |
| `Vm.Machine.AllocProc` | kernel/proc.c:128-141 | a new process takes only free pages: a trapframe and an empty address space; failure only with fewer than six free pages, and then every page is where it was |
| `Vm.Machine.FreeProc` | kernel/proc.c:155-172 | exactly the pages of the process become free, each once; every other process is untouched |
| `Vm.Machine.GrowProc` | kernel/proc.c:257-275 | growing adds zeroed pages and fails only with fewer than three free pages per page wanted, gaining only tables; shrinking frees exactly the pages beyond the new size; shrinking by more than the size changes nothing, because the new size wraps around |
| `Vm.Machine.Fork` | kernel/proc.c:277-299 | the child has a copy of the memory and of the saved registers with a0 zeroed, in pages that were free, and no page of another process changes; it fails only with fewer than six free pages and three per page to copy, and then puts every page back |
| `UserCopy.ReachOwn` | kernel/vm.c:105-126 | what user code can reach is a page of the address space's own |
| `UserCopy.WrotePage` | kernel/vm.c:357-364 | a write within one page changes exactly those virtual addresses, since different reachable virtual pages are different physical pages |
| `UserCopy.StrFound` | kernel/vm.c:398-439 | a string is found exactly if there is a NUL within max bytes and everything up to it can be read; it is what memory holds there, with one NUL, at its end |
| `Spaces.FitsMemory` | kernel/vm.c:223-249 | an address space has no more pages of its own than there is physical memory |
| `Spaces.Untouched` | kernel/vm.c:85-333 | an operation on one address space leaves what another maps, the contents, and the owners of its pages alone |
| `Spaces.Undone` | kernel/vm.c:237-246 | taking back the pages gained so far leaves only tables gained |
| `Processes.OneOwner` | kernel/proc.c:109-216 | every page outside the kernel lies at exactly one place, as the free list, the tables that walk reaches and the entries it finds have it: once on the free list, as one table (root, level, prefix), at one virtual page of one process, or as the trapframe of one |
| `Processes.MappedOnce` | kernel/vm.c:138-165 | a page of a process's memory has one entry in all page tables together: two valid entries of live processes with the same page, one of them below the size, are the same entry |
| `Processes.EntryMeans` | kernel/proc.c:174-206 | a valid entry of a process maps a page of its own memory at that place, its trapframe or the trampoline, and nothing else is mapped |
| `Processes.AllBack` | kernel/proc.c:155-216 | when no process is left, the free list holds every page outside the kernel, each once |
| `Processes.WriteUnseen` | kernel/vm.c:348-371 | a write of one process changes nothing that another can read |
| `Processes.CopyReads` | kernel/vm.c:299-333 | after uvmcopy both address spaces reach the same addresses and read the same bytes there |
| `Processes.FailedFork` | kernel/proc.c:291-295 | a fork that fails in uvmcopy leaves every page where it was before the fork |
| `Processes.WrapsAround` | kernel/proc.c:270-272 | a negative new size wraps to a number no smaller than the old size |
| `FreeList.InsertOk` | user/umalloc.c:37-42 | a freed block put between its neighbours in address order keeps the circular list and the partition of memory |
| `FreeList.MergeOk` | user/umalloc.c:33-42 | two free blocks that touch become one, with the list and the partition kept |
| `FreeList.MergeGaps` | user/umalloc.c:33-42 | joining touching blocks leaves no two free blocks that touch |
| `FreeList.UnlinkOk` | user/umalloc.c:76-77 | a block that leaves the list becomes live, with list and partition kept |
| `FreeList.SplitOk` | user/umalloc.c:78-82 | the end of a larger free block becomes a live block, with list and partition kept |
| `FreeList.CoreOk` | user/umalloc.c:57-58 | new memory becomes one block of the partition |
| `FreeList.Partition` | user/umalloc.c:24-90 | every unit obtained lies in exactly one block, free or live |
| `FreeList.NeverTouch` | user/umalloc.c:24-44 | between two free blocks that follow each other on the list there is memory that is not free |
| `FreeList.HeadersOnly` | user/umalloc.c:11-17 | the allocator depends on its headers only, not on what programs leave in the memory they were given |
| `Heap.Heap.constructor` | user/umalloc.c:21-22 | a heap that has obtained no memory |
| `Heap.Heap.FindPlace` | user/umalloc.c:30-32 | the search from freep ends, at the block after which the freed one belongs |
| `Heap.Heap.JoinAbove` | user/umalloc.c:33-37 | the freed block takes over a free block that begins where it ends |
| `Heap.Heap.JoinBelow` | user/umalloc.c:38-42 | the freed block is taken over by a free block that ends where it begins, or linked behind it |
| `Heap.Heap.Free` | user/umalloc.c:24-44 | the block leaves the live blocks and joins the free ones; the list stays circular in address order, no two free blocks touch, and live and free blocks share out the memory obtained |
| `Heap.Heap.MoreCore` | user/umalloc.c:46-61 | at least 4096 units of new memory join the free list, or nothing changes |
| `Heap.Heap.TakeWhole` | user/umalloc.c:76-77 | a block of just the right size becomes live |
| `Heap.Heap.TakeEnd` | user/umalloc.c:78-82 | the end of a larger block becomes live |
| `Heap.Heap.Take` | user/umalloc.c:75-84 | a block of at least the wanted size gives up exactly that many units, as a new live block |
| `Heap.Heap.Init` | user/umalloc.c:70-73 | the first call makes the list that holds base alone |
| `Heap.Heap.Refill` | user/umalloc.c:86-88 | the search begins again with a large enough block ahead of it, or nothing has changed and there is none |
| `Heap.Heap.Malloc` | user/umalloc.c:63-90 | a new live block of enough units, disjoint from all others; both loops end, morecore is called at most once; 0 only if no free block was large enough and the kernel granted nothing |
| `ExitWait.KeepsExit` | kernel/proc.c:347-368 | exit takes wait_lock: the invariant of the process table is kept (no parent sleeps past a zombie child unless a wakeup is under way, parents are alive, who holds wait_lock is where it may be) |
| `ExitWait.KeepsReparent` | kernel/proc.c:328-341 | handing a child to the first process keeps it; a zombie child is then about to be announced |
| `ExitWait.KeepsWakeInit` | kernel/proc.c:338 | each round of waking the first process keeps it |
| `ExitWait.KeepsWake` | kernel/proc.c:374 | each round of waking the parent keeps it |
| `ExitWait.KeepsExitMark` | kernel/proc.c:376-379 | becoming a zombie keeps it: the parent has been woken and cannot sleep while wait_lock is held |
| `ExitWait.KeepsExitRelease` | kernel/proc.c:381 | giving up wait_lock keeps it |
| `ExitWait.KeepsScan` | kernel/proc.c:402-430 | each round of the scan in wait keeps it: reaping frees the slot, skipping finds no zombie |
| `ExitWait.KeepsReap` | kernel/proc.c:409-422 | reaping a zombie child frees its slot and records its status |
| `ExitWait.KeepsSleepLock` | kernel/proc.c:547 | committing to sleep keeps it, because the scan has found no zombie child and nobody else can be in exit |
| `ExitWait.KeepsSleepRelease` | kernel/proc.c:548 | releasing wait_lock inside sleep keeps it |
| `ExitWait.KeepsSleepMark` | kernel/proc.c:551-552 | marking the process asleep keeps it |
| `ExitWait.KeepsFork` | kernel/proc.c:109-150 | taking a slot in fork keeps it |
| `ExitWait.KeepsForkFail` | kernel/proc.c:291-295 | giving the slot up again keeps it |
| `ExitWait.KeepsForkParent` | kernel/proc.c:317-319 | entering the parent under wait_lock keeps it |
| `ExitWait.KeepsForkRun` | kernel/proc.c:321-323 | letting the child run keeps it |
| `ExitWait.StepKeeps` | kernel/proc.c:277-580 | every step of every process keeps it |
| `ExitWait.RunInv` | kernel/proc.c:277-580 | it holds in every state of every interleaving from boot |
| `ExitWait.NoLostWakeup` | kernel/proc.c:347-435 | in every interleaving, when wait_lock is free, nobody sleeps in wait who has a zombie child |
| `ExitWait.ParentsAlive` | kernel/proc.c:328-386 | in every state of every interleaving the parent of a process is neither a zombie nor gone |
| `ExitWait.ReapedOnce` | kernel/proc.c:388-435 | a step that delivers a status delivers that of one process, for which none was delivered before, and it is the one it gave to exit |
| `ExitWait.NoChildren` | kernel/proc.c:402-430 | wait gives up for want of children only if there are none |
| `SleepLock.StepKeeps` | kernel/sleeplock.c:21-41 | every step of acquiresleep and releasesleep keeps the invariant: whoever is committed to sleep finds the lock taken or will be woken |
| `SleepLock.NobodySleeps` | kernel/sleeplock.c:21-41 | in every interleaving, when the spinlock is free and the lock is not taken, nobody sleeps on it |
| `SleepLock.OneOwner` | kernel/sleeplock.c:21-41 | at most one thread has the lock |
| `Monitor.StepKeeps` | kernel/proc.c:536-580 | for any shared data and any use of sleep and wakeup in which whoever unblocks a sleeper wakes its channel before releasing the lock, every step keeps the invariant: whoever is committed to sleep is blocked or will be woken |
| `Monitor.SleepersBlocked` | kernel/proc.c:536-580 | in every interleaving of such a use, when the lock is free whoever sleeps is blocked: no wakeup is lost |
| `Waiters.StepsAreActs` | kernel/log.c:125-175 | the steps by which the log reserves its space are the critical sections of this use, each with the wakeup of the source |
| `Waiters.NobodyWaits` | kernel/log.c:125-175 | in every interleaving, when log.lock is free nobody sleeps in begin_op while no commit runs and the log has room for one more call |
| `Waiters.SleepersMustWait` | kernel/virtio_disk.c:168-182 | in every interleaving, when vdisk_lock is free nobody sleeps for descriptors while three are free, and nobody on a buffer whose request is done |
| `Pipe.Pipe.constructor` | kernel/pipe.c:33-36 | a new pipe is empty and open at both ends |
| `Pipe.Pipe.PutByte` | kernel/pipe.c:95 | a byte goes behind those put in before, into a slot that holds none still to be read |
| `Pipe.Pipe.WriteSome` | kernel/pipe.c:83-98 | up to the next sleep or the end, bytes go into the ring in order until the source ends or cannot be read, the ring holds PIPESIZE bytes, or the writer gives up, exactly if there is no reader or it has been killed; no unread byte is overwritten, also across the wrap of the 32-bit counters |
| `Pipe.Pipe.ReadSome` | kernel/pipe.c:120-126 | what is taken out is the oldest of what was put in, in order; a byte that cannot be delivered is lost, and no more |
| `Pipe.WrapEqual` | kernel/pipe.c:88-121 | the tests for a full and an empty ring are right although the counters wrap |
| `PipeWakeup.StepKeeps` | kernel/pipe.c:58-130 | every step of piperead, pipewrite and pipeclose keeps the invariant: whoever is committed to sleep has reason to or will be woken |
| `PipeWakeup.SleepersHaveReason` | kernel/pipe.c:58-130 | in every interleaving in which no writer is killed after putting bytes in, when the lock is free no reader sleeps on a pipe that has bytes or no writer, and no writer on one that has room or no reader |
| `PipeWakeup.KilledWriter` | kernel/pipe.c:84-87 | after the return of a killed writer nobody is forgotten exactly if it had put nothing in since it last woke the readers, or no reader was asleep or on the way there |
| `PipeWakeup.ForgottenReader` | kernel/pipe.c:84-87 | a run from a new pipe in which a writer puts a byte in and is killed, and a reader stays asleep on a pipe that is not empty |
| `Virtqueue.NewChain` | kernel/virtio_disk.c:199-270 | three free descriptors become the chain of a new request; free descriptors and chains still share out all descriptors |
| `Virtqueue.OldChain` | kernel/virtio_disk.c:184-197 | freeing a chain gives back its three descriptors and no other |
| `Virtqueue.Enqueue` | kernel/virtio_disk.c:267-277 | a new entry of the avail ring overwrites none that the device has not read |
| `Virtqueue.Return` | kernel/virtio_disk.c:36-39 | the used ring has room for every request the device has taken |
| `Virtqueue.SeeNext` | kernel/virtio_disk.c:312-323 | an entry of the used ring names an outstanding request and its own buffer, with status success |
| `Virtqueue.SamePosition` | kernel/virtio_disk.c:312 | comparing 16-bit indices tells whether there is an entry to see, also after they wrap |
| `Virtio.Disk.constructor` | kernel/virtio_disk.c:62-153 | all descriptors are free and both rings empty |
| `Virtio.Disk.AllocDesc` | kernel/virtio_disk.c:155-166 | the first free descriptor, or -1 exactly if there is none |
| `Virtio.Disk.FreeDesc` | kernel/virtio_disk.c:168-182 | a descriptor in use is cleared and free; the two panics are its preconditions, met by every caller |
| `Virtio.Disk.Alloc3` | kernel/virtio_disk.c:199-213 | three distinct free descriptors, or none taken, exactly if fewer than three are free |
| `Virtio.Disk.Submit` | kernel/virtio_disk.c:215-281 | a request with a chain of its own is in the avail ring; nothing changes only if fewer than three descriptors are free; all invariants of the queue are kept |
| `Virtio.Disk.Post` | kernel/virtio_disk.c:233-281 | formatting the chain and entering it in the avail ring keeps the partition of descriptors and both rings in order, with one more request outstanding |
| `Virtio.Disk.Format` | kernel/virtio_disk.c:247-265 | header, data and status descriptors are linked as the device expects them |
| `Virtio.Disk.PutAvail` | kernel/virtio_disk.c:261-277 | the head goes into the next slot of the avail ring, which the device has read |
| `Virtio.Disk.DeviceTakes` | kernel/virtio_disk.c:30-34 | the device takes the oldest entry of the avail ring |
| `Virtio.Disk.DeviceReturns` | kernel/virtio_disk.c:36-39 | the device returns a request it has taken, in any order, once |
| `Virtio.Disk.SeeOne` | kernel/virtio_disk.c:312-323 | one entry of the used ring is seen and its buffer released; the status panic is not reached |
| `Virtio.Disk.Interrupt` | kernel/virtio_disk.c:294-327 | every returned request is done, no other is touched |
| `Virtio.Disk.FreeChain` | kernel/virtio_disk.c:184-197 | exactly the three descriptors of the chain are freed |
| `Virtio.Disk.Finish` | kernel/virtio_disk.c:288-289 | a request that is done gives its descriptors back; the panics of free_desc are not reached |
| `Shell.ParseLine` | user/sh.c:345-360 | defined for every line: the mutual recursion of the parser ends, and leaves no more to read than it was given |
| `ShellTrip.RoundTrip` | user/sh.c:266-447 | writing out any command tree with legal words, at most MAXARGS - 1 per command, with parentheses around its parts, and parsing it gives the same tree |
| `ShellTrip.Line` | user/sh.c:345-447 | the same in front of whatever may follow a command, with everything after it left unread |
| `ShellTrip.Args` | user/sh.c:430-446 | the loop of parseexec finds exactly the words |
| `ShellTrip.OneRedir` | user/sh.c:375-398 | a redirection is read back with its file and mode |
| `ShellNul.GoodLine` | user/sh.c:266-447 | every word and file name of a parsed command is a run of word characters of the line that ends where the run ends |
| `ShellNul.NulTerminate` | user/sh.c:449-494 | the buffer gets a NUL at the end of every token of the command and is otherwise unchanged |
| `ShellNul.TokensRead` | user/sh.c:328-343 | after parsecmd every word and every file name reads as exactly its token |
| `Grep.MatchHere` | user/grep.c:83-95 | true exactly if some prefix of the text, the whole of it under a final '$', is in the language of the pattern; the mutual recursion ends |
| `Grep.MatchStar` | user/grep.c:97-105 | true exactly if some number of fitting characters is followed by a match of the rest |
| `Grep.Match` | user/grep.c:71-81 | true exactly if the text has a substring in the language of the pattern, at the start under '^' and at the end under '$' |
| `Grep.HereStar` | user/grep.c:97-105 | what a starred character followed by a pattern matches, in terms of the language |

## Left out

- Shell.ParseLine: states that the parser ends and gets no further than the end of the line; what it returns is stated by ShellTrip.RoundTrip and ShellNul.TokensRead.
- FileSystem.FileSystem.WriteI: bounds the blocks logged by MAXOPBLOCKS; that the bound is met by some state of the disk, which needs four bitmap blocks with one free block each, is not shown.
- FileSystem.FileSystem.IPut: takes the reference count and the valid flag as arguments; the table of in-memory inodes (iget, ilock, idup) is not modelled.
- FileSystem.FileSystem.ReadI: copies to and from the caller fail at a given byte, and a block is copied whole or not at all; a copy that stops inside a block is not modelled. The same holds of WriteI and FileWrite.
- FileSystem.FileSystem.BAlloc: works on the logical disk and counts what it logs; the buffers behind each access are modelled in Log only.
- BufferCache.Cache.BGet: a wait for a locked buffer leaves the cache as it is, without the reference that the waiting process already counts; running out of buffers is a result, after which no more is claimed than the writes issued so far.
- BufferCache.Cache.BUnpin: asks that the caller holds the buffer and that it has the pin besides, as at the one call of bunpin; elsewhere the list would no longer be in order of release.
- Log.Log.LogWrite: asks that the call keeps to MAXOPBLOCKS distinct blocks, the promise on which the reservation rests; FileSystem.FileSystem.WriteI proves it of file writes.
- Log.Log.Others: other processes read and release between two rounds of a commit, not within a round; blocks of the log area are read by commit and recovery only.
- Log.Log.ReadHeader: asks for a count within LOGSIZE, and RecoverFromLog for entries outside the log area, which Crash.CommitIsAtomic and Crash.RecoveryCut show to hold after every crash.
- Waiters.NobodyWaits: that a waiting call is admitted some day depends on the scheduler and is not shown.
- Vm.Machine.Unmap: the panics of vm.c and kalloc.c are preconditions here, shown to hold for every caller in the model; pages of the address space's own are removed with do_free and others without, as every caller does. The same holds of UnmapPage.
- Vm.Machine.Walk: a page is seen as 512 entries or as 4096 bytes; the byte order of page-table entries is not modelled.
- Vm.Machine.UvmAlloc: the number of free pages that suffices counts two tables for every page and is not the smallest. The same holds of UvmCopy, GrowProc and Fork.
- Vm.Machine.constructor: the kernel's own page table, kernel stacks, uvmfirst, uvmclear and the limit on the number of processes are not modelled.
- Heap.Heap.Malloc: for requests whose size in bytes is below 2^31; the answer of sbrk is an argument, at or above the memory obtained before.
- ExitWait.ReapedOnce: process numbers are not reused, closing files in exit and the copy of the status to user memory are single outcomes.
- PipeWakeup.SleepersHaveReason: an end of a pipe is closed when nobody uses it any more, as the reference counts of file.c provide.
- Virtio.Disk.DeviceReturns: the device returns each request once, with status success; memory barriers are not modelled.
- Virtio.Disk.Submit: asks that the buffer has no request under way, which its lock provides; waiting for descriptors is modelled in Waiters. The same holds of Post and PutAvail.
- Mkfs.Image.Make: names come padded to 14 bytes; the bytes of the superblock and the reading of host files are not modelled; running out of blocks or inodes is a result.
- Directories and path names (dirlookup, dirlink, namex) and the system calls over them.
- exec, the scheduler's choice and its fairness, kill beyond the flag, context switching.
- Traps, interrupts, the console, UART and PLIC drivers, printf, start-up code and assembly.
- Spinlock internals, memory ordering and TLB flushes.
- The shell's execution of commands, grep's line buffer, and the small user programs.
