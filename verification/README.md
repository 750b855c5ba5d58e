# A Dafny model of xv6

xv6 is a small Unix-like kernel for the x86, with user programs; this repository adds a few
system calls. The project models the parts whose correctness is not visible in one function:
what has to hold across every operation, every interleaving, or every point at which power may
fail. Each file is one component. Methods keep the source's loops and updates, and are proved
against specification functions and predicates, about which the lemmas speak.

**Storage.** `Bio` is the buffer cache with its least-recently-used ring. `Log` is the redo log
over it, `LogSpec` the argument that no crash splits a transaction, and `LogOps` what an operation
does with its reservation: with at most eight different blocks it meets no panic. `FsLayout`,
`FsSpec`, `FsState` and `Fs` are the bitmap, the inodes and the files, over one array of blocks,
which is what the cache and the log present; a write panics exactly when the blocks it lacks are
more than the free ones. `FileWrite` cuts writes into transactions. `CrashSafe` puts the file
system on top of the log, up to whole chunks of a write that go through the cache and the log to
the disk: after a crash at any write, and any number of interrupted recoveries, all file-system
invariants hold and every file has its contents from before or from after the operation. `Mkfs`
and `MkfsMain` build the first image, and `Boot` starts from it: the log is recovered and the file
system mounted, and a file that is opened by its name reads as the bytes that were given. `Links`
and `Directory` are directories and link counts, and `Namespace` what a user sees of them, as sets
of names.

**Memory.** `Umalloc` is the user-level allocator of section 8.7 of *The C Programming Language*
(2nd edition), `VmSpec` and `Vm` the page allocator and two-level page tables, and `Exec` the
argument stack of a new program.

**Concurrency.** `Proc` is the process table as a machine of atomic steps, one step a critical
section under `ptable.lock`, and `ProcRuns` has the laws of its runs: pids, parents, the diagram of
process states, kill, and that every process can always come to run. `SleepLock` interleaves
`acquiresleep` and `releasesleep` with `sleep` and `wakeup`, and shows that every process can always
still get the lock. `Pipe` has one method a critical section under the pipe's lock.

**Languages.** `Shell` and `ShellParser` are the shell's parser. `ShellGrammar` is a grammar over
tokens with its meaning, which the parser agrees with on every line; `ShellPrint` and `ShellAppend`
have further laws. `Grep` is the pattern matcher, `Prime` the system call that finds the next prime
number. `Types`, `Options` and `Blocks` are what several components share.

A panic halts the machine, so it is an outcome after which nothing is claimed, unless a contract
says that it cannot happen. `dafny verify dfyconfig.toml` checks the whole project.

## Where code and documentation differ

The model follows the code in each case.

- `proc.c:610` points to a wakeup in exit, but exit wakes the parent alone. Which processes in
  `waitForProcess` are left asleep is `Proc.ExitWakesParentOnly`; `Proc.StrandedNonParent` reaches
  one in a run from boot.
- `proc.c:582-605` takes any slot with the pid for a process, also an unused one. It sleeps with
  nothing to wait for exactly when all slots with the pid are unused (`Proc.SleepsForTarget`). That
  happens with pid 0 (`Proc.SleepsForZero`) and with a pid that a failed fork left behind
  (`Proc.SleepsForStale`); while no fork has failed, with pid 0 alone (`Proc.TargetIsThere`).
- `proc.c:486-493` takes any slot with the pid for the process to kill. kill(0) finds a slot that
  is not in use, and the next child in it is born killed (`ProcRuns.KilledBeforeBirth`). The flag is
  set by kill and cleared by reaping alone (`ProcRuns.FlagStep`), so no child is while every kill
  finds a process (`ProcRuns.BornClean`).
- `log.c:218` refuses a block when the header has one place less than LOGSIZE, and before it looks
  whether the block is listed already. A reservation keeps to LOGSIZE (`Log.ReservationFits`), but
  three full ones meet that test (`LogOps.LogOverflows`). Operations of at most eight different
  blocks never do (`LogOps.ShareLeft`, `LogOps.RunWrites`); a chunk of filewrite logs seven.
- `param.h:11-12` has no more buffers than log places, but a commit needs one buffer beside those
  that hold logged blocks. It halts exactly when bread finds none (`Log.Log.Commit`); in an idle
  cache that is when all buffers are logged (`Log.Log.IdleHasRoom`), which the test above prevents
  for the log of 30 blocks that mkfs lays out. With one buffer in the hands of a reader, 29 logged
  blocks are enough (`LogOps.CommitHalts`).
- `sh.c:391` reads `>>` as a redirection of its own, with the same mode as `>`: with a blank in the
  place of the second character every line parses to the same tree (`ShellAppend.AppendIsWrite`).
- `mkfs.c:158-163` adds a block to a root directory that is block-aligned already. That leaves a
  hole exactly then (`Mkfs.RoundingHole`), for instance with 32 entries (`Mkfs.FullRoot`).
- `umalloc.c:63-90` returns too small a block for a request near 2^32, whose size in units wraps:
  it is big enough exactly up to 2^31 - 16 bytes (`Umalloc.Allocator.Malloc`). For 2^32 - 1 bytes
  the first call returns a block without room (`Umalloc.WrappedRequest`).
- `sysfile.c:241-283` keeps link counts right exactly when the parent directory is still linked
  (`Links.CreatedTalliedIff`, `Links.LinkTalliedIff`). A run of mkdir and unlink leads to a
  directory that is not (`Directory.OrphanExample`).
- `pipe.c:86-89` lets a writer that is killed, or that nobody reads from, leave without waking the
  readers; they are left asleep over bytes exactly when it had more than a pipe of them
  (`Pipe.Pipe.Write`, `Pipe.LostWakeup`).
- `vm.c:349-386` does not look whether there is a page table before it reads an entry of it.
  When that happens is stated of copyout (`Exec.Memory.Copyout`) and of the arguments of exec
  (`Exec.Memory.PushArgs`); an argument of 64 megabytes is such a case (`Exec.LongArgument`).

## Model

| member | source | states |
|---|---|---|
| `Blocks.WordOfPutWord` | log.c:100-112 | a 32-bit word stored in a block reads back, and no other word of the block changes |
| `Bio.UnlinkKeepsRing` | bio.c:132-133 | taking a buffer out of the doubly linked list leaves a circle of all the others |
| `Bio.PushFrontKeepsRing` | bio.c:134-137 | putting it behind the head makes a circle of all buffers again, with it in front |
| `Bio.IndexedIsUnique` | bio.c:61-93 | no two buffers have the same identity, other than the initial (0, 0) |
| `Bio.RecycleKeepsCoherence` | bio.c:78-91 | giving a free clean buffer a new identity loses no contents and makes no second buffer of a block |
| `Bio.Bcache.constructor` | bio.c:38-56 | the list is a circle of all NBUF buffers and the cache shows what is on disk |
| `Bio.Bcache.FindCached` | bio.c:68-76 | finds the buffer of a block, walking from the front, exactly when there is one |
| `Bio.Bcache.FindVictim` | bio.c:78-92 | finds the buffer furthest back that is neither referenced nor dirty, exactly when there is one |
| `Bio.Bcache.Bget` | bio.c:61-93 | returns the cached buffer, or recycles the least recently used free clean one; panics exactly when there is neither; a dirty buffer is never recycled |
| `Bio.Bcache.Iderw` | memide.c:39-60 | a dirty buffer goes to disk as one write; otherwise the block is read; panics exactly on a wrong device or block |
| `Bio.WriteKeepsCoherence` | memide.c:54-56 | writing a pinned buffer out leaves it and the disk equal, and the cache coherent |
| `Bio.ReadKeepsCoherence` | memide.c:57-59 | a block that no valid buffer holds is current on disk, so reading it gives its contents |
| `Bio.Bcache.Bread` | bio.c:95-106 | the locked buffer holds the latest contents of the block, whatever was evicted since, and is dirty exactly when the block is pinned; panics exactly without a buffer or for a wrong device or block |
| `Bio.Bcache.Modify` | fs.c:43-51 | a change to a locked buffer becomes the latest contents of its block and of no other |
| `Bio.Bcache.Pin` | log.c:231 | marking a buffer dirty pins its block in the cache |
| `Bio.Bcache.Bwrite` | bio.c:108-116 | writes the buffer to its block, records that one disk write, and unpins the block |
| `Bio.Bcache.Brelse` | bio.c:118-141 | drops the lock and a reference; a buffer without references moves to the front of the list |
| `Bio.Bcache.ToFront` | bio.c:132-137 | the list stays a circle of all buffers and the buffer is now first, the others in their old order |
| `LogSpec.HeaderRoundTrip` | log.c:84-112 | the header that write_head stores is the list that read_head reads |
| `LogSpec.InstallingStaysCommitted` | log.c:69-82 | cut off during installation, the disk still holds the whole transaction in its log |
| `LogSpec.InstallingCompletes` | log.c:69-82 | a completed installation leaves every home block as the transaction wants it |
| `LogSpec.FinishStep` | log.c:192-202 | the transaction stays logged until the header is cleared, and is wholly installed by then |
| `LogSpec.RecoveryStep` | log.c:115-122 | the same for every prefix of the writes of a recovery |
| `LogSpec.QuietRecoveryStep` | log.c:115-122 | recovery on an empty log changes no home block, wherever it is cut off |
| `LogSpec.RebootsOfQuiet` | log.c:115-122 | any number of interrupted recoveries keep an empty log's home blocks |
| `LogSpec.RebootsOfCommitted` | log.c:115-122 | any number of interrupted recoveries of a logged transaction, and a completed one, install it |
| `LogSpec.CutBeforeHeader` | log.c:177-198 | before the header is written no home block has changed and the log is empty |
| `LogSpec.AtHeader` | log.c:192-198 | the single write of the header commits all of the transaction |
| `LogSpec.CutCommit` | log.c:192-202 | the state of the disk after any number of the writes of commit |
| `LogSpec.CrashAtomicity` | log.c:69-122 | cut commit off after any write, and recovery any number of times at any write: the next completed recovery leaves every home block as before the transaction, or as after it exactly when the header was written |
| `LogSpec.PostIsOverwrite` | log.c:69-82 | after the transaction its blocks have its data and all other blocks their old contents |
| `Log.ReservedBound` | log.c:125-141 | operations in progress have at most MAXOPBLOCKS unused blocks each |
| `Log.ReservationFits` | log.c:125-141 | an operation that has not used up its blocks finds room for one more among LOGSIZE |
| `Log.Log.constructor` | log.c:54-66 | recovery runs through on the empty cache of a booting machine: the disk is the recovered one, and nothing is outstanding |
| `Log.Log.BeginOp` | log.c:125-141 | starts exactly when no commit is in progress and there is room for every operation; a sleeper always has an operation or a commit to wait for |
| `Log.Log.LogWrite` | log.c:213-233 | lists the block once and pins it, so a block is dirty at rest exactly when it is listed; nothing reaches the disk; panics exactly when the header is full, and then the list is as before |
| `Log.Log.EndOp` | log.c:145-163 | the last operation, and only the last, starts the commit; any other end wakes the sleepers |
| `Log.Log.FinishCommit` | log.c:164-174 | the commit ends with an empty log and wakes the sleepers |
| `Log.Log.WriteLog` | log.c:177-190 | writes the contents of the listed blocks to the log, in order, and nothing else; halts exactly when a log block finds no buffer |
| `Log.Log.WriteHead` | log.c:100-112 | one disk write, of the header with the list; halts exactly when the header finds no buffer |
| `Log.Log.InstallTrans` | log.c:69-82 | writes each logged block to its home, in order, and unpins it; cannot halt when the log blocks can be read |
| `Log.Log.ReadHead` | log.c:84-95 | reads back the list in the header on disk |
| `Log.Log.Recover` | log.c:115-122 | the writes of recovery are those of the specification, also when it stops early; it cannot stop while no buffer is in use |
| `Log.Log.Commit` | log.c:192-202 | the writes of commit are those of the specification, also when it stops early; it stops exactly when bread finds no buffer for the header or a log block; a completed commit leaves the cache and the disk with the same home blocks, and the buffers of other holders alone |
| `Log.Log.CommitWith` | log.c:192-202 | the same for a non-empty transaction: log blocks, header, home blocks, empty header |
| `Log.Log.CopyBlock` | log.c:73-80 | the loop body of write_log and install_trans: one block is copied over another and written; halts exactly when the first read finds no buffer, if the second block is pinned |
| `Log.ReuseOf` | log.c:69-82 | reading and releasing two blocks leaves a buffer to be had if there was one, whichever buffers were recycled |
| `Log.Log.IdleHasRoom` | param.h:11-12 | in an idle cache a commit has the buffers it needs exactly when fewer blocks are logged than there are buffers |
| `LogOps.ShareLeft` | log.c:125-141 | while an operation in progress has logged at most eight blocks, log_write does not panic, whatever the others have logged |
| `LogOps.UpdateBlock` | log.c:204-233 | bread, a change, log_write and brelse: the change is in the cache and listed, nothing is on disk; panics exactly when the header is full |
| `LogOps.RunWrites` | log.c:204-233 | all changes of an operation within its reservation: the cache holds the blocks after them; with at most eight different blocks it never panics |
| `LogOps.FullLog` | log.c:125-233 | from boot, three operations that have logged 29 of their 30 reserved blocks |
| `LogOps.LogOverflows` | log.c:213-219 | the 30th, still within the reservation of the third, meets the panic of log_write |
| `LogOps.Crowded` | bio.c:61-93 | with one block less logged than there are buffers, every buffer but a clean one holds a logged block |
| `LogOps.NoneLeft` | param.h:11-12 | 29 logged blocks and a buffer in the hands of a reader leave none for the log |
| `LogOps.CommitHalts` | log.c:177-202 | a run from boot in which the commit of 29 blocks halts for want of a buffer |
| `FsLayout.WithBitIs` | fs.c:66-68 | setting a bit of a byte sets that bit and no other |
| `FsLayout.WithoutBitIs` | fs.c:88-91 | clearing a bit of a byte clears that bit and no other |
| `FsLayout.MarkKeepsBits` | fs.c:56-95 | marking a block in its bitmap block changes the bit of that block alone |
| `FsLayout.ReadPutInode` | fs.c:220-236 | an inode copied into its block reads back, and the other inodes of the block are untouched |
| `FsLayout.UpdateInodes` | fs.c:220-236 | after iupdate every inode on disk is the one in memory |
| `FsSpec.TakeKeepsOwn` | fs.c:372-400 | giving a free block to an empty slot keeps one owner for each set bit |
| `FsSpec.DropKeepsOwn` | fs.c:407-435 | what a slot refers to is never free already, and freeing it keeps one owner for each set bit |
| `FsSpec.OwnersDiffer` | fs.c:372-400 | no two inode slots or indirect entries refer to the same block |
| `FsSpec.EntryKeepsTie` | fs.c:389-394 | storing an indirect entry changes that entry of that inode alone |
| `FsSpec.FreeCountTake` | fs.c:56-78 | taking a free block leaves one free block less |
| `FsSpec.FreeCountZero` | fs.c:56-78 | no block is free exactly when the count of free blocks is zero |
| `FsSpec.LacksRest` | fs.c:372-400 | what a range of blocks of a file lacks is what its first block lacks and what the rest then lacks, the indirect block counted once |
| `FsState.TakenIs` | fs.c:56-78 | the block that is marked and zeroed was nobody's, and is no metadata block |
| `FsState.GiveAddrKeepsGood` | fs.c:378-388 | all invariants hold after a fresh block is put into an inode, and everything that was there is still there |
| `FsState.GiveEntryKeepsGood` | fs.c:389-396 | the same for an entry of the indirect block |
| `FsState.WriteBytes` | fs.c:498-504 | writing a block of a file changes the bytes of that block of that file, and of no other file |
| `FsState.ProgressWrite` | fs.c:498-504 | one turn of writei's loop, across direct and indirect blocks, extends the part of the file that is overwritten |
| `FsState.UpdateKeepsGood` | fs.c:220-236 | writing an inode back disturbs no bitmap bit, no reference and no file |
| `FsState.FreedKeepsShrinking` | fs.c:414-431 | freeing a block that the inode still names keeps all other inodes' invariants |
| `FsState.DroppedAll` | fs.c:407-435 | once every slot is freed, the emptied inode satisfies the invariants, and exactly its blocks are free |
| `Fs.Fs.constructor` | fs.c:171-186 | a disk that satisfies the invariants is a file system, with no inode cached |
| `Fs.Fs.Balloc` | fs.c:56-78 | the first free block, marked and zeroed, with nothing else changed; panics exactly when no block is free |
| `Fs.Fs.Bfree` | fs.c:81-95 | clears the bit of the block; panics exactly when it is clear already |
| `Fs.Fs.MapAddr` | fs.c:378-388 | a block of the inode, allocated only if there was none; panics exactly when it is needed and no block is free, and then changes nothing |
| `Fs.Fs.MapEntry` | fs.c:389-396 | an entry of the indirect block, allocated only if there was none; panics exactly when it is needed and no block is free |
| `Fs.Fs.Bmap` | fs.c:372-400 | the n-th block of the file; nothing changes if it was there; else it is fresh and all existing data stay; panics exactly past the largest file or when the blocks it lacks, with the indirect one, are more than the free ones, and takes exactly those |
| `Fs.Fs.Iupdate` | fs.c:220-236 | the inodes on disk are the inodes in memory, and no file changes |
| `Fs.Fs.Ilock` | fs.c:288-313 | the inode in memory is the one on disk; panics exactly on a free inode |
| `Fs.Fs.Ialloc` | fs.c:194-213 | the first free inode, cleared and typed, with all invariants kept; panics exactly when none is free |
| `Fs.Fs.Readi` | fs.c:452-476 | the slice of the file's byte sequence, with both error cases; nothing is allocated or changed |
| `Fs.Fs.Writei` | fs.c:481-511 | the file's byte sequence is overwritten, other files are unchanged, and the inode on disk is the one in memory although iupdate runs only on growth; all error cases; panics exactly when the blocks that the range lacks are more than the free ones, and takes exactly those |
| `Fs.Fs.WriteBlock` | fs.c:498-504 | one turn of the loop, with the blocks that it logs and takes; panics exactly when they are more than the free ones |
| `Fs.BlockLacks` | fs.c:498-504 | a turn of the loop asks for the one block that it enters anew |
| `Fs.Fs.Grown` | fs.c:506-510 | the end of writei makes the inode on disk and in memory equal again |
| `Fs.ResultOf` | fs.c:481-511 | the bytes written, seen as an overwrite of one sequence |
| `Fs.Fs.Drop` | fs.c:414-431 | one slot of itrunc; its bfree does not panic |
| `Fs.Fs.DropDirect` | fs.c:414-419 | the direct blocks are free and the addresses zero |
| `Fs.Fs.DropIndirect` | fs.c:421-431 | the entries of the indirect block and that block are free |
| `Fs.Fs.DropAll` | fs.c:414-431 | both loops: every slot of the inode is free, and its addresses are zero |
| `Fs.Fs.Itrunc` | fs.c:407-435 | frees exactly the inode's blocks, never a free one, and keeps all invariants; the inode on disk is empty too |
| `Fs.Fs.Iput` | fs.c:331-352 | frees the inode and its blocks exactly when it has no links and this is the last reference |
| `FileWrite.OverwriteTwice` | file.c:135-152 | two writes one after the other are one write of both parts |
| `FileWrite.ChunkLogsFew` | file.c:127-133 | a chunk logs at most 7 distinct blocks when the bitmap is one block |
| `FileWrite.FitsAll` | file.c:134-153 | all chunks fit exactly when the end of the write is within the largest file |
| `FileWrite.RoomRest` | file.c:134-153 | there are blocks for a write exactly when there are for its first part and then for the rest |
| `FileWrite.LogsHome` | file.c:127-133 | a chunk logs blocks of the bitmap, of the inodes and of data alone, none of the log |
| `FileWrite.OpenFile.WriteChunk` | file.c:136-145 | one transaction: the chunk is written and the offset advanced, or nothing is; all changed blocks are logged; fails exactly when it does not fit the largest file, and panics exactly when the blocks that the write lacks up to its end are more than those that were free |
| `FileWrite.OpenFile.Write` | file.c:117-154 | refused without the flag for writing; succeeds exactly when offset and end are in range; otherwise the chunks before the first that does not fit are written and the offset is advanced by them; panics exactly when the blocks that those chunks lack are more than the free ones |
| `CrashSafe.HomeIsGood` | fs.h:9-22 | the file-system invariants do not depend on the log's blocks |
| `CrashSafe.HomeFile` | fs.h:9-22 | nor do the contents of files |
| `CrashSafe.LoggedIsHeld` | log.c:204-233 | the blocks that an operation logs, with their new contents, are all that it changes |
| `CrashSafe.OperationIsAtomic` | log.c:192-202 | a file-system operation cut off at any write of its commit, and at any writes of any number of recoveries, leaves the file system of before or of after, with all invariants and all file contents |
| `CrashSafe.CutSurvives` | log.c:192-202 | every cut of the commit of an operation is recovered to the file system of before or of after |
| `CrashSafe.CommitOperation` | log.c:192-202 | the same for the writes that commit really makes through the cache: at each of them, and if it halts, recovery finds the file system of before or of after; a completed commit, which is one that finds its buffers, has put the new one on disk |
| `CrashSafe.EndOperation` | log.c:145-174 | the end of the only operation commits it and never halts with at most eight blocks; a crash anywhere leaves before or after |
| `CrashSafe.RunOperation` | log.c:125-233 | from begin_op to the end of the commit, for any changes of at most eight different blocks: never a panic, and a crash anywhere leaves the file system of before or of after |
| `CrashSafe.UpdateInode` | fs.c:220-236 | iupdate on the buffers of the cache, in a transaction of its own: the inode on disk is the one given, and a crash leaves the old file system or the new one |
| `CrashSafe.ListedIsAll` | log.c:204-233 | the logged blocks with their contents turn the old blocks into the new ones |
| `CrashSafe.WriteChunk` | file.c:136-145 | a chunk of filewrite through cache and log to the disk: log_write and commit never panic, the exact outcomes of the file system remain, the disk then holds the new file, and a crash at any write leaves the old file system or the new one |
| `Mkfs.FirstBitsAre` | mkfs.c:237-251 | the bitmap that mkfs writes has exactly the first blocks marked |
| `Mkfs.BitmapBlock` | mkfs.c:245-248 | the loop over bits builds that bitmap |
| `Mkfs.EmptyIsGood` | mkfs.c:108-115 | the zeroed image satisfies the invariants, up to the bitmap |
| `Mkfs.RoundingHole` | mkfs.c:158-163 | rounding the root's size leaves no hole exactly when it was not a whole number of blocks |
| `Mkfs.Image.constructor` | mkfs.c:93-115 | an empty file system with its super block, and the first free block after the metadata |
| `Mkfs.SuperReadsBack` | mkfs.c:97-115 | the super block that mkfs writes reads back as the geometry of the file system and the place of the log |
| `Mkfs.Image.Ialloc` | mkfs.c:223-235 | a new inode with one link and no blocks, and all others as before; fails exactly without a free inode number |
| `Mkfs.Image.Winode` | mkfs.c:183-195 | the inode on disk is the one given, and no file changes |
| `Mkfs.Image.GiveBlock` | mkfs.c:271-279 | a zeroed block below the counter of free blocks, with one owner; fails exactly when it is needed and there is none |
| `Mkfs.Image.GiveEntryBlock` | mkfs.c:280-285 | the same for an entry of the indirect block |
| `Mkfs.Image.Map` | mkfs.c:269-286 | the block for an offset, allocated only if there was none; fails exactly when the blocks it lacks are more than the free ones |
| `Mkfs.Image.AppendBlock` | mkfs.c:268-294 | one turn of iappend's loop, with the blocks that it takes |
| `Mkfs.Image.Append` | mkfs.c:255-297 | the file grows by exactly the given bytes, other files are unchanged, and all invariants hold; fails exactly when the file or the image would be too big |
| `Mkfs.TailMoves` | mkfs.c:288-293 | what is behind the end of a file in its last block stays zero |
| `Mkfs.Image.AppendFile` | mkfs.c:152-153 | a file copied in buffer by buffer is appended as a whole, under the same condition |
| `Mkfs.Image.Finish` | mkfs.c:158-165 | the finished image satisfies every file-system invariant, if the root's size was not block-aligned, and has a hole otherwise; its super block and its empty log are in place |
| `Mkfs.FullRoot` | mkfs.c:158-163 | a root directory of 32 entries, whatever they are, ends with a hole |
| `MkfsMain.AddEntry` | mkfs.c:120-128 | one entry more in the root directory |
| `MkfsMain.Root` | mkfs.c:117-128 | the root directory with its dots, the type of a directory and one link, all other inodes free; the image is big enough for it |
| `MkfsMain.AddFile` | mkfs.c:130-156 | one file more, under the next inode number, with the type of a file and one link; fails exactly when its inode, its entry or its contents do not fit |
| `MkfsMain.FinishedReads` | mkfs.c:158-163 | rounding the root up adds unused entries only, and no file changes |
| `MkfsMain.Build` | mkfs.c:74-168 | stops exactly when the inodes, the blocks or the size of a file do not suffice; else every file and every name reads back, the root is a directory, the files are files, each with one link, all other inodes are free, super block and empty log are in place, and the image satisfies every invariant if the root was not block-aligned |
| `Boot.FreshLog` | log.c:54-66 | the log of such an image is recovered without a change to any home block |
| `Boot.Start` | fs.c:171-186 | booting such an image recovers the log at the place the super block names and mounts the file system, which holds the files and is ready for operations that no crash splits |
| `Boot.FirstBoot` | mkfs.c:74-168 | from any files that fit, through mkfs and the first boot, to a mounted file system that reads as these files |
| `Boot.ReadAll` | fs.c:452-476 | ilock and readi of a file or directory give its whole contents |
| `Boot.FindsFile` | fs.c:524-549 | dirlookup in the root finds the first file with a name, under its inode number |
| `Boot.ReadFile` | fs.c:452-549 | a file looked up by its name in the root directory reads as the bytes given to mkfs |
| `Boot.BootAndRead` | mkfs.c:74-168 | mkfs with any files that fit, the first boot, a lookup by name and a read: the bytes that were given |
| `Links.Find` | fs.c:524-549 | the first entry in use with a name |
| `Links.FindFree` | fs.c:564-570 | the first unused entry, or the end |
| `Links.PutKeepsDistinct` | fs.c:551-578 | entering a name that is not there keeps the names in use distinct |
| `Links.CreatedNaming` | sysfile.c:260-280 | a new inode is named once, and a new directory also names its parent |
| `Links.CreatedKeepsInv` | sysfile.c:241-283 | create keeps counts, names and the tree in order when the parent is linked |
| `Links.CreatedTalliedIff` | sysfile.c:241-283 | after create the counts are right if and only if the parent was linked |
| `Links.LinkKeepsInv` | sysfile.c:118-156 | link keeps counts, names and the tree in order when the parent is linked |
| `Links.LinkTalliedIff` | sysfile.c:118-156 | after link the counts are right if and only if the parent was linked |
| `Links.EmptyDirNaming` | sysfile.c:167-181 | a directory without entries is named by one entry alone, so unlink removes it |
| `Links.CutKeepsInv` | sysfile.c:184-233 | unlink keeps counts, names and the tree in order |
| `Links.ReapKeepsInv` | fs.c:331-352 | freeing an inode without links changes no count, and nothing in the tree names it |
| `Directory.Inodes.DirLookup` | fs.c:524-549 | the loop finds the first entry in use with the name, or none |
| `Directory.Inodes.DirLink` | fs.c:551-578 | refuses exactly a name that is present; else uses the first unused entry or adds one; panics exactly when that would be past the largest file |
| `Directory.Inodes.IsDirEmpty` | sysfile.c:167-181 | true exactly when no entry past the dots is in use |
| `Directory.Inodes.Ialloc` | fs.c:194-213 | the first free inode, or none |
| `Directory.Inodes.Create` | sysfile.c:241-283 | returns an existing file only for a file, refuses any other existing name, else makes the inode with its dots and its entry; panics exactly when the name is new and no inode is free or the directory is full; the counts are then right exactly when the parent is linked |
| `Directory.Inodes.Furnish` | sysfile.c:262-275 | the new inode has one link, and a new directory its dots and one more link to the parent |
| `Directory.Inodes.Link` | sysfile.c:118-165 | succeeds exactly for a non-directory, a parent that is not full and a new name; panics exactly when only the room is missing; every failure leaves the count as it was; after a success the counts are right exactly when the parent is linked |
| `Directory.Inodes.Unlink` | sysfile.c:184-239 | refuses dots, missing names and non-empty directories, removes anything else, and never meets its panic |
| `Directory.Inodes.Cut` | sysfile.c:218-229 | the entry, the inode's count and a directory's parent change together |
| `Directory.Inodes.Iput` | fs.c:331-352 | frees an inode exactly when it has no links and this is the last reference: it is then free, without links or entries, and no other inode changes |
| `Directory.StepKeepsInv` | sysfile.c:118-283 | every operation with linked parents keeps the invariant |
| `Directory.RunsKeepInv` | sysfile.c:118-283 | so does every run of them |
| `Directory.RunsKeepCounts` | sysfile.c:118-283 | after any run of them each link count is the number of entries, and the names of a directory are distinct |
| `Directory.FreshIsGood` | mkfs.c:117-128 | the root directory that mkfs starts with satisfies the invariant |
| `Directory.OrphanExample` | sysfile.c:241-283 | a run that makes a directory and removes it; a file then created in it has a link count that no entry bears out |
| `Directory.DecodeEncode` | fs.h:53-56 | an entry written as 16 bytes reads back |
| `Directory.WriteEntry` | fs.c:572-575 | writing an entry at its offset in the directory's bytes changes that entry, or adds it at the end |
| `Namespace.ListingPut` | fs.c:551-578 | dirlink lists one more name, whichever entry it uses |
| `Namespace.ListingClear` | sysfile.c:218-220 | clearing an entry takes its name from the list, and no other |
| `Namespace.CreateLists` | sysfile.c:241-283 | create of a new name takes a free inode, gives it the kind and one link, and lists it; a new directory lists its dots; nothing else changes |
| `Namespace.LinkLists` | sysfile.c:118-156 | link lists one more name for the inode, with one link more, and nothing else changes |
| `Namespace.UnlinkLists` | sysfile.c:184-233 | unlink takes that name from the list and a link from its inode, and nothing else changes |
| `Namespace.ThereAndBack` | sysfile.c:184-283 | create, unlink and the last iput of a new name give back the inode, and all names, kinds and link counts |
| `Namespace.MakeAndRemove` | sysfile.c:184-283 | the same for the operations in a row, which fail only for want of an inode or of room in the directory |
| `Umalloc.Increasing` | umalloc.c:24-44 | the circular free list is in address order |
| `Umalloc.BlocksDisjoint` | umalloc.c:24-90 | no two blocks overlap |
| `Umalloc.ArenaPartition` | umalloc.c:24-90 | every unit that sbrk gave belongs to exactly one block, free or allocated |
| `Umalloc.Merge` | umalloc.c:33-42 | joining two adjacent blocks keeps the partition |
| `Umalloc.Split` | umalloc.c:78-82 | cutting a block in two keeps the partition |
| `Umalloc.Grow` | umalloc.c:46-61 | a new region joins the arena as one block |
| `Umalloc.FreeKeepsHeap` | umalloc.c:24-44 | free keeps the list circular, ordered, disjoint and fully coalesced, whichever neighbours it joins |
| `Umalloc.TakeWhole` | umalloc.c:76-77 | unlinking a block that fits exactly keeps the heap in order |
| `Umalloc.TakeTail` | umalloc.c:78-82 | so does cutting the tail off a larger one |
| `Umalloc.AddRegion` | umalloc.c:46-61 | so does a region from sbrk |
| `Umalloc.UnitsEnough` | umalloc.c:69 | the size in units covers the bytes asked for exactly up to 2^32 - 8 |
| `Umalloc.ProvidedEnough` | umalloc.c:52-58 | a region has the size that its header says exactly below 2^28 units |
| `Umalloc.WrappedRequest` | umalloc.c:69 | the first call of malloc, for 2^32 - 1 bytes, returns a block without room |
| `Umalloc.Allocator.constructor` | umalloc.c:21-22 | an empty heap |
| `Umalloc.Allocator.FindPlace` | umalloc.c:30-32 | the search stops, at the last free block below the one being freed or at the wrap of the list |
| `Umalloc.Allocator.Free` | umalloc.c:24-44 | the block is free, joined with its neighbours; other allocated blocks are untouched |
| `Umalloc.Allocator.Morecore` | umalloc.c:46-61 | null exactly when sbrk refuses, corrupt exactly when it grants a size that wraps; else the arena has grown by exactly the region granted, and a block of at least the wanted size is on the list |
| `Umalloc.Allocator.TakeExact` | umalloc.c:76-84 | the block becomes allocated, with its size |
| `Umalloc.Allocator.TakeLast` | umalloc.c:78-84 | the tail becomes allocated, with the size asked for |
| `Umalloc.Allocator.Take` | umalloc.c:75-85 | either of them, by the size of the block |
| `Umalloc.Allocator.Init` | umalloc.c:70-73 | the first call makes the one-element circular list |
| `Umalloc.Allocator.Malloc` | umalloc.c:63-90 | ends after at most one morecore, which is called exactly when no free block is big enough; null exactly when that is refused; the block is new, disjoint from all others, of the computed size, and big enough exactly up to 2^31 - 16 bytes; the arena grows by exactly what sbrk grants |
| `VmSpec.PopKeepsFree` | kalloc.c:82-95 | the list threaded through free pages loses its head and nothing else |
| `VmSpec.PushKeepsFree` | kalloc.c:59-77 | a page that is not free becomes the head of the list |
| `VmSpec.MapKeepsOwn` | vm.c:60-80 | a page of the kernel becomes a user page with one owner |
| `VmSpec.UnmapKeepsOwn` | vm.c:269-276 | an unmapped page is the kernel's again |
| `VmSpec.AddTableKeepsOwn` | vm.c:35-55 | a new table belongs to one directory entry and maps nothing |
| `VmSpec.HeldIsNoTable` | kalloc.c:59-77 | writing to a page in the kernel's hands changes no address space |
| `VmSpec.PageOwnedOnce` | vm.c:35-80 | a user page is mapped at one place in one address space, and is no table, no directory and not free |
| `Vm.Vm.constructor` | kalloc.c:31-44 | every page of the pool is free |
| `Vm.Vm.FreeRange` | kalloc.c:46-53 | every page of the range is on the free list |
| `Vm.Vm.Kalloc` | kalloc.c:82-95 | a page that was free, or 0 exactly when none is |
| `Vm.Vm.Kfree` | kalloc.c:59-77 | the page is on the free list, filled with junk |
| `Vm.Vm.Walk` | vm.c:35-55 | the table of an address, added if wanted; fails exactly when it is missing and not wanted or without memory, and then changes nothing |
| `Vm.Vm.MapUser` | vm.c:60-80 | one user page is mapped with its flags; panics exactly when it is mapped already, fails exactly when a table is missing and there is no memory, and then changes nothing |
| `Vm.Vm.MapKernel` | vm.c:60-80 | a range of the kernel half is mapped page by page; fails exactly when the missing tables are more than the free pages, and leaves only tables of the directory behind |
| `Vm.Vm.SetupKvm` | vm.c:118-136 | a new address space with the kernel's mappings and an empty user half, or, exactly with less than 65 free pages, 0 with every page as before |
| `Vm.MissingTables` | vm.c:105-115 | the tables that an entry of kmap adds to those before it |
| `Vm.KernelOnce` | vm.c:105-115 | the entries of kmap, one after the other, give the mappings of the memory layout |
| `Vm.Vm.Unmap` | vm.c:269-276 | the page goes to the free list and its entry is cleared |
| `Vm.Vm.Dealloc` | vm.c:255-279 | frees exactly the pages that a loop over every page of the range would, although it steps over absent tables |
| `Vm.Vm.Alloc` | vm.c:221-249 | new zeroed pages for the whole range, or, exactly when these and the missing tables are more than the free pages, the mappings of before and no page lost; panics exactly when a page is mapped already and the free pages last up to it; a failure before it leaves no page in the range |
| `Vm.Vm.AllocPage` | vm.c:233-247 | one page of them, with the exact conditions for no page, no table and a page that is mapped already |
| `Vm.Vm.GiveUp` | vm.c:241-246 | with a page in hand, a failing allocuvm cuts the range and frees that page |
| `Vm.NeedNext` | vm.c:233-247 | what one page more takes, given the tables of the pages before |
| `Vm.Vm.FreeVm` | vm.c:283-298 | every page of the address space goes back to the free list once, and nothing else changes |
| `Vm.Vm.FreeTables` | vm.c:291-297 | the tables and the directory |
| `Vm.Vm.CopyUvm` | vm.c:315-345 | every page below sz has an own copy with equal bytes and flags, the kernel half is mapped, and the parent is untouched; or, exactly when that takes more than the free pages, every page is as before; panics exactly when a page of the parent is missing and the free pages last up to it |
| `Vm.Vm.CopyPage` | vm.c:324-338 | one page of the copy; panics exactly when the parent has none, and fails exactly when it and a missing table are more than the free pages |
| `Vm.Undone` | vm.c:235-246 | cutting off what was added empties the range, and restores the mappings if it was empty |
| `Vm.FreedIsSame` | vm.c:341-344 | freeing a half-built address space gives back exactly what it took |
| `Exec.Memory.Copyout` | vm.c:365-386 | succeeds exactly when every page of the range is the user's, and then the range holds the bytes; no byte outside of it changes; follows a null pointer exactly when the first missing page has no table either |
| `Exec.InStack` | exec.c:63-76 | a range that ends in the stack page can be written exactly when it starts there, also when the stack pointer wraps |
| `Exec.WhenNoTable` | exec.c:75-76 | the first missing page of such a range has no table exactly when the range wraps to such a place |
| `Exec.Memory.PushOne` | exec.c:72-79 | one argument with its NUL, under the ones before, which stay; with the exact conditions for no room and for no page table |
| `Exec.Memory.PushVector` | exec.c:80-88 | the words that main finds at its stack pointer; never without a page table |
| `Exec.Memory.PushArgs` | exec.c:63-88 | succeeds exactly for at most 32 arguments that fit the page with their vector; then the stack decodes to the fake PC, argc, argv and the same strings, all in the page above the guard page; follows a null pointer exactly when the first argument not to fit wraps the stack pointer to a place without a table |
| `Exec.ArgReadsBack` | exec.c:71-79 | an argument reads back as the C string that was given |
| `Exec.LongArgument` | exec.c:72-79 | an argument of 64 megabytes that does so |
| `Proc.WakeupLoop` | proc.c:459-467 | the loop over the table makes exactly the sleepers on the channel runnable |
| `Proc.PassChildren` | proc.c:257-264 | exit's loop, which wakes init at each zombie it passes, gives all children to init and wakes it once if one of them is a zombie |
| `Proc.ExitLoop` | proc.c:252-267 | exit with its loops does to the table what the step of the machine does: the parent woken, the children passed on, the process a zombie |
| `Proc.ScanChildren` | proc.c:283-303 | the first zombie child, or whether there are children at all |
| `Proc.ScanPid` | proc.c:580-600 | the same for waitForProcess |
| `Proc.WaitTurn` | proc.c:282-313 | of the steps of wait, exactly the one that the scan chooses is possible |
| `Proc.WaitForTurn` | proc.c:579-612 | the same for waitForProcess |
| `Proc.CalmStrandsNobody` | proc.c:229-314 | a change that gives no waiter a zombie child and takes no child from it strands nobody |
| `Proc.SwitchKeepsInv` | proc.c:324-384 | moving a process on or off a CPU keeps the invariant |
| `Proc.ForkStartKeepsInv` | proc.c:73-118 | taking a slot for a child keeps the invariant |
| `Proc.EmbryoKeepsInv` | proc.c:96-100 | so does giving the child its stack or its page table |
| `Proc.ForkStepKeepsInv` | proc.c:96-223 | and finishing or undoing a fork at any of its points |
| `Proc.ExitKeepsInv` | proc.c:229-270 | exit keeps it: its parent and init learn of every new zombie |
| `Proc.ReapStepKeepsInv` | proc.c:289-302 | reaping keeps it, and the slot was on no CPU and had its stack and page table |
| `Proc.StepKeepsInv` | proc.c:73-499 | every step of every process and CPU keeps the invariant |
| `Proc.RunKeepsInv` | proc.c:73-499 | so does every run from boot |
| `Proc.ReachableIsGood` | proc.c:73-499 | every reachable state satisfies it |
| `Proc.WaitersNotStranded` | proc.c:274-314 | a process asleep in wait has a child and no zombie child; a parent asleep in waitForProcess has a target that is no zombie |
| `Proc.RunningOnOneCpu` | proc.c:324-384 | each RUNNING slot is current on exactly one CPU |
| `Proc.StackGoesOnce` | proc.c:195-302 | a kernel stack goes only when a zombie is reaped or when the fork that is filling an EMBRYO is undone, and no CPU is on it then |
| `Proc.PageTableGoesOnce` | proc.c:289-302 | a page table goes only when a zombie is reaped, with its stack, and no CPU is on it then |
| `Proc.ResourcesGo` | proc.c:73-499 | what each step does to the stack and the page table of a slot |
| `Proc.ExitWakesParentOnly` | proc.c:252-268 | when the target exits, a waiter stays asleep if and only if it is not the parent, nor init with a zombie to inherit |
| `Proc.StrandedNonParent` | proc.c:571-613 | a run from boot to a process that waits for a process not its child and is left asleep over a zombie |
| `Proc.SleepsForTarget` | proc.c:571-613 | waitForProcess goes to sleep without a process to wait for if and only if slots have the pid and all of them are unused |
| `Proc.RunClearsPids` | proc.c:73-302 | after any run in which no fork failed, unused slots have pid 0 |
| `Proc.TargetIsThere` | proc.c:571-613 | so a process in waitForProcess of any other pid sleeps for a process that is there |
| `Proc.SleepsForZero` | proc.c:571-613 | init may go to sleep for pid 0 right after boot, with no such process |
| `Proc.ForkFails` | proc.c:96-100 | a run from boot in which a fork fails and leaves its pid in an unused slot |
| `Proc.SleepsForStale` | proc.c:571-613 | that pid can be waited for, with no process to end the sleep |
| `ProcRuns.WaitersNotKilled` | proc.c:274-314 | in every reachable state a process asleep in wait or waitForProcess is not killed |
| `ProcRuns.KillWakes` | proc.c:478-499 | the slot that kill finds is killed and not asleep, and no other has changed |
| `ProcRuns.KillLoop` | proc.c:485-498 | the loop finds the first slot with the pid, or none, and does what the step does |
| `ProcRuns.RunKeepsPids` | proc.c:73-302 | after every run the pids of slots in use are different and were given out, and every process but init has a parent |
| `ProcRuns.PidIsUnique` | proc.c:73-94 | no two slots in use have the same pid |
| `ProcRuns.ZombieHasParent` | proc.c:229-314 | every zombie has a live parent, which is not asleep in wait |
| `ProcRuns.StateDiagram` | proc.c:73-499 | the state of a slot changes only as the diagram of process states has it, by the step and the process that it names |
| `ProcRuns.GoesToSleep` | proc.c:418-453 | sleep puts its process to sleep on its channel |
| `ProcRuns.SleepsUntil` | proc.c:418-499 | it sleeps on that channel until a wakeup of it, or a kill, and then no longer |
| `ProcRuns.RunUnchains` | proc.c:418-453 | a running process is on no channel |
| `ProcRuns.FlagStep` | proc.c:478-499 | kill alone sets the killed flag of a slot, and reaping alone clears it |
| `ProcRuns.BornClean` | proc.c:73-223 | while every kill finds a process, no child is killed before its birth |
| `ProcRuns.KilledBeforeBirth` | proc.c:478-499 | a run from boot in which kill(0) leaves the first child of init killed |
| `ProcRuns.Goes` | proc.c:274-314 | whoever was switched to has a step that gives up ptable.lock or the CPU |
| `ProcRuns.CanRun` | proc.c:324-384 | from every reachable state a runnable process can come to run |
| `ProcRuns.CanUnlock` | proc.c:274-384 | ptable.lock can always be given up, and no sleeper is disturbed by that |
| `ProcRuns.CanWake` | proc.c:418-499 | every sleeper can be made runnable: by a wakeup of its event, or by kill if it waits for a child |
| `ProcRuns.EveryoneCanRun` | proc.c:324-499 | from every reachable state every live process can come to run |
| `ProcRuns.ForkMakesChild` | proc.c:180-223 | fork can always be completed: a runnable child with the next pid, the process for a parent, a stack and a page table, and nothing else changed |
| `ProcRuns.ExitEnds` | proc.c:229-270 | exit can always be taken: a zombie with its pid and its parent, who is not asleep in wait, and its children are those of init |
| `SleepLock.AcquiringKeepsInv` | sleeplock.c:22-32 | the steps that take the lock keep the invariant |
| `SleepLock.SleepingKeepsInv` | proc.c:419-453 | so do those of sleep, which swaps one spinlock for the other |
| `SleepLock.ReleasingKeepsInv` | sleeplock.c:34-42 | so do those that give the lock up |
| `SleepLock.WakingKeepsInv` | proc.c:470-476 | so do those of wakeup |
| `SleepLock.RunsKeepInv` | sleeplock.c:22-53 | every state of every interleaving satisfies the invariant |
| `SleepLock.MutualExclusion` | sleeplock.c:22-53 | at most one process holds the lock, and holdingsleep is true of its holder |
| `SleepLock.NoLostWakeup` | sleeplock.c:22-42 | when neither spinlock is held, a process asleep on the lock means that another has it |
| `SleepLock.CallsReturn` | sleeplock.c:22-42 | in every run a process leaves acquiresleep with the lock and releasesleep without it, and stops being the holder only to release |
| `SleepLock.AcquiresAlone` | sleeplock.c:22-32 | with lk free and the lock not held, a process gets the lock by its own steps, and nobody else is moved |
| `SleepLock.SleepsAlone` | sleeplock.c:25-28 | with the lock held, it is asleep after its own steps, with lk given up and ptable.lock handed to the scheduler |
| `SleepLock.WokenBy` | proc.c:455-499 | a sleeper is woken by a releasesleep that holds lk, or by kill, and by nothing else |
| `SleepLock.StepNearer` | sleeplock.c:22-42 | from every state that is not the initial one some steps lead nearer to it |
| `SleepLock.CanSettle` | sleeplock.c:22-42 | every state can be brought back to the initial one |
| `SleepLock.CanAcquire` | sleeplock.c:22-42 | no deadlock: at every point of every run every process can still get the lock |
| `Pipe.WrapKeepsPosition` | pipe.c:93 | wrapping around at 2^32 does not disturb positions in the ring |
| `Pipe.CountersTell` | pipe.c:85-114 | the wrapped counters tell an empty and a full pipe apart |
| `Pipe.Pipe.constructor` | pipe.c:22-57 | an empty open pipe |
| `Pipe.Pipe.Write` | pipe.c:78-98 | the bytes are accepted in order; it returns exactly when the rest fits, sleeps only on a full pipe; a wakeup is lost exactly when there are sleeping readers, the writer may not sleep, and it has more than a pipe of bytes |
| `Pipe.Pipe.Put` | pipe.c:93 | one byte goes into the ring and those in flight stay |
| `Pipe.Pipe.Get` | pipe.c:116 | the oldest byte in flight comes out |
| `Pipe.Pipe.Read` | pipe.c:100-121 | delivers the next bytes that were accepted; sleeps only on an empty pipe with a writer |
| `Pipe.Pipe.CloseWrite` | pipe.c:59-75 | wakes the readers of a pipe that will get no more bytes |
| `Pipe.Pipe.CloseRead` | pipe.c:59-75 | wakes the writers of a pipe that nobody reads |
| `Pipe.Pipe.Kill` | proc.c:481-499 | a killed process no longer sleeps on the pipe |
| `Pipe.Pipe.NeverBoth` | pipe.c:78-121 | readers and writers are never asleep on the same pipe together |
| `Pipe.LostWakeup` | pipe.c:85-89 | a killed writer that leaves a reader asleep over a full pipe |
| `Shell.SkipBlanks` | sh.c:272-273 | skips exactly the blanks before a token |
| `Shell.WordEnd` | sh.c:297-298 | the end of a maximal run of word characters |
| `Shell.GetToken` | sh.c:265-308 | a token moves the cursor, and a word token is a word of the line |
| `Shell.ParseRedirs` | sh.c:374-397 | every file name recorded is a word of the line, or it panics |
| `Shell.ParseArgs` | sh.c:431-442 | at most nine words, each a word of the line, or it panics |
| `Shell.ParseExec` | sh.c:415-446 | ends on every line; the command's words and files are words of the line |
| `Shell.ParseBlock` | sh.c:399-413 | the same for a block |
| `Shell.ParsePipe` | sh.c:361-372 | the same for a pipeline |
| `Shell.ParseLine` | sh.c:344-359 | the same for a line |
| `Shell.ParseCmd` | sh.c:327-342 | the same for the whole input, which must be used up |
| `Shell.NulTerminate` | sh.c:449-493 | a NUL at the end of every word and file name, and no other byte changed |
| `Shell.EndIsOutside` | sh.c:449-493 | a NUL lands on a blank, a symbol or the end of the line |
| `Shell.WordsReadBack` | sh.c:449-493 | after any successful parse each argument and file name read as a C string is its token |
| `ShellParser.Cursor.Next` | sh.c:265-308 | the loops of gettoken compute the token of the specification |
| `ShellParser.Cursor.Sees` | sh.c:310-320 | so do those of peek |
| `ShellParser.Cursor.Redirections` | sh.c:374-397 | the loop computes the redirections of the recursive grammar |
| `ShellParser.Cursor.Exec` | sh.c:415-446 | the simple command of the grammar |
| `ShellParser.Cursor.Arguments` | sh.c:429-446 | the loop over words and redirections, with its limit |
| `ShellParser.Cursor.Block` | sh.c:399-413 | the block of the grammar |
| `ShellParser.Cursor.Pipeline` | sh.c:361-372 | the pipeline of the grammar |
| `ShellParser.Cursor.Backs` | sh.c:350-353 | the loop over ampersands |
| `ShellParser.Cursor.Sequence` | sh.c:344-359 | the line of the grammar; the mutually recursive methods end on every input |
| `ShellParser.ParseCommand` | sh.c:327-342 | the buffer after a successful parse holds every argument and file name as a C string; a panic leaves it alone |
| `ShellPrint.ArgsParse` | sh.c:415-446 | printed words parse to themselves |
| `ShellPrint.LineParses` | sh.c:344-446 | a tree printed in parentheses anywhere in a line parses to itself |
| `ShellPrint.RoundTrip` | sh.c:265-446 | the printing of a tree parses back to the tree if and only if its words are words and no command has more than nine |
| `ShellPrint.ParseIsStable` | sh.c:265-446 | printing what any line parses to, and parsing that, gives the same command |
| `ShellAppend.TokenSame` | sh.c:265-308 | with a blank for the second character of a >> every token of the line stays, but for the kind of that one |
| `ShellAppend.LineSame` | sh.c:344-359 | so does every line, pipeline, block and command |
| `ShellAppend.AppendIsWrite` | sh.c:380-395 | for every line, >> and > parse to the same tree or the same panic |
| `ShellGrammar.LexFirst` | sh.c:265-308 | gettoken takes the first token of the line and leaves the others |
| `ShellGrammar.WrapIs` | sh.c:374-397 | the last redirection of a command is the outermost |
| `ShellGrammar.UnitSound` | sh.c:399-446 | what is parsed as a command or block is one of the grammar, with that meaning |
| `ShellGrammar.LineSound` | sh.c:344-372 | so it is for a line and its pipelines |
| `ShellGrammar.UnitComplete` | sh.c:399-446 | every command or block of the grammar, with redirections anywhere among its words, is parsed to its meaning |
| `ShellGrammar.LineComplete` | sh.c:344-372 | so is every line, with its pipes, ampersands and semicolons |
| `ShellGrammar.ParserIsGrammar` | sh.c:327-446 | a line is accepted with a tree if and only if its tokens are a phrase of the grammar with that meaning |
| `ShellGrammar.LexSpell` | sh.c:265-308 | tokens written with blanks after them are read as these tokens |
| `ShellGrammar.PhraseParses` | sh.c:327-446 | every phrase of the grammar, written out, parses to its meaning |
| `Grep.AddPiece` | grep.c:72-106 | an item in front of a pattern takes one piece of the text |
| `Grep.DropPiece` | grep.c:72-106 | and any match of the longer pattern starts with such a piece |
| `Grep.StartsWithStar` | grep.c:99-106 | a starred character takes some number of characters that it accepts |
| `Grep.Match` | grep.c:72-82 | succeeds exactly when some substring, or prefix under ^, is in the language of the pattern |
| `Grep.MatchHere` | grep.c:85-96 | succeeds exactly when the text starts with the pattern, and ends on every input |
| `Grep.MatchStar` | grep.c:99-106 | the same for a starred character and the rest |
| `Grep.ShowParse` | grep.c:72-106 | every pattern is read to its last character, as elements that write it |
| `Grep.ParseShow` | grep.c:72-106 | elements that are written down are read back if and only if no literal * follows a character and $ is special at the end alone |
| `Grep.PlainContains` | grep.c:72-96 | a pattern without special characters but dots matches exactly where it lies on the text character on character |
| `Grep.StarStarts` | grep.c:99-106 | a starred character takes any number of that character, and a starred dot anything |
| `Grep.CaretDollar` | grep.c:75-92 | between ^ and $ such a pattern matches exactly the texts of its length that it lies on |
| `Prime.LeastDivisor` | proc.c:543-546 | every number from 2 on has a prime divisor |
| `Prime.PrimeAbove` | proc.c:541-552 | there is a larger prime, so the outer loop ends |
| `Prime.FindNextPrime` | proc.c:539-553 | ends, and returns the least prime above the input if and only if that is at least 1; else the input plus one |

## Left out

- Boot, assembly, interrupt controllers, console, keyboard, UART and the interrupt-driven disk: hardware. `memide.c` is the disk.
- The inside of spinlocks, x86 memory ordering, `swtch` and the trap frame: a critical section is one atomic step.
- The references of the inode cache (iget, idup) and the locks of inodes: an operation has its inodes resolved and locked, and iput takes the number of references.
- Path walking (namex) and its locking: directory operations take resolved inodes.
- Bio.Bcache.Bread: a call that would have to sleep on a locked buffer is not modelled; the block must be idle.
- Log.Log.Commit: runs without interleaving; other processes may hold buffers of blocks that are neither logged nor of the log.
- Fs.Fs.Readi: device inodes end with an outcome that stands for the device switch; so do those of Writei.
- Fs.Fs.Writei: after a panic of the allocator the state is not described, since the transaction is never committed.
- FileWrite.OpenFile.Write: the dispatch to pipes is not modelled, nor are other processes that use the file system between two chunks.
- LogOps.UpdateBlock: no other process uses a buffer meanwhile; so it is for CrashSafe.RunOperation and what is built on it.
- CrashSafe.WriteChunk: the file system changes its array of blocks, and the blocks that it logged go through the cache afterwards, one by one; iupdate alone is also done in the buffers themselves.
- Directory.Inodes.DirLink: directories are sequences of entries, whose blocks never run out; what a write does to their bytes is Directory.WriteEntry.
- Mkfs.Image.Append: fails when the image is full, where the source would write past its end.
- Mkfs.Image.Ialloc: fails without a free inode number, where the source would write past the inodes.
- MkfsMain.Build: names are as strncpy has cut them off, and files are sequences of bytes.
- Links.CreatedKeepsInv: link counts are unbounded, where the source's wrap at 16 bits.
- Umalloc.Allocator.Malloc: what sbrk answers is a parameter; new memory lies above all earlier memory and is aligned to a header, which a program that calls sbrk itself could change.
- Vm.Vm.Dealloc: is called up to KERNBASE only, as in the source; growproc's return value when it shrinks to size 0 is not modelled.
- Exec.Memory.PushArgs: the rest of exec (reading the ELF file, the commit of the new image) is not modelled; strings are shorter than KERNBASE, as they come from user memory.
- Proc.StepKeepsInv: pids do not overflow, and a kernel stack and a page table are single tokens; what they hold is in `Vm`.
- Pipe.Pipe.constructor: the allocations of pipealloc succeed.
- Prime.FindNextPrime: integers are unbounded, where the source's overflow.
- ShellParser.Cursor.Exec: redirections are wrapped around the command once its words are known; in the source the command is filled in after it has been wrapped, with the same tree.
- The counters of system calls and getMostCaller are not modelled.
- runcmd, the reading of lines in grep, and the other user programs: each is a sequence of system calls, whose effects are stated for the kernel.
