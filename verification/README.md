# Verified models of xv6

These Dafny modules model the parts of xv6 for RISC-V that are hardest to get right, and
prove what those parts are for.

| files | what they model |
|---|---|
| `RedoLog`, `LogReservation`, `LogCode` | the redo log of `kernel/log.c`: a state machine whose steps are single block writes and crashes, its refinement to an atomic store, the space reservation, and the code itself |
| `BufferCache` | the buffer cache of `kernel/bio.c`: its list, its replacement order and its agreement with a plain block map |
| `VirtioDisk` | the driver and device of `kernel/virtio_disk.c` over one virtqueue |
| `FreeMap`, `FsLayout`, `FsCode` | blocks, the bytes of the bitmap, inodes and files of `kernel/fs.c`, and the transactions of `filewrite` in `kernel/file.c` |
| `Directory`, `InodeTable` | directories, path names and the in-memory inode table of `kernel/fs.c` |
| `Links` | link counts: `create`, `sys_link` and `sys_unlink` of `kernel/sysfile.c` |
| `ProcTable`, `Scheduler`, `ExitWait`, `LockOwners`, `ProcCalls`, `ProcCode` | the process table of `kernel/proc.c` as a state machine over any number of CPUs: hand-off of `p->lock`, sleep and wakeup, fork, exit, wait and reparent, which CPU holds which lock, and what `fork`, `sleep`, `wakeup`, `kill` and `yield` do for their callers in every run; and the loops of `wakeup`, `exit` and `wait` as code |
| `Pipe` | `kernel/pipe.c` |
| `PageTable`, `Vm`, `Uvm` | the Sv39 tables of `kernel/vm.c`, the page allocator of `kernel/kalloc.c`, and user memory |
| `Umalloc` | the allocator of `user/umalloc.c` |
| `Shell`, `ShellCode` | the parser of `user/sh.c` |

Code that updates fields step by step is a class, and its loops are loops. Code that runs
interleaved with other CPUs is a state machine: a step is what one CPU does while it holds
a lock, and a theorem about runs is about every interleaving. In `LogCode` and `ProcCode`
both are present: each method of the class extends a ghost run of the state machine.

Disk contents that run out, memory that runs out, copies from user space that fail, and
the moment of a crash or of a kill are parameters of the calls or choices of the machine.
A kernel panic is an outcome: a `panicked` result, proved false or characterised.

Six promises turn out to be false of the code. Each has its exact condition, on what the
call is given, and an input that shows the failure:

- "Too big a transaction" can be reached by operations that each stay within
  `MAXOPBLOCKS`: `LogReservation.PanicFreeIff` gives the bound on the per-operation
  budget that rules it out, and `LogReservation.PanicRun` the run that panics. The comment
  at `kernel/log.c:18-22` and the size in `kernel/param.h:10` suggest that three
  reservations always fit; the guard at `kernel/log.c:220` leaves one slot less.
- `create` and `sys_link` keep the link counts exactly if the parent directory still has a
  name (`Links.CreateCountsIff`, `Links.LinkCountsIff`, and the calls themselves); the
  inputs are `Links.CreateInRemoved` and `Links.LinkInRemoved`.
- `create` panics exactly if the name is bound to a free inode, which only ".." of a
  removed directory can be (`Links.LinkFs.Create`); the run is `Links.CreateDotDot`.
- A path walk panics exactly if it has to lock a free inode or to enter an inode in a full
  table (`InodeTable.ITable.Namex`); `InodeTable.OrphanWalk` is such a walk, and
  `InodeTable.NoPanic` a condition that rules it out.
- A `writei` whose source buffer ends within a block stores bytes that it neither counts
  nor logs. The file is as the returned count says exactly if, of the bytes that can be
  read, those that go to the last block lie past the end of the file or are what it has
  there (`FsCode.FileSystem.Writei`, `FsCode.CountedIff`); the input is
  `FsCode.BadPointer`.
- A writer to a pipe that is found killed after storing bytes leaves a sleeping reader
  asleep, and that is the only way to lose a wakeup (`Pipe.PipeState.Write`); the run is
  `Pipe.KilledWriter`.

## Model

| member | source | states |
|---|---|---|
| `RedoLog.EncodeHead` | kernel/log.c:103-114 | the header block that is written decodes to the same list of block numbers |
| `RedoLog.StepKeepsInv` | kernel/log.c:69-235 | every step of every operation, of commit, of recovery, and every crash keeps the invariant of disk, cache, header and log |
| `RedoLog.StepRefines` | kernel/log.c:69-235 | every step is a step of an atomic store with cached and durable contents; only one step of a commit changes what is durable |
| `RedoLog.WriteHeadCommits` | kernel/log.c:103-114 | the single write of the header makes exactly the cached contents of all logged blocks durable |
| `RedoLog.InstallIsIdempotent` | kernel/log.c:69-83 | copying a logged block home, at any point and any number of times, changes neither the header nor what recovery would produce |
| `RedoLog.DurableStep` | kernel/log.c:194-203 | only the first header write of a commit changes what is durable, with no operation open |
| `RedoLog.RunKeepsInv` | kernel/log.c:69-235 | the invariant holds in every reachable state of every run, crashes included |
| `RedoLog.RunRefines` | kernel/log.c:69-235 | in every run the log behaves as the atomic store: what is durable is what was cached when the last group committed |
| `RedoLog.CrashedRun` | kernel/log.c:117-123 | crashes, recovery and crashes inside recovery commit nothing: the last committed contents are those from before the first crash |
| `RedoLog.CrashAtomicity` | kernel/log.c:117-123 | after any crash and any further crashes inside recovery, the home blocks are those of the last committed group, never a mixture |
| `RedoLog.QuiescentIsDurable` | kernel/log.c:147-175 | with no operation open and an empty log, everything readers see is on disk |
| `LogReservation.StepKeepsReserved` | kernel/log.c:127-143 | every step keeps the sum of logged blocks and unused budgets within the reservation |
| `LogReservation.RunKeepsReserved` | kernel/log.c:127-235 | in every reachable state: lh.n plus unused budgets is at most LOGSIZE, a commit runs only with nothing outstanding, logged blocks are distinct and inside the log region, and sleepers in begin_op have something to wait for |
| `LogReservation.LogLength` | kernel/log.c:215-235 | outside recovery the log never holds more than MAXOPBLOCKS plus two per-operation budgets |
| `LogReservation.NoPanic` | kernel/log.c:215-222 | no run panics if the capacity exceeds that bound |
| `LogReservation.PanicRun` | kernel/log.c:127-235 | otherwise some run panics, from any state at rest |
| `LogReservation.PanicFreeIff` | kernel/log.c:215-222 | "too big a transaction" is unreachable exactly if MAXOPBLOCKS plus twice the budget is below the capacity min(LOGSIZE, size - 1) |
| `LogCode.LogDevice.WriteHead` | kernel/log.c:103-114 | the header on disk is the list in memory, and decodes to it |
| `LogCode.LogDevice.ReadHead` | kernel/log.c:87-97 | the list in memory is the one the header on disk encodes |
| `LogCode.LogDevice.InstallBlock` | kernel/log.c:73-82 | one block goes from its log slot to its home, as a step of the machine, and loses its pin unless this is recovery |
| `LogCode.LogDevice.InstallTrans` | kernel/log.c:69-83 | all logged blocks go to their homes, each write a step of the machine |
| `LogCode.LogDevice.WriteLogBlocks` | kernel/log.c:179-191 | all cached blocks go to their log slots, each write a step of the machine |
| `LogCode.LogDevice.CommitHead` | kernel/log.c:197-198 | the header write that commits, as one step of the machine |
| `LogCode.LogDevice.EraseLog` | kernel/log.c:200-201 | the header write that empties the log, as one step of the machine |
| `LogCode.LogDevice.RecoverFromLog` | kernel/log.c:117-123 | at boot, recovery ends at rest, with an empty log and disk and cache equal to what was durable |
| `LogCode.LogDevice.DoCommit` | kernel/log.c:194-203 | commit ends with an empty log and everything cached durable; its writes are a run of the machine |
| `LogCode.LogDevice.BeginOp` | kernel/log.c:127-143 | an operation is admitted exactly if no commit runs and the log has room for one more reservation, and otherwise sleeps |
| `LogCode.LogDevice.LogWrite` | kernel/log.c:215-235 | the block is in the log afterwards, once; it is appended and pinned only if absent; panics exactly if the log is full or no operation is open, and then changes nothing |
| `LogCode.LogDevice.LoggedIsPinned` | kernel/log.c:205-235 | at every point each logged block that is not installed yet is pinned exactly once in the cache, and no other block is |
| `LogCode.LogDevice.Leave` | kernel/log.c:147-162 | the last operation out starts the commit, any other wakes the sleepers; "log.committing" is unreachable |
| `LogCode.LogDevice.EndOp` | kernel/log.c:147-175 | if the operation was the last one, the whole group is durable on return and nothing is pinned |
| `BufferCache.Cache.constructor` | kernel/bio.c:37-53 | all buffers, unused, on one circular doubly linked list |
| `BufferCache.Cache.MoveToHead` | kernel/bio.c:126-133 | relinking keeps one circular doubly linked list of all buffers, in order of the last move to the head |
| `BufferCache.Cache.Find` | kernel/bio.c:65-74 | finds the buffer that holds the block, or none if no buffer does |
| `BufferCache.Cache.FindUnused` | kernel/bio.c:78-87 | finds the least recently moved buffer with reference count 0, or none if all are in use |
| `BufferCache.Cache.Bget` | kernel/bio.c:59-89 | one more reference to the only buffer of the block; else the least recently moved unused buffer is given to it; panics exactly if the block is not cached and all buffers are in use |
| `BufferCache.Cache.Bread` | kernel/bio.c:93-103 | the buffer returned has the last stored contents of the block; panics exactly if the block is not cached and all buffers are in use |
| `BufferCache.Cache.Bwrite` | kernel/bio.c:107-112 | the block on disk has the contents of the buffer; the cache still agrees with the block map |
| `BufferCache.Cache.Brelse` | kernel/bio.c:117-137 | one reference less; on the last one the buffer is first in the list; cache and block map still agree exactly if the contents are on disk or another reference is left |
| `BufferCache.Cache.Bpin` | kernel/bio.c:140-144 | one reference more, and nothing else changes |
| `BufferCache.Cache.Bunpin` | kernel/bio.c:147-151 | one reference less, and the same exact condition |
| `BufferCache.AgreeKept` | kernel/bio.c:59-89 | a change of one buffer keeps the uniqueness of buffers and their agreement with the block map, if the block is the same or the buffer was unused |
| `BufferCache.Unlinked` | kernel/bio.c:128-129 | taking a buffer out of the list leaves a circular doubly linked list of the others |
| `BufferCache.Pushed` | kernel/bio.c:130-133 | putting a buffer behind the head gives such a list again, with it first |
| `BufferCache.FrontByUse` | kernel/bio.c:126-133 | moving a buffer to the head keeps the list in order of last move |
| `BufferCache.DroppedIsLost` | kernel/bio.c:117-151 | dropping the last reference to a buffer that is not on disk breaks the agreement |
| `VirtioDisk.AtMostTwo` | kernel/virtio_disk.c:216-230 | disjoint chains of three descriptors: at most two requests at once |
| `VirtioDisk.AvailFew` | kernel/virtio_disk.c:275-283 | at most two entries of the avail ring wait for the device, so none is overwritten |
| `VirtioDisk.UsedFew` | kernel/virtio_disk.c:308-325 | at most two entries of the used ring wait for the driver, so none is overwritten |
| `VirtioDisk.RingPlace` | kernel/virtio_disk.c:275-283 | the 16-bit index wraps without changing places in the ring |
| `VirtioDisk.Disk.AllocDesc` | kernel/virtio_disk.c:157-166 | takes the first free descriptor, all lower ones being taken, or none if there is none |
| `VirtioDisk.Disk.FreeDesc` | kernel/virtio_disk.c:170-182 | frees and clears a descriptor; panics exactly if it is out of range or free |
| `VirtioDisk.Disk.FreeChain` | kernel/virtio_disk.c:186-197 | following the next fields frees exactly the three descriptors of the chain and cannot panic |
| `VirtioDisk.Disk.Alloc3` | kernel/virtio_disk.c:202-213 | three distinct free descriptors; or, if there are fewer than three, the free list as it was |
| `VirtioDisk.Disk.Submit` | kernel/virtio_disk.c:216-286 | a new request with its own chain, its head in the avail ring and its buffer marked; or, with fewer than three free descriptors, nothing changed |
| `VirtioDisk.Disk.DeviceTake` | kernel/virtio_disk.c:275-286 | the device takes the entries of the avail ring in order, each of a request under way |
| `VirtioDisk.Disk.DeviceComplete` | kernel/virtio_disk.c:240-273 | with status 0, working off the descriptors has exactly the effect of the request on its sector and its buffer; with another status the target holds anything and nothing else changes |
| `VirtioDisk.Disk.HandleOne` | kernel/virtio_disk.c:310-324 | a completion marks exactly the buffer of its own request; panics exactly if the device reported a failure |
| `VirtioDisk.Disk.Intr` | kernel/virtio_disk.c:295-327 | exactly the requests in the used ring become finished, or those before the first that failed, at which it panics |
| `VirtioDisk.Disk.Finish` | kernel/virtio_disk.c:288-291 | exactly the chain of the request becomes free |
| `FsLayout.PutWord` | kernel/fs.c:413-418 | a 32-bit word stored in a block is read back, and no other byte changes |
| `FreeMap.BitsAfterSet` | kernel/fs.c:75-77 | setting a bit of a byte by shift and mask changes that bit and no other |
| `FreeMap.BitsAfterClear` | kernel/fs.c:97-101 | the same for clearing it |
| `FreeMap.UsedAfterPut` | kernel/fs.c:73-101 | rewriting one byte of a bitmap block changes whether one block is in use, and no other |
| `FreeMap.InodePlaces` | kernel/fs.h:41-45 | inode blocks follow each other from inodestart on, and two inodes share one exactly if they are in the same group of IPB |
| `FsLayout.AllocKeeps` | kernel/fs.c:66-88 | marking a free block keeps every owned block owned by one slot |
| `FsLayout.ClaimAddrKeeps` | kernel/fs.c:388-396 | storing a new block in an inode makes that slot its only owner; no other reference and no byte of any file changes |
| `FsLayout.ClaimWordKeeps` | kernel/fs.c:407-418 | the same for a slot in the indirect block |
| `FsLayout.TruncatedKeeps` | kernel/fs.c:426-453 | after truncation every block has its bit set exactly if one slot owns it, and no other file has changed |
| `FsCode.FileSystem.Balloc` | kernel/fs.c:66-88 | the first free block, its bit set in the bytes of the bitmap, and zeroed; or 0 and no change if all are in use; every block changed is logged |
| `FsCode.FileSystem.Bfree` | kernel/fs.c:92-105 | clears one bit in the bytes of the bitmap and logs that block; panics exactly if it was clear |
| `FsCode.FileSystem.Iupdate` | kernel/fs.c:226-241 | the inode on disk is the one in memory |
| `FsCode.FileSystem.Bmap` | kernel/fs.c:383-421 | the address of the block, allocated if missing, or 0 if the disk is full; ownership and all bytes of all files are kept; every block changed is logged, at most two of them bitmap blocks; panics exactly beyond the largest file |
| `FsCode.FileSystem.Writei` | kernel/fs.c:506-539 | -1 exactly for an unacceptable range; else the source replaces the returned number of bytes, and a stray part of one block if the source buffer ends within a block; the file is as that number says exactly under a condition on the file and the source; why it stops short; the size becomes the maximum; no other file changes; every block changed is logged but a stray one; a bound on the blocks logged |
| `FsCode.CountedIff` | kernel/fs.c:517-533 | the file is as the returned count says exactly if the readable bytes that go to the last block lie past the end of the file or are what it has there, whether or not the disk fills |
| `FsCode.BadPointer` | kernel/fs.c:521-526 | a concrete call that returns 0 and changes two bytes of the file |
| `FsCode.FileSystem.Readi` | kernel/fs.c:472-496 | exactly the slice of the file clipped to its size; nothing changes |
| `FsCode.FileSystem.Itrunc` | kernel/fs.c:426-453 | frees exactly the blocks the file owns, and logs what it changes; "freeing free block" is unreachable |
| `FsCode.FileSystem.FreeInode` | kernel/fs.c:341-357 | the inode is empty and of type 0 in memory and on disk; every other file is as before; every block changed is logged |
| `FsCode.ChunkFits` | kernel/file.c:149-157 | a chunk at any offset touches few enough blocks for one reservation, bitmap blocks included |
| `FsCode.FileSystem.WriteTransaction` | kernel/file.c:160-166 | one chunk logs at most MAXOPBLOCKS blocks, for any offset and any number of bitmap blocks, and all that it changes unless a copy fails within a block; -1 exactly for an unacceptable range, and why fewer bytes are written |
| `FsCode.FileSystem.WriteChunk` | kernel/file.c:149-172 | the transaction of one chunk of a longer write stops short only for a reason of the whole write |
| `FsCode.CopyStops` | kernel/file.c:149-172 | where the source buffer ends, the chunks together stop at the block boundary below it, with the rest as stray bytes |
| `FsCode.FileSystem.FileWrite` | kernel/file.c:146-177 | all transactions fit and follow each other, each logging what it changes; the bytes written are a prefix of the source, at the offset; n exactly if all were; they are fewer only if the offset is past the end, a chunk would end past the largest file, the source buffer ends, or the disk is full and the file has no block there, each with the exact place; stray bytes only if the source buffer is too short |
| `FsCode.TruncatedFiles` | kernel/fs.c:426-453 | truncation leaves the contents of every other file |
| `FsCode.WrittenContents` | kernel/fs.c:511-533 | the blocks written amount to splicing the data, and any stray bytes, into the byte sequence |
| `Directory.Namecmp` | kernel/fs.c:544-547 | equal exactly if both buffers stand for the same name of at most DIRSIZ bytes |
| `Directory.EncodeDecodes` | kernel/fs.c:600-603 | the 16 bytes of an entry decode to its inode number and name |
| `Directory.SpliceEntry` | kernel/fs.c:603-604 | writing 16 bytes at an entry changes that entry, or appends it, and no other |
| `Directory.Dirlookup` | kernel/fs.c:552-575 | the inode number that the directory, as a map on names, binds to the name, and the offset of its entry; 0 if none; panics exactly on an inode that is no directory, or when it comes to a last entry that is cut short |
| `Directory.PutEntry` | kernel/fs.c:580-606 | filling an unused entry binds one name and changes no other binding |
| `Directory.ClearEntry` | kernel/sysfile.c:221-223 | clearing an entry unbinds one name and changes no other binding |
| `Directory.Dirlink` | kernel/fs.c:580-606 | puts the entry in the first unused place, or behind the last, which binds that name and no other; -1 and no change if it is bound, and else only if no entry is unused and the file is as large as can be, or ends with its last block on a full disk |
| `Directory.UnlinkEntry` | kernel/sysfile.c:221-223 | exactly that entry becomes zero, so the name is unbound; the write cannot fail |
| `Directory.IsDirEmpty` | kernel/sysfile.c:174-186 | whether an entry after the first two is in use |
| `InodeTable.Skipelem` | kernel/fs.c:623-645 | the first of the non-empty slash-separated components, cut to DIRSIZ bytes, and where the others start |
| `InodeTable.ITable.Iget` | kernel/fs.c:247-277 | one more reference to the inode in its only entry; panics exactly if it has none and the table is full |
| `InodeTable.ITable.Idup` | kernel/fs.c:282-288 | one more reference |
| `InodeTable.ITable.Ilock` | kernel/fs.c:293-317 | the copy in the entry is the inode on disk, loaded if needed, and nothing else changes; panics exactly on a free inode |
| `InodeTable.ITable.Iput` | kernel/fs.c:337-362 | one reference less; decided on the copy in the entry, the inode is freed on disk exactly if that was the last one and it has no links; inodes in use stay linked or referenced |
| `InodeTable.EntryHoldsAll` | kernel/fs.c:253-261 | all references to an inode are in one entry |
| `InodeTable.ITable.Descend` | kernel/fs.c:670-677 | the reference to a directory is exchanged for one to what the component names; panics exactly if that needs an entry and the table is full |
| `InodeTable.WalkEnds` | kernel/fs.c:657-684 | when the walk stops, what remains decides the result |
| `InodeTable.ITable.Namex` | kernel/fs.c:652-684 | the fold of lookup over the components, from the root or the current directory, or its parent form; every return leaves all reference counts unchanged except one more on the result; panics exactly if the walk has to lock a free inode or to enter an inode in a full table |
| `InodeTable.NoPanic` | kernel/fs.c:652-684 | with two table entries free, a walk whose components name no free inode does not panic |
| `InodeTable.SoundFreed` | kernel/fs.c:341-357 | freeing an inode that nothing keeps leaves the other inodes linked or referenced, whatever still names it |
| `InodeTable.OrphanWalk` | kernel/fs.c:660-684 | a concrete walk of "../x" that panics: the parent was freed and the removed child still names it |
| `Links.LinkFs.Ialloc` | kernel/fs.c:199-219 | the first free inode, all lower ones being in use, of the given type and referenced once; or none if none is free |
| `Links.LinkFs.Iget` | kernel/fs.c:247-277 | one more reference keeps counts, tree and allocation |
| `Links.PutKeeps` | kernel/fs.c:337-362 | dropping a reference keeps the invariant, and what it frees has no entry and no other reference |
| `Links.CreatedKeeps` | kernel/sysfile.c:246-302 | a successful create keeps counts, tree and allocation |
| `Links.CreateCountsIff` | kernel/sysfile.c:246-302 | create keeps the counts exactly if the parent has a name |
| `Links.LinkFs.OpenExisting` | kernel/sysfile.c:256-263 | an existing file is returned referenced, exactly if a file was asked for; panics exactly if the name is bound to a free inode, which only ".." of a removed directory is |
| `Links.LinkFs.Create` | kernel/sysfile.c:246-302 | for a new name, succeeds exactly if an inode is free and there is room; a failed call gives everything back; one that makes an inode takes the first free one, leaves exactly the new entry, the new inode and the new count, and keeps the invariant exactly if the parent has a name; panics exactly if the name is bound to a free inode |
| `Links.RelinkedKeeps` | kernel/sysfile.c:141-155 | a successful link keeps counts, tree and allocation |
| `Links.LinkCountsIff` | kernel/sysfile.c:141-155 | sys_link keeps the counts exactly if the parent has a name |
| `Links.LinkFs.Link` | kernel/sysfile.c:124-170 | succeeds exactly if both paths resolve, the name is free and there is room; a failed call restores the count; a successful one keeps the invariant exactly if the parent has a name |
| `Links.FoundToUnlink` | kernel/sysfile.c:205-217 | what a name in a directory names is linked; an empty directory has exactly one link and its parent more than one |
| `Links.UnlinkedKeeps` | kernel/sysfile.c:219-229 | a successful unlink keeps counts, tree and allocation |
| `Links.LinkFs.Unlink` | kernel/sysfile.c:189-243 | fails exactly for ".", "..", a missing name or a directory that is not empty; never panics; the inode is freed exactly if this was its last link and nobody refers to it |
| `Links.UniquePath` | kernel/sysfile.c:268-285 | in every valid state the path from the root to a live directory exists and is unique |
| `Links.CreateInRemoved` | kernel/sysfile.c:246-302 | a concrete run in which create breaks the counts |
| `Links.LinkInRemoved` | kernel/sysfile.c:141-155 | a concrete run in which sys_link breaks the counts |
| `Links.CreateDotDot` | kernel/sysfile.c:256-259 | a concrete run in which create panics |
| `Scheduler.StepKeeps` | kernel/proc.c:445-562 | every step of every CPU keeps the hand-off invariant of locks, states and current processes: who holds p->lock at which point, and where a thread that is not on a CPU has stopped |
| `Scheduler.CurrentOnOneCpu` | kernel/proc.c:445-510 | while p->lock is free, a RUNNING process is current on exactly one CPU and any other on none |
| `ExitWait.StepKeepsInv` | kernel/proc.c:280-604 | every step keeps the invariants of parents, waiting and reaping; which parent a process has, and which channel it sleeps on, are the run theorems of ProcCalls |
| `ExitWait.RunKeepsInv` | kernel/proc.c:280-604 | they hold in every reachable state of every interleaving from boot |
| `ExitWait.NoLostWakeup` | kernel/proc.c:347-435 | whenever wait_lock is free, no process sleeps in wait() while it has a ZOMBIE child |
| `ExitWait.ReapedOnce` | kernel/proc.c:391-435 | an exited process is reaped at most once, and until then its slot is not used again |
| `ExitWait.NoDeadParent` | kernel/proc.c:331-341 | no process has a parent that has exited or was freed |
| `ProcCode.Kernel.Wakeup` | kernel/proc.c:567-580 | exactly the other processes asleep on the channel become RUNNABLE; the loop is a run of the machine |
| `ProcCode.Kernel.Reparent` | kernel/proc.c:331-341 | exactly the children of the process get init as parent, and init is awake if there were any |
| `ProcCode.Kernel.Exit` | kernel/proc.c:347-386 | the process is a zombie with no children, its parent is awake, wait_lock is free; panics exactly for init; the code is a run of the machine |
| `ProcCode.Kernel.Wait` | kernel/proc.c:391-435 | reaps the first zombie child; else fails exactly if there are no children or the process was killed, and otherwise sleeps on itself; the code is a run of the machine |
| `ExitWait.CurrentInEveryRun` | kernel/proc.c:445-562 | the scheduler property, in every interleaving |
| `LockOwners.StepKeepsLocks` | kernel/proc.c:280-604 | every step keeps this: a lock is held only by a CPU at a program point that holds it |
| `LockOwners.RunKeepsLocks` | kernel/proc.c:280-604 | in every interleaving p->lock and wait_lock are held only at the points that hold them |
| `LockOwners.SchedChecks` | kernel/proc.c:482-499 | the checks of sched() never fail: its caller is not RUNNING, and its CPU holds exactly its own lock, of all process locks and wait_lock |
| `LockOwners.PreemptHoldsNothing` | kernel/proc.c:503-510 | where a timer interrupt may preempt, the CPU holds none of these locks |
| `ProcCalls.ParentIsMaker` | kernel/proc.c:280-341 | in every interleaving the parent of a process is the one whose fork() made it, until that one gives its children to init in exit(), and then init |
| `ProcCalls.ForkEnds` | kernel/proc.c:280-325 | when a process leaves its fork(), in any interleaving, the child is RUNNABLE, starts at the return to user space and has the forker as parent; or, if fork fails, the slot is free again |
| `ProcCalls.AsleepOnAsked` | kernel/proc.c:536-562 | in every interleaving a process sleeps on exactly the channel of its latest call of sleep(), and has no channel once it is out of it |
| `ProcCalls.SleepsUntilWoken` | kernel/proc.c:536-604 | a process sleeps or is about to exactly if it asked to and no step has woken it since |
| `ProcCalls.WokenForAsked` | kernel/proc.c:567-604 | only a wakeup() of the channel asked for, or a kill(), ends a sleep |
| `ProcCalls.WakeupReaches` | kernel/proc.c:567-580 | while a wakeup() runs, every process that asked for its channel before the call and still sleeps is one that the loop has yet to come to |
| `ProcCalls.WakeupComplete` | kernel/proc.c:567-580 | when wakeup() has returned, no process sleeps that asked for its channel before the call, even one that was not asleep yet |
| `ProcCalls.KilledIff` | kernel/proc.c:586-604 | exactly the processes that kill() was called on since their slot was last freed are marked killed |
| `ProcCalls.PlaceKept` | kernel/proc.c:482-510 | neither a timer interrupt nor a switch away and back changes where a thread goes on; only an exited thread does not go on |
| `ProcCalls.Dispatch` | kernel/proc.c:445-474 | a RUNNABLE process that a scheduler comes to runs on that CPU, from where it stopped, and nothing else changes |
| `ProcCalls.YieldRoundTrip` | kernel/proc.c:445-510 | a process that yields and is chosen again finds the whole state as it left it |
| `Pipe.Distance` | kernel/pipe.c:88-88 | the wrapping 32-bit counters compare as the numbers they stand for |
| `Pipe.PipeState.Write` | kernel/pipe.c:77-103 | exactly how many bytes are stored, and so which; how the call ends, as a function of that place; a sleeper sleeps on a full, open pipe; a wakeup is lost exactly if a reader sleeps and the writer is found killed after storing bytes, said on what the call is given |
| `Pipe.PipeState.Read` | kernel/pipe.c:106-130 | removes the bytes next in order, exactly as many as are asked for, there and copied, one more being lost if its copy fails; sleeps exactly on an empty pipe that is open for writing; no wakeup is lost |
| `Pipe.PipeState.Close` | kernel/pipe.c:59-74 | no process stays asleep on the other end, and those on the closed end stay as they are; the pipe is freed exactly when both ends are closed |
| `Pipe.KilledWriter` | kernel/pipe.c:84-87 | a concrete run that loses a wakeup |
| `PageTable.WordRoundTrip` | kernel/riscv.h:350-354 | an entry gives back the page and the flags |
| `PageTable.PteBits` | kernel/riscv.h:350-354 | the same for the shifts and masks on 64-bit words |
| `PageTable.SplitJoin` | kernel/riscv.h:356-363 | below MAXVA the three indices determine the page, and the top index is below 256 |
| `PageTable.DistinctLeaves` | kernel/vm.c:86-103 | distinct pages, or pages of distinct tables, reach distinct leaf slots |
| `PageTable.HangTableLookup` | kernel/vm.c:93-100 | hanging an empty table into an invalid entry changes no translation of any table |
| `PageTable.SetLeafLookup` | kernel/vm.c:143-165 | storing a leaf entry changes exactly the translation that uses its slot |
| `PageTable.PathUnique` | kernel/vm.c:272-287 | no two table pages have the same path from a root |
| `PageTable.HangLays` | kernel/vm.c:93-100 | an empty table hung into a walk takes that walk, and those through the same entry, one level further, and no other |
| `PageTable.MissingNext` | kernel/vm.c:143-165 | after mapping n pages, the tables missing for the next one are those it shares with none of them and that were missing at first |
| `Vm.Memory.Kalloc` | kernel/kalloc.c:69-82 | the first page of the free list, now in use, or 0 exactly if the list is empty |
| `Vm.Memory.Kfree` | kernel/kalloc.c:47-63 | a page that nothing maps goes back; panics exactly if the address starts no page of the allocator |
| `Vm.Memory.Walk` | kernel/vm.c:86-103 | the leaf slot of va; with alloc it is found exactly if the tables missing on the way are no more than the free pages, exactly those are made, and no translation changes; panics exactly from MAXVA on |
| `Vm.Memory.MapPage` | kernel/vm.c:152-159 | one translation is added; fails exactly if more tables are missing than pages free; panics exactly on a remap or from MAXVA on |
| `Vm.Memory.Mappages` | kernel/vm.c:143-165 | adds exactly its pages, or a prefix of them if tables run out, which is exactly if the tables missing for the whole range, shared ones counted once, are more than the free pages; panics exactly for size 0, or if the next page is mapped or too high |
| `Vm.Memory.UnmapPage` | kernel/vm.c:179-190 | one translation is removed, and its page freed if the table owned it |
| `Vm.Memory.Uvmunmap` | kernel/vm.c:171-192 | removes exactly its pages and frees exactly those; panics exactly if va is not aligned or a page is missing |
| `Vm.OwnedDistinct` | kernel/vm.c:143-165 | no page is owned through two mappings |
| `Uvm.Freerange` | kernel/kalloc.c:34-40 | every page of the range is on the free list once |
| `Uvm.Uvmcreate` | kernel/vm.c:197-205 | a new, empty table made of one free page, or nothing changed |
| `Uvm.AddPage` | kernel/vm.c:236-247 | a new page with the given contents is mapped and owned, exactly if it and the missing tables fit in the free pages; else only inner tables stay |
| `Uvm.SpentNext` | kernel/vm.c:236-247 | after the pages so far, the next one fits exactly if all of them and it fitted at first |
| `Uvm.Uvmalloc` | kernel/vm.c:226-249 | the pages up to newsz are mapped with the flags asked for, owned and zero; fails exactly if the pages and the tables missing for them are more than the free pages, and then the leaf map is as before; any newsz |
| `Uvm.PagesFit` | kernel/vm.c:226-249 | a process has fewer pages than the machine, so growing never reaches the trapframe page |
| `Uvm.Uvmdealloc` | kernel/vm.c:256-267 | exactly the pages above newsz are removed and freed |
| `Uvm.Uvmcopy` | kernel/vm.c:306-333 | the child has pages with the contents and flags of the parent, which is unchanged; fails exactly if the pages of the parent and the tables the child lacks for them are more than the free pages, and then the leaf maps are as before |
| `Uvm.Freewalk` | kernel/vm.c:272-287 | every page at or below the table becomes free, once, and no other page changes; cannot panic without leaves |
| `Uvm.Uvmfree` | kernel/vm.c:292-297 | exactly the pages of the table, inner and user, are free again; every other table translates as before |
| `Uvm.Growproc` | kernel/proc.c:260-275 | the mapped pages are exactly those of the new size, new ones zero and writable, or of the old one if the call fails, which is exactly if it grows by more than the free pages allow; every other process keeps its pages |
| `Uvm.GainRemoved` | kernel/vm.c:238-247 | undoing a partial growth restores the leaf map and leaves only inner tables |
| `Uvm.SpaceCut` | kernel/vm.c:256-267 | shrinking one process keeps the pages of every other |
| `Umalloc.MergeState` | user/umalloc.c:36-39 | joining a free block with the one before keeps an address-ordered, disjoint free list |
| `Umalloc.InsertMergeState` | user/umalloc.c:31-34 | the same for the block behind |
| `Umalloc.SplitState` | user/umalloc.c:77-81 | cutting the tail off a free block keeps it too |
| `Umalloc.Conservation` | user/umalloc.c:25-90 | free units plus live units are the units obtained from sbrk |
| `Umalloc.Heap.Find` | user/umalloc.c:30-32 | the search ends, wherever it starts, at the place of the block |
| `Umalloc.Heap.Free` | user/umalloc.c:25-44 | the block becomes part of one free block; the list stays circular, ordered, coalesced and disjoint from live blocks, which keep their sizes; the next search starts at the free block before it, or the one it joined |
| `Umalloc.Heap.Morecore` | user/umalloc.c:47-61 | the new units join the free list, and a block of the size asked for is free; 0 exactly if sbrk fails |
| `Umalloc.Heap.Carve` | user/umalloc.c:71-79 | the end of the free block is live, of exactly the size asked for, and was not before; the next search starts at the block before it |
| `Umalloc.Heap.Malloc` | user/umalloc.c:64-90 | a new live block with room for nbytes, disjoint from all others: the end of the first free block after freep that is large enough; sbrk is asked exactly if none is; 0 exactly if it is asked and fails; both searches end |
| `Umalloc.Heap.NoneFits` | user/umalloc.c:83-85 | back at freep, every free block has been found too small |
| `Shell.RoundTrip` | user/sh.c:346-447 | parsing the minimally parenthesised printing of any command with at most 9 arguments gives it back |
| `Shell.Normalises` | user/sh.c:346-447 | any token sequence that parses means the same as the printing of its tree |
| `ShellCode.GetToken` | user/sh.c:267-309 | the next token, its exact span, and where the following one starts |
| `ShellCode.Peek` | user/sh.c:312-321 | skips spaces and tells whether the next character is one of those given |
| `ShellCode.ParseRedirs` | user/sh.c:376-398 | reads exactly the redirections that the grammar allows next, or fails where it does |
| `ShellCode.ParseSimple` | user/sh.c:424-446 | reads a simple command as the grammar does, with its errors |
| `ShellCode.ParseExecAt` | user/sh.c:401-447 | reads a block or a simple command as the grammar does; ends on all inputs |
| `ShellCode.ParsePipeAt` | user/sh.c:363-373 | reads a pipeline as the grammar does; ends on all inputs |
| `ShellCode.ParseLineAt` | user/sh.c:346-360 | reads a line as the grammar does; ends on all inputs |
| `ShellCode.ParseCmd` | user/sh.c:329-340 | the whole line is a command, or the error of the first offending token |
| `ShellCode.NulTerminate` | user/sh.c:451-494 | writes a NUL behind every word of the tree and nothing else |
| `ShellCode.WordsIntact` | user/sh.c:451-494 | every argument and file name, as a C string in the buffer, is exactly its token |
| `ShellCode.ParseCommand` | user/sh.c:329-343 | the tree that the line means, with each word in place in the buffer |
| `ShellCode.LexUnlex` | user/sh.c:267-309 | the tokens of a printed token sequence are that sequence |
| `ShellCode.TextRoundTrip` | user/sh.c:267-447 | printing a command as text and parsing the text gives the command back |

## Left out

- Assembly, boot, traps, the UART, the PLIC and `printf`: register plumbing; `swtch` is one step of the machine.
- Spinlocks and sleep locks themselves, interrupt disabling and weak memory: a lock is a field, and a critical section on one lock is one step.
- ProcCode.Kernel.Exit: the class runs one call while no other CPU holds a process lock; interleavings are in the state machine, which also holds `scheduler`, `sched`, `yield`, `sleep`, `fork` and `kill` as steps on values, where the order of fields within one critical section is not captured. `kill` names a slot instead of searching for a pid, and `fork` is given a free one.
- ProcCode.Kernel.Wait: as for Exit, no other CPU holds a process lock during the call.
- ProcCode.Kernel.Wakeup: as for Exit; the state machine has the loop with other CPUs between its steps.
- ProcCode.Kernel.Reparent: as for Exit.
- Process identifiers, `copyout` of the exit status, and the kernel stack are not modelled.
- Sleep locks on inodes and buffers: one walk, or one holder of a buffer, at a time; deadlock between them is not considered.
- Device numbers in the inode table: there is one device.
- FsCode.FileSystem.constructor: a disk without files stands for the image that `mkfs` builds; that every block below a file's size is allocated is a premise about the initial image.
- InodeTable.ITable.Namex: directories are whole entries that name inodes of the disk, and an inode in use is linked or referenced, which Links proves of the link counts.
- Links: directories are maps; that the bytes implement the maps is in Directory. Link counts are unbounded, and the major and minor numbers of devices are left out.
- BufferCache.Cache.Bget: device 0, which all buffers hold at boot, is not looked up.
- BufferCache.Cache.Brelse: its panic, and that of `bwrite`, for a caller without the sleep lock is left out with the sleep locks.
- VirtioDisk: the configuration of the device and the memory barriers are left out, and a driver that waits for descriptors tries again.
- Vm.Memory.Mappages: addresses do not wrap around 64 bits.
- Uvm.Uvmalloc: physical memory has no more pages than the address space below the trapframe, as its 128 MB have; the source relies on this too.
- Uvm.Uvmfree: the trampoline and trapframe are unmapped before, as `proc_freepagetable` does; their pages are lent to the tables and not freed here.
- `copyin`, `copyout`, `walkaddr`, `uvmclear` and `exec`: thin users of the flat map.
- Umalloc.Heap.Malloc: requests below 2 GB, so that the argument of `sbrk` does not overflow; programs do not write to headers.
- Pipe: `pipealloc` and file reference counts; an end is closed when no process uses it.
- The shell's `runcmd`, `cd` and reading of lines; `malloc` in the parser succeeds.
- `kernel/file.c` apart from `filewrite`, `kernel/console.c`, `kernel/exec.c`, system call arguments, and the other user programs: easier members only.
