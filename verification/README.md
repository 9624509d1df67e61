# Verified model of a CertiKOS-style kernel

A Dafny model of the three stateful cores of the kernel, with proofs of what
each of them promises.

**Crash-safe file system.** The disk is a sequence of 512-byte sectors, read
and written through a ten-buffer cache. Above it are the one-transaction redo
log, the bitmap allocator, inodes with direct and indirect blocks, open files,
directories, paths and link counts. Every sector write is appended to a trace of
whole-disk states, so a crash between any two writes is a point of the trace.
A disk *stands for* its home sectors overlaid with the log blocks its header
commits. The main result runs from raw sectors to `file_write`: at every point
of the trace, and after any number of interrupted recoveries, the disk recovers
to a sound file system that holds a whole number of chunks of the write and
every other file unchanged (`Files.FileWrite` with `Files.WriteSurvives`). The
same is proved of `sys_unlink`, `sys_link`, `sys_mkdir` and creation by
`sys_open`, each from its path argument down to sectors: the tree of names
afterwards is given exactly, and what a user of the tree sees of it is stated
apart from how it is computed (the path now leads to the inode, or nowhere; no
other name and no other file's contents change; an inode with no name and no
reference left is out of use, its blocks free). Link counts are right exactly
under a stated condition, the transaction fits the log, and a crash anywhere
leaves the tree before or after (`SysUnlink.Unlink`, `SysLink.Link`,
`SysCreate.Create` with `TreeLaws` and `Namespace.TreeSurvives`).

**Threads.** Index-linked thread queues refine disjoint sequences; the
scheduler over them is a state machine with bounded waiting, in which a sleeper
stays asleep until its own channel is woken; sleeping and waking on channels is
also a protocol over single lock operations, for any number of agents in any
interleaving; the IDE queue is served in order.

**Memory.** The BIOS memory map, the page table of permissions, the page
allocator and its cursor, the quota tree, two-level page tables kept in physical
pages, copying between kernel and user memory, and the ELF loader. Physical
memory is 2^20 pages of 4096 raw bytes; page tables are words in those pages.

Global variables of the C code that are updated in place are classes here, and
its loops are loops. `KERN_PANIC` is a stop: a panic that the caller must avoid
is a precondition, and one that cannot happen is shown unreachable.

## Layout

| files | part |
|---|---|
| `Sectors` `BufCache` `LogSpec` `Log` | sectors, buffer cache, redo log and recovery |
| `FsSpec` `FsInv` `FsSteps` `Blocks` `BlockMap` `Inodes` `Trunc` `Files` | on-disk layout, its invariant, allocation, inode contents, open files |
| `DirSpec` `Dirs` `PathSpec` `InodeCache` `Walks` `Paths` | directories, inode cache, path resolution |
| `LinkSpec` `Links` `TreeLaws` `TreeOf` `TreeSteps` | the tree of names with its link counts, what a call may do to it, and the steps on disk that change it |
| `Namespace` `SysUnlink` `SysLink` `SysCreate` `Mkfs` | system calls on names as transactions, and the file system they start from |
| `ThreadQueues` `Scheduling` `Threads` `Monitors` `Ide` | queues, scheduler, sleep and wakeup, disk requests |
| `MemMap` `PageAlloc` `Containers` | memory map, page allocator, quotas |
| `Frames` `PageTables` `AddressSpaces` `Boot` `UserCopy` `Elf` | pages, page tables, mapping, start-up, user memory, loader |

`dafny verify dfyconfig.toml` checks everything.

## Facts about the code worth knowing

- `container_can_consume` adds in 32 bits. `Containers.CanConsumeExact` states
  exactly when it answers rightly.
- `pmmap_merge` does not look again at a region that has absorbed one.
  `MemMap.MergedFully` states exactly when the result is fully merged, and
  `MemMap.ChainOfThree` is an input where it is not.
- `palloc` does not wrap around. `PageAlloc.AllocatesAbove` states exactly when
  it fails, and `PageAlloc.SecondTrySucceeds` that the next call then succeeds.
- Link counts are right after `create` exactly when nothing was made, or the
  directory is still linked and, for a subdirectory, its 16-bit count does not
  overflow (`SysCreate.Create`); after `sys_link` exactly when no name was added,
  or the directory is still linked and the file's count does not overflow
  (`SysLink.Link`). From a working directory that is linked only the overflow is
  left (`SysCreate.LinkedCreates`, `SysLink.LinkedLinks`). `sys_unlink` keeps them
  right always.
- A directory that was removed while in use keeps its "..", whose inode may be
  gone. A path is stuck there, at the "no type" panic or at an inode that goes
  out of use, exactly when a run of dots leads it out of the tree
  (`Walks.StuckExactly`); from a linked start it never is (`Walks.LinkedResolve`).
- The range check of `pt_copyin` and `pt_copyout` adds in 32 bits.
  `UserCopy.CheckExact` states which ranges it admits besides those in user
  memory, and `UserCopy.CheckWraps` is one.
- `mkfs` rounds the size of the root up to the next block even when it fills its
  last one; this leaves a hole exactly then (`Mkfs.RoundingExact`).
- A path element of 14 bytes or more is cut to 13 bytes by `skipelem`, so the cut
  to 14 in `dir_link` has no further effect (`PathSpec.ClippedName`).
- When a page cannot be had, `pt_copyin`, `pt_copyout` and `pt_memset` go on
  through physical page 0; the model does the same, and no process can tell
  (`UserCopy.PutUnseen`).

## Model

| member | source | states |
|---|---|---|
| BufCache.BufCache.constructor | kern/fs/bufcache.c:38-54 | the ring links all ten buffers once, nothing is cached, and every sector is seen as on disk |
| BufCache.BufCache.Get | kern/fs/bufcache.c:61-92 | returns the one buffer of a cached sector, else recycles the least recently released buffer that is neither busy nor dirty; no other sector loses its buffer |
| BufCache.BufCache.Read | kern/fs/bufcache.c:97-106 | the data is what was last left in the cache for the sector, else the disk's |
| BufCache.BufCache.Write | kern/fs/bufcache.c:111-118 | one sector write: the disk and the trace change in that sector alone |
| BufCache.BufCache.Release | kern/fs/bufcache.c:124-142 | the ring stays a permutation of all buffers, with the released one first |
| BufCache.UnlinkThreaded | kern/fs/bufcache.c:131-132 | taking a node out of the doubly linked ring leaves a ring of the others in order |
| BufCache.PushThreaded | kern/fs/bufcache.c:133-136 | putting a node in at the head leaves a ring with it first |
| BufCache.PinnedBound | kern/fs/bufcache.c:82-91 | with fewer than NBUF sectors held or dirty, some buffer can be recycled, so the panic is not reached |
| LogSpec.HeaderRoundTrip | kern/fs/log.c:85-113 | the header block written for a list of sectors reads back as that list |
| LogSpec.ReplayTwice | kern/fs/log.c:69-82 | replaying a log over a disk on which part of it was already replayed gives the same disk |
| LogSpec.CommitPoint | kern/fs/log.c:98-113 | writing the header changes what the disk stands for to exactly the contents with the logged blocks |
| LogSpec.RecoveryStep | kern/fs/log.c:115-122 | no write of recovery changes what the disk stands for; the last leaves it in the home sectors under an empty header |
| LogSpec.CrashesKeepContents | kern/fs/log.c:115-122 | any series of recoveries, each cut off anywhere, keeps what the disk stands for |
| LogSpec.RecoveryIdempotent | kern/fs/log.c:115-122 | after any number of crashes at any points, the recovery that completes ends with n = 0 and home sectors as at the first crash |
| Log.Log.Begin | kern/fs/log.c:124-133 | opens the one transaction; contents and disk are untouched |
| Log.Log.LogWrite | kern/fs/log.c:159-181 | the contents change in one sector, its first write takes a log slot and later ones are absorbed, and every disk write so far still stands for the contents before the transaction |
| Log.Log.WriteHead | kern/fs/log.c:101-113 | one sector write, of the header for the logged sectors |
| Log.Log.ReadHead | kern/fs/log.c:85-96 | the in-memory header becomes the committed one |
| Log.Log.InstallTrans | kern/fs/log.c:69-82 | each committed block is copied home, in order, one sector write each, none changing what the disk stands for |
| Log.Log.Recover | kern/fs/log.c:115-122 | ends with an empty header and home sectors equal to what the disk stood for |
| Log.Log.Commit | kern/fs/log.c:135-149 | the writes of the transaction stand for the old contents up to one point and for the new contents from there on; afterwards the home sectors are the new contents |
| Blocks.LogInit | kern/fs/log.c:53-66 | the log's place comes off the superblock; afterwards the home sectors are what the disk stood for, under an empty header |
| FsSpec.DinodeOfPut | kern/fs/inode.c:63-79 | storing an inode into its block reads back as that inode and leaves the other seven alone |
| Blocks.BlockZero | kern/fs/block.c:18-27 | the block reads as zeros, in the transaction |
| Blocks.BlockAlloc | kern/fs/block.c:30-54 | returns the lowest free block, marks it, zeroes it, and changes nothing else |
| Blocks.BlockFree | kern/fs/block.c:57-73 | clears the bit of a block that is marked, and nothing else |
| BlockMap.Bmap | kern/fs/inode.c:234-262 | returns the block of a file offset, allocating it and the indirect block only when the file has none there; existing blocks of every file stay where they are and ownership stays single |
| BlockMap.BmapDirect | kern/fs/inode.c:240-244 | the direct case |
| BlockMap.BmapIndirect | kern/fs/inode.c:245-259 | the indirect case, with at most two allocations |
| Inodes.InodeUpdate | kern/fs/inode.c:63-79 | rewrites one inode of the table |
| Inodes.InodeWrite | kern/fs/inode.c:346-376 | writes all of it exactly when the offset is within the file and the end within the largest file, else returns -1 with nothing changed; the contents are spliced at the offset, the size and blocks grow together, every other file is unchanged, and the inode and its disk copy agree |
| Inodes.InodeRead | kern/fs/inode.c:317-341 | -1 exactly when the offset is past the end or the sum wraps; otherwise min(n, size - off) bytes, those of the contents from the offset on, allocating, logging and changing nothing |
| FsInv.FrameInode | kern/fs/inode.c:234-262 | an inode none of whose sectors changed keeps its blocks and its contents |
| FsSteps.HookGrow | kern/fs/inode.c:240-244 | hooking a fresh block into an inode's next slot keeps every block single-owned and every other file as it was |
| FsSteps.HookGrowIndirect | kern/fs/inode.c:247-255 | the same through the indirect block |
| FsSteps.StoreOk | kern/fs/inode.c:363-369 | storing into a file's own block keeps the file-system invariant |
| FsSteps.StoreContents | kern/fs/inode.c:363-369 | storing into a file's block splices the bytes at the block's offset |
| Inodes.WroteThen | kern/fs/inode.c:363-369 | two adjoining splices are one |
| Trunc.InodeTrunc | kern/fs/inode.c:271-299 | clears exactly the bits of the inode's own blocks, each once and each set before, and leaves it empty with every other file unchanged |
| Trunc.FreeSlot | kern/fs/inode.c:278-283 | frees one slot's block, whose bit is always set, so the panic in block_free is not reached |
| Files.ChunkFits | kern/fs/file.c:132-143 | with one bitmap block, a chunk logs at most 7 sectors: bitmap, inode, indirect block and what 1536 bytes can straddle |
| Files.WriteChunk | kern/fs/file.c:141-150 | one transaction that writes the chunk, exactly when it starts within the file and ends within the largest file, or changes nothing; every disk in between stands for before or after |
| Files.FileWrite | kern/fs/file.c:124-161 | succeeds exactly when the offset is within the file and the end within the largest file; otherwise stops at the first chunk that does not fit; moves the offset by what was written, and at every sector write the disk recovers to whole chunks of a sound file system |
| Files.WriteSurvives | kern/fs/file.c:140-157 | a crash in `file_write` followed by any interrupted recoveries ends in a sound file system with a whole number of chunks |
| Files.ReadBack | kern/fs/file.c:104-161 | what was written is what is read at the same offset |
| Files.FileRead | kern/fs/file.c:104-119 | -1 exactly when not readable, past the end or wrapping; otherwise min(n, size - off) bytes at the offset, which moves past them; the disk is untouched |
| Mkfs.Make | kern/fs/mkfs.c:96-170 | without files to copy: superblock, root inode, its block with the two dots, and a bitmap that marks exactly the blocks in use |
| Mkfs.Balloc | kern/fs/mkfs.c:245-259 | exactly the first bits are set |
| Mkfs.RootInOrder | kern/fs/mkfs.c:119-167 | what it makes is a sound file system whose tree is a root that is its own parent, with right link counts |
| Mkfs.RoundingExact | kern/fs/mkfs.c:160-165 | the rounded size fits the root's blocks exactly when its entries did not fill the last one |
| DirSpec.SameNameIs | kern/fs/dir.c:9-13 | the name comparison is equality of the names a field can hold |
| DirSpec.NameFieldHolds | kern/fs/dir.c:67 | a name copied into a field reads back, cut to 14 bytes |
| DirSpec.SearchIsLookup | kern/fs/dir.c:28-42 | the first matching entry is the value of the directory's map, and there is none exactly when the name is not in it |
| DirSpec.LinkMap | kern/fs/dir.c:59-69 | writing an entry under a new name adds that pair to the map and keeps names apart |
| DirSpec.UnlinkMap | kern/fs/sysfile.c:268-270 | clearing an entry takes its name out of the map |
| DirSpec.EmptyMeansTwoNames | kern/fs/sysfile.c:219-232 | no live entry past the first two means the map has only their names |
| Dirs.DirLookup | kern/fs/dir.c:19-43 | the number and the offset for the name in the directory's contents, or none |
| Dirs.DirLink | kern/fs/dir.c:46-73 | refuses a name that is there; otherwise the map gains the pair and every other file is unchanged |
| Dirs.DirClear | kern/fs/sysfile.c:268-270 | the name leaves the map and every other file is unchanged |
| Dirs.IsDirEmpty | kern/fs/sysfile.c:219-232 | true exactly when only the first two names are left |
| PathSpec.JoinedPieces | kern/fs/path.c:20-35 | the reference split: joining the pieces with slashes gives the path back, and no piece has a slash |
| PathSpec.ElementsArePieces | kern/fs/path.c:20-62 | repeated skipping yields exactly the non-empty pieces between slashes |
| PathSpec.SkipElem | kern/fs/path.c:36-62 | hands out the prefix of the next element that is 13 bytes long, or all of a shorter one, and the place of the one after, or says there is none |
| PathSpec.ClippedName | kern/fs/path.c:51-58 | an element cut to 13 bytes fits a directory field whole |
| InodeCache.InodeCache.Get | kern/fs/inode.c:86-117 | one more reference to the inode in its one slot, or in an empty slot; every other count is unchanged |
| InodeCache.InodeCache.Dup | kern/fs/inode.c:123-130 | one more reference, all other counts unchanged |
| InodeCache.InodeCache.Put | kern/fs/inode.c:207 | the count that `inode_put` lowers: all other counts unchanged, the slot empty when it was the last |
| InodeCache.RefsGiveEmpty | kern/fs/inode.c:86-117 | how many slots are empty follows from the reference counts, so calls that give back what they took leak no slot |
| Walks.LinkedResolve | kern/fs/path.c:69-107 | from an inode with links, a path is never stuck and its answer has links |
| Walks.LeadsExactly | kern/fs/path.c:83-106 | from an inode with links, a path leads to an inode exactly when there is a trail of directories, each holding the next under the element's first 13 bytes; it leads nowhere exactly when there is none |
| Walks.ShortLeads | kern/fs/path.c:51-58 | a path whose elements have at most 13 bytes leads where the elements themselves lead |
| Walks.ParentExactly | kern/fs/path.c:90-95 | the same of the parent: the trail of all elements but the last, to a directory |
| Walks.TrailUnique | kern/fs/path.c:83-101 | there is at most one trail |
| Walks.StuckExactly | kern/fs/path.c:83-101 | a walk is stuck exactly when a run of dots leads up through unlinked directories to an inode that is not in use, or that only the walk keeps in use, with an element to spare |
| Walks.ResolveStuckExactly | kern/fs/path.c:69-107 | the same of the whole resolution, with the parent rule |
| Paths.LockInode | kern/fs/inode.c:136-166 | reads the inode unless the cache has a copy, which is then the inode of the table; fails exactly on an inode not in use |
| Paths.Round | kern/fs/path.c:83-101 | one element: lock, type, parent test, lookup, and the references exchanged; the answer is known or the walk is one element on |
| Paths.NameX | kern/fs/path.c:69-107 | the answer is where the elements lead in the tree on disk, with the parent rule; every reference count is as before but for one more to the answer; it says when the walk is stuck |
| TreeOf.OneNode | kern/fs/inode.c:346-376 | an operation on one file of the disk changes one node of the tree of inodes and names |
| TreeSteps.SetLinks | kern/fs/inode.c:63-79 | rewriting a link count changes one node of the tree, and no file's contents or blocks |
| TreeSteps.InodeAlloc | kern/fs/inode.c:35-58 | takes the lowest inode not in use, cleared and typed, with a reference; one node of the tree changes and no block is lost |
| TreeSteps.AddName | kern/fs/dir.c:46-73 | `dir_link` on disk adds one name in the tree or refuses; what it logs and allocates is counted |
| TreeSteps.ClearName | kern/fs/sysfile.c:268-270 | clearing an entry on disk removes one name in the tree; the dots stay first |
| TreeSteps.IsEmpty | kern/fs/sysfile.c:219-232 | true exactly when no names but the dots are left |
| TreeSteps.InodePut | kern/fs/inode.c:190-219 | one reference fewer; the last one to an inode without links leaves it with type 0 and size 0 and frees exactly its blocks, and nothing else does; every other file is as it was |
| TreeSteps.PutRewrites | kern/fs/inode.c:63-79 | an inode rewritten with its size and blocks as they were keeps the file-system invariant, the free blocks and every file |
| LinkSpec.NamedIsLinked | kern/fs/sysfile.c:257-262 | an inode found under a name has a link, so the "nlink < 1" panic is not reached |
| LinkSpec.EmptyDirCount | kern/fs/sysfile.c:263-280 | an empty directory has exactly one link, from its parent |
| LinkSpec.NotSelf | kern/fs/sysfile.c:257-259 | no directory holds itself under a name, so the two locks are never of one inode |
| Links.CreatedExact | kern/fs/sysfile.c:313-332 | in the tree, counts are right after a creation exactly when the directory is linked and its count has room |
| Links.LinkedExact | kern/fs/sysfile.c:186-194 | and after a link exactly when the directory is linked and the file's count has room |
| Links.UnlinkedOk | kern/fs/sysfile.c:268-278 | unlinking keeps counts and shape |
| Links.DroppedOk | kern/fs/inode.c:194-206 | taking an inode without links out of use makes no count right or wrong and leaves no name dangling |
| Links.CreatedInDead | kern/fs/sysfile.c:313-332 | creating in an unlinked directory leaves some link count wrong |
| Links.LinkedInDead | kern/fs/sysfile.c:186-194 | so does linking into one |
| Links.RootOnly | kern/fs/mkfs.c:119-130 | a tree of a root alone is in shape with right counts |
| TreeLaws.PathFound | kern/fs/sysfile.c:189-206 | a name put where a path's parent is makes the path lead to its inode |
| TreeLaws.PathGone | kern/fs/sysfile.c:268-270 | a name taken from there leaves the path nowhere to lead |
| TreeLaws.DroppedOrphans | kern/fs/inode.c:190-219 | giving back a reference leaves no inode in use that has no link and no reference, unless it was so before |
| Namespace.StepLinks | kern/fs/sysfile.c:186-187 | `nlink++` and `nlink--` on 16 bits, in memory and on disk |
| Namespace.CommitTree | kern/fs/log.c:135-149 | a transaction within its 7 sectors commits, and every disk since it began stands for the tree before or after |
| Namespace.TreeSurvives | kern/fs/sysfile.c:160-417 | a crash at any sector write of a call on names, then any interrupted recoveries, ends in a sound file system with right link counts and the tree before or after |
| Namespace.Restart | kern/fs/log.c:53-66 | after a crash, start-up finds again what the disk stood for, idle and in order |
| Namespace.RemovedFrees | kern/fs/inode.c:194-206 | the blocks that become free are exactly those of the inode that went, if one did |
| SysUnlink.RemoveEntry | kern/fs/sysfile.c:268-279 | the entry, the parent's link for a subdirectory and the inode's link go; the tree is exactly the unlinked one, with the inode gone if that was all that kept it |
| SysUnlink.Unlink | kern/fs/sysfile.c:234-291 | from the path on: refuses dots, missing names and directories with names left; otherwise the path leads nowhere and no other name changes; the inode goes out of use, and its blocks are free, exactly if that was its last name and nobody refers to it; every other file keeps its contents; link counts are always right, no inode is left in use unreachable, no reference is kept, and every disk on the way stands for before or after |
| SysUnlink.UnlinkNames | kern/fs/sysfile.c:250-287 | the same of the tree |
| SysUnlink.UnlinkOrphans | kern/fs/sysfile.c:250-291 | whether or not the name goes, no inode is left in use that nothing leads to |
| SysUnlink.UnlinkIn | kern/fs/sysfile.c:250-287 | within the transaction: the same of the directory and name, and the sectors logged stay within 7, so the log-full panic is not reached |
| SysLink.LinkIn | kern/fs/sysfile.c:178-213 | within the transaction: refuses directories, undoes the raised count when no name is added, otherwise adds the name; the sectors logged stay within 7 |
| SysLink.Link | kern/fs/sysfile.c:163-214 | from both paths on: link counts are right exactly when no name was added or the directory is linked and the count has room, and then the new path leads to the file and no other name changes; the file's contents and those of every other are untouched; a call that fails leaves the tree as it was, if the inodes it met are linked; no reference kept, before or after at every sector write |
| SysLink.LinkNames | kern/fs/sysfile.c:186-206 | the same of the tree |
| SysLink.FailedLink | kern/fs/sysfile.c:208-213 | a link that fails leaves the tree as it was, if the inodes it met are linked |
| SysLink.LinkDoneOk | kern/fs/sysfile.c:186-213 | the exact condition, of the trees |
| SysLink.LinkedLinks | kern/fs/sysfile.c:190-194 | from a linked working directory it does not panic on the way, and only an overflow makes counts wrong |
| SysCreate.MakeDir | kern/fs/sysfile.c:322-329 | the new directory gets exactly its dots, first, and the parent one link |
| SysCreate.MakeNew | kern/fs/sysfile.c:313-334 | the tree is exactly the one with the new inode under the new name; neither panic is reached |
| SysCreate.OpenFound | kern/fs/sysfile.c:304-311 | a name that is there: a file is opened if a file was asked for, all else refused, and what was referred to is put back |
| SysCreate.CreateTreeOk | kern/fs/sysfile.c:293-337 | link counts are right afterwards exactly when nothing was made, or the directory is linked and has room for the link |
| SysCreate.Create | kern/fs/sysfile.c:293-417 | `sys_mkdir`, and `sys_open` with O_CREATE up to the descriptor, from the path on: a name that was not there now leads to an inode that was not in use, an empty file or a directory with its two dots, and no other name and no other file's contents change; a name that was there is found or refused with nothing changed; the exact condition for right link counts, one reference to a file and none to a directory, before or after at every sector write |
| SysCreate.CreateNames | kern/fs/sysfile.c:313-334 | the same of the tree, for a new name |
| SysCreate.CreateFinds | kern/fs/sysfile.c:302-311 | and for one that is there |
| SysCreate.CreateOrphans | kern/fs/sysfile.c:293-337 | no inode is left in use that nothing leads to |
| SysCreate.CreateFrom | kern/fs/sysfile.c:293-337 | within the transaction: what is made or refused, and the sectors logged stay within 7 |
| SysCreate.LinkedCreates | kern/fs/sysfile.c:300-332 | from a linked working directory it does not panic, and only an overflow makes counts wrong |
| ThreadQueues.TQueue.constructor | kern/thread/PTQueueInit/PTQueueInit.c:9-25 | all queues empty |
| ThreadQueues.TQueue.Enqueue | kern/thread/PTQueueInit/PTQueueInit.c:33-50 | appends to one sequence, leaves the others |
| ThreadQueues.TQueue.Dequeue | kern/thread/PTQueueInit/PTQueueInit.c:57-80 | removes and returns the head, or NUM_IDS from an empty queue |
| ThreadQueues.TQueue.Remove | kern/thread/PTQueueInit/PTQueueInit.c:86-113 | deletes the member, wherever it is |
| ThreadQueues.Disjoint | kern/thread/PTQueueInit/PTQueueInit.c:27-113 | no thread is in two queues or twice in one |
| ThreadQueues.NeighboursDiffer | kern/thread/PTQueueInit/PTQueueInit.c:106-107 | a queued thread's neighbours differ, so the guard never skips the update |
| Scheduling.StepKeeps | kern/thread/PThread/PThread.c:33-154 | every step keeps: the ready queue holds exactly the ready threads, each once, and apart from thread 0 only the current thread runs |
| Scheduling.RingStep | kern/thread/PThread/PThread.c:33-154 | how each step moves the ring of current and ready threads: joining at the back, front to back, leaving from the front; a wakeup adds exactly the sleepers of its channel, by number |
| Scheduling.ThreadStep | kern/thread/PThread/PThread.c:33-154 | a thread falls asleep only by its own call, with that channel; a sleeper stays on its channel until a wakeup on it, which makes it ready; the living never die |
| Scheduling.SleepsUntilWoken | kern/thread/PThread/PThread.c:100-154 | in every run, the thread that calls sleep on a channel is asleep on it, neither ready nor current, until the first wakeup on that channel, which puts it on the ready queue |
| Scheduling.BootThreadStays | kern/init/init.c:53-58 | thread 0 runs in name for ever and is never scheduled again |
| Scheduling.IdleAllowsSleep | kern/thread/PThread/PThread.c:118-125 | while one thread never sleeps, any other finds a non-empty ready queue |
| Scheduling.WaitStep | kern/thread/PThread/PThread.c:57-93 | a waiting thread moves up one place at each switch and at nothing else |
| Scheduling.BoundedWaiting | kern/thread/PThread/PThread.c:57-93 | a thread at position k becomes current at exactly the (k+1)-th switch, whatever happens between |
| Scheduling.TicksForceSwitches | kern/thread/PThread/PThread.c:81-93 | the timer forces a switch every six ticks |
| Scheduling.RunsWithinTicks | kern/thread/PThread/PThread.c:81-93 | a thread at position k has been current within 6(k+1) ticks |
| Threads.Scheduler.constructor | kern/thread/PThread/PThread.c:15-26 | thread 0 runs, all others are dead, queues are empty |
| Threads.Scheduler.Spawn | kern/thread/PThread/PThread.c:33-46 | the new thread is ready, behind all others |
| Threads.Scheduler.Yield | kern/thread/PThread/PThread.c:57-79 | the current thread goes behind all others and the first of them runs |
| Threads.Scheduler.Update | kern/thread/PThread/PThread.c:81-93 | nothing moves until the slice is used up, then a yield |
| Threads.Scheduler.Sleep | kern/thread/PThread/PThread.c:100-127 | the caller is asleep on exactly the channel it named, and the first ready thread runs |
| Threads.Scheduler.Resume | kern/thread/PThread/PThread.c:129-136 | clears the channel of the thread that runs again |
| Threads.Scheduler.Wakeup | kern/thread/PThread/PThread.c:142-154 | readies exactly the threads asleep on the channel, in order of their numbers |
| Threads.Scheduler.HandOver | kern/init/init.c:53-58 | takes the idle thread out of the queue and makes it current |
| Monitors.StepKeeps | kern/thread/PThread/PThread.c:100-154 | every single lock operation or section of any agent keeps the protocol's invariant |
| Monitors.NoLostWakeup | kern/fs/log.c:124-149 | in every run, an agent asleep on a log, inode or buffer whose lock is free waits for a flag that is set; if it is clear, the lock's holder is about to wake it |
| Monitors.SleeperIsQueued | kern/dev/disk/ide.c:87-153 | in every run, an agent asleep in ide_rw has its buffer on the IDE queue, or is about to be woken |
| Monitors.WakerWakesAll | kern/thread/PThread/PThread.c:147-151 | a wakeup leaves nobody asleep on the channel, whichever resource they wait for |
| Monitors.MutualExclusion | kern/fs/log.c:124-149 | in every run, at most one agent is between begin_trans and commit_trans, and likewise for each inode and buffer |
| Monitors.LoopDelivers | kern/fs/log.c:124-133 | in every run, an agent past the waiting loop has what it took, marked taken, and no other has it; past the loop of ide_rw, its request is finished and off the queue; past a release, it no longer has what it released |
| Monitors.NoDeadlock | kern/thread/PThread/PThread.c:100-154 | the spinlocks never deadlock: some agent on its way can always step |
| Monitors.SleeperHasOwner | kern/fs/inode.c:136-181 | when all are outside or asleep, a sleeper's log, inode or buffer is held by an agent that has not released it |
| Ide.Ide.Submit | kern/dev/disk/ide.c:122-145 | the request goes last, and the final outcome is the old one followed by this request |
| Ide.Ide.Intr | kern/dev/disk/ide.c:87-115 | finishes the first request: a written buffer keeps its data, a read one has the disk's; starts the next, and leaves the final outcome of the queue unchanged |
| Ide.FinalExact | kern/dev/disk/ide.c:63-115 | the final outcome of a queue for different sectors: what was to be written is on disk, what was to be read is what the disk had, no other buffer or sector changes |
| Ide.Ide.Start | kern/dev/disk/ide.c:63-82 | starting a request early does not change the final outcome |
| Ide.StartKeepsFinal | kern/dev/disk/ide.c:143-145 | the same, of the queue as a value |
| MemMap.Map.Insert | kern/dev/mboot.c:56-84 | the list stays sorted by start and gains exactly the region |
| MemMap.Map.Merge | kern/dev/mboot.c:93-105 | one pass over the list, which stays sorted |
| MemMap.MergedCover | kern/dev/mboot.c:93-105 | merging keeps the set of addresses covered by each type |
| MemMap.MergedFully | kern/dev/mboot.c:93-105 | no two neighbours are left to merge exactly when no region that absorbs its neighbour reaches the one after |
| MemMap.ChainOfThree | kern/dev/mboot.c:93-105 | three overlapping regions are left as two that overlap |
| MemMap.Init | kern/dev/mboot.c:144-187 | the list covers, type by type, exactly what the BIOS reported below 4 GB, and no reported range is broken up |
| MemMap.PmemInit | kern/pmm/MATInit/MATInit.c:38-99 | NUM_PAGES is one more than the page of the furthest end of any region, and each page has the permission of its first containing region |
| MemMap.PagePerm | kern/pmm/MATInit/MATInit.c:81-96 | the search decides by the first region that contains the page |
| MemMap.UsableIsReported | kern/pmm/MATInit/MATInit.c:93-94 | every address of a page with permission 2 was reported usable, and the page is in the user range |
| MemMap.UsableExactly | kern/pmm/MATInit/MATInit.c:81-96 | a page has permission 2 exactly if it is in the user range and the first region to contain it is usable |
| MemMap.ReportedIsUsable | kern/pmm/MATInit/MATInit.c:81-96 | a user page inside one usable entry has permission 2, unless every byte of it is reported otherwise as well |
| PageAlloc.Pages.Palloc | kern/pmm/MATOp/MATOp.c:23-59 | the first free normal page above the cursor, or 0 and the cursor at the bottom; never an allocated page |
| PageAlloc.AllocatesAbove | kern/pmm/MATOp/MATOp.c:23-59 | it fails exactly when no page above the cursor is free, and otherwise uses up one of them |
| PageAlloc.SecondTrySucceeds | kern/pmm/MATOp/MATOp.c:48-54 | if it fails while a page is free, the very next call succeeds |
| PageAlloc.Pages.Pfree | kern/pmm/MATOp/MATOp.c:70-76 | clears one flag |
| Containers.CanConsumeExact | kern/pmm/MContainer/MContainer.c:82-86 | the check is right exactly when the sum does not wrap |
| Containers.ChildIdsDiffer | kern/pmm/MContainer/MContainer.c:98-99 | child ids never collide |
| Containers.NextChildUnused | kern/pmm/MContainer/MContainer.c:98-108 | the next child's container is not in use |
| Containers.Containers.constructor | kern/pmm/MContainer/MContainer.c:20-49 | the root's quota is the number of free normal pages |
| Containers.Containers.Split | kern/pmm/MContainer/MContainer.c:94-114 | within quota, usage stays within quota everywhere and free pages stay accounted for |
| Containers.Containers.Alloc | kern/pmm/MContainer/MContainer.c:122-132 | charges first; the page is fresh, or the charge is lost |
| Containers.Containers.Free | kern/pmm/MContainer/MContainer.c:135-142 | frees an allocated page and lowers the usage if it can |
| Containers.Containers.QuotaMeansPage | kern/pmm/MContainer/MContainer.c:122-132 | usage below quota means a free normal page exists |
| PageTables.SetEntry | kern/vmm/MPTIntro/MPTIntro.c:92-113 | writing an entry of a user table changes one entry of the map over all processes |
| PageTables.NewTable | kern/vmm/MPTComm/MPTComm.c:38-56 | hanging a cleared table page maps nothing |
| PageTables.IdentityMap | kern/vmm/MPTComm/MPTComm.c:10-29 | every process keeps the kernel's identity map, and process 0 all of it |
| AddressSpaces.InitIdentity | kern/vmm/MPTOp/MPTOp.c:75-96 | the identity tables, with their permissions |
| AddressSpaces.InitDirs | kern/vmm/MPTKern/MPTKern.c:10-21 | all directories: kernel slots one to one, user slots empty except for process 0 |
| AddressSpaces.Spaces.constructor | kern/vmm/MPTKern/MPTKern.c:10-21 | the invariant holds at the start and no user address is mapped |
| AddressSpaces.Spaces.AllocTable | kern/vmm/MPTComm/MPTComm.c:38-56 | a cleared table of a fresh page, or 0 and nothing changed; the map is unchanged |
| AddressSpaces.Spaces.MapPage | kern/vmm/MPTKern/MPTKern.c:30-46 | one entry of the map changes, over all processes, or none and MagicNumber |
| AddressSpaces.Spaces.UnmapPage | kern/vmm/MPTKern/MPTKern.c:56-64 | returns and clears one entry; all others are unchanged |
| AddressSpaces.Spaces.AllocPage | kern/vmm/MPTNew/MPTNew.c:17-33 | maps a page that was not allocated before, or nothing; a page whose mapping fails stays allocated; isolation is kept |
| AddressSpaces.Isolation | kern/vmm/MPTNew/MPTNew.c:17-33 | distinct user mappings use distinct allocated pages, none a page table |
| Boot.Init | kern/vmm/MPTOp/MPTOp.c:75-96 | from the BIOS map to the page tables: only pages wholly reported usable can be handed out, none is, and no user address is mapped |
| UserCopy.CheckExact | kern/lib/pmap.c:20-24 | the range check admits exactly the ranges in user memory and those that end beyond 2^32 |
| UserCopy.CheckWraps | kern/lib/pmap.c:20-21 | such a range |
| UserCopy.CopyOut | kern/lib/pmap.c:52-85 | refused exactly as the 32-bit check says; otherwise the process finds the bytes, as far as the range lies in user memory, exactly when it ends up mapped; no other address of any process changes, and no mapping, but for new ones of the process with rights P, W and U |
| UserCopy.CopyIn | kern/lib/pmap.c:17-50 | refused exactly as the 32-bit check says; otherwise what the process finds, as far as the range lies in user memory, if it ends up mapped; nothing anyone finds changes, and mappings only as for copying out |
| UserCopy.Memset | kern/lib/pmap.c:87-113 | the same for a repeated byte |
| UserCopy.RoundTrip | kern/lib/pmap.c:17-85 | out and back in gives the same bytes, for the part in user memory of every admitted range that is mapped or that there is memory to map |
| UserCopy.PutSeen | kern/lib/pmap.c:71-76 | bytes put through a present entry are found there and nowhere else |
| UserCopy.PutUnseen | kern/lib/pmap.c:66-76 | a write through an entry that is not present is found by nobody |
| Elf.LoadPage | kern/lib/elf.c:59-79 | one page: file bytes, then zeros, mapped with the rights asked for |
| Elf.LoadSegment | kern/lib/elf.c:47-79 | the pages of one segment hold its image and are mapped with P and U, and with W exactly if the segment is writable; no other mapping changes |
| Elf.Load | kern/lib/elf.c:42-80 | if memory suffices, every loadable segment is found as its file bytes followed by zeros up to p_memsz, in pages with exactly the rights of the segment; no other process finds anything changed |

## Left out

- Device drivers, port I/O, the boot loader, assembly, context switch and segment set-up: hardware effects; a context switch is a change of the current thread.
- ACPI and multiprocessor start-up, and queues per processor: one processor runs threads.
- System call argument passing, trap dispatch and `sys_spawn`: its guards are preconditions of `Containers.Containers.Split`.
- printf, string helpers, the console and user programs: only easy members.
- Read errors of the disk: the disk is taken to be free of errors.
- T_DEV inodes, `inode_stat` and `file_stat`.
- `file_alloc`, `file_dup`, `file_close`: plain counters.
- `free_ptbl`: it has no caller in the kernel proper.
- The sublists by type and `max_usable_memory` in `pmmap_merge`: not used by `pmem_init`.
- `sys_chdir`, and what `sys_open` does with the inode: file descriptors.
- More than one device, and the comparison of devices in `sys_link`.
- Calls on names running at the same time: each runs alone here, and the locks between them are in `Monitors`.
- Paths.NameX: a walk that is stuck is not followed further, since the code panics there, or frees an inode outside a transaction.
- SysUnlink.Unlink: requires one bitmap block, for the bound of 7 sectors.
- SysLink.Link: requires one bitmap block, at most 65536 inodes (entries hold 16 bits), and room for a new entry, without which the code panics.
- SysCreate.Create: requires one bitmap block, at most 65536 inodes, and a free inode and room for a new entry, without which the code panics.
- Mkfs.Make: copies no files into the image.
- Blocks.BlockAlloc: requires a free block below the log area, since the code has no answer when there is none.
- Files.FileWrite: requires enough free blocks for the whole write and one bitmap block, for the same reason and for the bound of 7 sectors.
- Files.WriteChunk: the same for a chunk.
- UserCopy.CopyOut: of a range that wraps past 2^32, what is done beyond VM_USERHI is not modelled.
- UserCopy.CopyIn: the same.
- UserCopy.Memset: requires a range in user memory; the code checks nothing, and its one caller passes such ranges.
- Elf.Load: requires loadable segments that lie in user memory and in the file and share no page; the code checks none of this.
- MemMap.Init: requires at most 128 entries below 4 GB, beyond which the code panics.
- Boot.Init: requires at least one entry below 4 GB.
- Log.Log.Begin: requires that no transaction is open; waiting for one is modelled in Monitors.
- BufCache.BufCache.Get: requires that the sector is not held; waiting for its holder is modelled in Monitors.
- Scheduling.RunsWithinTicks: ticks come one at a time, as LAPIC_TIMER_INTR_FREQ is 1000.
