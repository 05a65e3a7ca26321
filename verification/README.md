# Verification of the kernel's file system, memory and process layers

This project models the layers of an x86 teaching kernel in the xv6 line, extended
with containers, mutexes and priority queues, and proves what the layers promise.
Each part takes the form of the code. What the kernel updates in place is a class
with methods and loops; a protocol between processes is a state machine over its
steps; and the theorems are about the functions and states that the methods are
tied to.

- **Log** (`Blocks`, `Replay`, `RedoLog`, `Log`, `LogProtocol`, `Durability`, `DurableRuns`):
  commit and recovery as sequences of atomic block writes that a crash can cut anywhere, the
  interleavings of begin_op, log_write, end_op and commit, and both together: what is on
  the disk is the work of exactly the committed operations.
- **Buffer cache** (`LruList`, `BufferCache`, `BufferUsers`): the linked ring, references
  and recycling, on the synchronous disk of memide.c, and processes that take turns at it.
- **Files** (`DiskFormat`, `Ownership`, `FileData`, `FileSteps`, `FileCosts`, `FileSystem`):
  bitmap, inodes, direct and indirect blocks; a file is a sequence of bytes; and what a
  write costs in free blocks and in blocks logged.
- **Directories and paths** (`DirTree`, `DirNames`, `FileTree`, `DirFile`, `Paths`, `Container`,
  `ContainerRuns`, `Inodes`, `InodeLife`): link counts, the tree, directories as bytes, the
  inode cache, when an inode is freed, and path walking under a container root.
- **Locks** (`SleepWakeup`, `LockCalls`): sleep and wakeup under sleep locks and mutexes, and
  what a whole call does.
- **Memory** (`FreeList`, `Umalloc`, `Frames`, `Spaces`, `SpaceSteps`, `VirtualMemory`): the
  user heap, and page tables that live in the same memory as the list of free frames.
- **Smaller machines** (`Json`, `JsonText`, `JsonCuts`, `Jsmn`, `Grep`, `Pipe`, `PipeRuns`,
  `PipeCalls`, `RingQueues`, `Strings`).

`dafny verify dfyconfig.toml` checks everything.

Some promises do not hold of the code as it stands. There the model keeps the code,
a lemma gives an input that shows it, and another says exactly when the promise holds:

- the check of log_write outside its lock: `LogProtocol.SplitCheckOverflows`, `LogProtocol.FitsIff`;
- a list that overruns the log: `RedoLog.OverflowHits`, `RedoLog.WriteLogKeepsIff`;
- the size of a chunk in filewrite: `FileSystem.ElevenBlocks`, `FileSystem.Fs.WriteSome`
  (a comment in param.h has MAXOPBLOCKS as the most blocks that an operation writes; filewrite can
  log one more);
- creation in an unlinked directory: `DirTree.UnlinkedExample`, `DirTree.CreateKeepsIff`;
- ".." of an unlinked directory: `InodeLife.DotDotGone`, `InodeLife.RunIff`;
- confinement while others change the tree: `ContainerRuns.Escape`, `ContainerRuns.RunConfinedIff`;
- setroot without chdir: `Container.SetrootNeedsChdir`, `Container.SetrootConfines`;
- references after a failed fork and after exit: `Inodes.Icache.ForkPlace`, `Inodes.Icache.ExitPlace`;
- the wakeup that a killed writer owes: `PipeRuns.LostWakeup`, `PipeRuns.RunIff`;
- the frame that copyuvm loses: `VirtualMemory.LostByFork`, `VirtualMemory.Vm.Copyuvm`;
- requests of 2^31 bytes to malloc: `Umalloc.AskedBackwards`, `Umalloc.AskedIff`;
- the full test of fp_enqueue: `RingQueues.FullTest`, `RingQueues.LosesNothingIff`.

`RedoLog.CrashSafety` and `DurableRuns.Durable` take the transactions they commit to fit in
the log, with fewer blocks than log.size. By `LogProtocol.FitsIff` that always holds in a
log of more than LOGSIZE blocks, and a run can break it on the disk that mkfs makes, whose
log has LOGSIZE blocks.

A panic is a result of its own (a `false`, a bound or a flag), except where it is
proved not to occur. Clocks, interrupts, devices and the order in which processes run
are left open: whatever they do, the theorems hold.

## Model

| member | source | states |
|---|---|---|
| `RedoLog.HeadRoundTrip` | log.c:85-112 | writing a block list into a header block and reading it back gives the list, whatever the block held before |
| `RedoLog.RecoveryMeans` | log.c:115-121 | a crash after any number of the writes of recovery leaves what the disk means as it was, and a completed recovery leaves the log empty |
| `RedoLog.CommitMeans` | log.c:176-200 | a crash after any number of the writes of commit leaves the home blocks all old or all new, and which of the two depends only on whether the first write of the header reached the disk |
| `RedoLog.CrashSafety` | log.c:69-121 | over every history of commits, crashes between any two block writes and recoveries that are themselves cut any number of times, the home blocks of a machine that is up are those of a disk on which each transaction whose header was written happened at once, in order, and no other |
| `RedoLog.WriteLogKeepsIff` | log.c:176-188 | whatever the length of the list, a crash after write_log leaves the home blocks as they were if and only if each entry that does not fit in the log, and so goes to a block behind it, has the bytes that were there |
| `RedoLog.OverflowHits` | log.c:176-188 | a list of log.size blocks: its last entry goes to the first block behind the log, a home block, and recovery leaves it there |
| `Replay.InstallPrefix` | log.c:69-81 | after k writes of install_trans exactly the blocks named by the first k entries hold their log copy, and the log itself is untouched |
| `Replay.ReplayCut` | log.c:115-121 | k writes into install and clear, replaying what is left of the log gives what replaying all of it gave, or the log is installed and empty |
| `Replay.LoggedReplays` | log.c:176-188 | filling log blocks changes nothing that the disk means |
| `Replay.PreparedReplays` | log.c:101-112 | a header that names the filled log blocks makes the disk mean all of the transaction |
| `Log.Log.constructor` | log.c:54-66 | initlog issues exactly the writes of a recovery and leaves a log with no block in its list and nothing outstanding |
| `Log.Log.LogWrite` | log.c:212-228 | panics exactly when the list is full or no operation is outstanding; otherwise the block is in the list once, appended or absorbed, and the cached contents have the new data |
| `Log.Log.WriteLog` | log.c:176-188 | issues exactly the writes that copy the cached blocks into the log, in order |
| `Log.Log.WriteHead` | log.c:101-112 | issues one write, of the header block on disk with the list put into it |
| `Log.Log.InstallTrans` | log.c:69-81 | issues exactly the writes that copy the log blocks home, in order, and leaves those buffers clean |
| `Log.Log.ReadHead` | log.c:85-95 | the list in memory is the list in the header block |
| `Log.Log.RecoverFromLog` | log.c:115-121 | issues exactly the writes of a recovery, which RedoLog.RecoveryMeans is about, and leaves the log empty in memory and on disk |
| `Log.Log.CommitLogged` | log.c:191-200 | issues exactly the writes of a commit, which RedoLog.CommitMeans is about |
| `Log.Log.Commit` | log.c:191-200 | every home block on disk is as the cache had it, no buffer is dirty, the log is empty in memory and on disk, and nothing at all is written when no block was logged |
| `LogProtocol.StepInv` | log.c:125-172 | each step of begin_op, log_write, end_op and commit by any process keeps the invariant: counts, reservations, wakeups and the history of commits |
| `LogProtocol.RunInv` | log.c:125-228 | so it holds in every interleaving of any number of processes |
| `LogProtocol.CommitsAlone` | log.c:125-228 | in every interleaving, while a commit is under way no operation is outstanding and no process can log a block, begin or end an operation, and the block list has no duplicates and at most LOGSIZE entries if each operation adds at most MAXOPBLOCKS |
| `LogProtocol.CommitsWhole` | log.c:145-172 | in every interleaving each commit writes exactly the blocks that a set of finished operations logged, and no operation is split over two commits |
| `LogProtocol.NoLostBegin` | log.c:125-140 | in every interleaving a process asleep in begin_op has a wakeup coming, and once nothing is outstanding or committing begin_op goes through |
| `LogProtocol.AtomicCheckFits` | log.c:212-228 | if the check of log_write and its append were one step, the list would always fit in the log.size - 1 blocks after the header |
| `LogProtocol.SplitCheckOverflows` | log.c:212-228 | as the code stands, with the check before the lock is taken, there is a run in which two processes, whose operations each log at most MAXOPBLOCKS blocks, fill LOGSIZE entries on a disk whose log.size is LOGSIZE, as mkfs makes it: one more than there is room for |
| `LogProtocol.Overflows` | log.c:212-228 | the same on every log of 2 to LOGSIZE blocks, for any two or more processes: some run lists log.size blocks |
| `LogProtocol.FitsIff` | log.c:212-228 | exactly when the check does what it is for: in all runs of n processes the list fits behind the header if and only if the log has more than LOGSIZE blocks, or the header only, or there is at most one process |
| `Durability.EventKeeps` | log.c:115-228 | each step of a process, each commit, and each crash and recovery, cut at any write, keeps what the disk means equal to the updates of the committed operations |
| `Durability.CommitGoesThrough` | log.c:191-200 | in a log of more than LOGSIZE blocks the transaction to commit always fits |
| `Durability.CommitEffect` | log.c:212-228 | the listed blocks, put over what was committed, give what the cache has: every block that a current operation changed is in the list |
| `DurableRuns.Durable` | log.c:115-228 | over every interleaving of operations and every crash, with operation, block and bytes of each log_write read off the events alone: a machine that is up has on its home blocks the log_writes of exactly the operations whose transaction had its header written, in order, and in its cache those of the open operations too; no operation is both, and with none under way none is open |
| `DurableRuns.EventAgrees` | log.c:115-228 | each event leaves the machine with the operations, blocks and commits that the events say: a process logs the block it passed the size check for, under its latest begin_op |
| `DurableRuns.StaysCommitted` | log.c:191-200 | a committed operation stays committed, and a log_write once made stays in the record, through all later steps, crashes and recoveries |
| `LruList.RemoveRing` | bio.c:120-139 | unlinking a buffer leaves the doubly linked ring of all the others, in the same order |
| `LruList.PushRing` | bio.c:39-56 | linking a buffer in after the head leaves the ring with that buffer first |
| `BufferCache.Cache.constructor` | bio.c:39-56 | binit leaves a doubly linked ring that is a permutation of all NBUF buffers |
| `BufferCache.Cache.FindCached` | bio.c:69-76 | finds the one buffer of the block if there is one |
| `BufferCache.Cache.FindUnused` | bio.c:81-91 | finds the unused clean buffer nearest to the end of the list |
| `BufferCache.Cache.Bget` | bio.c:62-93 | a reference to the one buffer of the block; a buffer is recycled only if it is unused and clean, and then the one released longest ago; no contents are lost |
| `BufferCache.Cache.Iderw` | memide.c:39-56 | a dirty buffer goes to disk and becomes clean, an invalid one is filled from disk, and anything else panics |
| `BufferCache.Cache.Bread` | bio.c:97-106 | a locked buffer with the last data written or logged for the block; panics exactly if no buffer has the block and none can be recycled, or the driver has no such block |
| `BufferCache.Cache.Enter` | bio.c:97-106 | the same when other processes held the buffer between the lookup and the lock |
| `BufferCache.Cache.Bwrite` | bio.c:110-115 | the data is on disk |
| `BufferCache.Cache.Pin` | log.c:226-227 | the new data is the contents of the block from now on, and the buffer is not recycled |
| `BufferCache.Cache.MoveToFront` | bio.c:128-136 | the ring with the buffer first and the others in the same order |
| `BufferCache.Cache.Brelse` | bio.c:120-139 | panics exactly when the lock is not held; the reference is dropped, and with the last one the buffer becomes the most recently released and goes to the front of the list |
| `BufferUsers.Users.constructor` | bio.c:39-56 | after binit nobody has a reference |
| `BufferUsers.Users.Get` | bio.c:62-93 | a process gets a reference, reference counts are the numbers of references, and every reference, of any process, is to a buffer that still has the block it was taken for; panics exactly if no buffer has the block and none can be recycled |
| `BufferUsers.Users.Lock` | bio.c:97-106 | however many steps of others came in between, the buffer is that of the block asked for, with its last contents |
| `BufferUsers.Users.Update` | log.c:212-228 | the holder's bytes become the contents of the block by log_write, and what others hold is as it was |
| `BufferUsers.Users.Store` | bio.c:110-115 | the same by bwrite, and the bytes are on the disk |
| `BufferUsers.Users.Unlock` | bio.c:120-124 | the first half of brelse by the holder: the lock is free for others, and the counts and every other reference stand |
| `BufferUsers.Users.Drop` | bio.c:126-138 | the second half, whoever has taken the lock in between: the reference is gone and the others stand |
| `BufferUsers.DropCounted` | bio.c:120-139 | between the halves a buffer that is locked again has another reference, so that it is not released under its new holder |
| `BufferUsers.OneHolder` | bio.c:62-139 | two references that hold the same block are one |
| `BufferUsers.ChangeCounted` | bio.c:62-139 | changing one buffer and one reference keeps the counts, if the buffer still has its block for the other references |
| `BufferCache.UpdateCoherent` | bio.c:97-115 | changing one buffer in place keeps at most one buffer per block of the device and keeps every other block's contents |
| `BufferCache.RecycleCoherent` | bio.c:81-91 | giving an unused clean buffer to a block without one loses nothing |
| `BufferCache.FrontByRelease` | bio.c:120-139 | moving the buffer just released to the front keeps the list in order of release |
| `BufferCache.ContentsAreCached` | bio.c:62-139 | with no buffer locked, the contents are the dirty buffers laid over the disk, which is what the procedures of the log read |
| `DiskFormat.GetPutBit` | fs.c:66-69 | setting or clearing one bit of a bitmap block changes that bit and no other |
| `DiskFormat.InodeRoundTrip` | fs.h:29-36 | an inode stored in its 64 bytes reads back |
| `DiskFormat.GetPutInode` | fs.c:220-235 | storing one inode of a block changes no other |
| `Ownership.HeldOnce` | fs.c:368-393 | no block address is held by two inodes or by two slots of one |
| `Ownership.FreeIsUnowned` | fs.c:57-78 | a block whose bit is clear is a data block that no inode holds, so metadata blocks are never handed out |
| `Ownership.MarkKeepsOwned` | fs.c:57-78 | marking and zeroing a free block keeps ownership |
| `Ownership.AttachedOwned` | fs.c:368-393 | putting a fresh block into one slot of one inode keeps ownership |
| `Ownership.ClearKeepsOwned` | fs.c:82-95 | clearing the bit of a block that nobody holds keeps ownership |
| `Ownership.EmptiedOwned` | fs.c:401-427 | an inode without its blocks leaves the other inodes' ownership as it was |
| `FileData.OthersKeepContents` | fs.c:471-497 | when no block of another inode changed, every other file has the bytes it had |
| `FileSystem.Fs.constructor` | fs.c:194-213 | a formatted disk, with no inode in use and the metadata blocks marked, is a valid file system |
| `FileSystem.Fs.Balloc` | fs.c:57-78 | the first free block, marked and zeroed; panics exactly when every block is in use |
| `FileSystem.Fs.Bfree` | fs.c:82-95 | clears the bit, and panics exactly when it is clear already |
| `FileSystem.Fs.Ialloc` | fs.c:194-213 | the first free inode becomes an empty file, on disk too, and all other files are as they were |
| `FileSystem.Fs.Iupdate` | fs.c:220-235 | the inode in memory is in its place in the inode block, and the rest of the block is as it was |
| `FileSystem.Fs.Bmap` | fs.c:368-393 | the address of the block, allocated if there was none, together with the indirect block if that was missing; every other block of the file keeps its address, no other file changes; panics exactly if the number is out of range or there are fewer free blocks than that takes; the blocks it logs are given exactly |
| `FileSystem.Fs.Readi` | fs.c:445-465 | on a device what its function gives, or -1 if there is none; on any other inode it fails exactly for an offset past the end or a sum that wraps around, and otherwise returns the slice of the file, cut off at its end, and allocates, logs and changes nothing |
| `FileSystem.Fs.Writei` | fs.c:471-497 | on a device what its function gives, or -1 if there is none; on any other inode it fails exactly for an offset past the end, a sum that wraps around or a size over MAXFILE blocks; panics exactly if fewer blocks are free than the file grows by, its indirect block counted; otherwise the file is its old bytes with the new ones written over them from the offset on, every other file is as it was, ownership holds, every inode on disk is the one in memory, exactly that many blocks have been taken, and exactly these are logged: the data blocks written to, the bitmap blocks of the new ones, the indirect block if it gets an address, the inode's block if the size grows |
| `FileData.OthersStayFiles` | fs.c:471-497 | no file ever has holes: writing, truncating and creating one file leave all others without |
| `FileSystem.Fs.Itrunc` | fs.c:401-427 | clears exactly the bits of the blocks that the inode held, none of which was clear already, and leaves every other file as it was |
| `FileSteps.NewIsFile` | fs.c:194-213 | what ialloc makes is an empty file without holes |
| `FileSteps.WritingStep` | fs.c:481-487 | one turn of the loop of writei extends the part of the file that is written |
| `FileSteps.WroteContents` | fs.c:489-494 | when the loop is done and the size is set, the bytes are those of the splice |
| `FileSteps.TruncateSlot` | fs.c:407-422 | freeing the block in one slot clears that bit only and keeps the others' ownership |
| `FileSystem.Fs.Filewrite` | file.c:113-145 | the chunks up to the first that is refused are in the file as if written at once; how many bytes that is, the result, the new offset, the blocks taken and whether the disk is too full for it all follow from the size, the offset and the length |
| `FileSystem.Fs.WriteSome` | file.c:126-141 | the number of blocks that one chunk logs, exactly; on a disk with one block of bitmap it is more than MAXOPBLOCKS, namely 11, if and only if the chunk reaches over eight data blocks and the file grows by a block that needs an indirect address |
| `FileSystem.ElevenBlocks` | file.c:126-141 | such a call, from a formatted disk on: a file of 12287 bytes, and the next full chunk logs 11 blocks |
| `FileCosts.CountLogged` | fs.c:471-497 | a call of writei logs its data blocks, the bitmap blocks of the new ones, and one block each for a new indirect address and a new size, all of them different |
| `FileCosts.CostStep` | fs.c:483-489 | one turn of the loop takes the free blocks and logs the blocks that the turn adds |
| `FileCosts.ChunkLogs` | fs.c:368-393 | what bmap and log_write log for one block, as a set |
| `FileCosts.MarkedTakes` | fs.c:57-78 | balloc takes exactly one free block |
| `FileCosts.TooMany` | file.c:126-131 | when the number of blocks logged is above MAXOPBLOCKS |
| `FileCosts.ChunkRefused` | file.c:126-141 | which chunk of filewrite is the first that writei refuses |
| `FileSteps.SpliceIs` | fs.c:471-497 | writing byte by byte is the same as the splice that writei is specified by |
| `DirTree.CreateKeeps` | sysfile.c:223-260 | creating in a directory that is linked keeps the invariant: every link count is the number of live entries that name the inode, and the directories are a tree |
| `DirTree.LinkKeeps` | sysfile.c:109-153 | so does link |
| `DirTree.UnlinkCounts` | sysfile.c:189-208 | what unlink takes away is there: the link count is at least 1, exactly 1 for an empty directory, and at least 2 for the directory it is in |
| `DirTree.UnlinkKeeps` | sysfile.c:171-220 | unlink keeps the invariant |
| `DirTree.FreeKeeps` | fs.c:327-347 | freeing an inode without links keeps the invariant |
| `DirTree.IsTree` | sysfile.c:223-260 | following ".." from any live directory ends at the root after as many steps as it is deep, and never comes back to it |
| `DirTree.CreateKeepsIff` | sysfile.c:223-260 | create keeps the invariant if and only if the directory still has a link and, for a new subdirectory, its 16-bit link count does not wrap around; the code tests neither |
| `DirTree.LinkKeepsIff` | sysfile.c:109-153 | link keeps the invariant if and only if the directory still has a link and the 16-bit link count of the file does not wrap around |
| `DirTree.UnlinkedExample` | sysfile.c:223-260 | in a new file system, a directory is created and unlinked while it is referenced, and creating a file in it then breaks the link counts |
| `DirTree.RefsWithEntry` | fs.c:534-557 | dirlink adds one reference to the inode it is given, and none to any other |
| `DirNames.PointsIff` | fs.c:511-530 | a name leads to an inode exactly if dirlookup finds it: the first entry that has the name is for that inode |
| `DirNames.CreatedMakes` | sysfile.c:223-260 | create in plain terms: kind and link count of the new inode, which name leads to it, what its dots are, and that all other names and inodes stay |
| `DirNames.LinkedJoins` | sysfile.c:109-153 | link in the same terms: one name and one link more, to the same inode |
| `DirNames.UnlinkedParts` | sysfile.c:189-208 | unlink in the same terms: the name leads nowhere, even though entries are found by their first match, and the inode loses a link or is free |
| `FileTree.Tree.constructor` | sysfile.c:223-260 | a table with nothing but the root, which one process holds, has the invariant |
| `FileTree.Tree.Dirlookup` | fs.c:511-530 | the first entry with the name, or the end |
| `FileTree.Tree.Dirlink` | fs.c:534-557 | refuses exactly when the name is there; otherwise the entry is in the first empty slot or at the end |
| `FileTree.Tree.Isdirempty` | sysfile.c:157-167 | no entry after "." and ".." is in use |
| `FileTree.Tree.Ialloc` | fs.c:194-213 | the first inode not in use |
| `FileTree.Tree.Create` | sysfile.c:223-260 | an existing file is returned and any other taken name refused; otherwise the new inode has the kind asked for and one link, the name leads to it, a directory has its dots and nothing else, every other name leads where it led and every other inode is what it was; it is held once more, with the invariant if the directory has a link and its count does not wrap around; panics exactly if there is no free inode, or the name leads to a freed inode |
| `FileTree.Tree.Link` | sysfile.c:109-153 | refused exactly for a directory or a taken name, and then undone; otherwise the name leads to the inode, which has one link more and is the same otherwise, and no other name or inode changes; the caller's reference is given up, which frees the inode if it was the last and there are no links |
| `FileTree.Tree.Unlink` | sysfile.c:171-220 | refused exactly for dots, missing names and directories with entries; otherwise the name leads nowhere, every other name leads where it led, the counts are lowered and never below 0, the inode is free at once if it has no links and nobody holds it, no other inode changes, and the invariant holds |
| `FileTree.Tree.Iput` | fs.c:327-347 | one reference less, and the inode is freed exactly if that was the last and it has no links |
| `InodeLife.StepIff` | fs.c:327-347 | each lookup, idup, iput, create, link and unlink keeps it so that exactly the inodes with neither link nor holder are free, except exactly a lookup that leads to a freed inode |
| `InodeLife.DanglesAt` | fs.c:511-530 | that lookup is of the ".." of a directory that has been unlinked |
| `InodeLife.RunIff` | fs.c:327-347 | over every run: at each point exactly the inodes with neither link nor holder are free, if and only if no step is such a lookup |
| `InodeLife.RefsCount` | fs.c:275-347 | over every run the reference count of each inode is the number of references handed out by lookup, idup and create and not given back by iput |
| `InodeLife.DotDotGone` | sysfile.c:171-220 | a run from a new file system on that comes to it: a directory is held while it and the one above it are unlinked, and the one above is given up |
| `DirFile.Dirlookup` | fs.c:510-530 | on the bytes of a directory, readi and strncmp find the slot that DirTree.Find gives for its entries; panics exactly for an inode that is no directory |
| `DirFile.Dirlink` | fs.c:534-557 | on the bytes, one more entry as DirTree.WithEntry has it, the inode number cut to 16 bits, no other file touched; -1 exactly if the name is there, and a panic exactly for an inode that is no directory, or if it cannot get longer or the disk is full |
| `DirFile.ClearEntry` | sysfile.c:200-201 | unlink's write of a zero entry frees the slot and cannot fail |
| `DirFile.OverwriteEntry` | fs.c:534-557 | 16 bytes written over a slot or after the last one are one entry replaced or added |
| `DirFile.ZeroEntry` | sysfile.c:200-201 | zero bytes are a free slot |
| `Paths.Skipelem` | fs.c:575-593 | the next element, cut to DIRSIZ, and the rest of the path without leading slashes; fails exactly when there is no element |
| `Paths.SpelledElems` | fs.c:562-593 | the elements of a path are the names between its slashes, however many slashes there are, each cut to 14 characters |
| `Paths.EveryPathSpells` | fs.c:562-593 | every string is such a path |
| `Container.NameiIff` | fs.c:600-662 | namei finds an inode if and only if a chain of directory entries with the names of the path leads there: from the root of the file system for an absolute path of an ordinary process, from the current directory for every other path, with ".." at the container root leading back to it |
| `Container.NameiParentIff` | fs.c:600-662 | nameiparent finds a directory if and only if the chain of all but the last name leads to it; it fails for a path without names |
| `Container.AbsolutePath` | fs.c:615-621 | an absolute path means the same to an ordinary process whatever its current directory |
| `Container.ChdirIff` | sysfile.c:345-367 | chdir moves a process exactly to the directory at the end of that chain, and changes nothing else |
| `Container.SetrootIff` | proc.c:667-690 | setroot gives a process without a root exactly the directory that an absolute path names, if the length given is below MAXPATH |
| `Container.KeepsRoot` | proc.c:672-674 | over every run a process that has a root keeps it |
| `Container.WalkInside` | fs.c:600-662 | over any tree whose ".." entries name the parent, a walk under a container root that starts inside ends inside, for namei and nameiparent, whatever the path |
| `Container.ConfinedNames` | fs.c:600-662 | everything a confined process can name is inside its container |
| `Container.RunConfined` | sysfile.c:345-367 | over every run of chdir, fork and setroot by any processes on a fixed tree, a confined process stays confined |
| `ContainerRuns.StepConfinedIff` | fs.c:327-347 | while any process creates, links, unlinks and gives up inodes: one step takes a confined process out of its container if and only if it frees a directory between the process and its root |
| `ContainerRuns.SafeIff` | fs.c:327-347 | as can be seen before the step: no step can take it out if and only if every directory between it and its root has a link or is held |
| `ContainerRuns.RunConfinedIff` | sysfile.c:109-260 | over every run: at each point the process can name nothing outside its container, if and only if no step frees a directory between it and its root |
| `ContainerRuns.LinkedIsEnough` | sysfile.c:171-220 | no such step can come as long as nobody unlinks the directory of the process |
| `ContainerRuns.RunConfined` | sysfile.c:109-260 | so it stays confined and can name nothing outside as long as nobody unlinks its directory |
| `ContainerRuns.StepConfined` | sysfile.c:171-260 | one step of anyone does not move a directory that has a link, nor any above it |
| `ContainerRuns.Escape` | sysfile.c:171-260 | once its directory is unlinked, the one above can be unlinked, freed and made anew elsewhere, and ".." leads out of the container |
| `Container.ForkConfined` | proc.c:215-248 | the child of a confined process is confined from the start |
| `Container.TreesAreNested` | sysfile.c:223-260 | the trees that create, link and unlink keep are of the kind the confinement theorems ask for |
| `Container.SetrootConfines` | proc.c:667-690 | after setroot every path the process can give leads inside the new root, if and only if its directory is below that root already |
| `Container.SetrootNeedsChdir` | proc.c:667-690 | a process in the system's root that sets another root still names the system's root by "/" |
| `Inodes.OneEntry` | fs.c:241-270 | two live entries are the same entry exactly if they are for the same inode, which is what the pointer comparison in namex relies on |
| `Inodes.Icache.constructor` | fs.c:171-178 | an empty cache |
| `Inodes.Icache.Iget` | fs.c:241-270 | an entry for the inode with one more reference, one live entry per inode; panics exactly when there is no room: the inode is not cached and every entry is in use |
| `Inodes.Icache.Idup` | fs.c:275-281 | one more reference |
| `Inodes.Icache.Iput` | fs.c:327-347 | one reference less |
| `Inodes.Icache.Dirlookup` | fs.c:511-530 | the entry of the inode that the name leads to, with one more reference |
| `Inodes.Icache.Advance` | fs.c:626-655 | one turn of namex: the net change is one reference, to the next inode |
| `Inodes.Icache.Namex` | fs.c:600-662 | the inode that Container.NameiIff and NameiParentIff describe, with one reference more in all, to that inode; on failure none; panics exactly if at some step the cache has no room for the entry held and the next one |
| `Inodes.Icache.Chdir` | sysfile.c:345-367 | succeeds exactly if the path leads to a directory; the reference to the old one is exchanged for one to the new; panics exactly if the cache has no room for the walk |
| `Inodes.RoomIff` | fs.c:241-270 | an inode has room in the cache if and only if it is cached or an entry is unused |
| `Inodes.TwoFreeFit` | fs.c:600-662 | with two unused entries no walk runs out of room |
| `Inodes.Icache.ForkPlace` | proc.c:215-248 | the child has the parent's directory and root, with a reference to each; when copyuvm fails in between, the references are as they were if and only if the parent is in no container |
| `Inodes.Icache.ExitPlace` | proc.c:303-306 | exit gives back all that fork took if and only if the process is in no container |
| `SleepWakeup.StepInv` | proc.c:503-566 | every step of sleep, wakeup, acquire and release by any process keeps the invariant, for sleep locks and for mutexes |
| `SleepWakeup.RunInv` | proc.c:503-566 | so it holds in every run |
| `SleepWakeup.MutualExclusion` | sleeplock.c:23-42 | in every run at most one process has the lock |
| `SleepWakeup.NoLostWakeup` | proc.c:830-904 | in every run a process asleep on the lock finds it held, or a releaser still has its wakeup to perform, whether the wakeup comes before or after the release of the spinlock |
| `SleepWakeup.NeverStuck` | proc.c:503-566 | in every run with a sleeper some process can take a step of its own or the holder can unlock |
| `LockCalls.LockEndsHeld` | sleeplock.c:22-32 | in every run of either lock: a process that called to take the lock and is back outside has had it in between, as its owner |
| `LockCalls.WokenGets` | proc.c:503-540 | a process that has been woken and finds the lock and both spinlocks free has the lock after five steps of its own |
| `LockCalls.KillRetries` | proc.c:569-590 | a sleeper that is killed comes to look at the lock again |
| `LockCalls.UnlockEndsFree` | proc.c:873-904 | in every run of either lock: when the owner's call to give it back has returned, the lock was freed in between, and after that there was a moment with nobody asleep on it |
| `LockCalls.UnlockRefused` | proc.c:873-904 | in every run: mutex_unlock by a process that does not own the mutex returns without having touched it |
| `FreeList.InsertOrdered` | umalloc.c:25-43 | freeing a block keeps the list in address order with no two blocks touching |
| `FreeList.InsertCovers` | umalloc.c:25-43 | freeing a block adds exactly its units to the list |
| `FreeList.InsertApart` | umalloc.c:25-43 | a block apart from the list and from the freed one stays apart |
| `FreeList.CarveCovers` | umalloc.c:72-79 | taking units from the end of a block removes exactly those |
| `FreeList.SlotUnique` | umalloc.c:31-34 | there is one place in the list where a block belongs |
| `FreeList.FreeUndoesMalloc` | umalloc.c:25-86 | freeing what malloc just took restores the list, block for block |
| `Umalloc.UnitsCover` | umalloc.c:66 | the units asked for cover the request if and only if the rounding does not wrap around |
| `Umalloc.AskedIff` | umalloc.c:46-58 | the block that morecore gets and frees lies in the process's memory if and only if fewer than 2^31 bytes are asked for, since sbrk takes a signed number |
| `Umalloc.AskedBackwards` | sysproc.c:45-54 | a request of 2^31 - 8 bytes asks sbrk for -2^31, which changes nothing and does not fail |
| `Umalloc.FreeConserves` | umalloc.c:25-43 | free keeps the total of free and live units |
| `Umalloc.TakeConserves` | umalloc.c:72-79 | taking a block keeps the total of free and live units |
| `Umalloc.Heap.constructor` | umalloc.c:21-22 | a heap before the first call |
| `Umalloc.Heap.FindSlot` | umalloc.c:30-34 | the search of free ends, in the slot where the block belongs |
| `Umalloc.Heap.Free` | umalloc.c:25-43 | the block joins the list, merged with each neighbour it touches, and no other block's memory is written |
| `Umalloc.Heap.Morecore` | umalloc.c:46-58 | at least 4096 fresh units join the list, or nothing changes, exactly if there are not so many to be had |
| `Umalloc.Heap.Search` | umalloc.c:71-84 | one round of the loop stops at the first block from freep on that fits, or finds that none does |
| `Umalloc.Heap.FindOrGrow` | umalloc.c:71-85 | morecore is called if and only if nothing fits, and at most once; it fails exactly if there is no more memory either |
| `Umalloc.Heap.Malloc` | umalloc.c:61-86 | null if and only if nothing fits and there is no more memory to be had, and memory is asked for if and only if nothing fits; otherwise a block of at least the units asked for, apart from every free and live block, with the list ordered and uncoalesced neighbours nowhere, units conserved and no other block written |
| `Frames.MappedOnce` | vm.c:71-87 | no frame is mapped by two user pages, of one space or of two, or is both mapped and free |
| `Frames.PopKeepsInv` | kalloc.c:80-89 | taking the head of the free list keeps the roles of all frames |
| `Frames.PushKeepsInv` | kalloc.c:60-74 | putting a held frame on the free list keeps the roles and all maps |
| `Spaces.TableKeepsInv` | vm.c:44-62 | a zeroed frame as a new page table changes no map |
| `Spaces.SetPte` | vm.c:71-87 | storing one entry changes that page of that space and no other page of any |
| `Spaces.FreePageKeepsInv` | vm.c:260-268 | kfree followed by clearing the entry leaves the frame free and the page gone, and no other page |
| `Spaces.OthersKeepMaps` | vm.c:218-271 | an operation on one space leaves the maps of all others, and the contents of their pages |
| `SpaceSteps.JumpTable` | vm.c:258-260 | jumping over an absent table passes over no mapped page |
| `SpaceSteps.AllReturned` | vm.c:250-271 | every frame that was free or a page of the range is free |
| `SpaceSteps.ReclaimedKeepsMaps` | vm.c:276-289 | freevm of one space leaves the maps of all others, and the contents of their pages |
| `SpaceSteps.BuiltAndReclaimed` | vm.c:126-140 | a space built from free frames and then freed leaves no trace |
| `SpaceSteps.KernelPages` | vm.c:112-122 | page by page what kmap maps: the physical memory from KERNBASE on, writable but for the kernel's text, the devices at the top at their own addresses, and nothing for the user |
| `SpaceSteps.RowsApart` | vm.c:112-122 | the rows of kmap do not overlap |
| `SpaceSteps.FrameLost` | vm.c:330-341 | with one page mapped and 66 free frames a copy loses a frame |
| `VirtualMemory.LostByFork` | vm.c:306-341 | such a call from boot on: a process with one page, 66 frames left, copyuvm fails and a frame is held by nobody |
| `SpaceSteps.SplitsOnly` | vm.c:330-341 | a frame is lost only where the copy does not fit and the frames run out at a page table |
| `SpaceSteps.CopyFits` | vm.c:306-346 | none is lost where there are frames enough |
| `VirtualMemory.Vm.constructor` | kalloc.c:32-37 | at boot no frame is free yet |
| `VirtualMemory.Vm.Freerange` | kalloc.c:47-52 | exactly the frames of the range join the free list, in order |
| `VirtualMemory.Vm.Kalloc` | kalloc.c:80-89 | the head of the free list, or none exactly when it is empty |
| `VirtualMemory.Vm.Kfree` | kalloc.c:60-74 | panics exactly for a frame outside the managed range; otherwise the frame is filled with junk and linked in as the head |
| `VirtualMemory.Vm.Walkpgdir` | vm.c:44-62 | the table of the page; null exactly when it is absent and is not to be or cannot be allocated; no map changes |
| `VirtualMemory.Vm.Mappages` | vm.c:71-87 | exactly the requested pages are mapped, to consecutive frames, or those before the first that is mapped already (a panic) or has no table and no frame for one |
| `VirtualMemory.Vm.Deallocuvm` | vm.c:250-271 | exactly the pages of the range are gone, and their frames are free; neither panic occurs |
| `VirtualMemory.Vm.Allocuvm` | vm.c:218-243 | succeeds exactly if there are free frames for the pages of the range and for the tables that are missing, and then takes that many and the map grows by exactly these pages, all zero; otherwise every map is as it was and each frame that was free is free or a new table |
| `VirtualMemory.Vm.Freevm` | vm.c:276-289 | every frame of the space is free, its tables and directory too, and no other frame is touched |
| `VirtualMemory.Vm.Setupkvm` | vm.c:126-140 | exactly the rows of kmap are mapped; succeeds exactly with 65 free frames or more, takes 65, and leaves no trace when it fails |
| `VirtualMemory.Vm.Copyuvm` | vm.c:306-346 | for spaces without shared pages: the same pages with the same flags and contents in frames of their own, the parent as it was; fails exactly for want of frames; then everything is undone, but for one frame that is lost exactly when there was one for a page and none for its table; panics exactly if it comes to a page without a table before it runs out of frames |
| `Json.Resume` | jsmn.h:269-454 | a run that ends with JSMN_ERROR_NOMEM and goes on with more tokens ends exactly as a run with that many from the start |
| `Json.CountAgrees` | jsmn.h:269-454 | counting without tokens gives the count of any run that succeeds, which is the number of its tokens |
| `Json.SizesAddUp` | jsmn.h:269-454 | the sizes add up to the number of tokens allocated while there was a superior token |
| `Json.ClosesInnermost` | jsmn.h:338-352 | a closing bracket closes the innermost open token, and that is of its type |
| `Json.ParseTokens` | jsmn.h:269-454 | after a run that succeeds all tokens are closed and in bounds, their starts strictly increase, they are nested or disjoint, and each is a pair of matching brackets, the text between quotes, or a primitive |
| `JsonText.StringScans` | jsmn.h:194-264 | the scanner finds the closing quote of every string in the syntax of section 7 of RFC 8259 |
| `JsonCuts.QuoteIff` | jsmn.h:194-264 | a string ends at a quote if and only if what is before it are characters and escapes that jsmn passes over |
| `JsonCuts.BadIff` | jsmn.h:232-258 | JSMN_ERROR_INVAL for a string if and only if a bad escape comes first |
| `JsonCuts.UnfinishedIff` | jsmn.h:262-263 | JSMN_ERROR_PART for a string if and only if the end of the text comes first |
| `JsonCuts.PrimitiveIff` | jsmn.h:136-189 | where a primitive ends, and that it is bad if and only if an unprintable character comes before its end |
| `JsonCuts.StopsWith` | jsmn.h:269-454 | exactly when a turn of the parser stops, with which of the three errors |
| `JsonText.TextTokens` | jsmn.h:269-454 | for every JSON text the tokens are exactly those of its structure, in order, with the number of children as size |
| `JsonCuts.CutText` | jsmn.h:444-451 | an object or array cut anywhere before its closing bracket, in the middle of a string, an escape or a primitive as well: the parser returns JSMN_ERROR_PART |
| `JsonCuts.CutTextString` | jsmn.h:262-263 | so it does for a string cut before its closing quote |
| `Jsmn.Parser.constructor` | jsmn.h:460-464 | the initial state |
| `Jsmn.Parser.AddToken` | jsmn.h:107-131 | one token more, or none exactly when the array is full |
| `Jsmn.Parser.ParsePrimitive` | jsmn.h:136-189 | the token up to the delimiter, or an error and the state as it was |
| `Jsmn.Parser.ParseString` | jsmn.h:194-264 | the token up to the closing quote, or an error and the state as it was |
| `Jsmn.Parser.OpenBox` | jsmn.h:282-308 | a new open token under the superior one, which it becomes |
| `Jsmn.Parser.CloseBox` | jsmn.h:309-361 | the last open token is closed if it has the type, and the open one before it is the superior one |
| `Jsmn.Parser.Comma` | jsmn.h:380-397 | the superior token is the last open object or array again |
| `Jsmn.Parser.Parse` | jsmn.h:269-454 | the in-place parser computes the function that the theorems are about, with tokens and without |
| `Grep.HereStar` | grep.c:94-100 | a starred character matches here exactly if some run of it is followed by a match of the rest |
| `Grep.Matchhere` | grep.c:83-90 | true exactly if the text has a beginning in the language of the rest of the expression |
| `Grep.Matchstar` | grep.c:94-100 | true exactly if some run of the character is followed by a match |
| `Grep.Match` | grep.c:72-79 | true exactly if some part of the text is in the language of the expression, at the beginning for '^' and at the end for '$' |
| `Pipe.CounterTests` | pipe.c:80-108 | the wrapping counters tell a full and an empty pipe, and their difference modulo 2^32 is the number of bytes in it |
| `Pipe.Pipe.constructor` | pipe.c:23-52 | an empty pipe |
| `Pipe.Pipe.Write` | pipe.c:74-93 | the bytes are stored in order, as many as fit; it stops early only on a full pipe |
| `Pipe.Pipe.Read` | pipe.c:96-115 | delivers the next bytes in the order they were stored, up to n or all there are; on an empty pipe with a writer it waits, or returns -1 exactly if the process has been killed |
| `Pipe.Pipe.Close` | pipe.c:55-70 | what is in the pipe stays |
| `PipeRuns.StepIff` | pipe.c:74-115 | readers and writers that sleep and wake each other: a step leaves nobody asleep in vain, unless exactly it is a writer that fills the pipe and gives up, killed or without a reader end, while a reader sleeps |
| `PipeRuns.RunIff` | pipe.c:55-115 | over every run of any number of readers and writers: nobody sleeps on a pipe that has what it waits for, if and only if no step is such a one |
| `PipeRuns.LostWakeup` | pipe.c:80-84 | a run that comes to it: the reader sleeps on, with a full pipe and both ends open |
| `PipeRuns.NotBoth` | pipe.c:74-115 | readers and writers are never asleep at the same time |
| `PipeCalls.WriteCall` | pipe.c:74-93 | in every run: the bytes that one call of pipewrite has stored, over all its sleeps, are the first n of its buffer, where n is where it stands; it returns with all of them stored, or from a full pipe that has no reader or whose writer was killed |
| `PipeCalls.ReadCall` | pipe.c:96-115 | in every run: piperead takes nothing while it sleeps and returns with the bytes that are next at that moment, n of them or all there are; with none of an open empty pipe only if killed |
| `PipeCalls.InOrder` | pipe.c:74-115 | in every run: what was taken out, step after step, is what was put in, step after step, up to a point at most 512 bytes behind |
| `PipeCalls.StepMoves` | pipe.c:74-115 | only a writer's own step adds bytes, and at the end; only a reader's own step takes any |
| `PipeCalls.KillEnds` | pipe.c:82-85 | a process that is killed while it sleeps in the pipe leaves with its next step |
| `PipeCalls.RingWrite` | pipe.c:74-93 | a stretch of pipewrite on the ring buffer is the step of the runs, and sleeps or returns where that does |
| `PipeCalls.RingRead` | pipe.c:96-115 | a stretch of piperead on the ring buffer is the step of the runs, and delivers what that takes |
| `RingQueues.FullTest` | proc.c:1097 | C's remainder finds a full queue, except one whose first entry is in slot 0 |
| `RingQueues.LosesNothingIff` | proc.c:1088-1104 | fp_enqueue appends or refuses if and only if it does not meet 49 entries from slot 0 on; otherwise the queue is emptied |
| `RingQueues.Queues.constructor` | proc.c:28-34 | ten empty queues |
| `RingQueues.Queues.Enqueue` | proc.c:1088-1104 | refuses a process that is not runnable and a full queue that it notices; otherwise appends to the queue of its priority; no other queue changes |
| `RingQueues.Queues.Dequeue` | proc.c:1107-1122 | removes the oldest entry of the lowest-numbered queue that is not empty; none exactly when all are empty |
| `Strings.Memmove` | string.c:31-46 | the bytes arrive whole also where source and destination overlap, and no other byte changes |
| `Strings.Strncmp` | string.c:56-61 | 0 exactly for equal names |
| `Strings.Strncpy` | string.c:64-73 | the name arrives and the rest is zero |

## Left out

- LogProtocol.CommitsAlone: takes as given that an operation logs at most MAXOPBLOCKS blocks; for filewrite see FileSystem.Fs.WriteSome.
- BufferCache.Cache.Brelse: is for clients that wrote or logged every change they made, as all callers in the kernel do; uniqueness is for the device in use, since binit leaves every buffer at device 0.
- FileSystem.Fs.Writei: after a panic the state is left open; what a device's function does is a parameter.
- FileSystem.Fs.Readi: what a device's function delivers is a parameter.
- DurableRuns.Durable: the bytes of a buffer change when log_write takes the lock rather than just before, while the process still holds the buffer; a crash ends every process.
- DirFile.Dirlookup: is for directories made of whole entries, which dirlink keeps.
- FileTree.Tree.Create: each system call is one step, after its path has been looked up; a directory is a sequence of entries, which DirFile ties to its bytes.
- Inodes.Icache.Iput: is for inodes with links; the others are in FileTree.Tree.Iput and InodeLife.
- Inodes.Icache.Namex: works on a fixed tree on one device; after a panic the references are left open.
- SleepWakeup.MutualExclusion: is for runs of lock and unlock; cv_wait takes the mutex without looking whether it is free, and mutex_init during a run is excluded.
- Umalloc.Heap.Malloc: is for requests of less than 2^31 bytes; Umalloc.AskedIff says what is wrong with the others.
- VirtualMemory.Vm.Deallocuvm: is for sizes up to KERNBASE, as all callers have them.
- VirtualMemory.Vm.Allocuvm: is for a range with no page mapped in it; otherwise mappages panics.
- VirtualMemory.Vm.Copyuvm: shared pages are left out; after a shared page is mapped, the way out of copyuvm frees frames that the parent still maps.
- VirtualMemory.Vm.Kalloc: the lock of the allocator is not modelled.
- Pipe.Pipe.Read: sleeping and waking are in PipeRuns.
- RingQueues.Queues.Enqueue: is for priorities 0 to 9, the rows of the tables.
- Boot, assembly, interrupt controllers, serial line, keyboard, console and IDE ports: hardware access.
- shm_get and shm_rem: the recorded address differs from the mapped one for sizes that are not whole pages, so the intended invariants do not hold.
- hfs_enqueue and hfs_dequeue: the second is never called.
- The limit on processes of a container: it is stored and never looked at.
- exit, apart from the references of Inodes.Icache.ExitPlace, and wait.
- copyout, loaduvm and exec: they would add only copying of bytes through the maps.
- The parser of the shell (sh.c) and the in-place terminators it writes.
- The loop of grep that reads lines: it drops a buffer without a newline; only the matcher is modelled.
- The root directory of mkfs, whose rounded size can claim a block that is not there: files start from ialloc.
- File descriptors and the table of open files: counts of references only.
- User programs, printf and the tests of the kernel.
