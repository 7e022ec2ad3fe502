# xv6 kernel and user programs: a Dafny model

This project models the hard parts of the modified xv6 kernel in
`G25_Project1_xv6CustomizeSystemCalls`: its crash-safe storage stack, its file layer, its
virtual memory, its sleep, exit and disk protocols, and three user-level algorithms. It
proves what each of them is for. `dafny verify dfyconfig.toml` checks everything.

| module | what it covers |
|---|---|
| `RedoLog` | the redo log as a sequence of block writes: what a crash between any two of them leaves, and what recovery makes of it |
| `BufferCache` | `bio.c`: the LRU list, reference counts, pinning; the cache agrees with a map from block to newest contents |
| `WriteAheadLog` | `log.c` over the cache: its block writes are exactly those that `RedoLog` reasons about |
| `CrashProtocol` | runs of the whole stack, with concurrent operations, commits, crashes and recoveries, against a two-copy specification |
| `Layout`, `Ownership`, `FileLayer`, `Reclaim`, `Mkfs` | the disk format, who owns which block, the inode layer, orphan reclaim at boot, and the image that `mkfs` builds |
| `Boot` | the file system over the log: every crash of every run replays to a consistent file system, and boot finishes the reclaim whatever block write it was cut short at |
| `PageTable`, `VirtualMemory`, `UserMemory`, `ProcessImage`, `Exec` | Sv39 tables as trees that stand for a map, page conservation on every path, the user's view of lazily allocated memory, fork and exec |
| `Isolation` | all processes together: their tables, user pages and trapframes are disjoint, none is lost, and nobody else's step changes what a process sees |
| `SleepWakeup`, `ExitWait` | state machines for sleep and wakeup under a semaphore or sleep lock, and for fork, exit and wait |
| `VirtioDisk`, `Pipe` | the driver side of the virtqueue, and the pipe ring |
| `Umalloc`, `Grep`, `ShellGrammar`, `Shell` | the circular free list, the matcher and its buffer loop, the shell's grammar and its parser |
| `Blocks`, `Counting`, `Spinlock` | bytes, words and blocks; sizes of sets, sums of maps; lock owners |

Code that updates state is a class with the source's fields and loops; each method is
proved against a function or predicate of the old state. Protocols are state machines
whose steps are single lock operations or memory accesses. A `panic` in the source is
either a result that the contract characterises exactly, or an assertion that it cannot
be reached.

## What the proofs found

- `LOGBLOCKS` equals `NBUF` (30), and every block in the log pins a buffer. Blocks that
  processes hold outside the log count as well, those of `fileread` outside any operation
  among them: `bget` panics when 30 blocks are referenced and another one is needed. With
  at most m distinct blocks per operation, 2 * (`MAXOPBLOCKS` - m) slots of the log stay
  unused (`CrashProtocol.UnusedSlots`), and nothing panics as long as fewer blocks than that
  are held outside the log (`NothingPanics`). The bound is sharp: for every m from 1 to 10
  there is a run with exactly that many held in which the commit panics before its first
  write (`ReadersPanicCommit`). For m = 10 that takes no reader at all, and a `log_write` of
  a block that is already in the log panics too, because it tests for space before it looks
  for the block (`FullLogPanics`). A chunk of `filewrite` writes at most six blocks and one
  per bitmap block, up to four, so an image of at most three bitmap blocks, 24576 blocks in
  all, is safe while processes hold few enough blocks (`Boot.SmallImagesNeverPanic`). On the
  image that `mkfs` builds an operation writes seven; five held blocks are safe, and with
  six there is a run in which the commit panics (`Boot.MkfsImageBounds`).
- `itrunc` writes one block per bitmap block of the file and the inode block
  (`FileLayer.Fs.Itrunc`). That stays within `MAXOPBLOCKS` for every file up to nine bitmap
  blocks, 73728 blocks in all (`TouchedSize`). `ireclaim` runs alone and finds room for it
  up to 28 bitmap blocks (`Boot.EveryTurnFits`).
- `mkfs` rounds the size of the root directory up by a block even when it ends on a block
  boundary. The root then has a hole; `Maker.FixRoot` and `MakeImage` show that this
  happens exactly when the number of files plus two is a multiple of 64. A read of a file
  writes the log exactly if it meets a hole and the disk is not full (`FileLayer.Fs.Readi`),
  so reading the last block of such a root through `fileread`, which begins no operation,
  ends in the panic "log_write outside of trans" unless some other operation is under way
  (`Log.LogWrite`).
- `sbrk` with a negative argument larger than the process wraps around in `growproc`,
  changes nothing and reports success (`UserMemory.Resize`, `Proc.Sbrk`).
- `malloc` of more than 2 GiB - 32 bytes passes a wrapped argument to `sbrk`, which asks
  for one unit, for nothing, or to shrink the process; `malloc` takes what it returns for
  all the memory it wanted (`Umalloc.RequestsThatWrap`).
- `grep` never matches the input from the first newline-terminated line on that has a NUL
  or more than 1022 characters, however `read` splits it. It prints all matching lines
  exactly if none of them is in that part (`Grep.OutputIsMatchingLines`);
  `OverlongLineIsLost` is an input where one is.

## Model

| member | source | states |
|---|---|---|
| `RedoLog.RecoveredContents` | G25_Project1_xv6CustomizeSystemCalls/kernel/log.c:66-124 | Complete recovery gives every block named in the header its log slot, leaves every other block alone and empties the log |
| `RedoLog.PartialRecovery` | G25_Project1_xv6CustomizeSystemCalls/kernel/log.c:66-124 | A crash inside recovery, before the header is erased, leaves the log and every block not named in it as they were |
| `RedoLog.RecoveryAfterCrash` | G25_Project1_xv6CustomizeSystemCalls/kernel/log.c:117-124 | Recovery is idempotent under crashes: stopped after any of its block writes and started again it leaves the same home blocks as an undisturbed run |
| `RedoLog.RecoveryAfterManyCrashes` | G25_Project1_xv6CustomizeSystemCalls/kernel/log.c:117-124 | The same for any number of crashes during recovery, by induction over them |
| `RedoLog.ErasedLog` | G25_Project1_xv6CustomizeSystemCalls/kernel/log.c:194-204 | A disk whose header has been erased starts an empty transaction |
| `RedoLog.TransactionExtends` | G25_Project1_xv6CustomizeSystemCalls/kernel/log.c:215-236 | Logging one more block, or absorbing a second write to a block, keeps the log a well-formed transaction |
| `RedoLog.CommitComplete` | G25_Project1_xv6CustomizeSystemCalls/kernel/log.c:194-204 | A complete commit leaves every home block as the operations saw it, and an empty log |
| `RedoLog.CrashBeforeHeader` | G25_Project1_xv6CustomizeSystemCalls/kernel/log.c:179-204 | A crash before the header write has changed nothing but log slots |
| `RedoLog.RecoverCommitted` | G25_Project1_xv6CustomizeSystemCalls/kernel/log.c:117-124 | Recovery from a disk that holds a committed transaction completes the transaction |
| `RedoLog.CrashInCommit` | G25_Project1_xv6CustomizeSystemCalls/kernel/log.c:179-204 | After a crash at any write of a commit, recovery yields the state before the transaction if the header write was not reached, and the state after it otherwise |
| `RedoLog.CrashAtomicity` | G25_Project1_xv6CustomizeSystemCalls/kernel/log.c:66-124 | Crash after any number of writes of a commit and let recovery crash any number of times: the home blocks are exactly those before or exactly those after the transaction, after it exactly if the non-empty header had reached the disk |
| `BufferCache.AtMostOneBuffer` | G25_Project1_xv6CustomizeSystemCalls/kernel/bio.c:58-89 | In every consistent state each block of the root device has at most one buffer |
| `BufferCache.NoSpareBuffer` | G25_Project1_xv6CustomizeSystemCalls/kernel/bio.c:58-89 | NBUF referenced blocks leave no buffer for another block |
| `BufferCache.Bcache.constructor` | G25_Project1_xv6CustomizeSystemCalls/kernel/bio.c:36-53 | All buffers start as device 0, block 0, unused, in one circular list, and the cache agrees with the disk found at boot |
| `BufferCache.Bcache.PinnedFull` | G25_Project1_xv6CustomizeSystemCalls/kernel/bio.c:58-89 | Given which blocks are referenced, bread of a block fails exactly if NBUF other blocks are |
| `BufferCache.Bcache.ReferencedFull` | G25_Project1_xv6CustomizeSystemCalls/kernel/bio.c:58-89 | The same with the blocks that processes hold among those referenced |
| `BufferCache.Bcache.Bget` | G25_Project1_xv6CustomizeSystemCalls/kernel/bio.c:58-89 | The block gets a referenced, locked buffer; it fails exactly if the block is not cached and every buffer is referenced; otherwise the least recently used unreferenced buffer is recycled, and no reader's view changes |
| `BufferCache.Bcache.Bread` | G25_Project1_xv6CustomizeSystemCalls/kernel/bio.c:92-103 | The buffer holds the newest contents of the block, logged or not |
| `BufferCache.Bcache.Bwrite` | G25_Project1_xv6CustomizeSystemCalls/kernel/bio.c:106-112 | One atomic block write: the disk takes the newest contents of that block and nothing else changes |
| `BufferCache.Bcache.Brelse` | G25_Project1_xv6CustomizeSystemCalls/kernel/bio.c:116-137 | Drops one reference; the last one moves the buffer to the front of the LRU list, which stays a permutation linked both ways |
| `BufferCache.Bcache.Bpin` | G25_Project1_xv6CustomizeSystemCalls/kernel/bio.c:139-144 | One more reference to the block, nothing else |
| `BufferCache.Bcache.Bunpin` | G25_Project1_xv6CustomizeSystemCalls/kernel/bio.c:146-151 | One reference less, nothing else |
| `WriteAheadLog.Log.LogWrite` | G25_Project1_xv6CustomizeSystemCalls/kernel/log.c:215-236 | Records and pins a new block, absorbs a logged one; the exact condition of each of its two panics |
| `WriteAheadLog.Log.Store` | G25_Project1_xv6CustomizeSystemCalls/kernel/log.c:215-236 | bread, change, log_write, brelse, while others hold any buffers: succeeds exactly if the block has a buffer or one is unreferenced, and the log has a free slot inside an operation; readers then see the new data and the disk is untouched; which panic happens otherwise |
| `WriteAheadLog.Log.WriteLog` | G25_Project1_xv6CustomizeSystemCalls/kernel/log.c:179-192 | The block writes are exactly the logged blocks to their slots, in order; it panics exactly if the log is not empty and the blocks it pins and those that others hold outside it take up all NBUF buffers |
| `WriteAheadLog.Log.WriteHead` | G25_Project1_xv6CustomizeSystemCalls/kernel/log.c:103-115 | One block write holding the count and the block numbers |
| `WriteAheadLog.Log.InstallTrans` | G25_Project1_xv6CustomizeSystemCalls/kernel/log.c:66-84 | The block writes are exactly the slots to their home blocks; after a commit every block is unpinned, and buffers that others hold stay held |
| `WriteAheadLog.Log.Commit` | G25_Project1_xv6CustomizeSystemCalls/kernel/log.c:194-204 | The block writes are exactly the sequence that the crash lemmas cut at any point; afterwards cache and disk agree and the log is empty; it panics, before any write, exactly if the blocks of a non-empty log and those that others hold outside it take up all NBUF buffers |
| `WriteAheadLog.Log.ReadHead` | G25_Project1_xv6CustomizeSystemCalls/kernel/log.c:87-98 | The in-memory header becomes what the disk says |
| `WriteAheadLog.Log.Recover` | G25_Project1_xv6CustomizeSystemCalls/kernel/log.c:117-124 | The block writes are exactly the recovery sequence of the crash lemmas, cache and disk agree on the recovered contents, the log is empty |
| `CrashProtocol.StepKeepsInv` | G25_Project1_xv6CustomizeSystemCalls/kernel/log.c:127-236 | Every step of an operation, a commit, a crash or a recovery keeps the simulation of the two-copy specification |
| `CrashProtocol.Recoverable` | G25_Project1_xv6CustomizeSystemCalls/kernel/log.c:117-124 | In every such state the disk recovers exactly to the durable copy |
| `CrashProtocol.EveryRunIsAtomic` | G25_Project1_xv6CustomizeSystemCalls/kernel/log.c:127-204 | In every run, with concurrent operations and any crashes, the disk recovers to the durable copy, operations see the current copy, and the durable copy changes only in one step, to the current one, while no operation is under way |
| `CrashProtocol.StepKeepsReserved` | G25_Project1_xv6CustomizeSystemCalls/kernel/log.c:127-176 | Logged blocks plus what running operations may still log fit into the log, after every step |
| `CrashProtocol.StorePanicsExactly` | G25_Project1_xv6CustomizeSystemCalls/kernel/log.c:215-236 | In every run a store of a block not yet logged finds a slot; a store panics exactly if its block is logged already and the log is full, or if its block is not referenced and NBUF others are |
| `CrashProtocol.UnusedSlots` | G25_Project1_xv6CustomizeSystemCalls/kernel/log.c:127-176 | In every run whose operations write at most m distinct blocks each, 2 * (MAXOPBLOCKS - m) slots of the log stay unused at every moment |
| `CrashProtocol.NothingPanics` | G25_Project1_xv6CustomizeSystemCalls/kernel/log.c:127-236 | In every run with at most m blocks per operation and fewer than 2 * (MAXOPBLOCKS - m) blocks held outside the log, no read, no log_write and no step of a commit panics |
| `CrashProtocol.ReadersPanicCommit` | G25_Project1_xv6CustomizeSystemCalls/kernel/log.c:179-204 | The bound is sharp: for every m from 1 to MAXOPBLOCKS a run with 2 * (MAXOPBLOCKS - m) blocks held in which the commit panics before its first write |
| `CrashProtocol.FullLogPanics` | G25_Project1_xv6CustomizeSystemCalls/kernel/log.c:215-236 | With MAXOPBLOCKS blocks per operation and no reader: a run of three operations, each within its reservation, fills the log, and then a store of a block that is logged already panics |
| `Layout.Mark` | G25_Project1_xv6CustomizeSystemCalls/kernel/fs.c:66-106 | Marking a block in the bitmap changes the mark of no other block |
| `Layout.InodeRoundTrip` | G25_Project1_xv6CustomizeSystemCalls/kernel/fs.h:32-39 | An inode survives the trip through its sixteen words |
| `Layout.SetDinodeInReads` | G25_Project1_xv6CustomizeSystemCalls/kernel/fs.c:226-242 | Storing an inode and reading it back gives the same inode and leaves its neighbours alone |
| `Ownership.AllocateConsistent` | G25_Project1_xv6CustomizeSystemCalls/kernel/fs.c:66-89 | A block that the bitmap calls free has no owner; taking and zeroing it keeps the file system invariant and every file |
| `Ownership.FreeConsistent` | G25_Project1_xv6CustomizeSystemCalls/kernel/fs.c:92-106 | Giving a block back keeps the invariant and every file |
| `Ownership.ContentWrite` | G25_Project1_xv6CustomizeSystemCalls/kernel/fs.c:539-549 | Splicing bytes into the right block overwrites exactly those bytes of the file |
| `Ownership.DetachConsistent` | G25_Project1_xv6CustomizeSystemCalls/kernel/fs.c:448-476 | An inode that gives up its addresses gives up exactly the blocks it owns |
| `Ownership.TruncatedMarks` | G25_Project1_xv6CustomizeSystemCalls/kernel/fs.c:448-476 | The bitmap after truncation is the old one without exactly the blocks of that inode |
| `Ownership.HoleFreeMeetsNone` | G25_Project1_xv6CustomizeSystemCalls/kernel/fs.c:494-519 | A read within the size of a hole-free file meets no hole |
| `Ownership.HoleIsMet` | G25_Project1_xv6CustomizeSystemCalls/kernel/fs.c:494-519 | Every read that starts in a hole meets one, whatever its length |
| `FileLayer.Fs.Balloc` | G25_Project1_xv6CustomizeSystemCalls/kernel/fs.c:66-89 | The first block the bitmap calls free, zeroed, unowned, and which bitmap block was logged; 0 exactly if none is free |
| `FileLayer.Fs.Bfree` | G25_Project1_xv6CustomizeSystemCalls/kernel/fs.c:92-106 | Frees a block; the panic for a free block happens exactly if the block is not in use |
| `FileLayer.Fs.Bmap` | G25_Project1_xv6CustomizeSystemCalls/kernel/fs.c:405-444 | The block of a block number, direct or indirect, allocated if missing; slots that were set keep block and contents, no other file changes, nothing allocated is lost when the second allocation fails; it logs exactly if the block was missing and the disk was not full, and the charge is bounded |
| `FileLayer.Fs.Iupdate` | G25_Project1_xv6CustomizeSystemCalls/kernel/fs.c:226-242 | The on-disk inode catches up; one inode block is logged |
| `FileLayer.Fs.Itrunc` | G25_Project1_xv6CustomizeSystemCalls/kernel/fs.c:448-476 | Frees exactly the blocks the inode owns, those past its size and the indirect block included; bfree never meets a free block; exactly the bitmap blocks of those blocks and the inode block are logged, and only logged blocks change |
| `FileLayer.Fs.Writei` | G25_Project1_xv6CustomizeSystemCalls/kernel/fs.c:528-562 | Returns -1 exactly for a bad range; otherwise replaces exactly bytes off to off+r, keeps a hole-free file hole-free, changes no other file, stops early only at a fault or on a full disk; a write of up to three blocks to a hole-free file logs at most six blocks and one per bitmap block up to four |
| `FileLayer.Fs.Readi` | G25_Project1_xv6CustomizeSystemCalls/kernel/fs.c:494-519 | It logs exactly if it meets a hole and the disk is not full; if it meets none, nothing changes and it returns the slice of the contents clipped to the size, or -1 exactly if that does not fit the destination |
| `FileLayer.Budget` | G25_Project1_xv6CustomizeSystemCalls/kernel/fs.c:405-444 | Four turns of writei with at most three allocations in the last case touch at most six blocks and one per bitmap block up to four, ten in all, wherever the bitmap blocks are |
| `FileLayer.TouchedSize` | G25_Project1_xv6CustomizeSystemCalls/kernel/fs.c:448-476 | Freeing an inode logs at most one block per bitmap block and one more; at most MAXOPBLOCKS up to nine bitmap blocks |
| `FileLayer.Fs.FileWrite` | G25_Project1_xv6CustomizeSystemCalls/kernel/file.c:134-179 | No other file changes; n is returned exactly if all bytes are written; an offset past the end writes nothing; on a hole-free file the bytes up to the new offset are written in order, and every operation stays within MAXOPBLOCKS log blocks for every offset and length, and below it on an image of at most three bitmap blocks |
| `FileLayer.Fs.Ifree` | G25_Project1_xv6CustomizeSystemCalls/kernel/fs.c:337-363 | When the last reference to an unlinked inode goes, its blocks and the inode become free and no other file changes; exactly the bitmap blocks and the inode block are logged |
| `Reclaim.FreeingResumes` | G25_Project1_xv6CustomizeSystemCalls/kernel/fs.c:373-393 | Freeing orphans up to n in a table where those up to k are freed already gives the table with all up to the larger of the two freed |
| `Reclaim.Ireclaim` | G25_Project1_xv6CustomizeSystemCalls/kernel/fs.c:373-393 | Frees every orphan and its blocks, one transaction each, and leaves every other inode and its contents alone; every moment in between satisfies the invariant, and from one to the next only blocks change that the turn logs: the bitmap blocks of what it frees and the inode block |
| `Reclaim.NoOrphansLeft` | G25_Project1_xv6CustomizeSystemCalls/kernel/fs.c:41-48 | After boot no allocated inode has link count 0, and exactly the orphans' blocks became free |
| `Reclaim.SameMetadata` | G25_Project1_xv6CustomizeSystemCalls/kernel/fs.c:373-393 | Two images with the same inode table and owners have the same bitmap and the same inodes on disk |
| `Boot.HomeConsistent` | G25_Project1_xv6CustomizeSystemCalls/kernel/fs.c:41-48 | The file system does not look at the log: an image with the same home blocks is consistent with the same files |
| `Boot.CrashInTransaction` | G25_Project1_xv6CustomizeSystemCalls/kernel/log.c:117-204 | A crash at any block write of a transaction between two consistent file systems, and any crashes of recovery, leave a disk that replays to one of the two, with every file of that one intact |
| `Boot.TurnIsTransaction` | G25_Project1_xv6CustomizeSystemCalls/kernel/fs.c:385-391 | A turn of ireclaim that fits the log is a transaction over any disk that holds the moment before it |
| `Boot.EveryTurnFits` | G25_Project1_xv6CustomizeSystemCalls/kernel/fs.c:385-391 | Every turn of ireclaim fits the log on an image of at most 28 bitmap blocks |
| `Boot.CrashInReclaim` | G25_Project1_xv6CustomizeSystemCalls/kernel/fs.c:373-393 | A crash at any block write of any turn of ireclaim, and any crashes of recovery, leave a disk that replays to a consistent file system with exactly the orphans up to that turn, or before it, freed, and every other file intact |
| `Boot.AnyNumberOfBoots` | G25_Project1_xv6CustomizeSystemCalls/kernel/fs.c:41-48 | The same after any number of boots, each cut short at any block write of the replay or of ireclaim |
| `Boot.Fsinit` | G25_Project1_xv6CustomizeSystemCalls/kernel/fs.c:41-48 | From any such disk, replay and ireclaim end where an undisturbed boot does: the same inode table and owners, every orphan freed, every other file intact |
| `Boot.EveryCrashIsSound` | G25_Project1_xv6CustomizeSystemCalls/kernel/log.c:117-204 | In every run with concurrent operations, commits, crashes and crashed recoveries, if the operations of each transaction keep the file system consistent, the disk at every moment replays to a consistent file system with nothing half allocated and no inode half written |
| `Boot.SmallImagesNeverPanic` | G25_Project1_xv6CustomizeSystemCalls/kernel/log.c:127-236 | On an image of at most three bitmap blocks nothing panics as long as no operation writes more blocks than filewrite may there, m, and fewer than 2 * (MAXOPBLOCKS - m) blocks are held outside the log |
| `Boot.MkfsImageBounds` | G25_Project1_xv6CustomizeSystemCalls/mkfs/mkfs.c:92-103 | The image that mkfs builds is one: seven blocks for a write, two to free an inode; with six blocks held outside the log there is a run of such operations in which the commit panics |
| `Mkfs.BuiltIsConsistent` | G25_Project1_xv6CustomizeSystemCalls/mkfs/mkfs.c:236-250 | The bitmap of the first blocks handed out makes the image satisfy the file system invariant |
| `Mkfs.Maker.Ialloc` | G25_Project1_xv6CustomizeSystemCalls/mkfs/mkfs.c:222-234 | Hands out the next inode with one link; files are not changed |
| `Mkfs.Maker.Iappend` | G25_Project1_xv6CustomizeSystemCalls/mkfs/mkfs.c:254-296 | The file grows by exactly the data, over direct and indirect blocks, and no other file changes |
| `Mkfs.Maker.Balloc` | G25_Project1_xv6CustomizeSystemCalls/mkfs/mkfs.c:236-250 | The finished image satisfies the file system invariant that the kernel keeps |
| `Mkfs.Maker.FixRoot` | G25_Project1_xv6CustomizeSystemCalls/mkfs/mkfs.c:165-170 | The root keeps its bytes and is hole-free exactly if its size was not a multiple of the block size; otherwise its last block is a hole |
| `Mkfs.MakeImage` | G25_Project1_xv6CustomizeSystemCalls/mkfs/mkfs.c:68-175 | The whole image is consistent, every file holds exactly its data and is hole-free; the root has one block more than its full blocks of entries, and that block is a hole exactly if its entries end on a block boundary |
| `PageTable.IndicesInjective` | G25_Project1_xv6CustomizeSystemCalls/kernel/riscv.h:364-380 | Below MAXVA the three indices determine the page |
| `PageTable.HangTable` | G25_Project1_xv6CustomizeSystemCalls/kernel/vm.c:97-115 | A new zeroed table below an empty entry changes no translation |
| `PageTable.StoreEntry` | G25_Project1_xv6CustomizeSystemCalls/kernel/vm.c:145-174 | Storing a leaf entry changes the translation of its page and of no other |
| `PageTable.TreeFrame` | G25_Project1_xv6CustomizeSystemCalls/kernel/vm.c:97-115 | Memory outside a tree does not matter to it |
| `VirtualMemory.Kmem.KallocTable` | G25_Project1_xv6CustomizeSystemCalls/kernel/kalloc.c:68-82 | The head of the free list becomes a zeroed table; 0 exactly if the list is empty; every page stays free, a table or data, exactly one of them |
| `VirtualMemory.Kmem.Kfree` | G25_Project1_xv6CustomizeSystemCalls/kernel/kalloc.c:46-63 | The page goes to the head of the free list, and every page stays free, a table or data, exactly one of them |
| `VirtualMemory.AddrSpace.Walk` | G25_Project1_xv6CustomizeSystemCalls/kernel/vm.c:97-115 | Finds the leaf table that the tree has for the page; with alloc it adds the missing tables from the free list and changes no translation; then 0 exactly if fewer pages are free than tables are missing |
| `VirtualMemory.AddrSpace.WalkAddr` | G25_Project1_xv6CustomizeSystemCalls/kernel/vm.c:120-138 | The page that user code sees, or 0 exactly if there is none, it is not valid or not for users |
| `VirtualMemory.AddrSpace.MapPages` | G25_Project1_xv6CustomizeSystemCalls/kernel/vm.c:145-174 | Maps exactly the pages named and no others; on failure exactly those before the one that needed a table |
| `VirtualMemory.AddrSpace.Unmap` | G25_Project1_xv6CustomizeSystemCalls/kernel/vm.c:192-212 | Clears exactly the range; with do_free exactly the data pages mapped there become free, each once |
| `VirtualMemory.AddrSpace.Uvmalloc` | G25_Project1_xv6CustomizeSystemCalls/kernel/vm.c:216-240 | Success maps new zeroed pages of its own in exactly the new range; failure gives back every data page and leaves every translation as it was, and happens only when fewer than three pages per page asked for were free; huge sizes included |
| `VirtualMemory.AddrSpace.Uvmdealloc` | G25_Project1_xv6CustomizeSystemCalls/kernel/vm.c:246-258 | Frees exactly the pages in the old size and not in the new one |
| `VirtualMemory.AddrSpace.FreeWalk` | G25_Project1_xv6CustomizeSystemCalls/kernel/vm.c:262-278 | Frees exactly the tables of the subtree, and reaches no leaf |
| `VirtualMemory.AddrSpace.Uvmfree` | G25_Project1_xv6CustomizeSystemCalls/kernel/vm.c:282-288 | Frees every user page and every table of the address space |
| `VirtualMemory.AddrSpace.Uvmclear` | G25_Project1_xv6CustomizeSystemCalls/kernel/vm.c:328-337 | Clears the user bit of one entry; its page and all its other bits, and every other entry, stay as they were |
| `VirtualMemory.BackedSize` | G25_Project1_xv6CustomizeSystemCalls/kernel/vm.c:216-240 | Pages mapped one to one are as many as the range is long: a size beyond memory cannot be mapped |
| `UserMemory.Proc.Vmfault` | G25_Project1_xv6CustomizeSystemCalls/kernel/vm.c:452-473 | Gives an unmapped page below sz a zeroed frame; the process sees no change; mapped pages keep their entries; 0 exactly if the address is beyond sz, the page is mapped, or fewer pages are free than the frame and the missing tables take |
| `UserMemory.Proc.Copyout` | G25_Project1_xv6CustomizeSystemCalls/kernel/vm.c:342-375 | Exactly the bytes written so far change in the process's view, all of them on success, across pages and lazily mapped ones; pages that were mapped keep their entries; it stops early only at a page that is not writable for users, or for want of memory |
| `UserMemory.Proc.Copyin` | G25_Project1_xv6CustomizeSystemCalls/kernel/vm.c:380-403 | Returns the bytes that the process sees and changes nothing it sees; it fails only at a page that user code could not read, or for want of memory |
| `UserMemory.Proc.Growproc` | G25_Project1_xv6CustomizeSystemCalls/kernel/proc.c:248-267 | The new size, the same view below it, zeros beyond it; failure changes nothing |
| `UserMemory.Proc.Sbrk` | G25_Project1_xv6CustomizeSystemCalls/kernel/sysproc.c:40-66 | Lazy and eager growth give the same size and the same view; only running out of memory tells them apart |
| `UserMemory.WrittenMore` | G25_Project1_xv6CustomizeSystemCalls/kernel/vm.c:342-375 | The page-wise copies of copyout add up to one byte range |
| `ProcessImage.ProcPagetable` | G25_Project1_xv6CustomizeSystemCalls/kernel/proc.c:188-218 | Maps trampoline and trapframe and nothing else; on failure every page is back |
| `ProcessImage.ProcFreePagetable` | G25_Project1_xv6CustomizeSystemCalls/kernel/proc.c:222-228 | Every table and every user page becomes free, each once; freewalk meets no leaf |
| `ProcessImage.Uvmcopy` | G25_Project1_xv6CustomizeSystemCalls/kernel/vm.c:296-324 | The child gets the parent's pages with their flags and contents in frames of its own; on failure the child is empty again and every data page is back; the parent does not change |
| `ProcessImage.ForkMemory` | G25_Project1_xv6CustomizeSystemCalls/kernel/proc.c:271-290 | Parent and child see the same memory in disjoint pages, or memory is exactly as before |
| `ProcessImage.Copied` | G25_Project1_xv6CustomizeSystemCalls/kernel/vm.c:296-324 | What a complete copy means: same view, same flags, disjoint frames, both address spaces sound |
| `Exec.LoadSeg` | G25_Project1_xv6CustomizeSystemCalls/kernel/exec.c:154-173 | The segment's bytes of the file appear at va and nothing else changes; every page it needs exists; a short read fails |
| `Exec.LoadImage` | G25_Project1_xv6CustomizeSystemCalls/kernel/exec.c:58-76 | The image shows exactly what the program headers ask for, the last header winning, zeros elsewhere |
| `Exec.PushArgs` | G25_Project1_xv6CustomizeSystemCalls/kernel/exec.c:96-117 | The argument strings and the array of their addresses are on the stack, 16-byte aligned, without touching anything below the stack; pages that were mapped keep their entries |
| `Exec.AddStack` | G25_Project1_xv6CustomizeSystemCalls/kernel/exec.c:84-94 | Two pages above the image, the lower one mapped but out of reach of user code; the image is not changed |
| `Exec.Kexec` | G25_Project1_xv6CustomizeSystemCalls/kernel/exec.c:26-148 | -1 leaves process and memory exactly as they were; success installs the image and the arguments, the page below the stack is mapped but out of reach of user code, and every page of the old image is free |
| `Isolation.StepKeepsIsolated` | G25_Project1_xv6CustomizeSystemCalls/kernel/proc.c:120-290 | Every step of one process, its creation and its end keep the tables, data pages and trapframes of all processes disjoint and every page owned, and no other process sees a change |
| `Isolation.NobodyInterferes` | G25_Project1_xv6CustomizeSystemCalls/kernel/proc.c:188-290 | In every run a process sees exactly the same memory for as long as it takes no step itself |
| `Isolation.ConfinedIsStep` | G25_Project1_xv6CustomizeSystemCalls/kernel/vm.c:342-403 | Faults, copies and sbrk are such steps |
| `Isolation.SwappedIsStep` | G25_Project1_xv6CustomizeSystemCalls/kernel/exec.c:26-148 | So is exec |
| `Isolation.ForkedIsStep` | G25_Project1_xv6CustomizeSystemCalls/kernel/proc.c:120-163 | So is making a process: a new trapframe and a copied address space |
| `Isolation.FreedIsStep` | G25_Project1_xv6CustomizeSystemCalls/kernel/proc.c:168-186 | So is freeing the trapframe and the address space of a process that has ended |
| `Isolation.AllocProc` | G25_Project1_xv6CustomizeSystemCalls/kernel/proc.c:144-158 | A trapframe that was free and an address space of new tables that maps it and the trampoline and nothing else; without memory for both every page is back |
| `Isolation.FreeProc` | G25_Project1_xv6CustomizeSystemCalls/kernel/proc.c:168-186 | Exactly the trapframe, the user pages and the tables of the process become free |
| `SleepWakeup.StepKeepsInv` | G25_Project1_xv6CustomizeSystemCalls/kernel/proc.c:556-601 | Every single step of sleep, wakeup, the scheduler, the semaphore or sleep lock and kill keeps the invariant |
| `SleepWakeup.NobodyLeftAsleep` | G25_Project1_xv6CustomizeSystemCalls/kernel/proc.c:556-601 | In every interleaving, once a wakeup under lk has gone through the table nobody is asleep on the channel or on the way to it; while lk is free and the value positive nobody is |
| `SleepWakeup.SemaphoreCount` | G25_Project1_xv6CustomizeSystemCalls/kernel/sysproc.c:224-248 | The value is initial plus posts minus finished waits, and never negative |
| `SleepWakeup.OneHolder` | G25_Project1_xv6CustomizeSystemCalls/kernel/sleeplock.c:21-41 | At most one process has a sleep lock, and it is locked exactly while one has it |
| `SleepWakeup.LockDiscipline` | G25_Project1_xv6CustomizeSystemCalls/kernel/proc.c:486-504 | In sched a process holds its p->lock and no other lock; nobody acquires a lock it holds |
| `ExitWait.StepKeepsInv` | G25_Project1_xv6CustomizeSystemCalls/kernel/proc.c:271-429 | Every single step of fork, exit, wait and kill keeps the invariant of the process tree |
| `ExitWait.ParentsAreAlive` | G25_Project1_xv6CustomizeSystemCalls/kernel/proc.c:324-380 | In every run no process has a zombie or unused parent |
| `ExitWait.NobodyMissesAnExit` | G25_Project1_xv6CustomizeSystemCalls/kernel/proc.c:340-429 | In every run, while wait_lock is free nobody sleeps in kwait over a zombie child |
| `ExitWait.ReapedOnce` | G25_Project1_xv6CustomizeSystemCalls/kernel/proc.c:384-429 | The status that kwait returns is the one exit was called with; it is returned once, to the process that forked the child or to init |
| `ExitWait.FreedIsGone` | G25_Project1_xv6CustomizeSystemCalls/kernel/proc.c:384-429 | A process that kwait frees has left the CPU for good |
| `VirtioDisk.Disk.Alloc3Desc` | G25_Project1_xv6CustomizeSystemCalls/kernel/virtio_disk.c:201-213 | Three different free descriptors, or none at all, the latter exactly if fewer than three are free |
| `VirtioDisk.Disk.FreeChain` | G25_Project1_xv6CustomizeSystemCalls/kernel/virtio_disk.c:185-197 | Exactly the three descriptors of the request become free |
| `VirtioDisk.Disk.Offer` | G25_Project1_xv6CustomizeSystemCalls/kernel/virtio_disk.c:215-281 | A request with three descriptors of its own joins the avail ring behind those not yet read; free descriptors and chains stay a partition |
| `VirtioDisk.Disk.DeviceTake` | G25_Project1_xv6CustomizeSystemCalls/kernel/virtio_disk.c:271-281 | The device reads the oldest entry that was offered and not yet taken, across the wrap of the 16-bit index |
| `VirtioDisk.Disk.DeviceComplete` | G25_Project1_xv6CustomizeSystemCalls/kernel/virtio_disk.c:235-265 | In any order: following the descriptors moves one block between exactly the request's buffer and the request's block; a write puts on the disk what the buffer held when it was offered |
| `VirtioDisk.Disk.IntrTurn` | G25_Project1_xv6CustomizeSystemCalls/kernel/virtio_disk.c:294-327 | The oldest completion not yet seen clears exactly its own buffer; its status is 0 |
| `VirtioDisk.Disk.Intr` | G25_Project1_xv6CustomizeSystemCalls/kernel/virtio_disk.c:294-327 | All completions are seen, and exactly their buffers are cleared |
| `VirtioDisk.Disk.Finish` | G25_Project1_xv6CustomizeSystemCalls/kernel/virtio_disk.c:283-292 | Once the buffer is no longer marked, the request is gone and three more descriptors are free; a read has left in the buffer what the block held when the device completed it |
| `VirtioDisk.Append` | G25_Project1_xv6CustomizeSystemCalls/kernel/virtio_disk.c:258-270 | An entry appended to a ring that is not full overwrites nothing still to be read |
| `VirtioDisk.Index16` | G25_Project1_xv6CustomizeSystemCalls/kernel/virtio_disk.c:258-325 | 16-bit indices have the ring slots of the full counts and tell apart counts that differ by at most NUM |
| `Pipe.Channel.Write` | G25_Project1_xv6CustomizeSystemCalls/kernel/pipe.c:76-103 | Bytes are accepted in order; it sleeps only with 512 bytes buffered, and fails exactly without a reader or when killed |
| `Pipe.Channel.Read` | G25_Project1_xv6CustomizeSystemCalls/kernel/pipe.c:105-134 | Delivered bytes are a prefix of accepted ones; 0 for n above 0 only with the write end closed and everything delivered |
| `Pipe.Channel.Close` | G25_Project1_xv6CustomizeSystemCalls/kernel/pipe.c:58-74 | Closes one end, and frees the pipe exactly when both are closed |
| `Pipe.Counters` | G25_Project1_xv6CustomizeSystemCalls/kernel/pipe.c:85-99 | 32-bit counters tell full, empty and the ring slot, across wrap-around |
| `Umalloc.Heap.Free` | G25_Project1_xv6CustomizeSystemCalls/user/umalloc.c:24-44 | The block leaves the live blocks and joins the free ones; the list stays circular, in address order, with a gap between neighbours |
| `Umalloc.Heap.Morecore` | G25_Project1_xv6CustomizeSystemCalls/user/umalloc.c:46-61 | At least 4096 units more in the free list, or nothing changed |
| `Umalloc.Heap.Malloc` | G25_Project1_xv6CustomizeSystemCalls/user/umalloc.c:63-90 | A new live block of the units needed, apart from all others; sbrk is asked at most once, exactly if no free block is large enough, and malloc fails exactly if sbrk then refuses |
| `Umalloc.RequestsThatWrap` | G25_Project1_xv6CustomizeSystemCalls/user/umalloc.c:46-69 | malloc asks sbrk for the units it takes over exactly if the request is at most 2 GiB - 32 bytes; beyond that for one unit, nothing, or a smaller process |
| `Umalloc.FreeStep` | G25_Project1_xv6CustomizeSystemCalls/user/umalloc.c:33-43 | Inserting and merging keeps free and live blocks disjoint and every unit accounted for |
| `Umalloc.InsertLinked` | G25_Project1_xv6CustomizeSystemCalls/user/umalloc.c:33-43 | What free writes to the headers links exactly the list with the block inserted and merged |
| `Umalloc.SearchEnds` | G25_Project1_xv6CustomizeSystemCalls/user/umalloc.c:30-32 | The test of free's search holds at the place of the block and nowhere else, so the search ends there |
| `Umalloc.WholeStep` | G25_Project1_xv6CustomizeSystemCalls/user/umalloc.c:75-77 | Taking a whole block keeps the heap invariant |
| `Umalloc.TailStep` | G25_Project1_xv6CustomizeSystemCalls/user/umalloc.c:78-82 | Taking the tail of a block keeps the heap invariant |
| `Umalloc.GrantStep` | G25_Project1_xv6CustomizeSystemCalls/user/umalloc.c:54-58 | New memory above everything else keeps the heap invariant |
| `Grep.Match` | G25_Project1_xv6CustomizeSystemCalls/user/grep.c:72-82 | True exactly if a substring of the text is in the pattern's language, with the anchors |
| `Grep.MatchHere` | G25_Project1_xv6CustomizeSystemCalls/user/grep.c:85-96 | True exactly if a prefix of the text is in the language of the pattern |
| `Grep.MatchStar` | G25_Project1_xv6CustomizeSystemCalls/user/grep.c:99-106 | True exactly if some number of repetitions is followed by the rest of the pattern |
| `Grep.GrepLines` | G25_Project1_xv6CustomizeSystemCalls/user/grep.c:11-35 | For every input, NULs included, the output is the same function of it however reads split it: the matching lines up to the first one that does not fit the buffer or has a NUL |
| `Grep.OutputAndUnread` | G25_Project1_xv6CustomizeSystemCalls/user/grep.c:11-35 | The output and the matching lines in the unread part, from the first line on that is overlong or has a NUL, make up all matching lines |
| `Grep.OutputIsMatchingLines` | G25_Project1_xv6CustomizeSystemCalls/user/grep.c:11-35 | The output is all matching newline-terminated lines exactly if none is in the unread part |
| `Grep.OverlongLineIsLost` | G25_Project1_xv6CustomizeSystemCalls/user/grep.c:11-35 | A matching line of 1023 characters is not printed |
| `Shell.GetToken` | G25_Project1_xv6CustomizeSystemCalls/user/sh.c:271-314 | Splits off exactly the first token of the rest of the line, with its extent |
| `Shell.Peek` | G25_Project1_xv6CustomizeSystemCalls/user/sh.c:316-326 | Skips white space, and tells whether the next token starts with one of the symbols |
| `Shell.ParseRedirs` | G25_Project1_xv6CustomizeSystemCalls/user/sh.c:380-403 | Collects the redirections that the grammar finds, or fails exactly if it does |
| `Shell.ParseExecAt` | G25_Project1_xv6CustomizeSystemCalls/user/sh.c:421-452 | The command that the grammar finds, or failure exactly if it fails; ends on the remaining input |
| `Shell.ParseBlockAt` | G25_Project1_xv6CustomizeSystemCalls/user/sh.c:405-419 | The same for a parenthesised line and its redirections |
| `Shell.ParsePipeAt` | G25_Project1_xv6CustomizeSystemCalls/user/sh.c:367-378 | The same for pipelines |
| `Shell.ParseLineAt` | G25_Project1_xv6CustomizeSystemCalls/user/sh.c:350-365 | The same for background commands and lists |
| `Shell.Nulterminate` | G25_Project1_xv6CustomizeSystemCalls/user/sh.c:455-499 | A NUL at the end of every string of the tree and nowhere else |
| `Shell.ParseCmdAt` | G25_Project1_xv6CustomizeSystemCalls/user/sh.c:333-348 | It fails exactly if the grammar derives no tree for the tokens of the line; otherwise the tree is one it derives, and afterwards every string in it reads as exactly its token |
| `Shell.StringIntact` | G25_Project1_xv6CustomizeSystemCalls/user/sh.c:455-499 | Terminating all strings cuts none of them short |
| `ShellGrammar.AcceptsExactly` | G25_Project1_xv6CustomizeSystemCalls/user/sh.c:350-452 | The recursive descent accepts a sequence of tokens with a tree exactly if the grammar of lines, pipelines, blocks, words and redirections, with fewer than MAXARGS words per command, derives that tree from it |
| `ShellGrammar.Unambiguous` | G25_Project1_xv6CustomizeSystemCalls/user/sh.c:350-452 | The grammar derives at most one tree from a sequence of tokens |
| `ShellGrammar.LineSound` | G25_Project1_xv6CustomizeSystemCalls/user/sh.c:350-365 | What parseline reads before it stops derives the tree it returns |
| `ShellGrammar.LineBack` | G25_Project1_xv6CustomizeSystemCalls/user/sh.c:350-365 | Before the end or a closing parenthesis parseline reads all of every derived line and returns its tree |
| `ShellGrammar.RoundTrip` | G25_Project1_xv6CustomizeSystemCalls/user/sh.c:350-452 | Parsing the printed form of any command tree with at most nine words per command gives the same tree |
| `Shell.LineRoundTrip` | G25_Project1_xv6CustomizeSystemCalls/user/sh.c:271-452 | The same for the line of text, through the tokenizer |

## Left out

- Concurrency of the file layer: `FileLayer` runs one operation at a time on the contents that `Log.Store` keeps; inode locks and the inode cache (`iget`, `ilock`) appear only as "this inode is loaded".
- Path names and directories (`dirlookup`, `namex`, `sys_link`, `sys_unlink`): their side conditions on link counts would dominate the model.
- FileLayer.Fs.Writei: user copies succeed or fail a block at a time, because the source may keep part of a block when a copy fails in the middle.
- Mkfs.MakeImage: running out of inodes or blocks is reported, where the source does not look; the superblock's bytes and the host's files are not part of the model.
- BufferCache.Bcache.Bget: a buffer that another process has locked is excluded; the source waits for it, and `SleepWakeup` has the lock.
- BufferCache.Bcache.Bread: the same.
- WriteAheadLog.Log.Store: the block itself is not held by somebody else; the source waits for its lock.
- WriteAheadLog.Log.WriteLog: no block of the log is held by somebody else; the source waits for its lock. Nobody but the log reads the log area.
- WriteAheadLog.Log.WriteHead: the same.
- WriteAheadLog.Log.InstallTrans: the same.
- WriteAheadLog.Log.Commit: the same.
- CrashProtocol.FullLogPanics: the run is one of the protocol; that operations of the kernel write thirty blocks in that way is not shown.
- CrashProtocol.ReadersPanicCommit: the same; in the kernel a reader holds the buffer of one block of a file and, inside `bmap`, of its indirect block.
- FileLayer.Fs.FileWrite: contents and log bounds are promised for files without holes; the kernel and `mkfs` make no others except the root directory, which `filewrite` cannot open.
- Reclaim.Ireclaim: a turn that logs `LOGBLOCKS` blocks or more goes on, where the kernel panics with nothing written; `Boot.CrashInReclaim` covers the disk it leaves.
- Boot.Fsinit: the superblock is given; reading it and testing its magic number are left out.
- Boot.EveryCrashIsSound: that operations keep the file system consistent is a hypothesis; `FileWrite` and `Ireclaim` do, operations on directories are not modelled.
- VirtualMemory.Kmem.Kfree: the junk that kfree and kalloc fill pages with is not modelled; a page is free, a table or data, and only its owner's contents are kept.
- Isolation.StepKeepsIsolated: kernel stacks, which boot maps once for every slot of the process table, and the pages of pipes are not counted among the pages of a process.
- UserMemory.Proc.Copyout: `copyinstr` and the system call layer above copyin and copyout are left out.
- Exec.Kexec: the file is given as its program headers and contents as read; at most 31 arguments, which is what `sys_exec` passes; copyout into the new image is modelled with the new size, which makes no difference since the stack is mapped.
- SleepWakeup.SemaphoreCount: re-initialising a semaphore that is in use (`sem_init` wakes nobody) is excluded; so are the spin of `acquire` and `push_off`, which are single steps.
- ExitWait.StepKeepsInv: process ids do not wrap around; going to sleep in kwait and waking up are single steps, as `SleepWakeup` justifies.
- VirtioDisk.Disk.DeviceComplete: the device reports success (otherwise the driver panics); device initialisation and registers are left out.
- Umalloc.Heap.Malloc: addresses count units of a header and what sbrk returns is aligned to them; the units taken over are those malloc asked for, which sbrk grants only below the bound of `RequestsThatWrap`.
- Shell.ParseExecAt: redirections are wrapped around the command when all its words are known, where the source wraps them one by one around a node whose words it still fills in; running commands (`runcmd`) is left out.
- Signals, messages, user locks, `sys_getyear` and the other added system calls, the console, traps and assembly: settled by reading a branch, or without an invariant to state.
- The utilities of the second project are wrappers around libc calls.
