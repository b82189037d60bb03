# xv6-64: a verified model of its kernel and user-level core

This project models the hard parts of a 64-bit teaching kernel and of three of its user programs, and proves
what they promise. Every `.dfy` file is part of one Dafny 4.11 project; `dafny verify dfyconfig.toml` checks it.

**Crash-safe log** (`LogDisk`, `LogMachine`, `LogInvariant`, `LogTheorems`, `LogBudget`, `LogSerial`, `LogSharp`,
`LogCode`). Any number of processes open operations, change buffers and call `log_write`; one of them commits; a
crash may happen between any two single-block disk writes, also inside recovery and any number of times. In every
run, a commit runs only with no operation open, `end_op` never panics, and what is committed is whole operations
(`CommitIsolation`). In every run in which the list of logged blocks does not outgrow the log, what recovery makes of
the disk is the boot image with exactly the writes of the committed operations, in order (`FittingAtomicity`). The
list never outgrows the log, of whatever size, if no two calls of `log_write` overlap (`SerialFits`). If every
operation adds at most MAXOPBLOCKS blocks, crashes are atomic in every run if and only if the log is longer than
LOGSIZE blocks, or has room for its header only, or there is one process (`AtomicExactly`), so not with mkfs's log
and two processes. `LogCode` holds the code of log.c and shows that each of its loops is a run of the transition system.

**Files, directories, paths** (`FsImage`, `FsNeed`, `Fs`, `FileCode`, `DirModel`, `DirCode`, `PathModel`,
`PathCode`). Direct and indirect blocks and a bitmap implement byte arrays: `readi` is a slice, `writei` a splice,
no other file changes, every block has at most one owner, and `writei` panics exactly when the blocks it lacks are
more than those that are free; so `filewrite` succeeds, fails or panics exactly as the first chunk without room
says. Directories are finite maps kept in such files, and `namex` is a fold of lookup over the path's elements that
keeps the reference counts of inodes balanced.

**Files on the log** (`Dinode`, `FsDisk`, `FsTransaction`). Inodes, free map and data as bytes of disk blocks; no
operation changes a block that it does not log, so after any crash, in every run in which the list of logged blocks
fits the log, the disk holds the file system as it was after some number of whole operations (`CrashConsistency`), and
`filewrite` leaves a whole number of chunks (`FileWriteCrash`). With one operation open at a time that needs no
assumption about the log (`SerialConsistency`, `FileWriteCrashAlone`).

**Page tables and frames** (`VmTree`, `VmSnap`, `VmFree`, `VmCopy`, `VmCount`, `VmWired`, `Vm`). A forest of
four-level trees in memory agrees with flat page maps and with the walk that the processor makes, every root keeps the
kernel's entry, no frame is reachable twice, and growing, shrinking, copying and tearing down an address space do to
the flat maps exactly what their names say, fail exactly when the frames they need are more than those that are free,
and lose a frame in one case, which is stated exactly.

**Processes** (`ProcMachine`, `ProcInvariant`, `ProcTheorems`, `ProcCalls`). Scheduler, spin locks, sleep and wakeup,
fork, exit, wait and kill as a transition system with any number of CPUs: what every step keeps, and what each call
does to the table in every run.

**Pipes** (`PipeRing`, `PipeMachine`, `PipeCalls`, `PipeCode`), the **buffer cache** (`CacheList`, `CacheModel`,
`CacheCode`), the **user heap** (`HeapModel`, `HeapCode`), the **shell's parser** (`ShellGrammar`, `ShellLaws`,
`ShellLex`, `ShellTokens`, `ShellCode`) and **grep's matcher** (`Grep`). The laws of `ShellTokens` and `ShellLaws`
determine the tokens of every text and the tree of every line without mention of the parser.

## How the code is modelled

- An object whose fields the source updates is a class; its methods are tied to specification functions or
  predicates on values, and what the source promises is proved about those. A panic is a result (`None`, `Panic`,
  `false`), never a precondition, unless the theorem is that it cannot happen.
- Concurrent protocols are transition systems; theorems are about every run from a boot state.
- 32-bit wrap-around is explicit in the pipe's counters and in the offset tests of `readi` and `writei`, and so is
  the cut of an inode number to 16 bits in a directory entry.
- `sbrk`, the disk image and the choice of which process runs next are parameters or nondeterministic steps.

## Where code and promise differ

- mkfs makes the log LOGSIZE blocks long. `log_write` tests the size before it takes the lock, so two operations can
  pass the test together and the list of blocks then outgrows the log: `write_log` overwrites the block after the
  log, with nothing committed. That happens, to operations of two processes within their budgets, for every size from
  2 to LOGSIZE (`SmallLogNotAtomic`), and neither for another size (`CrashAtomicity`) nor to one process
  (`SingleFits`); `AtomicExactly` states all of it.
- For the same sizes operations within their budgets also meet the panic of `log_write` (`ReservationIsSharp`). In a
  longer log it is met exactly when the log holds LOGSIZE blocks (`Reservation`). Operations of at most MAXOPBLOCKS
  calls never meet it (`NoPanic`); operations that add at most MAXOPBLOCKS blocks can, on a block that is in the
  log already (`FullLogPanics`).
- `filewrite` sizes its chunks from LOGSIZE, not from the MAXOPBLOCKS that `begin_op` reserves. A transaction logs
  every data block it touches, so each one that touches more than MAXOPBLOCKS exceeds the reservation, and each full
  chunk does (`ReservationBroken`, `FullChunksBreak`). With one bitmap block there are at most three others, so one
  that touches seven or fewer keeps it.
- `pipewrite` returns on error without waking readers. Readers that are asleep then, and only those, may stay asleep
  beside buffered bytes (`SleepersMustWait`, `ErrorReturnExactly`), and that happens (`ErrorReturnMissesReader`).
- `copyuvm` loses the frame in hand when mapping it fails: exactly when memory runs out between the frame of a page
  and the last of its tables (`CopyUvm`, `MidwayExactly`), as with one to three frames left at the first page
  (`FirstPageMidway`).
- `setupkvm` stores through a null pointer when no frame is free, and `uva2ka` dereferences a null entry when there is
  no page table; both are results in the model (`SetupKvm`, `CopyUvm`, `Uva2ka`).
- The shell gives `>` and `>>` the same mode, so a tree does not tell them apart.
- `dirlink` given an inode number that is a multiple of 65536 writes an entry that counts as free (`DirLink`).

## Model

| member | source | states |
|---|---|---|
| `LogDisk.HeaderRoundTrip` | log.c:86-113 | reading back a header block that holds a list of block numbers gives that list |
| `LogInvariant.StepKeeps` | log.c:126-231 | every step of every process, of commit and recovery, and a crash, after which the list of logged blocks fits the log, keeps the invariant and changes the durable and the visible state exactly as the step should |
| `LogTheorems.TracksRun` | log.c:116-231 | along every run the durable state is the replay of the committed writes and the visible state that of all writes |
| `LogTheorems.FittingAtomicity` | log.c:69-122 | after any run with any crashes in which the list fits the log, recovery yields the boot image plus exactly the writes of whole committed operations |
| `LogBudget.BudgetedFits` | log.c:126-141 | in a log longer than LOGSIZE the list fits in every run of operations that add at most MAXOPBLOCKS blocks each, absorbed blocks not counted |
| `LogBudget.HeaderOnlyFits` | log.c:216-217 | in a log of one block nothing is ever logged |
| `LogBudget.CrashAtomicity` | log.c:69-122 | so for these sizes crashes are atomic in every run of such operations |
| `LogSharp.SmallLogNotAtomic` | log.c:213-231 | for every size from 2 to LOGSIZE a run of operations of two processes within both budgets, without a panic, that ends with a home block changed and nothing committed |
| `LogSharp.AtomicExactly` | log.c:54-231 | crashes are atomic in every run of such operations if and only if the log is longer than LOGSIZE or one block long, or there is at most one process |
| `LogTheorems.RecoveredHomeBlocks` | log.c:116-122 | once recovery is done the home blocks on disk are that state, and reads add exactly the writes since |
| `LogInvariant.StepCounted` | log.c:126-172 | every step of every layout, whether or not the list fits, keeps the count of open operations and its meaning for the commit, and no end of an operation panics |
| `LogTheorems.CommitIsolation` | log.c:126-200 | in every run of every layout: a commit runs only with no operation open, the panic of end_op is not reached, and what is committed is whole operations, with the open ones outside it |
| `LogSerial.SerialFits` | log.c:213-231 | if at most one process at a time is between the size test and the lock of log_write, the list fits every log, without any budget |
| `LogSerial.OneAtATimeFits` | log.c:126-231 | so it does if at most one operation at a time is open |
| `LogSerial.SingleFits` | log.c:126-231 | and with one process |
| `LogBudget.Reservation` | log.c:126-141 | if `log.size > LOGSIZE`, in every interleaving the log has room for what every open operation may still add, and a call panics exactly when the log holds LOGSIZE blocks |
| `LogBudget.NoPanic` | log.c:213-219 | and operations of at most MAXOPBLOCKS calls never panic |
| `LogSharp.FullLogPanics` | log.c:216-226 | operations of at most MAXOPBLOCKS blocks can, on a block that is in the log already |
| `LogSharp.ReservationIsSharp` | log.c:216-219 | if `log.size <= LOGSIZE`, operations of two processes within both budgets reach the panic |
| `LogTheorems.HomeOnlyAfterCommit` | log.c:191-200 | a home block changes on disk only when the commit record that names it is there, and takes its durable content |
| `LogTheorems.LoggedNotRecycled` | bio.c:78-91 | a logged block that is not installed is cached and cannot be recycled |
| `LogCode.OutcomeKept` | log.c:191-200 | every single disk write of a commit or recovery keeps its outcome |
| `LogCode.OutcomeAtHome` | log.c:70-82 | a finished commit or recovery has put its outcome on the home blocks |
| `LogCode.Log.constructor` | log.c:54-66 | the log of a freshly booted machine |
| `LogCode.Log.WriteLog` | log.c:176-188 | the loop is a run of the machine that copies every logged block to the log |
| `LogCode.Log.HeaderImage` | log.c:102-113 | the header block holds exactly the logged block numbers |
| `LogCode.Log.WriteHeader` | log.c:102-113 | one disk write puts the header |
| `LogCode.Log.InstallTrans` | log.c:70-82 | the loop is a run that copies every log block home |
| `LogCode.Log.Erase` | log.c:197-198 | clearing the count and writing the header is the machine's erasing step |
| `LogCode.Log.CommitHeader` | log.c:195-195 | writing the header is the machine's commit step |
| `LogCode.Log.Commit` | log.c:191-200 | afterwards the home blocks on disk are what operations saw, and the log is empty |
| `LogCode.Log.CopyEntries` | log.c:86-96 | the loop copies the block numbers of a header |
| `LogCode.Log.ReadHead` | log.c:86-96 | memory's header becomes the one on disk |
| `LogCode.Log.RecoverFromLog` | log.c:116-122 | afterwards the home blocks on disk are the durable state |
| `LogCode.Log.BeginOp` | log.c:126-141 | an operation is admitted exactly when no commit runs and ten more blocks for each open operation and for it fit the thirty |
| `LogCode.Log.EndOp` | log.c:146-162 | the commit falls to the last operation, and the panic is not reached |
| `LogCode.Log.FinishOp` | log.c:146-172 | all of end_op is a run of the machine; if the operation is the last one, the home blocks hold what operations saw and the log is open again |
| `LogCode.Log.Reopen` | log.c:166-171 | the machine's step that ends a commit |
| `LogCode.Log.AddBlock` | log.c:221-228 | a block joins the log once |
| `LogCode.Log.LogWrite` | log.c:220-231 | the locked half of the call is the machine's step: joined once and pinned |
| `FsImage.ConsistentMeans` | fs.c:53-89 | each block is referenced by at most one slot, and its bit is set exactly when it is |
| `FsImage.AllocateKeeps` | fs.c:53-72 | setting the bit of a free block and zeroing it changes no file |
| `FsImage.LinkAddr` | fs.c:349-376 | storing an allocated block in an address slot keeps ownership exact |
| `FsImage.LinkEntry` | fs.c:362-373 | the same for an entry of the indirect block |
| `FsImage.WriteDataKeeps` | fs.c:471-477 | writing a data block changes that block of that file and nothing else |
| `FsImage.FreeAddr` | fs.c:390-395 | freeing and clearing an address keeps ownership exact |
| `FsImage.FreeIndirect` | fs.c:397-407 | freeing the indirect block after its entries keeps ownership exact |
| `Fs.FileSys.Balloc` | fs.c:53-72 | the first free block is marked, zeroed and returned; the panic exactly when none is free; one free block less, and what changes is logged |
| `Fs.FileSys.Bfree` | fs.c:76-89 | the bit is cleared; the panic exactly when it was clear |
| `Dinode.BytesBack` | fs.h:29-36 | loading the 64 bytes of a stored inode gives the inode, for every inode whose fields have the ranges of their C types |
| `Dinode.StoresLoads` | fs.c:203-218 | iupdate of an inode is undone by ilock and leaves the other inodes of the block alone |
| `FsDisk.StoresInode` | fs.c:208-217 | iupdate on its block gives the block of all inodes with that one replaced |
| `FsDisk.LoadsInode` | fs.c:280-290 | ilock finds every inode in its block |
| `Fs.FileSys.Bmap` | fs.c:349-376 | a mapped block is returned and nothing changes; otherwise that block alone is mapped and no file changes; the panic exactly when the free blocks are fewer than the one or two needed |
| `Fs.FileSys.Readi` | fs.c:427-450 | the bytes are a slice of the file and nothing, not even the bitmap, changes; all error cases |
| `Fs.FileSys.Writei` | fs.c:455-484 | the file is spliced, every other file and inode is as before, holes never appear; the panic exactly when free blocks are too few; every touched data block is logged, nothing changes that is not, and with one bitmap block at most three others are |
| `Fs.FileSys.WriteBlocks` | fs.c:471-477 | the loop stops exactly when the blocks that the stretch lacks are more than those that are free |
| `FsNeed.NeedMore` | fs.c:349-376 | what a stretch needs is the sum of what its blocks need as they are mapped one after the other |
| `FsNeed.FreeAfterSet` | fs.c:59-68 | marking a free block takes one from the count of free blocks |
| `Fs.RefsCount` | fs.c:471-477 | the blocks of a stretch of a file are as many different disk blocks |
| `Fs.FileSys.AddedBound` | file.c:133-146 | the count of logged blocks: at most LOGSIZE for a chunk, at most three beside the data blocks with one bitmap block |
| `Fs.FileSys.TruncDirect` | fs.c:390-395 | the direct blocks go, "freeing free block" is not reached |
| `Fs.FileSys.TruncIndirect` | fs.c:397-407 | the same for the indirect block and its entries |
| `Fs.FileSys.TruncEntry` | fs.c:400-403 | one entry of it: its block is freed if it has one, and the panic is not reached |
| `Fs.FileSys.Itrunc` | fs.c:384-411 | exactly the inode's blocks are freed, its size is 0, every other file is as before; with one bitmap block only that and the inode's block are logged |
| `FileCode.SpliceSplice` | file.c:135-154 | two adjacent splices are one |
| `FileCode.File.FileRead` | file.c:97-113 | the slice at the offset, which moves by what was read |
| `FileCode.ReservationBroken` | file.c:127-146 | a transaction that touches more than MAXOPBLOCKS data blocks exceeds the reservation, so every full chunk does; one that touches at most seven keeps it if there is one bitmap block |
| `FileCode.FullChunksBreak` | file.c:133-146 | every full chunk of every write exceeds it |
| `FileCode.TrailMore` | file.c:135-152 | after each transaction the disk holds one more chunk, and the transaction changed only blocks it logged |
| `FileCode.File.WriteChunk` | file.c:140-149 | one transaction splices one chunk; it logs every data block it touches and at most LOGSIZE blocks; the panic and the error exactly where they happen |
| `FsNeed.ByteNeedMore` | file.c:135-152 | what two stretches of a file need, the second once the first is mapped, they need together, also when they share a block |
| `FileCode.StopsOnce` | file.c:135-152 | at most one chunk is the first without room |
| `FileCode.File.FileWrite` | file.c:118-156 | all chunks together are one splice at the old offset, or a splice of the whole chunks before an error; success exactly when all bytes have room, an error or a panic exactly when the first chunk without room lacks it in the file or among the free blocks; what each transaction logged and left on the disk |
| `DirModel.SameKey` | string.c:59-66 | strings that agree up to DIRSIZ characters or a common NUL are the same name, others are not |
| `DirModel.FirstNamed` | fs.c:506-518 | the first live entry with a name is the one the directory map holds |
| `DirModel.PlacedMap` | fs.c:537-548 | writing a new name into a free slot adds exactly that name to the map |
| `DirModel.PlacedNoTwins` | fs.c:531-548 | and no two live entries have one name |
| `DirModel.SpliceEntry` | fs.c:545-548 | a 16-byte splice replaces one entry and no other |
| `DirCode.NameCmp` | fs.c:490-493 | zero exactly on equal names |
| `DirCode.StrNCpy` | string.c:69-77 | the stored name is the name padded with NULs |
| `DirCode.DirLookup` | fs.c:498-521 | the answer of the finite map the directory's bytes stand for; both panics exactly where they happen |
| `DirCode.FindFree` | fs.c:538-543 | the first free slot, or the end; the panic exactly on part of an entry with no free slot before it |
| `DirCode.DirLink` | fs.c:525-551 | fails exactly on a name that is there; panics exactly on what is no directory or has no room for a new name in its first free slot; otherwise adds it with the inode number cut to 16 bits and changes no other file |
| `PathModel.ElementsLaws` | fs.c:556-591 | a slash separates, a slash-free string is one element cut to DIRSIZ, the empty string has none |
| `PathModel.ParentIsPrefix` | fs.c:613-616 | nameiparent walks all elements but the last, to a directory |
| `PathModel.WalkJoin` | fs.c:607-623 | a path of two parts is walked part by part, one name is a lookup in the directory, the empty path stays |
| `PathCode.SkipElem` | fs.c:569-591 | the first element and the rest of the path |
| `PathCode.Inodes.constructor` | fs.c:158-172 | a table with no references |
| `PathCode.Inodes.Iget` | fs.c:224-254 | one more reference to that inode, through one slot; the panic exactly when it has none and no slot is free |
| `PathCode.Inodes.Idup` | fs.c:259-265 | one more reference |
| `PathCode.Inodes.Ilock` | fs.c:270-294 | the copy is valid; the panic exactly on an unreferenced slot or a free inode |
| `PathCode.Inodes.Iput` | fs.c:314-328 | one reference less; the last one to an unlinked inode frees exactly its blocks and the inode, which then has no type and no content |
| `PathCode.Inodes.Follow` | fs.c:617-622 | exchanging references leaves one more than at the start |
| `PathCode.Inodes.Descend` | fs.c:617-622 | one step of the fold, or no reference left over |
| `PathCode.Inodes.Advance` | fs.c:607-623 | one turn of the loop keeps what the path leads to |
| `PathCode.Inodes.KeptInHand` | fs.c:617-622 | on a path through inodes that have a link or that the caller holds, the reference in hand is never the last to an unlinked inode |
| `PathCode.Inodes.Namex` | fs.c:598-629 | the fold of lookup over the elements, one more reference on success and none on failure, nothing freed, a panic only with fewer than two slots free |
| `FsDisk.OnlyLoggedChange` | log.c:206-210 | between two states of the file system a disk block that is not logged is the same |
| `FsDisk.EncodedInjective` | fs.h:8-48 | the disk determines inodes, free map and data |
| `FsTransaction.CarriedOut` | log.c:206-231 | an operation that writes the blocks it logs leaves the disk storing the new state |
| `FsTransaction.WholeFront` | log.c:144-172 | a front of the history with no operation open consists of whole operations |
| `FsTransaction.CrashConsistency` | log.c:116-200 | after any run with any crashes in which the list fits the log, recovery gives back the file system as it was after some number of whole operations |
| `FsTransaction.SerialConsistency` | log.c:116-200 | so for every log, with no budget, if one operation at a time is open |
| `FsTransaction.FileWriteCrash` | file.c:127-152 | so a crash during filewrite leaves a whole number of chunks in the file |
| `FsTransaction.FileWriteCrashAlone` | file.c:127-152 | also with full chunks and mkfs's log, if one operation at a time is open |
| `VmSnap.IndexSpell` | vm.c:161-201 | the four index macros spell the page number below 2^47 |
| `VmTree.Attach` | vm.c:171-199 | a new table or page under an absent entry keeps the forest and changes only the translation it maps |
| `VmTree.Drop` | vm.c:339-384 | giving back a frame with nothing below it keeps the forest but for the entry that pointed to it |
| `VmTree.PteNode` | vm.c:161-201 | the flat map's entry of a page is its frame's entry in the tree |
| `VmWired.WalkIsPte` | vm.c:161-201 | the processor's walk from the root, through four levels of entries that the user may pass, finds exactly the entry of the flat page map |
| `VmWired.UserAccess` | vm.c:433-443 | uva2ka finds the frame exactly where that walk finds an entry with bit 2 set |
| `VmWired.TableAdded` | vm.c:171-199 | a new table keeps the kernel's entry in every root and the open entries above every table |
| `VmWired.RootAdded` | vm.c:103-109 | so does a new root |
| `VmWired.WiredKept` | vm.c:313-384 | so does everything that leaves the upper levels alone, or takes tables away |
| `VmWired.NewPages` | vm.c:279-306 | pages that allocuvm added are zero, and open to the user |
| `VmWired.CopiedMemory` | vm.c:402-429 | pages that copyuvm copied hold the bytes of the parent with its permissions |
| `Vm.Machine.Kalloc` | kalloc.c:77-89 | the head of the free list, or 0 exactly when it is empty |
| `Vm.Machine.Kfree` | kalloc.c:54-71 | the frame goes to the head of the list, scribbled over; the panic exactly on a bad address |
| `Vm.Machine.Next` | vm.c:165-199 | one level down; a missing table is added only if asked, and no translation changes |
| `Vm.Machine.WalkPgdir` | vm.c:161-201 | the page table of the address; 0 only if there is none or memory runs out; no translation changes, no frame is lost |
| `Vm.Machine.MapPages` | vm.c:213-232 | exactly the pages of the range map to the consecutive frames; no other translation changes |
| `Vm.Machine.UnmapPage` | vm.c:319-331 | the page is unmapped and its frame free; the panic on frame 0 is not reached |
| `Vm.Machine.DeallocUvm` | vm.c:313-334 | exactly the pages between the sizes go and their frames are free again |
| `VmCount.MissingMore` | vm.c:161-201 | the page tables that a range lacks are the sum of what its pages lack as they are mapped one after the other |
| `Vm.Machine.AllocUvm` | vm.c:279-306 | exactly the pages between the sizes are new, in fresh frames; the user may read and write their bytes, all zero; a failure restores every translation; it fails exactly when the pages and the tables they lack are more than the free frames |
| `Vm.Machine.GrowPage` | vm.c:288-304 | one turn of that loop, or everything undone |
| `Vm.Machine.FreeChildren` | vm.c:348-381 | every frame under the entries of a table goes back once |
| `Vm.Machine.FreeUnder` | vm.c:353-380 | a table and every frame below it go back once |
| `Vm.Machine.FreeVm` | vm.c:339-384 | exactly the frames of that tree become free, no other address space changes |
| `Vm.Machine.SetupKvm` | vm.c:103-109 | a new root with the kernel's entry in place 256 and every other entry 0, so it maps no user page; the store through a null pointer exactly when no frame is free; like every operation it keeps the kernel's entry in every root |
| `VmCount.FreshMissing` | vm.c:402-429 | how many tables the first pages of a new address space need |
| `VmCount.MidwayExactly` | vm.c:418-422 | memory that runs out at a page runs out between its frame and its tables exactly if some was left for it |
| `VmCount.FirstPageMidway` | vm.c:418-422 | with one to three frames left for a copy of at least one page it does |
| `VmCount.NoMemoryForHole` | vm.c:411-422 | memory that runs out before an unmapped page of the parent never reaches it |
| `Vm.Machine.CopyUvm` | vm.c:402-429 | the child's root has the kernel's entry, and the child has the parent's byte and permissions at every address from the second page up to the size, in frames of its own; the panic exactly if the parent has an unmapped page and memory lasts to the first, and then the pages before it are copied; 0 exactly when the free frames are too few, and then every map is as it was and a frame is lost exactly when memory ran out between the frame of a page and the last of its tables |
| `Vm.Machine.CopyPage` | vm.c:411-423 | one page of that copy; on failure the frame in hand is lost, exactly when there was one |
| `Vm.Machine.Uva2ka` | vm.c:433-443 | the frame of a page mapped for the user; the null dereference exactly when there is no page table |
| `Vm.Machine.CopyOut` | vm.c:449-469 | succeeds exactly when every page touched is mapped for the user; in any case it is one flat write of the bytes before the first page that is not; the null dereference exactly when that page has no table |
| `ProcInvariant.AcquireKeeps` | spinlock.c:25-43 | taking a lock keeps the invariant |
| `ProcInvariant.ReleaseKeeps` | spinlock.c:47-68 | giving up a lock keeps it, and the CPU is the recorded holder |
| `ProcInvariant.PickKeeps` | proc.c:282-293 | choosing a process keeps the invariant |
| `ProcInvariant.SwitchKeeps` | proc.c:294-299 | switching to it and back keeps the invariant |
| `ProcInvariant.SetStateKeeps` | proc.c:337-402 | yielding and going to sleep keep the invariant |
| `ProcInvariant.WakeupKeeps` | proc.c:408-424 | waking a channel keeps the invariant |
| `ProcInvariant.KillKeeps` | proc.c:430-447 | so does killing |
| `ProcInvariant.AdoptKeeps` | proc.c:203-209 | handing a child to init keeps the invariant and wakes init for a zombie |
| `ProcInvariant.ZombieKeeps` | proc.c:211-213 | becoming a zombie keeps the invariant |
| `ProcInvariant.ReapKeeps` | proc.c:231-245 | clearing a zombie child keeps the invariant |
| `ProcInvariant.FindKeeps` | proc.c:35-53 | taking a slot keeps the invariant |
| `ProcInvariant.SlotKeeps` | proc.c:138-169 | fork's unlocked stores into its own slot keep the invariant |
| `ProcTheorems.StepKeeps` | proc.c:133-447 | so does every step of every CPU; it says that wait has seen a child exactly if one precedes the place of its scan |
| `ProcTheorems.RunKeeps` | proc.c:82-106 | the invariant holds after every run from boot |
| `ProcTheorems.ContextExclusivity` | proc.c:270-333 | no two CPUs execute on one process's kernel context, and none on that of a free or unfinished slot |
| `ProcTheorems.NoPanic` | proc.c:317-333 | in every run: release by the recorded holder; sched with the table lock, no other, and the process not running; no zombie resumed |
| `ProcTheorems.NoMissedZombie` | proc.c:176-259 | in every reachable state no process sleeps in wait with a zombie child, every zombie has a live parent, init lives |
| `ProcTheorems.NoLostWakeup` | proc.c:370-424 | when a wakeup has run nobody sleeps on its channel and nobody is between giving up its lock and sleeping |
| `ProcTheorems.ReturnedIsNew` | proc.c:231-245 | a pid that wait returns has exited and was not returned before |
| `ProcTheorems.WaitReturnsOnce` | proc.c:221-259 | in no run does wait return a pid twice |
| `ProcCalls.WaitExactly` | proc.c:221-259 | at the end of its scan wait gives up, with nothing changed, exactly if the caller has no child or was killed, and otherwise sleeps on its own address, still under the lock |
| `ProcCalls.WaitScans` | proc.c:229-247 | wait clears the first zombie child and returns, and passes every other entry unchanged |
| `ProcCalls.ExitPassesOn` | proc.c:203-209 | exit hands each child to init, and changes nothing else of the table but that for a zombie it wakes those who wait as init |
| `ProcCalls.ExitEnds` | proc.c:211-213 | at its end the caller is a zombie, has no child, and its parent does not sleep in wait |
| `ProcCalls.KillMarks` | proc.c:430-445 | kill marks the first entry with the pid, makes it runnable exactly if it was asleep, and changes nothing else |
| `ProcCalls.KillMisses` | proc.c:430-447 | without such an entry it changes nothing |
| `ProcCalls.ForkTakes` | proc.c:35-53 | fork takes the first unused entry, with a pid that no process has or had |
| `ProcCalls.ForkFails` | proc.c:42-47 | without one it fails and changes nothing |
| `ProcCalls.ForkMakes` | proc.c:138-169 | when fork returns the new process is a runnable child of the caller that starts in forkret |
| `ProcCalls.ForkUndoes` | proc.c:143-148 | without memory for it the entry is unused again |
| `ProcCalls.YieldIsRunnable` | proc.c:337-343 | yield leaves the caller runnable |
| `ProcCalls.SleepDrops` | proc.c:384-387 | sleep holds the table lock before it gives up the other |
| `ProcCalls.SleepSleeps` | proc.c:389-392 | it leaves the caller asleep on the channel |
| `ProcCalls.SleepClears` | proc.c:394-395 | woken, it clears the channel |
| `ProcCalls.SleepReturns` | proc.c:397-401 | it returns with the lock it was given, and not with the table lock |
| `ProcCalls.WakeupWakes` | proc.c:408-424 | wakeup makes runnable exactly those asleep on the channel |
| `ProcCalls.StopsThere` | proc.c:317-333 | sched records where the process stopped |
| `ProcCalls.GoesOn` | proc.c:282-299 | a process chosen goes on there |
| `ProcCalls.CallsEnter` | proc.c:133-447 | each call starts with the table lock and its own arguments |
| `ProcCalls.CallsLeave` | proc.c:337-447 | it ends by giving up that lock and no other |
| `PipeRing.FullIs` | pipe.c:85-85 | the counters' tests mean 512 and 0 buffered bytes, also after wrapping |
| `PipeRing.PutContents` | pipe.c:93-93 | a byte put goes to the end of the buffered bytes |
| `PipeRing.GetContents` | pipe.c:116-116 | a byte taken is the first of them |
| `PipeCode.Pipe.WriteSome` | pipe.c:84-94 | bytes are appended in order, each by the machine's step, until all are in or the buffer is full |
| `PipeCode.Pipe.ReadSome` | pipe.c:113-117 | up to n bytes come off the front, fewer only if it runs empty |
| `PipeMachine.StepKeeps` | pipe.c:60-121 | every step of every process keeps the invariant |
| `PipeMachine.PipeIsFifo` | pipe.c:79-121 | in every run bytes taken then bytes buffered are the bytes written, at most 512 are buffered |
| `PipeMachine.SleepersMustWait` | pipe.c:85-112 | with the lock free, a sleeping writer faces a full buffer with the read end open, a sleeping reader an empty one with the write end open unless it has slept since a writer left by the error return |
| `PipeMachine.NoMutualSleep` | pipe.c:85-112 | so no writer and reader sleep on each other but for such readers |
| `PipeMachine.ErrorReturnExactly` | pipe.c:86-88 | in every run the error return leaves asleep beside a full buffer exactly the readers that were asleep, and those are the exception |
| `PipeMachine.ReadReturns` | pipe.c:100-121 | a read returns consecutive bytes of the stream, and none only at its end |
| `PipeMachine.ErrorReturnMissesReader` | pipe.c:86-88 | a run in which the error return leaves a reader asleep beside a full buffer |
| `PipeCalls.ClosedExactly` | pipe.c:60-75 | in every run an end is closed exactly if some close of it has run |
| `PipeCalls.CloseWakes` | pipe.c:60-75 | closing an end shuts that end alone and wakes everyone asleep at the other |
| `PipeCalls.ClosedNeverSleeps` | pipe.c:60-112 | in every run, once the write end is closed no reader sleeps, and once the read end is no writer does |
| `PipeCalls.ReadWaits` | pipe.c:106-112 | a read sleeps exactly if all bytes written were taken, the write end is open and the caller was not killed; it gives up exactly if it was; else it copies |
| `PipeCalls.ReadTakes` | pipe.c:113-119 | it takes the oldest byte until it has enough or there is none, then wakes the writers |
| `PipeCalls.WorksOnItsCall` | pipe.c:60-121 | in every run a process inside write, read or close works on the arguments of its last call |
| `PipeCalls.WriteSends` | pipe.c:79-97 | in every run the bytes a write has put are its argument up to its place, in order and each once; it puts the next exactly if fewer than 512 are buffered, returns when all are in, and on a full pipe sleeps or gives up |
| `PipeCalls.KillWakes` | proc.c:430-445 | a killed process does not stay asleep in the pipe |
| `CacheList.Unlinked` | bio.c:132-133 | the two stores take an element out of the ring |
| `CacheList.PushLinked` | bio.c:134-137 | the four stores put an element first |
| `CacheModel.RecycledView` | bio.c:81-90 | giving a clean unreferenced buffer to another block changes no block's contents |
| `CacheModel.FilledView` | memide.c:58-59 | reading a block into its buffer changes no block's contents |
| `CacheCode.Cache.constructor` | bio.c:39-56 | the list holds every buffer once and contents are those of the disk |
| `CacheCode.Cache.Find` | bio.c:69-76 | the buffer of a block, if it has one |
| `CacheCode.Cache.Oldest` | bio.c:81-91 | of the clean unreferenced buffers the one released longest ago |
| `CacheCode.Cache.Bget` | bio.c:62-93 | a hit adds a reference; a miss recycles the least recently released clean unreferenced buffer; the panic exactly when there is none; contents stay |
| `CacheCode.Cache.Lock` | sleeplock.c:23-31 | one turn of the loop: the lock is taken exactly when it is free, and nothing else changes |
| `CacheCode.Cache.Iderw` | memide.c:39-60 | a dirty buffer goes to disk, else the block is read; all four panics; contents stay |
| `CacheCode.Cache.Bread` | bio.c:97-106 | the buffer shows the block's contents; asleep exactly when another process holds it; the panics exactly where they happen |
| `CacheCode.Cache.Woken` | bio.c:73-105 | what bread does after a sleep |
| `CacheCode.Cache.Store` | log.c:206-210 | a store by the holder changes that block's contents and no other |
| `CacheCode.Cache.MarkDirty` | log.c:229-229 | pinning a buffer changes no contents |
| `CacheCode.Cache.Bwrite` | bio.c:110-116 | the disk has the buffer's contents; contents stay |
| `CacheCode.Cache.Brelse` | bio.c:121-141 | a buffer nobody waits for becomes the most recently released; the list stays a permutation; the panic exactly when it is not locked |
| `HeapModel.FreedSorted` | umalloc.c:33-43 | after free the list is in address order and no two blocks touch |
| `HeapModel.FreedPartition` | umalloc.c:33-43 | every unit is in exactly one free or live block |
| `HeapModel.CarvedPartition` | umalloc.c:75-83 | so after malloc |
| `HeapModel.FitsIffFree` | umalloc.c:74-75 | some block is large enough exactly when so many consecutive units are free |
| `HeapCode.StopsAt` | umalloc.c:30-32 | free's loop stops exactly at the block that the freed one follows |
| `HeapCode.UnitsHold` | umalloc.c:69-69 | the units of a request are the fewest that hold a header and its bytes |
| `HeapCode.TakenHolds` | umalloc.c:75-85 | each byte of the request lies in a unit of the block taken |
| `HeapCode.FreedLinked` | umalloc.c:33-42 | the headers after free are one cycle through the new list |
| `HeapCode.CarvedLinked` | umalloc.c:76-82 | the headers after malloc are one cycle through the new list |
| `HeapCode.Heap.constructor` | umalloc.c:21-22 | the heap before the first call |
| `HeapCode.Heap.FindPlace` | umalloc.c:30-32 | the search ends, at the place of the block |
| `HeapCode.Heap.Free` | umalloc.c:25-44 | the block's units become free and no other unit changes use |
| `HeapCode.Heap.MoreCore` | umalloc.c:47-61 | at least 4096 units become free, or nothing changes |
| `HeapCode.Heap.Carve` | umalloc.c:75-85 | n free units become one new live block and no other unit changes use |
| `HeapCode.Heap.Malloc` | umalloc.c:64-90 | the block returned is new, its bytes behind the header are the caller's alone and hold the request, and one unit less would not; fails exactly when no run of units is long enough and sbrk fails; asks sbrk only when none is; the search ends, also after morecore |
| `ShellGrammar.ParsesExactly` | sh.c:328-446 | the parser returns a line exactly on that line's spelling: the language is unambiguous and nothing else is accepted |
| `ShellGrammar.TreeRoundTrip` | sh.c:328-446 | parsing the spelling of any tree with fewer than 10 words per command gives the tree |
| `ShellLaws.RedirLaw` | sh.c:375-397 | a redirection behind a command goes around its tree, with the file and the direction; only `<` reads |
| `ShellLaws.WordLaw` | sh.c:416-446 | a word behind a simple command is its next argument, under all its redirections; the tenth fails |
| `ShellLaws.EmptyLaw` | sh.c:416-446 | no tokens are the command without words |
| `ShellLaws.BlockLaw` | sh.c:400-413 | parentheses around a line have its tree |
| `ShellLaws.PipeLaw` | sh.c:362-372 | a bar makes a pipe of the command and the pipeline |
| `ShellLaws.BackLaw` | sh.c:345-353 | an ampersand behind a line's last pipeline goes around its tree |
| `ShellLaws.ListLaw` | sh.c:354-357 | a semicolon makes a list of what is before and after it |
| `ShellTokens.WhiteLaw` | sh.c:262-273 | white space before a text does not matter: blank, tab, carriage return, newline, vertical tab |
| `ShellTokens.SymbolLaw` | sh.c:277-294 | a symbol is a token of its own |
| `ShellTokens.AppendLaw` | sh.c:288-294 | two `>` are one token |
| `ShellTokens.TextLaw` | sh.c:295-299 | a word is the token of all its characters up to the next blank or symbol |
| `ShellTokens.TextTree` | sh.c:328-342 | parsing the text is parsing its tokens |
| `ShellLex.LexWrite` | sh.c:266-308 | the tokens of written tokens are those tokens |
| `ShellLex.LineRead` | sh.c:345-446 | parsing pointers into the line and then reading them is parsing the words |
| `ShellLex.RenderParses` | sh.c:328-446 | the text of any command parses to a tree that reads as the command |
| `ShellCode.CmdReads` | sh.c:450-493 | no NUL is written inside a word, so every word reads back whole as a C string |
| `ShellCode.ArgsStep` | sh.c:436-441 | storing words under a growing chain of redirections gives the tree of the whole command |
| `ShellCode.Parser.constructor` | sh.c:328-334 | the cursor at the start of the line |
| `ShellCode.Parser.GetToken` | sh.c:266-308 | the next token, its code and its span; the cursor is before the rest |
| `ShellCode.Parser.Peek` | sh.c:311-320 | whether the next token starts with one of the characters; no token is consumed |
| `ShellCode.Parser.Redirections` | sh.c:375-397 | the command wrapped in the redirections ahead, or the panic; `ShellLaws.RedirLaw` says what wrapping is |
| `ShellCode.Parser.Block` | sh.c:400-413 | the parser's result on a parenthesised line |
| `ShellCode.Parser.Arguments` | sh.c:431-442 | the loop over words |
| `ShellCode.Parser.Command` | sh.c:416-446 | the parser's result on a simple command or block |
| `ShellCode.Parser.Pipes` | sh.c:362-372 | the parser's result on a pipeline |
| `ShellCode.Parser.CommandLine` | sh.c:345-359 | the parser's result on a line; every parse ends |
| `ShellCode.Parser.NulTerminate` | sh.c:450-493 | NUL goes exactly to the ends of the tree's words |
| `ShellCode.ParseCmd` | sh.c:328-342 | with the tokens of the text: their tree if they are a line, else the panic the grammar says; every word a C string that reads as the word; the text of any command gives it back |
| `Grep.HoldsOne` | grep.c:93-94 | what one plain character contributes to a match |
| `Grep.HoldsStar` | grep.c:89-90 | what a starred character contributes |
| `Grep.WordLaw` | grep.c:73-96 | a word, dots standing for any character, is found exactly where it occurs: anywhere, at the start after `^`, at the end before `$`, as the whole text between them |
| `Grep.StarLaw` | grep.c:85-106 | a starred character between two words stands for any number of it |
| `Grep.MatchHere` | grep.c:85-96 | true exactly when the expression describes a stretch that starts here |
| `Grep.MatchStar` | grep.c:99-106 | true exactly when some number of the character and then the expression does |
| `Grep.Match` | grep.c:73-82 | true exactly when the text contains what the expression describes |

## Left out

- The scheduler's round-robin order: a CPU may pick any runnable process, so the theorems hold for every order.
- Device drivers, boot code, assembly, segments, interrupts and their masking (`intena`, the interrupt flag in `sched`): no model of the machine; the disk is the memory disk.
- sleeplock.c beyond its use by buffers: acquiresleep and releasesleep follow from sleep and wakeup and would add easy members.
- ialloc, stati, loaduvm, inituvm, clearpteu, freerange and the file table: easy members.
- sysfile.c, syscall.c, trap.c, exec.c, console.c, printf and the remaining user programs: plumbing.
- Operations of the file system running at the same time: they are modelled one after the other, also on the log, where the order of whole operations is a hypothesis (`Script`); so is iput beside ialloc.
- The log's transition system has no bound on the number of buffers; bget's panic belongs to the cache model.
- The cache is stated for devices other than 0, as its static buffers all start with the key (0, 0).
- The file system works on inodes and on a bitmap of bytes; their places in disk blocks are in `FsDisk`.
- Reading and writing device files returns `Device`; the drivers are not modelled.
- Virtual addresses are below 2^47, where the index macros do not alias; sizes of free-list blocks and process identifiers do not wrap.
- LogCode.Log.BeginOp: one test of the loop in begin_op; the sleep between tests is the waiting of the transition system.
- LogCode.Log.WriteLog: nobody holds the buffer of a logged block; a reader that does makes the source wait, which is the guard of the machine's step.
- LogCode.Log.InstallTrans: the same.
- LogCode.Log.Commit: the same.
- ProcTheorems.NoPanic: assumes that sleep is called with exactly the lock it is given, and yield, exit, wait and fork with none; a CPU spins on a taken lock.
- LogTheorems.TracksRun: assumes that a buffer changed by its holder is passed to log_write before it is released, and that the list of logged blocks fits the log; `AtomicExactly` says when it does.
- LogSharp.AtomicExactly: for boot images with nothing to recover and as many blocks after the log as in it.
- Vm.Machine.MapPages: the frames belong to nobody and hold data, as they do in every call from allocuvm and copyuvm; the tables below the kernel's entry are not in the model.
- Vm.Machine.AllocUvm: assumes that the pages of the new range are not mapped, as otherwise mappages panics.
- CacheCode.Cache.Brelse: after the release of a buffer that was changed and neither written nor marked dirty, only the list and the contents are stated, since recycling it would lose the change.
- PathCode.Inodes.Namex: assumes that the inodes on the path are in use and have a link or are held by the caller; otherwise iput may free an inode on the way.
- PathCode.Inodes.Ilock: without the sleep lock.
- DirCode.DirLink: without the iput of the inode that dirlookup found, which only gives back the reference it took.
- FileCode.File.FileWrite: a device write returns `Device` at the first chunk; after a panic the image is only known to be well-shaped and full.
- HeapCode.Heap.MoreCore: assumes that sbrk returns memory above all it returned before.
- PipeMachine.StepKeeps: a sleeping process is woken atomically, which is what NoLostWakeup gives; freeing the pipe after both ends close is not modelled.
- grep's line buffering, the shell's runcmd and getcmd: their results depend on how input arrives.
