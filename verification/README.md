# Barnix, modelled and verified

Barnix is a small i386 kernel. This project models the parts of it that are state machines and
algorithms with hard invariants, and proves what they promise:

- **Pipes and descriptors** (`PipeBytes`, `FileTables`, `LinuxSyscall`): rings that wrap, transfers
  that suspend and resume, exact reference counts, what was accepted is what is delivered.
- **Cooperative tasks** (`LinuxMemory`, `TaskTables`, `TaskRuns`, `LinuxTask`): one arena swapped
  against snapshots refines private machines; the process tree; statuses delivered once, to the
  parent on record; a scheduler that terminates, runs the first task in turn that can run, and on
  its way touches of anyone's machine only what the call they are blocked in asked for. Every method of `LinuxTask.Kernel` keeps `Valid()`, never rewrites the starting
  machines, and only appends to the log of events, so its lemmas hold at every point of every run.
- **The ext2 engine** (`Ext2Pools`, `Ext2Layout`, `Ext2Contents`, `Ext2Counts`, `Ext2Steps`,
  `Ext2Tree`, `Ext2Volume`): allocation, ownership of blocks, files as byte sequences, all-or-nothing operations.
- **Directories** (`Ext2Directory`, `Ext2Names`, `Ext2Getdents`, `Ext2Dirs`, `Ext2Supported`,
  `Ext2Growth`, `Ext2Overlap`, `Ext2Tidy`, `Ext2Engine`): blocks tiled by records refine a finite map from names to
  inodes and type bytes; "." stays bound to its directory, type bytes stay those of the inodes, no inode
  has more names than links.
- **Mounting and commit** (`Ext2Mount`, `Ext2Fresh`, `Ext2Commit`, `Ext2Durable`, `Ext2Cache`,
  `Ext2Image`, `Ext2Remount`, `Ext2FreshImage`): before-images, rollback, ordered write-back, what a crash at any moment
  of a mount can leave, and that it reads as a consistent volume. `Ext2Format` spells out the numbers of the
  disk format that the other modules name.
- **Program loading** (`CStrings`, `ElfFormat`, `ExecStaging`, `LinuxExec`): what is accepted, which bytes
  of the file stand where in the new program's memory, and that it reads back its arguments.
- **The shell's grammar** (`ShellGrammar`, `ShellWords`, `ShellParse`), the **C# translator's evaluation order**
  (`CSharpOrder`), **painting** (`PaintFill`, `PaintLine`, `PaintBmp`), **xHCI rings** (`XhciRing`,
  `XhciEvents`), the **MMIO window allocator** (`MmioAllocator`) and **sub-sector transfers**
  (`SectorTransfer`).

`Arithmetic` and `Bytes` hold what several of these share. Objects whose functions update static
state are classes; what their methods compute is given by functions and predicates on values, and
the laws are lemmas about those. The disk is an array of sectors whose writes are atomic and may be
lost until a flush, which is a barrier. Clocks, devices, and calls into code outside the model are
parameters.

Five places where the code does not do what one would expect, each with its exact condition:

- A directory may have a block mapped past its size, and supported() accepts it. Growing such a
  directory stores over that pointer: the block is lost, and the directory is refused from then on.
  touch, mkdir and mv report success. Growth is right exactly when the slot after the last block is a
  hole (`Ext2Growth.GrowthExactly`); `Ext2Overlap.OverlapSpoils` is a mountable volume where it is not.
- The window search wraps near 2^64: it can answer address 0 (`MmioAllocator.AnswersZero`) or never
  end (`MmioAllocator.GoesRound`); it is right exactly on passable lists
  (`MmioAllocator.CorrectExactly`).
- A compound assignment whose right side changes its target means something else in C++
  (`CSharpOrder.CompoundDiffers`, `CSharpOrder.CompoundUnchanged`).
- A launch reports 125 for a task blocked for ever, but also for an init process that exits with 125
  (`LinuxTask.Kernel.LaunchStatus`).
- Of the two shortages pipe() reports as a full table, one cannot happen
  (`LinuxSyscall.Files.CreatePipe`).

## Model

| member | source | states |
|---|---|---|
| PipeBytes.AddressesAtCursor | linux_syscall.c:162-179 | the cursor of a transfer (vector, offset, total) points at the next of all the addresses its vectors list |
| PipeBytes.RingAppend | linux_syscall.c:170-172 | the write branch of the copy: a chunk put after the used part of the ring, where it does not cross the end of the buffer, is appended to the ring's contents |
| PipeBytes.RingTake | linux_syscall.c:173-177 | the read branch: a chunk read at the head is a prefix of the ring's contents, and moving the head leaves the rest |
| FileTables.ChunkWritten | linux_syscall.c:163-172 | one chunk of a write moves exactly the next bytes of the user's vectors to the end of the ring |
| FileTables.ChunkRead | linux_syscall.c:173-177 | one chunk of a read moves exactly the front of the ring to the next addresses of the user's vectors, and touches no other memory |
| FileTables.MovedCompose | linux_syscall.c:162-179 | chunks compose: moving n and then m bytes is moving n + m |
| FileTables.ReadyExactly | linux_syscall.c:130-140 | linux_io_ready holds exactly when a resumed transfer would not have to wait without moving a byte |
| FileTables.CloseKeeps | linux_syscall.c:68-78 | closing one descriptor keeps every reference count equal to the number of descriptors naming the file, and every pipe's end counts equal to its live ends |
| FileTables.TwoFreeDescriptions | linux_syscall.c:110-112 | two free descriptors of one task imply two free open-file slots, so pipe never runs out of those |
| FileTables.OneFreeDescription | linux_syscall.c:292-296 | a free descriptor implies a free open-file slot, so open never runs out of those |
| FileTables.PublishPipe | linux_syscall.c:117-126 | installing both ends around an idle pipe keeps all counts exact |
| FileTables.VectoredMeans | linux_syscall.c:187-208 | readv and writev: whatever list of vectors stands at the address, word after word, is the list that is transferred, in that order; refused with EBADF, EINVAL or EFAULT for exactly the reasons the source has |
| FileTables.PlainMeans | linux_syscall.c:187-208 | read and write: one vector, and the three refusals exactly |
| FileTables.WriteMeans | linux_syscall.c:141-186 | a resumed write appends the texts of its vectors, first vector first, from where it stood; a blocking one ends with all of them in the ring, one that never moved a byte answers EAGAIN |
| FileTables.ReadMeans | linux_syscall.c:141-186 | a resumed read fills the memory of its vectors, first vector first, with the front of the ring, as much as is there and asked for; 0 only at the end of the file |
| LinuxSyscall.Files.constructor | linux_syscall.c:46-60 | after a reset three terminal descriptors of the first task are open, with exact counts |
| LinuxSyscall.Files.CloseFd | linux_syscall.c:68-78 | exactly the named descriptor goes, with its close-on-exec mark, and nothing but counts changes elsewhere; EBADF when it names nothing |
| LinuxSyscall.Files.CloseOnExec | linux_syscall.c:79-83 | of the current task's descriptors exactly those marked are closed |
| LinuxSyscall.Files.Fork | linux_syscall.c:85-93 | the child holds a copy of each of the parent's descriptors and marks, sharing the open files, and nothing pending |
| LinuxSyscall.Files.Exit | linux_syscall.c:94-100 | the task's descriptors, and no others, are gone |
| LinuxSyscall.Files.CreatePipe | linux_syscall.c:101-129 | all or nothing: the result is decided by flags, user range, free descriptors and idle pipes alone; on success the two lowest free descriptors name the two ends of an idle pipe and their numbers are in user memory; on failure nothing changed |
| LinuxSyscall.Files.PipeResultMeans | linux_syscall.c:101-116 | which of EINVAL, EFAULT, EMFILE and ENFILE, or success: each exactly when flags, range, two free descriptors and an idle pipe say so |
| LinuxSyscall.Files.CheckReady | linux_syscall.c:130-140 | the answer of linux_io_ready for the file the pending transfer names |
| LinuxSyscall.Files.MoveBytes | linux_syscall.c:162-179 | the copy loop moves exactly n bytes between the vectors, in their order, and the ring, in its order |
| LinuxSyscall.Files.IoResume | linux_syscall.c:141-186 | one resumption does what the transfer's situation calls for (SIGPIPE, end of file, wait, partial or full move) on that pipe and that task only, and records what moved |
| LinuxSyscall.Files.PipeTransfer | linux_syscall.c:187-212 | a refused request changes nothing and gets its error; otherwise the first attempt is one resumption of the whole vectored request, which VectoredMeans and PlainMeans give for each call |
| LinuxSyscall.Files.Conservation | linux_syscall.c:141-186 | in every state: the bytes accepted by a pipe since its creation are the bytes delivered followed by those in the ring, and every accepted write of at most the pipe's capacity is one whole chunk |
| LinuxSyscall.Files.OtherEndGone | linux_syscall.c:72-75 | a pipe has no writers (readers) exactly when no descriptor of any task names that end |
| LinuxSyscall.Files.Duplicate | linux_syscall.c:317-336 | dup and F_DUPFD give the lowest free descriptor from the minimum on the same open file, or the right error |
| LinuxSyscall.Files.Dup2 | linux_syscall.c:317-327 | the target names the file of the source and loses its mark, whatever it named was closed, and duplicating onto itself changes nothing |
| LinuxSyscall.Files.SetFileFlags | linux_syscall.c:340-345 | F_SETFL changes append and non-blocking mode of the shared open file and nothing else; no terminal becomes non-blocking |
| LinuxSyscall.Files.SetDescriptorFlags | linux_syscall.c:338-338 | F_SETFD changes the mark of one descriptor |
| LinuxSyscall.Files.Open | linux_syscall.c:276-316 | the lowest free descriptor names a fresh open file with the requested mode, or the first failing check decides and nothing changed |
| LinuxMemory.Memory.Brk | linux_memory.c:59-66 | the break moves only to a legal request, memory gained by growing reads as zero, and no other byte changes |
| LinuxMemory.Memory.Resume | linux_memory.c:77-81 | resuming restores exactly what was captured, although it goes through a rounding entry |
| TaskTables.Isolation | linux_task.c:66-72 | over any stretch of events, a private machine that none of them names is unchanged |
| TaskTables.RunIsolation | linux_task.c:32-39 | between two states of a run, a live task no event names keeps memory, registers, break and directory, although all tasks share one arena |
| TaskTables.DeliveredOk | linux_task.c:48-54 | a delivery to a waiting task keeps the process tree, the statuses, the snapshots and the views of all machines |
| TaskTables.KinDied | linux_task.c:103-106 | when a task dies its children's recorded parent becomes init or nobody, every other record stays, and so do those of delivered statuses |
| TaskRuns.WokenFacts | linux_task.c:40-57 | waking, for any number of slots: those served are owed nothing, all invariants hold, and each new event finished the call of a blocked task as it asked |
| TaskRuns.LeadsToTrans | linux_task.c:58-109 | stretches of scheduling compose: what arrives, from which pipe, for whom and in answer to which call is accounted for over any number of rounds, deaths and resumptions |
| TaskRuns.LeadsToDelivered | linux_task.c:48-54 | a delivery writes the status at the address the waiting task gave, with the child's pid as result, and the log says it was collected for that task |
| TaskRuns.LeadsToResumed | linux_task.c:73-84 | a resumption gives a reader the next bytes its pipe delivered, at the next addresses of its vectors, with their number as result, and a writer nothing but its result |
| TaskRuns.LeadsToDied | linux_task.c:98-109 | a death loses one live slot, to a recorded exit, and changes no other task, no request and no history of a pipe |
| TaskRuns.SteppedMoves | linux_syscall.c:141-186 | what one attempt of a transfer does to the request, the histories of its pipe and its caller's memory, seen from the scheduler |
| TaskRuns.AttemptedExactly | linux_syscall.c:187-212 | a write, and a call that sleeps or is killed, leaves its caller's memory alone; a read fills exactly the first addresses it named with the bytes that left the pipe, and returns their number |
| TaskRuns.OnlyAsked | linux_task.c:32-97 | isolation over any stretch of scheduling: of a live task's memory only the bytes change that the call it is blocked in asked to have filled, of its registers only the result; break and directory stay |
| TaskRuns.NothingAsked | linux_task.c:73-84 | in particular the memory of a task that is runnable or blocked in a write stays as it is |
| TaskRuns.StillAsleep | linux_task.c:75-80 | a task still blocked, or resumed and blocked again, finds its whole machine untouched |
| TaskTables.DieKeeps | linux_task.c:100-106 | dying keeps pids distinct, parents live or absent, waiters answerable, and records the one status that may be delivered |
| TaskTables.ForkedOk | linux_task.c:112-127 | fork keeps all invariants: the child is a copy, the parent's machine is in its snapshot |
| TaskTables.ReapedOk | linux_task.c:143-145 | freeing a collected zombie keeps all invariants |
| TaskTables.ResumedMemory | linux_syscall.c:162-179 | a resumed transfer changes its task's memory by exactly the received bytes the log says, and not at all when it waits or dies |
| TaskTables.DiedRoot | linux_task.c:102-102 | only the death of slot 0 decides the launch status, and no recorded status is ever changed |
| TaskTables.ShellStatusOf | linux_task.c:102-102 | an exit code reaches the shell unchanged, a signal as 128 plus its number |
| TaskTables.WaitPlanMeans | linux_task.c:130-153 | each answer of waitpid exactly: the three refusals, ECHILD when no task in use is a child with a pid asked for, 0 with WNOHANG, sleeping, and collecting, which takes the lowest dead child that has a pid asked for |
| TaskTables.OwedMeans | linux_task.c:40-47 | a sleeping waiter is owed a status exactly when a dead child of its own has a pid it asked for |
| TaskTables.CollectedMeans | linux_task.c:143-145 | collecting returns the pid of that child, which is one asked for and on record as the caller's, and leaves its recorded status at the address and nowhere else |
| LinuxTask.Kernel.constructor | linux_task.c:24-29 | a launch starts in a valid state: one running task with pid 1, nobody else |
| LinuxTask.Kernel.StopCurrent | linux_task.c:32-39 | the running machine is copied to its slot, whole, with what it waits for |
| LinuxTask.Kernel.Deliver | linux_task.c:48-53 | the status goes to the waiter's snapshot at the address it asked for, the pid to its result, and the child's slot is freed |
| LinuxTask.Kernel.WakeWaiters | linux_task.c:40-57 | in slot order each waiting task takes its lowest dead child with a pid it asked for; afterwards nobody is owed a status, and only blocked tasks' calls were finished |
| LinuxTask.Kernel.Pick | linux_task.c:61-65 | round robin: the first slot after the current one that is ready or can go on with its transfer, and none only when no slot can |
| LinuxTask.Kernel.SwitchTo | linux_task.c:66-72 | the chosen slot runs on exactly the machine it left behind |
| LinuxTask.Kernel.ResumePipe | linux_task.c:73-84 | a blocked transfer finishes its call with exactly what linux_io_resume moved and returned, dies, or sleeps again; the machine's new state is given whole |
| LinuxTask.Kernel.Schedule | linux_task.c:58-97 | terminates; in each round nobody ran or was owed a status and the first task in turn that could run was chosen, each round follows from the one before by what LeadsTo allows and nothing else, and the last one chosen runs as it was, or the launch is over |
| LinuxTask.Kernel.Leave | linux_task.c:87-96 | the launch ends only when no task is ready, none blocked on a pipe could go on, and nobody is owed a status; every descriptor is closed, what pipes hold is left, and it reports 125 when somebody is blocked and otherwise what init exited with |
| LinuxTask.Kernel.Die | linux_task.c:100-107 | the task is a zombie with its status, its children belong to init or to nobody and are recorded so, its descriptors are closed, and the launch status follows init's |
| LinuxTask.Kernel.ExitTask | linux_task.c:98-109 | the dying task's status is recorded for good, and the scheduler goes on as Schedule says |
| LinuxTask.Kernel.Exit | linux_task.c:163-164 | the recorded status is the low byte of the argument, shifted |
| LinuxTask.Kernel.Fault | linux_task.c:173-176 | a user fault records signal 11 |
| LinuxTask.Kernel.Fork | linux_task.c:110-129 | EAGAIN without a slot or a pid and nothing else changed; otherwise the child runs on a copy with result 0 and the parent waits in its slot with the new pid |
| LinuxTask.Kernel.Yield | linux_task.c:167-169 | the caller's machine is kept with result 0, runnable, and the scheduler goes on as Schedule says |
| LinuxTask.Kernel.WaitPid | linux_task.c:130-153 | refused, answered, collected or blocked exactly as WaitPlanMeans says; what it collects is a recorded child of the caller with a pid asked for, whose status is written where asked; the slot is freed and nothing else changes |
| LinuxTask.Kernel.Collect | linux_task.c:143-145 | the running parent gets the status in memory, the pid as result, the log both, and the slot is free |
| LinuxTask.Kernel.Transfer | linux_task.c:177-183 | the first attempt decides: a call that is done changes the machine by exactly the bytes received and the result, one that must wait puts the caller to sleep as it was, and SIGPIPE kills it; only then the scheduler goes on |
| LinuxTask.Kernel.MakePipe | linux_syscall.c:273-274 | the caller's machine changes by the two descriptors in its memory, on success, and the result |
| LinuxTask.Kernel.Close | linux_syscall.c:275-275 | one descriptor less, a result, and nothing else in the machine |
| LinuxTask.Kernel.Dup | linux_syscall.c:317-336 | one descriptor more, the lowest free one, or an error, and nothing else in the machine |
| LinuxTask.Kernel.Dup2 | linux_syscall.c:317-327 | the target names the source's file, or EBADF, and nothing else in the machine |
| LinuxTask.Kernel.Open | linux_syscall.c:276-316 | one descriptor more, or the first error, and nothing else in the machine |
| LinuxTask.Kernel.SetFlags | linux_syscall.c:340-345 | the answer of F_SETFL, no descriptor and nothing else in the machine |
| LinuxTask.Kernel.SetCloseOnExec | linux_syscall.c:338-338 | one mark, and nothing else in the machine |
| LinuxTask.Kernel.Exec | linux_exec.c:171-175 | the machine is replaced as a whole and marked descriptors are gone, for this task only |
| LinuxTask.Kernel.PrivateMachines | linux_task.c:58-72 | what Valid() means for memory: each live task finds what its own events made of what it started with (kept by every method above) |
| LinuxTask.Kernel.ProcessTree | linux_task.c:98-153 | what Valid() means for the tree: distinct pids, live or absent parents as recorded, waiting tasks with a child that answers, exactly the current task running |
| LinuxTask.Kernel.StatusesDeliveredOnce | linux_task.c:48-53 | what Valid() means for statuses: no child is reported twice, each as recorded at its death, to the parent it had last, and no slot in use holds a reported pid |
| LinuxTask.Kernel.LaunchStatus | linux_task.c:87-96 | 125 exactly when somebody is blocked or init's own decoded status is 125; otherwise init's decoded status |
| Ext2Pools.TakenOk | fs.c:267-267 | marking a clear bit used keeps superblock, group and bitmap counts equal |
| Ext2Pools.DoubleRelease | fs.c:277-285 | releasing keeps the counts equal exactly when the item was in use |
| Ext2Pools.NothingFree | fs.c:254-276 | the superblock's count is zero exactly when every bit of every group is set |
| Ext2Pools.SearchComplete | fs.c:256-275 | on consistent counts the search finds an item exactly when one is free, and never meets a mismatch |
| Ext2Layout.AttachedOk | fs.c:488-488 | storing an allocated block in an empty slot keeps every volume invariant: one owner a block, exact counts, no leak |
| Ext2Layout.DetachedOk | fs.c:464-465 | releasing a slot's block keeps them |
| Ext2Steps.HandedOk | fs.c:264-271 | an allocated block is a data block nobody owned, zeroed, and the counts follow |
| Ext2Steps.WriteStep | fs.c:490-490 | storing bytes in a block of one file changes those bytes of that file and no other file |
| Ext2Steps.RolledOk | fs.c:331-335 | restoring the before-images of a consistent volume, with whatever hints the failed operation left, is consistent |
| Ext2Steps.ExactContents | fs.c:586-605 | a file that was written exactly is what is read |
| Ext2Tree.InodeBorn | fs.c:264-271 | allocating an inode keeps all invariants and gives an empty file nobody names |
| Ext2Tree.InodeDies | fs.c:685-686 | releasing an inode without blocks keeps all invariants and concerns no other file |
| Ext2Volume.Volume.AllocateBlock | fs.c:254-276 | fails, changing nothing, exactly when nothing is free; else a zeroed, unowned data block |
| Ext2Volume.Volume.AllocateInode | fs.c:254-276 | fails, changing nothing, exactly when every inode is in use; else one not in use and not reserved |
| Ext2Volume.Volume.ReleaseInode | fs.c:685-686 | the inode is free again and no other file is concerned |
| Ext2Volume.Volume.FileSlot | fs.c:444-456 | a slot in a missing indirect block makes one when asked, and moves no pointer of the file |
| Ext2Volume.Volume.TruncateBlocks | fs.c:457-473 | everything from a block on is given back and reads as zero; what comes before, and other files, stay |
| Ext2Volume.Volume.WriteRange | fs.c:474-495 | the bytes are in place, the size is the larger of the two, other files keep theirs; it fails only when no block is free for one that is missing |
| Ext2Volume.Volume.WriteFile | fs.c:507-515 | the file is exactly the bytes, with zeros past its end; it fails exactly when the free blocks and the file's own are fewer than the bytes need |
| Ext2Counts.FreeAndOwned | fs.c:254-285 | free blocks and an inode's own make a fixed sum while only that inode is worked on |
| Ext2Counts.Capacity | fs.c:496-515 | a file cut and rewritten has all its blocks, the indirect one included, if and only if free blocks and its own were enough |
| Ext2Volume.Volume.Read | fs.c:586-605 | the requested slice of the contents, holes as zeros, clipped to the size; refused exactly past the end |
| Ext2Volume.Volume.Append | fs.c:619-629 | the contents followed by the bytes, or the volume as it was |
| Ext2Volume.Volume.Finish | fs.c:329-357 | in memory: success keeps everything, failure puts back what begin() saw |
| Ext2Supported.MarkBlock | fs.c:136-144 | yes exactly for a data block in use that was not seen before |
| Ext2Supported.Supported | fs.c:145-173 | on any volume: yes exactly when kind, size and links fit, all pointers name different data blocks in use, and the block count is right |
| Ext2Supported.PassesExactly | fs.c:145-173 | on a consistent volume the blocks of a live inode never make it say no |
| Ext2Dirs.BlocksSupported | fs.c:162-172 | a live inode's block count is exact and its blocks are distinct data blocks in use |
| Ext2Directory.RecordReads | fs.c:246-253 | a record that was set reads back as that entry, type byte included, and tiles its space |
| Ext2Directory.InsertedLists | fs.c:297-305 | splitting a record adds one entry after the one it held and changes no other |
| Ext2Names.FindName | fs.c:226-236 | one block: the entry found, or absent in all of it, or a record not to be followed |
| Ext2Names.Lookup | fs.c:219-239 | in a well-formed directory the answer of the map: the inode bound to the name, or absent |
| Ext2Names.FindRoom | fs.c:292-309 | the first record with room, or no record of any block has room |
| Ext2Names.DirInserted | fs.c:301-306 | inserting into a record with room binds exactly one more name |
| Ext2Names.DirGrown | fs.c:310-317 | inserting into a new block binds exactly one more name |
| Ext2Names.DirRemoved | fs.c:676-676 | clearing a record's inode unbinds exactly that name |
| Ext2Getdents.DecodeRange | fs.c:574-579 | the records written for a range of entries decode to that range: inode, position to go on from, name and type of each |
| Ext2Getdents.Pagination | fs.c:561-585 | calls that resume from the returned position list every live entry exactly once, in order, with its position and its type, and with room for any entry every call before the last makes progress |
| Ext2Getdents.Getdents | fs.c:561-585 | one call writes as many whole entries as fit, from the position on, and returns where to go on |
| Ext2Dirs.DirPoked | fs.c:303-304 | replacing one block of a directory by a well-formed one keeps the volume consistent and changes no other file |
| Ext2Dirs.DirGrew | fs.c:311-316 | adding a block to a directory in an empty slot does too |
| Ext2Growth.GrowthExactly | fs.c:310-317 | the stores that grow a directory leave a volume that can be consistent, whoever is said to own what, if and only if the slot after its last block was a hole |
| Ext2Growth.SpoiltNeverOk | fs.c:310-317 | with a block that is in use and named by no pointer no account of owners is consistent |
| Ext2Growth.OverwrittenSpoils | fs.c:313-315 | over a mapped block those stores lose it and make supported() refuse the directory |
| Ext2Overlap.OverlapSpoils | fs.c:145-173 | a consistent volume whose full root directory has a block mapped past its size: creating a file there would succeed, and grow it |
| Ext2Overlap.OverlapMounts | fs.c:385-405 | and it passes the mount's checks |
| Ext2Dirs.NewDirLists | fs.c:428-430 | the first block of a new directory binds itself and its parent, both recorded as directories |
| Ext2Tidy.RecordTyped | fs.c:246-253 | on the bytes of a tidy directory: a record that names a regular file has 1 in its eighth byte, one that names a directory has 2, and without the feature it is 0 |
| Ext2Tidy.TidyAdded | fs.c:424-437 | a new name for an inode that was free keeps a directory tidy: "." bound to itself, ".." bound, no name with a slash, every name that of an inode in use with links enough, every type byte right |
| Ext2Tidy.TidyMoved | fs.c:639-650 | so does the same inode under another name |
| Ext2Tidy.TidyRemoved | fs.c:676-687 | so does one name less, with the link it counted for: what still has a name is not released |
| Ext2Tidy.TidyNew | fs.c:424-430 | a directory that was just made is tidy |
| Ext2Engine.Engine.Find | fs.c:219-239 | -2 for an inode supported() refuses; in a well-formed directory the inode bound to the name and where it is recorded, or -1 when there is none |
| Ext2Engine.Engine.Insert | fs.c:286-318 | fails, changing nothing, exactly for a name already bound, or without room in any record and without a further block; else one binding more in that directory, with the type byte given, and nothing else changed, except that growing over a mapped block spoils the volume |
| Ext2Engine.Engine.NamesFile | fs.c:505-506 | a used inode that is a regular file with a legal size and a link |
| Ext2Engine.Engine.CreateFile | fs.c:413-438 | fails exactly for a bad or bound name, without a free inode, or without room for the name; else a fresh inode, an empty regular file with mode 0644, bound to the name by a record of type 1, and every other file and binding stays, but for the case that spoils |
| Ext2Engine.Engine.MakeDirectory | fs.c:424-437 | fails exactly for a bad or bound name, without a free inode or block, with 65535 links in the parent, or without room for the name in what is then left; else a fresh directory with mode 0755 holding "." and "..", the parent one link and its group one directory richer, bound to the name by a record of type 2, but for the case that spoils |
| Ext2Engine.Engine.Write | fs.c:517-538 | fails, leaving the volume as it was, exactly for a bad name, too many bytes, a name bound to no writable file, too few blocks counting the file's own, or when creating the file would fail or spoil; else the name is bound to a file of exactly these bytes and nothing else changed; a tidy directory stays tidy |
| Ext2Engine.Engine.Touch | fs.c:439-440 | exactly when CreateFile fails the volume is as it was; else an empty file is bound to a new name, but for the case that spoils; a tidy directory stays tidy |
| Ext2Engine.Engine.Mkdir | fs.c:441-442 | exactly when MakeDirectory fails the volume is as it was; else a directory is bound to a new name, but for the case that spoils; a tidy directory stays tidy, and the new one is |
| Ext2Engine.Engine.Remove | fs.c:690-691 | exactly for a name bound to a removable file: the name is gone, with the last name the file and its blocks too, with a deletion time past every inode number; otherwise the volume is as it was; a tidy directory stays tidy |
| Ext2Engine.Engine.Rename | fs.c:639-650 | fails, leaving the volume as it was, exactly when a name or what is bound to it forbids it, or when the directory without the old record has no room and can have no further block; else the binding moves to the free new name, with the type byte of the inode, and everything else stays, but for the case that spoils; a tidy directory stays tidy |
| Ext2Mount.CheckGroup | fs.c:387-401 | yes exactly when the group's bitmaps and table lie in it past its copies, apart, and all of it is marked used |
| Ext2Mount.Check | fs.c:385-405 | the loop over the groups, its totals and the reserved inodes: yes exactly on mountable descriptors |
| Ext2Mount.MountedPools | fs.c:385-405 | mounting establishes the allocator's invariant exactly when each group's count agrees with its bitmap, which it does not check |
| Ext2Fresh.Formatted | fs.c:385-410 | a small formatted volume satisfies every invariant the engine's operations need and keep, with a root holding "." and ".." and room to allocate |
| Ext2Fresh.FreshTidy | fs.c:406-407 | and its root is tidy |
| Ext2Fresh.Mounts | fs.c:378-405 | and passes the mount's checks |
| Ext2Mount.AddressedApart | fs.c:387-394 | data blocks, bitmaps and inode tables lie past the superblock and the descriptor table |
| Ext2Mount.InodeBlockAddressed | fs.c:109-117 | so does the block that holds any inode |
| Ext2Mount.ReachedApart | fs.c:57-68 | every block number the engine can hand to block() on a consistent mounted volume does |
| Ext2Commit.CommitComplete | fs.c:340-352 | an uninterrupted commit leaves exactly the new volume |
| Ext2Commit.CrashPrefix | fs.c:340-352 | cut after any number of operations, with any unflushed writes lost, the disk is the old volume, the complete new one, or marked as one mounting refuses |
| Ext2Durable.CrashAcross | fs.c:351-351 | after a flush a crash can only undo what came later |
| Ext2Durable.DurableGrows | fs.c:329-357 | one more commit, or part of it, keeps the promise about every earlier point of the log |
| Ext2Cache.BlockCache.Reset | fs.c:56-56 | after a reset every block reads as on the disk |
| Ext2Cache.BlockCache.Block | fs.c:57-68 | the cached block, loaded once, or the error flag when it is out of range, unreadable or the cache is full; no cached block is the superblock's or the descriptor table's |
| Ext2Cache.BlockCache.Begin | fs.c:322-328 | the saved images are what the disk holds; refused when unmounted or after an error |
| Ext2Cache.BlockCache.WriteBack | fs.c:340-352 | the device receives the commit's operations in order, all of them or up to the first failure, which unmounts |
| Ext2Cache.BlockCache.Finish | fs.c:329-357 | a failed operation is undone and writes nothing, an unchanged one writes nothing, a commit makes the new volume the last committed one; crash safety of the whole mount is kept, and unless the device failed the next operation starts from the last committed volume |
| Ext2Cache.BlockCache.CrashSafe | fs.c:329-357 | over any sequence of operations, a crash at any moment leaves the last volume committed before it, or the one being committed, or one mounting refuses |
| Ext2Cache.BlockCache.CompletedSurvive | fs.c:351-351 | between operations no crash loses anything that was completed |
| Ext2Image.SetBitReads | fs.c:78-84 | setting or clearing one bit of a bitmap is read back, and no other bit changes |
| Ext2Image.BlockTakenDecodes | fs.c:264-271 | the stores of allocating a block, in the bitmap, the two counts and the block, are the step from one decoded volume to the next: nothing else that is decoded changes, because bitmaps, tables and data lie apart |
| Ext2Image.BlockGivenDecodes | fs.c:277-285 | so are those of releasing one |
| Ext2Image.InodeTakenDecodes | fs.c:264-271 | and those of allocating an inode, whose bytes are cleared |
| Ext2Image.InodeGivenDecodes | fs.c:277-285 | and of releasing one |
| Ext2Image.NodeStored | fs.c:109-117 | a store inside an inode changes that inode of the decoded volume and no other, wherever it lies in its block |
| Ext2Image.NodePut16 | fs.c:419-420 | put16 of mode or links changes that field of the decoded inode |
| Ext2Image.NodePut32 | fs.c:314-315 | put32 of size, block count or deletion time does |
| Ext2Image.NodePutPointer | fs.c:313-315 | put32 of a pointer changes that pointer of the decoded inode |
| Ext2Image.DataStored | fs.c:490-490 | a store in a data block changes that block of the decoded volume |
| Ext2Remount.CommitSane | fs.c:340-352 | when what the engine sees through its cache stands for a consistent volume, so does the disk after the commit |
| Ext2Remount.FinishSane | fs.c:329-357 | finish() keeps that every committed volume, and the one on its way, does |
| Ext2Remount.CrashConsistent | fs.c:329-357 | over any sequence of operations, a crash at any moment leaves a disk that stands for a consistent volume, or one mounting refuses |
| Ext2Format.CrashLeaves | fs.c:329-357 | the same on the bytes of the disk: the two state bytes in sector 2 read 2, or the disk stands for a consistent volume |
| Ext2Format.CommitEnds | fs.c:340-352 | a commit writes state 2 and flushes before anything else, and writes state 1 between the last two flushes, leaving the rest of the superblock alone |
| Ext2Format.Backups | fs.c:86-92 | the groups with copies: all, or with the sparse feature 0, 1 and exactly the powers of 3, 5 and 7 |
| Ext2Format.BlocksOfGroup | fs.c:93-108 | which blocks of a group may hold data, and how many blocks the last group has |
| Ext2Format.BlockOfFile | fs.c:130-135 | twelve pointers in the inode, then the words of the indirect block |
| Ext2Format.BitOfMap | fs.c:78-79 | item n of a bitmap is bit n mod 8, least first, of byte n / 8 |
| Ext2Format.RecordFields | fs.c:176-183 | which records may be followed, byte by byte |
| Ext2FreshImage.FreshDecodes | fs.c:359-411 | the bytes of a small formatted volume, field by field, decode to the volume of Ext2Fresh |
| Ext2FreshImage.FreshSane | fs.c:359-411 | so there are bytes that mount and stand for a consistent volume |
| ElfFormat.AlignmentTest | elf_format.c:73-75 | the two mask tests on an alignment mean: a power of two, and equal remainders |
| ElfFormat.Validate | elf_format.c:22-99 | accepts exactly the acceptable images, which AcceptableMeans gives on the bytes; the plan is the image's segments, entry, window and table address |
| ElfFormat.AcceptableMeans | elf_format.c:22-99 | acceptance on the bytes of the file alone: a static i386 executable for which there is a 4 MiB window all of whose loads lie in the file, aligned, apart and below the stack, with the entry in one that is executable; there is only one such window |
| ElfFormat.AcceptedInstallable | elf_format.c:57-97 | segments of an accepted image lie in the file and in the window below the stack, apart, and the entry is in the file part of one |
| ExecStaging.Staging.StageString | linux_exec.c:24-34 | the user's string, copied with its end, or EFAULT or E2BIG exactly as reading it byte by byte meets them first |
| ExecStaging.Staging.StageVector | linux_exec.c:35-50 | the user's vector of strings, each at its recorded offset, or the first error |
| ExecStaging.VectorReads | linux_exec.c:35-50 | a vector that stands in memory is read as that list |
| ExecStaging.Readable | linux_exec.c:24-50 | a string is read exactly when one stands there that leaves room for its end, and a vector exactly when one of at most 64 strings stands there that fit |
| LinuxExec.Exec.Install | linux_exec.c:53-97 | segments in place, everything else below the stack zero, and the promised stack |
| LinuxExec.Exec.Execve | linux_exec.c:146-176 | the first error that applies, and then memory and break untouched; else, on the bytes of the file: every load's bytes stand at its address with zeros after them and nothing else below the stack, the entry is the file's, and the stack holds argc, argv, envp, the auxiliary vector word by word, the path, and at AT_PHDR the program headers |
| LinuxExec.ReplaceableMeans | linux_exec.c:146-170 | when execve can succeed, without its readers: a path of at most 127 bytes, two vectors of at most 64 strings, 8192 bytes of strings in all, and an acceptable image of no old ABI; and what it then passes on |
| LinuxExec.ReplacedMeans | linux_exec.c:53-97 | what is left behind a successful execve in terms of the file's own header fields |
| LinuxExec.ExecRoundTrip | linux_exec.c:81-89 | the new program finds argc, and reading its argv and envp gives exactly the lists it was given |
| ShellParse.Parser.Next | shell_parse.c:23-67 | the token and cursor of the grammar, with a word's characters in the storage |
| ShellParse.Parser.Run | shell_parse.c:68-106 | the plan or the message the grammar gives, for every line; the lexer's rules byte by byte are those of ShellWords |
| ShellWords.Unquoted | shell_parse.c:39-66 | an unquoted word ends exactly before a tab, a blank or one of the seven operator bytes, and in front of an arrow must not be a number |
| ShellWords.QuotedEscape | shell_parse.c:45-52 | between double quotes a backslash goes away in front of the double quote, the dollar sign, the backslash and the backtick |
| ShellWords.QuotedOrdinary | shell_parse.c:45-52 | and stays in front of any other byte |
| ShellWords.Operators | shell_parse.c:26-36 | the bar, the arrows and the doubled right arrow are understood, and no other operator |
| ShellWords.LineLimits | shell_parse.c:71-75 | at most 127 bytes and no line break, whichever comes first deciding the error |
| ShellWords.NamesChecked | shell_parse.c:99-103 | the first command without a name decides the error |
| ShellGrammar.WrittenIsParsed | shell_parse.c:68-106 | any commands, redirections and pipes, written with any quoting in fewer than 128 bytes, parse as what was asked for, limits included |
| ShellGrammar.RoundTrip | shell_parse.c:68-106 | a plan written with any quoting parses as that plan |
| ShellGrammar.Quotable | shell_parse.c:41-58 | every word a line can hold can be written |
| CSharpOrder.Preserves | BDK/tools/csharp/Program.cs:16-50 | translated expressions have one outcome in C++, whatever order it chooses, and it is C#'s: value, stores and calls |
| CSharpOrder.CompoundExactly | BDK/tools/csharp/Program.cs:32-32 | a compound assignment agrees exactly when reading the target before or after the right side combines to the same |
| CSharpOrder.CompoundUnchanged | BDK/tools/csharp/Program.cs:32-32 | it agrees when the right side leaves the target's value alone, and for operators that tell targets apart only then |
| CSharpOrder.CompoundDiffers | BDK/tools/csharp/Program.cs:32-32 | x += x++ does not agree |
| PaintFill.Fill | apps/paint.c:24-31 | recolours exactly the seed's 4-connected component; the queue never overflows |
| PaintLine.Dot | apps/paint.c:18-18 | the pixels under the brush and no other take the ink |
| PaintLine.Line | apps/paint.c:20-23 | from one end to the other in max(dx, dy) + 1 dots, each within half a pixel of the ideal line, and nothing else is painted |
| PaintLine.EndExactly | apps/paint.c:22-22 | the walk is at the end point after exactly as many steps as the longer extent |
| PaintBmp.Encode | apps/paint.c:34-40 | the file has the expected header and shows the canvas |
| PaintBmp.SavedBytes | apps/paint.c:34-40 | the file byte by byte: the two headers, and for each pixel the blue, green and red of its EGA colour, rows from the bottom up |
| PaintBmp.Decode | apps/paint.c:44-54 | accepted exactly with the right size and header; then each pixel is a nearest palette colour and the old canvas is kept, else nothing changes |
| PaintBmp.LoadedPixel | apps/paint.c:48-52 | a loaded pixel is the first of the EGA colours at the least squared distance from its three bytes |
| PaintBmp.RoundTrip | apps/paint.c:34-54 | every 16-colour canvas comes back |
| XhciRing.Ring.Enqueue | usb_xhci.c:104-122 | its stores are steps of the protocol and send exactly this TRB with the right cycle bit, across the Link TRB in slot 63 |
| XhciRing.InOrder | usb_xhci.c:104-122 | in every run, over any number of wraps, a controller that follows in the last slot only a Link TRB to the start of the ring, and toggles its cycle state only when that TRB says so, takes exactly what was sent, in order and whole, and is never stuck while something is outstanding |
| XhciEvents.EventsInOrder | usb_xhci.c:123-174 | in every run the driver takes exactly what was posted, in order and whole |
| XhciEvents.Host.Events | usb_xhci.c:123-174 | takes everything outstanding; the completion is that of the last matching command event |
| MmioAllocator.SizeTest | storage_pci.c:116-116 | the mask test on a size means 2^e, up to 16 MiB |
| MmioAllocator.AlignUpMasks | storage_pci.c:117-117 | clearing the low bits is rounding down to a multiple |
| MmioAllocator.Search | storage_pci.c:117-127 | the loop's outcome, endless included, on every list; on passable lists it ends with the lowest free window, or with none exactly when none is free |
| MmioAllocator.CorrectExactly | storage_pci.c:117-127 | the search ends with the lowest free window, or with none when none is free, if and only if the list is passable: walking up from the lower limit meets no range that wraps, or wrapping leads to a walk from 0 that passes the limit |
| MmioAllocator.FreeMeans | storage_pci.c:117-127 | a free window: a multiple of its size between 0x90000000 and 0xf0000000 that touches no reserved range |
| MmioAllocator.LowRangesSuffice | storage_pci.c:121-123 | in particular when no range that starts below the limit ends within two sizes of 2^64 |
| MmioAllocator.AnswersZero | storage_pci.c:123-123 | one range up to 2^64 - 1 makes it answer address 0 |
| MmioAllocator.GoesRound | storage_pci.c:118-127 | two ranges that cover everything make it go round for ever |
| MmioAllocator.Allocator.Reserve | storage_pci.c:38-44 | ranges above 4 GiB do not matter; a full list or a wrapping range stops the allocator |
| MmioAllocator.Allocator.Reassign | storage_pci.c:113-138 | over every run reassigned windows are disjoint from each other and from everything reserved, and in range as long as the lists were passable; on a passable list the result is the lowest free window, or 0 exactly when there is none; it hangs exactly when the search is endless |
| SectorTransfer.Device.Transfer | storage_pci.c:428-446 | a flat array of 512-byte sectors: reads give the range, writes change exactly the range; refused exactly when out of range, absent or read-only; a device error part way leaves a prefix read or written and all else alone |
| SectorTransfer.TransferMeans | storage_pci.c:433-445 | the same place by place of the device's own sectors |

## Left out

- LinuxTask.Kernel.Open: path resolution and the file system's verdict are parameters, as are permissions.
- LinuxTask.Kernel.Exec: takes the new machine as a parameter; LinuxExec.Exec.Execve says which one it is.
- LinuxSyscall.Files.SetFileFlags: flag words are records of the bits that matter, with one bit for unknown flags.
- Ext2Volume.Volume.Begin: does not model an unmounted or failed volume; Ext2Cache.BlockCache.Begin does.
- Ext2Volume.Volume.Finish: device errors and the disk are modelled in Ext2Cache only, so the volume's operations assume every block can be read and cached.
- Ext2Supported.Supported: the inode fields that must be zero, and cache errors, are not modelled.
- Ext2Engine.Engine.Write: resolving a parent path before the write is not modelled; names are those of the current directory.
- Ext2Engine.Engine.Remove: rmdir is not modelled. Operations in a current directory with malformed records, which lookup refuses when it meets them, are not either.
- Ext2Mount.Check: the superblock's own fields, and the root directory's checks, are not modelled beyond the geometry they establish.
- ElfFormat.Validate: which of the diagnostics is returned.
- XhciEvents.Host.Events: of what an event does only command completion; transfer events of devices are not modelled, and the driver's test and take of one event are one step.
- XhciRing.Ring.Enqueue: the room in the ring is a precondition, as the source never checks it.
- CSharpOrder.Preserves: strings, casts and member accesses are not modelled, and integer operators are uninterpreted functions, so overflow and the width of types are not.
- MmioAllocator.Allocator.Reassign: the BAR's registers are reduced to whether the device reads an address back.
- The tables, snapshots, block cache and arena are sequences and maps in the fields of classes, not arrays: copying is by value, and aliasing between kernel buffers is not captured. Pixels, bitmaps, staging buffers, ring TRBs, transfer buffers and parser storage are arrays.
- Fairness between tasks, and terminal, regular-file and seek system calls, getpid and getppid beyond being calls on the caller alone.
- The volume's modules work on decoded volumes. Ext2Image shows for each kind of store that it is a step between decoded volumes; the whole sequences of stores of the engine's operations are not replayed on bytes.
- fs_getcwd and fs_cd, and the panics around them; the path walk of lookup_path; stat, df, ls, cat, cp, which add only easy members.
- The page tables behind the user window, device drivers below native_io, interrupts, USB device classes, network, display and the legacy program interface.
- Snake, the text editor, permissions, partitions, passwords and number formatting, which would only add easy members.
