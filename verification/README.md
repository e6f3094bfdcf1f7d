# Spikeling kernel: verified models

This project models the stateful parts of the Spikeling kernel in Dafny and proves what they keep over
every run. Each component has specification functions on values, methods that update the same state in
place (loops, arrays, fields) and are proved equal to those functions, and lemmas about the functions.

- **Filesystem** (`DirCodec`, `Fs*`, `FileSystem`): directory tables on a sector disk, path resolution,
  the occupancy scan, first fit, and the five calls that change or read files. The disk refines an
  abstract tree keyed by sixteen-byte names. The two depth guards disagree by one level; the project
  gives the exact condition under which a call or a run keeps the tree, proves what is lost otherwise (the
  next file of that size is written over the deep one), and gives a concrete run that reaches it.
- **Descriptors and pipes** (`Descriptor*`): per-process descriptor tables over a global table of
  reference-counted ring buffers. An exact conservation law for the counts, FIFO delivery across
  sharing, and whole open-write-close sessions composed with the filesystem.
- **Excursions** (`Excursion`): the ring-3 machine of run, fork, wait, exec, kill, exit and fault.
- **Tasks and scheduler** (`Scheduler`, `Tasks`, `TaskTable`): coupled-potential selection, spawning,
  killing, deferred reaping and timer switching. Stacks are tokens.
- **Rasteriser** (`Raster`): Bresenham lines against an independent closed form, and rectangles.
- **Network** (`Network`, `NetworkRuns`, `NetworkTick`): a tick of the gated spiking network over reals,
  with `exp` an abstract decay in (0, 1].
- **Programs in memory** (`Elf`, `AddressSpaces`, `Loader`, `Isolation`, `Frames`): the ELF64 parser, the
  page-by-page loaders against a flat memory image, isolation of all processes, and the frame allocator.
- **Weights** (`Ternary`, `WeightStore`): the base-3 codec with its error bound, and the saved sector.
- **Shell** (`Shell`): the current directory over the filesystem.

`DescriptorLaws`, `NetworkLaws`, `LoadLaws` and `ElfLaws` state what each operation of their components answers
and leaves, in terms of the state before it; `SharedDisk` shows that files and saved weights do not disturb
each other on one disk.

Reading order for the filesystem: `FsSpec` (what the code does), `FsTree` (the invariant and the tree a
disk stands for), `FsAbstract` (the simple filesystem), `FsRefine` and `FsRuns` (the main theorems).

Where code and comments differ, the model follows the code. `MAX_DEPTH` is described as a guard against
corrupt disks only (kernel/src/fs.rs:98-101), but 32 nested directories reach the level the scan skips. The
pipe counts are described as real open-end counts (kernel/src/process.rs:416-432), but failed `dup`, `fork`
with a full table, killed, reaped and replaced processes leave them too high. The shell's claim that
refusing to remove the current directory protects it (kernel/src/shell.rs:591-596) holds for canonical
arguments only; `rmdir //x` from directory x removes it. The page-wise step through usable regions gives a
frame twice on some maps whose regions do not overlap (kernel/src/memory.rs:77-85).

Sectors past the end of the modelled disk fail to read and write; otherwise the disk is reliable. Physical
frames are named by their place in the allocator's sequence; `Frames` shows for which memory maps different
places are different frames.

## Model

| member | source | states |
|---|---|---|
| DirCodec.LoadAfterSave | kernel/src/fs.rs:129-166 | Loading a saved directory sector gives back every field of all eight entries, for every table |
| DirCodec.SectorLayout | kernel/src/fs.rs:142-166 | Where each field of each entry lies in the saved sector, numbers little-endian |
| DirCodec.SectorFrame | kernel/src/fs.rs:142-166 | The four magic bytes in front, zeros after the eighth entry |
| DirCodec.SectorReads | kernel/src/fs.rs:129-151 | What any sector with the magic bytes means, entry by entry; any non-zero flag byte is a set flag |
| DirCodec.BlankSectorIsEmpty | kernel/src/fs.rs:135-138 | Any sector that does not start with the four magic bytes reads as an empty directory, not as an error |
| Shell.SplitIff | kernel/src/fs.rs:188-189 | The components of a path are the one list of parts without '/' that joins back to it |
| FsSpec.LastSlash | kernel/src/fs.rs:214-224 | The split point of a path is its last '/': none follows it, and it is missing only if there is none |
| FsSpec.FindFrom | kernel/src/fs.rs:197-199 | A lookup finds the first used entry of that name, or reports none when there is none |
| FsSpec.FreeFrom | kernel/src/fs.rs:292 | A new entry takes the first unused slot |
| FsSpec.FitFrom | kernel/src/fs.rs:264-277 | First fit: the smallest position whose span clashes with no occupied range, or none when no position does |
| FsTree.Frame | kernel/src/fs.rs:129-151 | What a table and everything below it stands for depends only on its own sector and the sectors it owns |
| FsWalk.Walk | kernel/src/fs.rs:184-206 | Path resolution succeeds exactly when the tree has that directory, and ends at a well-formed table standing for it |
| FsUpdate.Focus | kernel/src/fs.rs:285-356 | A change confined to one table's subtree that takes no one else's sectors keeps the whole disk well formed and changes the tree only there |
| FsSpace.SpanFreeMeans | kernel/src/fs.rs:264-277 | The clash test accepts a span exactly when it shares no sector with any occupied range |
| FsSpace.CollectCovers | kernel/src/fs.rs:246-259 | The recursive scan of a well-formed tree reports every owned sector, each exactly once, at every depth |
| FsSpace.OccupiedExcept | kernel/src/fs.rs:235-244 | Rewriting a file excludes exactly that file's own old sectors from the occupied list |
| FsContent.WriteChunksEffect | kernel/src/fs.rs:335-341 | Writing a file's pieces puts each 512-byte piece, zero-padded, in its sector and touches no other sector |
| FsContent.ReadBack | kernel/src/fs.rs:371-378 | Reading the written sectors and truncating to the length gives exactly the bytes written |
| FsContent.FileReads | kernel/src/fs.rs:367-378 | A well-formed file entry always reads, with exactly its recorded length |
| FsOps.CommitTree | kernel/src/fs.rs:343-355 | Saving one changed slot: the disk stays well formed, the tree changes in that directory only, and the owned sectors change by exactly the slot's own |
| FsOps.StoreTree | kernel/src/fs.rs:308-356 | A file stored in sectors nobody else owns: that name has those bytes and nothing else changes |
| FsOps.ClearTree | kernel/src/fs.rs:416-427 | Clearing a slot removes that name and frees exactly the sectors it owned |
| FsCalls.WalkRefines | kernel/src/fs.rs:184-206 | Walking the disk and walking the abstract tree agree on every path, errors included and in the same order |
| FsCalls.FullIff | kernel/src/fs.rs:323-326 | A directory table has no unused slot exactly when the directory has eight children |
| FsCalls.FirstFit | kernel/src/fs.rs:264-277 | The allocator finds a run exactly when the pool has one, and takes the lowest |
| FsCalls.WithDirTree | kernel/src/fs.rs:300-304 | A directory made in a free sector appears empty under its name and nothing else changes |
| FsRefine.WriteFileAt | kernel/src/fs.rs:308-356 | Every case of a write in a reached table (directory in the way, full, no room, empty data, rewrite, new file) is the abstract edit |
| FsRefine.MakeDirAt | kernel/src/fs.rs:285-306 | Every case of mkdir in a reached table is the abstract edit |
| FsRefine.DeleteAt | kernel/src/fs.rs:416-427 | Every case of rm in a reached table is the abstract edit |
| FsRefine.RemoveDirAt | kernel/src/fs.rs:438-453 | Every case of rmdir in a reached table is the abstract edit: only an empty directory goes |
| FsRefine.Refines | kernel/src/fs.rs:285-453 | Refinement, one call: the disk stays well formed, tree and reply are those of the abstract call, and a failing call leaves the disk untouched |
| FsRefine.ReadRefines | kernel/src/fs.rs:358-379 | Reading a path gives what the abstract tree holds there, errors included |
| FsAbstract.ReadAfterWrite | kernel/src/fs.rs:308-379 | On the tree: a successful write reads back through any path naming the same table and sixteen name bytes |
| FsAbstract.OtherPathsRead | kernel/src/fs.rs:285-453 | On the tree: after any successful call every path naming another (table, name) reads as before |
| FsAbstract.GoneAfterRemove | kernel/src/fs.rs:416-453 | On the tree: what rm or rmdir removed is no longer found |
| FsRuns.RunRefines | kernel/src/fs.rs:285-453 | Every run from a well-formed disk in which no call succeeds in allocating under exactly 32 directories keeps the tree invariant and is a run of the abstract filesystem with the same replies |
| FsRuns.RunKeepsIff | kernel/src/fs.rs:285-453 | Those are exactly the runs whose every disk is well formed |
| FsRuns.RunFromBlank | kernel/src/fs.rs:135-138 | Every such run from a disk without the magic number keeps the invariant and is a run from the empty tree |
| FsRuns.RangesDisjoint | kernel/src/fs.rs:226-259 | Allocated ranges of all files and directory tables, at every depth, are non-empty, pairwise disjoint and inside sectors 2 to 65 |
| FsRuns.WriteThenRead | kernel/src/fs.rs:308-379 | On disk: a successful write reads back, by the same path or any alias of it |
| FsRuns.OthersUnchanged | kernel/src/fs.rs:285-453 | On disk: every path to another directory or name reads exactly what it read before the call |
| FsRuns.RemoveThenRead | kernel/src/fs.rs:416-453 | On disk: what was removed is gone |
| FsRuns.MakeThenRemove | kernel/src/fs.rs:285-306 | mkdir then rmdir of the same path succeeds and restores the tree |
| FsDepth.KeepsInvariantIff | kernel/src/fs.rs:193-195 | The two depth guards: a call keeps the invariant if and only if it is refused or does not allocate under exactly 32 directories; its reply is the abstract one in every case |
| FsDepth.DeepSectorsReused | kernel/src/fs.rs:246-249 | After an allocation under 32 directories the scan reports what it reported before, so the next allocation of any size is given the same place |
| FsDamage.DeepFileOverwritten | kernel/src/fs.rs:246-249 | A file written under exactly 32 directories reads back until the next new file of as many sectors at any scanned level, anywhere on the disk: both calls succeed, and the deep file then reads as the other file's bytes, cut or zero-padded to its own length |
| FsDamage.DeepDirOverwritten | kernel/src/fs.rs:246-249 | A directory made there has its table written over by the next new one-sector file at a scanned level, whose content then decides whether rmdir finds the directory empty |
| FsDamage.SurvivesIff | kernel/src/fs.rs:193-249 | A file just written still reads back after another new file of as many sectors with other bytes was written at a scanned level, if and only if it does not lie under exactly 32 directories |
| FsDamage.WriteReadsBack | kernel/src/fs.rs:308-379 | A write that succeeds reads back by its path, at any depth |
| FsChain.DepthGuardsDisagree | kernel/src/fs.rs:184-259 | Concrete run on any blank disk: 32 nested mkdirs, a write into the deepest directory, a write of as many bytes to b in the root; every call succeeds, and the deep file then reads as the bytes of b |
| FsChain.ChainReplies | kernel/src/fs.rs:285-306 | Each of the nested mkdirs reports success |
| FileSystem.Driver.LoadDirAt | kernel/src/fs.rs:129-151 | The loop over eight entries decodes the sector, or gives an empty table past the disk or without the magic |
| FileSystem.Driver.SaveDirAt | kernel/src/fs.rs:153-166 | Filling the buffer field by field writes exactly the encoded table to that sector |
| FileSystem.Driver.ResolveDirLba | kernel/src/fs.rs:184-206 | The component loop computes path resolution, errors included |
| FileSystem.Driver.ResolveTable | kernel/src/fs.rs:214-224 | Splitting off the leaf and resolving the rest computes the place of a path |
| FileSystem.Driver.CollectOccupiedAt | kernel/src/fs.rs:246-259 | The recursive loop appends exactly the ranges of the tree below a table |
| FileSystem.Driver.CollectOccupied | kernel/src/fs.rs:235-244 | The occupied list, without the first range equal to the excluded one |
| FileSystem.Driver.FindFreeSpan | kernel/src/fs.rs:264-277 | The two nested loops compute first fit |
| FileSystem.Driver.MakeDir | kernel/src/fs.rs:285-306 | mkdir in place on the disk does what its disk function says, which Refines relates to the tree |
| FileSystem.Driver.WriteFile | kernel/src/fs.rs:308-356 | write in place on the disk does what its disk function says |
| FileSystem.Driver.ReadFile | kernel/src/fs.rs:358-379 | read returns what its disk function says and changes nothing |
| FileSystem.Driver.DeleteFile | kernel/src/fs.rs:416-427 | rm in place on the disk does what its disk function says |
| FileSystem.Driver.RemoveDir | kernel/src/fs.rs:438-453 | rmdir in place on the disk does what its disk function says |
| FileSystem.Driver.List | kernel/src/fs.rs:459-465 | The listing is the used entries of the resolved table, in table order |
| FileSystem.ListingShowsKids | kernel/src/fs.rs:459-465 | A listing of a directory shows exactly its children, with their kinds |
| DescriptorRefs.Conservation | kernel/src/process.rs:457-483 | Conservation: over every call each pipe end's excess (kernel count minus live references) grows by exactly what that call leaks, unless the saturating count is at its ceiling |
| DescriptorRefs.CloseBalance | kernel/src/process.rs:1003-1037 | close changes count and references together, so it leaves the excess exact |
| DescriptorRefs.DupBalance | kernel/src/process.rs:1076-1094 | dup keeps the balance, except that a dup into a full table leaks one |
| DescriptorRefs.Dup2Balance | kernel/src/process.rs:1109-1136 | dup2, closing what was there first, keeps the balance |
| DescriptorRefs.ForkBalance | kernel/src/process.rs:2319-2347 | fork counts every copied end; with a full process table it leaks them all |
| DescriptorRefs.NoDangling | kernel/src/process.rs:410-432 | No descriptor names a freed pipe slot |
| DescriptorPipes.InvKept | kernel/src/process.rs:457-1136 | Every call by any process keeps: counts at least the live references, freed slots named by nobody, rings sound |
| DescriptorPipes.NeverDangling | kernel/src/process.rs:416-432 | Over every interleaving from boot a descriptor's pipe is live and counted at least as often as it is named |
| DescriptorPipes.ExcessIsLeaked | kernel/src/process.rs:2319-2519 | Over a run below the ceiling an end's excess is exactly the sum of what the calls leaked (failed dup, fork with a full table, kill, reap, replaced process) |
| DescriptorPipes.ExactIff | kernel/src/process.rs:416-432 | From exact counts, one call leaves them exact if and only if it leaks nothing |
| DescriptorPipes.LeakFreeExact | kernel/src/process.rs:416-432 | Over every leak-free run from exact counts they stay exactly the live references |
| DescriptorPipes.LeakNeverReclaimed | kernel/src/process.rs:1076-1094 | A call that leaks a reference keeps that pipe's slot taken whatever is called afterwards |
| DescriptorPipes.FailedDupLeaks | kernel/src/process.rs:1076-1094 | Concrete run from boot: two pipes fill a process's table with exact counts; a dup then fails but has counted, so one end is counted once too often and its slot is never free again |
| DescriptorPipes.NewPipeUnnamed | kernel/src/process.rs:457-468 | A new pipe takes a slot that no descriptor names, so no old descriptor reaches a recycled pipe |
| DescriptorPipes.TakeFront | kernel/src/process.rs:501-509 | Reading n bytes takes the oldest n and leaves the rest in order, wrap-around included |
| DescriptorPipes.StoreBack | kernel/src/process.rs:526-534 | Writing bytes that fit appends them after everything buffered, wrap-around included |
| DescriptorPipes.Fifo | kernel/src/process.rs:495-535 | FIFO: bytes read by all holders, then bytes buffered, are the bytes buffered before, then everything accepted from all writers |
| DescriptorPipes.FifoFromCreation | kernel/src/process.rs:457-535 | From creation: everything read, then everything buffered (at most 512 bytes), is everything written |
| DescriptorPipes.NewPipeEnds | kernel/src/process.rs:469-476 | A new pipe's ends take the two lowest free descriptors, read end first; every other descriptor is unchanged |
| DescriptorPipes.DupShares | kernel/src/process.rs:1076-1094 | dup names the same end or file from the lowest free descriptor and disturbs no other |
| DescriptorPipes.Dup2Shares | kernel/src/process.rs:1109-1136 | dup2 makes exactly the chosen descriptor name the same end or file |
| DescriptorPipes.ForkShares | kernel/src/process.rs:2319-2351 | A forked child's descriptors name what its parent's do |
| DescriptorFiles.FilesKept | kernel/src/process.rs:901-986 | Every call keeps pos <= buffer length <= 4096 for every open file, on a well-formed disk |
| DescriptorFiles.RunFilesKept | kernel/src/process.rs:901-1061 | Over every run in which no write-back succeeds in allocating under exactly 32 directories, the disk stays well formed and every open file within bounds |
| DescriptorFiles.DiskKeptIff | kernel/src/process.rs:1039-1061 | A descriptor call keeps the disk well formed if and only if what it writes back, if anything, is no allocation under exactly 32 directories or is refused |
| DescriptorFiles.Undisturbed | kernel/src/process.rs:901-1136 | A call that does not touch a descriptor leaves it naming exactly what it named |
| DescriptorFiles.Session | kernel/src/process.rs:901-1061 | Open any path, any calls in which this descriptor is only written, close with success: the accepted bytes lie over the old contents on disk, whoever else wrote meanwhile |
| DescriptorLaws.PipeWriteAnswers | kernel/src/process.rs:520-536 | A pipe write accepts exactly as many bytes as there is room for in 512, answers that number and appends exactly them; nothing else changes |
| DescriptorLaws.PipeReadAnswers | kernel/src/process.rs:495-510 | A pipe read returns the oldest bytes, as many as asked for and there are, and takes exactly them |
| DescriptorLaws.FileReadAnswers | kernel/src/process.rs:929-947 | A file read returns the bytes at the cursor, as many as asked for and there are, and moves the cursor past them |
| DescriptorLaws.FileWriteAnswers | kernel/src/process.rs:967-986 | A file write takes what fits below 4096 bytes and answers that number; each byte afterwards is the written, the old, or a zero in a gap |
| DescriptorLaws.OpenAnswers | kernel/src/process.rs:901-912 | An open gives the lowest free descriptor, the file's bytes or none, cursor zero |
| DescriptorLaws.CloseAnswers | kernel/src/process.rs:1004-1061 | A close gives up exactly that descriptor and writes to disk exactly a file that was written |
| DescriptorLaws.ReadFailsIff | kernel/src/process.rs:929-947 | A read fails exactly on a descriptor that is not open or is a write end, and then changes nothing |
| DescriptorLaws.WriteFailsIff | kernel/src/process.rs:967-986 | A write fails exactly on a descriptor that is not open or is a read end, and then changes nothing |
| DescriptorLaws.OpenFailsIff | kernel/src/process.rs:901-912 | An open fails exactly without such a process or a free descriptor |
| DescriptorLaws.PipeFailsIff | kernel/src/process.rs:457-483 | A pipe is made exactly when a pipe slot and two descriptors are free |
| DescriptorLaws.CloseFailsIff | kernel/src/process.rs:1004-1010 | A close fails exactly on a descriptor that is not open |
| DescriptorLaws.DupFailsIff | kernel/src/process.rs:1076-1094 | A dup fails exactly on a descriptor that is not open or in a full table |
| DescriptorLaws.Dup2FailsIff | kernel/src/process.rs:1109-1136 | A dup2 fails exactly on a descriptor that is not open or a target that is none; onto itself it changes nothing |
| DescriptorLaws.ForkFailsIff | kernel/src/process.rs:2257-2363 | A fork fails exactly when it is not allowed, without such a process, or with a full table |
| DescriptorLaws.KillAnswers | kernel/src/process.rs:2502-2525 | A kill removes exactly an own child of the caller and touches no other descriptor |
| DescriptorLaws.ReapInstallAnswer | kernel/src/process.rs:2475-2482 | Reaping empties a table slot, installing gives a static slot a process without descriptors; other ids are refused |
| DescriptorLaws.ReadsInOrder | kernel/src/process.rs:929-947 | Whatever anyone calls, the reads of one open file return its bytes from the cursor on, none twice and none left out |
| DescriptorLaws.OpenThenRead | kernel/src/process.rs:901-947 | A file opened and read in any pieces is returned from its first byte on |
| DescriptorLaws.SessionThenReads | kernel/src/process.rs:901-1061 | After a session, a fresh open by anyone, read in any pieces, returns the accepted bytes over the old contents |
| DescriptorCalls.Tables.PipeCreate | kernel/src/process.rs:457-483 | The global tables after pipe creation, the release on a full table and the leak on a missing process included |
| DescriptorCalls.Tables.OpenFd | kernel/src/process.rs:901-912 | Buffers the file, or nothing if it does not exist, in the lowest free descriptor |
| DescriptorCalls.Tables.ReadFd | kernel/src/process.rs:931-947 | Reads from a pipe's ring or from the file buffer at its cursor |
| DescriptorCalls.Tables.WriteFd | kernel/src/process.rs:965-986 | Writes what fits into a pipe's ring or into the file buffer, never past 4096 bytes |
| DescriptorCalls.Tables.CloseFd | kernel/src/process.rs:1003-1061 | Releases the descriptor first, then the end or the dirty file; the slot is released even if persisting fails |
| DescriptorCalls.Tables.DupFd | kernel/src/process.rs:1076-1094 | Counts first, then looks for a slot |
| DescriptorCalls.Tables.Dup2Fd | kernel/src/process.rs:1109-1136 | Closes the target first, then counts and installs |
| DescriptorCalls.Tables.ForkFds | kernel/src/process.rs:2319-2351 | Counts the parent's ends one by one, then looks for a process slot |
| DescriptorCalls.Tables.KillChild | kernel/src/process.rs:2502-2525 | Only the parent removes a child, without closing its descriptors |
| DescriptorCalls.Tables.Drain | kernel/src/process.rs:501-507 | The loop copies the oldest bytes of the ring in order |
| DescriptorCalls.Tables.FillRing | kernel/src/process.rs:529-532 | The loop stores bytes from the write position on, wrapping |
| Excursion.RingThreeState | kernel/src/process.rs:2376-2482 | Over every run: CR3 is the active process's address space, a child excursion is in flight exactly for table ids, parents are static, every other table entry can still be resumed, and the kernel is always resumed at its innermost frame |
| Excursion.StepInv | kernel/src/usertest.rs:478-518 | Every event (run, fork, wait, exec, kill, exit, fault) keeps the excursion invariant |
| Excursion.WaitRestores | kernel/src/process.rs:2395-2482 | Whatever the child does, when it has left, address space, active process, syscall stack, anchor and frames are as before the wait, and ring 3 continues at its own instruction and stack pointer; the child is reaped and no other process changed |
| Excursion.WaitAcceptedIff | kernel/src/process.rs:2431-2456 | A wait runs the child exactly when a static process waits for its own child |
| Excursion.RefusedWaitKeeps | kernel/src/process.rs:2431-2456 | A refused wait changes nothing but the result register |
| Excursion.ForkThenWait | kernel/src/process.rs:2333-2389 | The child starts right after the fork, in its own address space, with result 0 |
| Excursion.Cpu.EnterProcess | kernel/src/process.rs:1478-1516 | Entering a process sets active id, CR3 and the top-level anchor |
| Excursion.Cpu.SyscallFork | kernel/src/process.rs:2257-2363 | Refused without a process, inside a child, without an address space or a slot; else a child with the caller's resume point |
| Excursion.Cpu.SyscallWait | kernel/src/process.rs:2376-2410 | Takes the child's resume point and switches CR3, active id, stack and anchor to it |
| Excursion.Cpu.LeaveRing3 | kernel/src/usertest.rs:1123-1132 | Exit or fault returns through the anchor of the innermost excursion and, from a child, restores the parent, its instruction and stack pointer included |
| Excursion.Cpu.SyscallKill | kernel/src/process.rs:2502-2525 | Only an own, never-run child is removed |
| Excursion.ExecKeepsExcursion | kernel/src/process.rs:2607-2631 | An exec, successful or not, changes only the user registers, so the excursion still ends as it would have |
| Excursion.KillThenFork | kernel/src/process.rs:2502-2525 | A kill succeeds exactly on an own, never-run child; its slot is then free and the next fork with an address space succeeds |
| Excursion.ForkAnswers | kernel/src/usertest.rs:754-790 | Fork is refused, with the failure value and no other change, exactly in its four cases; otherwise the lowest free pid gets the new address space, the caller as parent and the caller's place to resume at |
| Excursion.RunEnters | kernel/src/process.rs:1478-1516 | A run enters the program's fixed start with a cleared result register in its own address space; an id that is no static process is refused |
| Excursion.BareAndInstall | kernel/src/usertest.rs:1123-1132 | A run without a process enters the same start in the kernel's address space; an install replaces one static process; neither while a program runs |
| Excursion.TopLeaves | kernel/src/usertest.rs:478-518 | A top-level exit or fault goes back to the kernel and leaves every process, un-waited children included |
| Excursion.RunThenExit | kernel/src/usertest.rs:478-518 | A run entered and left changes nothing but the user registers and the last anchor |
| Excursion.ExecAnswers | kernel/src/usertest.rs:829-885 | Exec is refused, with the failure value, exactly without a process or a loadable file; otherwise ring 3 goes on at the fixed start |
| Excursion.KillAnswers | kernel/src/process.rs:2502-2525 | Kill answers 1 and removes the target exactly for an own child, else 0; nothing else changes |
| Scheduler.StepSelects | kernel/src/scheduler.rs:134-147 | A step selects the alive slot of highest potential at or above threshold, the last on ties; none exactly when there is none |
| Scheduler.StepRaises | kernel/src/scheduler.rs:113-132 | A step keeps potentials non-negative, and one that selects nothing raises every alive slot by at least the bias |
| Scheduler.SelectsWithinSeven | kernel/src/scheduler.rs:113-148 | With non-negative potentials, g in [-1, 1] and a slot alive, one of the next seven steps selects |
| Scheduler.SixIsNotEnough | kernel/src/scheduler.rs:52-53 | Seven is tight: a fresh one-slot bank selects nothing in six steps |
| Scheduler.LateralIsCoupled | kernel/src/scheduler.rs:113-132 | The two neighbour terms of a slot equal the sum over all alive slots, each through its bond; a dead slot sends nothing |
| Scheduler.StepWinner | kernel/src/scheduler.rs:134-147 | A step selects nothing exactly when no alive slot's potential, bias 0.15 and 0.05 times its coupled input reach 1, and otherwise the highest such sum, the last on ties |
| Scheduler.StepSlot | kernel/src/scheduler.rs:113-147 | After a step the selected slot is at zero with one more firing, every other alive slot has exactly that sum, dead slots are as they were |
| Scheduler.FiresCounted | kernel/src/scheduler.rs:143-146 | Exactly one firing is counted for each step that selects |
| Scheduler.KilledRevived | kernel/src/scheduler.rs:76-109 | A killed slot is dead and empty, a revived one alive and fresh; no other slot changes |
| Scheduler.StepDead | kernel/src/scheduler.rs:113-147 | No step changes a dead slot |
| Scheduler.BondsAlternate | kernel/src/scheduler.rs:22-28 | Neighbouring bonds add up to 2, the first is 1 - g, and growing the bank keeps every old bond |
| Scheduler.Bench.Advance | kernel/src/scheduler.rs:113-148 | The loops over snapshot, coupling and maximum compute one step of the bank, which StepWinner and StepSlot describe |
| Scheduler.Bench.AddSlot | kernel/src/scheduler.rs:89-97 | Grows the bank by one live slot with all bonds recomputed |
| Scheduler.Bench.Kill | kernel/src/scheduler.rs:76-81 | The slot is dead with zero potential; an id out of range changes nothing |
| Scheduler.Bench.Revive | kernel/src/scheduler.rs:103-109 | The slot is alive and fresh |
| Tasks.TickInv | kernel/src/tasks.rs:352-390 | A tick keeps the invariant, and the task it switches to is there: neither lookup can fail |
| Tasks.ReapFrees | kernel/src/tasks.rs:294-305 | Reaping frees exactly the dead tasks that are not running |
| Tasks.SpawnInv | kernel/src/tasks.rs:236-261 | Spawn keeps the invariant: slots and tasks stay in step, zombies exact, stacks distinct |
| Tasks.KillInv | kernel/src/tasks.rs:272-289 | Kill keeps the invariant, deferring the free of the running task |
| Tasks.NeverOnFreedStack | kernel/src/tasks.rs:218-305 | From boot, over any spawns, kills and ticks before and after the demo starts, execution is on the kernel's stack or on the current task's allocated stack; zombies are exactly the dead slots holding a task |
| Tasks.SelfKilledFreedWithinEight | kernel/src/tasks.rs:262-305 | A current task that killed itself, with another alive, is switched away from and freed within eight background ticks |
| Tasks.SelfKilledOnAnyRun | kernel/src/tasks.rs:262-305 | The same on every run from boot: no assumption on potentials or tables is left |
| Tasks.AloneNeverFreed | kernel/src/tasks.rs:262-305 | Without another task alive it stays current and is never freed |
| Tasks.RunRanged | kernel/src/scheduler.rs:113-132 | Every run keeps potentials non-negative and the bonds matching the bank's size |
| Tasks.DemoReturns | kernel/src/tasks.rs:357-368 | The demo runs exactly up to its sixtieth tick and then execution is back in the kernel |
| Tasks.TickAnswers | kernel/src/tasks.rs:352-390 | What a tick does in the demo, at its end, in the background and otherwise: the scheduler is stepped once and execution moves to the selected task's stack, or nothing happens |
| Tasks.DemoStarts | kernel/src/tasks.rs:183-216 | The demo starts three tasks on stacks of their own, the first running, all alive and equal, with bonds 0.4 and 1.6 |
| Tasks.SpawnAnswers | kernel/src/tasks.rs:236-270 | A spawn is refused exactly before the demo or with eight tasks; otherwise it takes the first slot without a task and a stack no task ever had |
| Tasks.KillAnswers | kernel/src/tasks.rs:272-289 | A kill answers yes exactly for an alive slot, which dies; its task goes at once unless it is running |
| TaskTable.Table.RunPreemptionDemo | kernel/src/tasks.rs:183-204 | Boots three tasks and a fresh bank and switches into the first |
| TaskTable.Table.Spawn | kernel/src/tasks.rs:236-261 | Reuses the first free slot or grows, up to eight |
| TaskTable.Table.Kill | kernel/src/tasks.rs:272-289 | Frees at once unless the task is running, then makes it a zombie |
| TaskTable.Table.ReapZombies | kernel/src/tasks.rs:294-305 | The retain loop frees and drops every zombie but the running one |
| TaskTable.Table.CurrentStack | kernel/src/tasks.rs:218-229 | The current task's stack is there: the lookup cannot fail |
| TaskTable.Table.TimerTickSwitch | kernel/src/tasks.rs:352-390 | One timer tick on the statics, its table accesses proved in range |
| Raster.LineEnds | kernel/src/console.rs:149-172 | A line has max(dx, dy) + 1 pixels, starts at the first endpoint and ends at the second |
| Raster.LineInBox | kernel/src/console.rs:149-172 | Every pixel lies in the bounding box of the endpoints, so the casts back to unsigned are safe |
| Raster.LineConnected | kernel/src/console.rs:149-172 | Consecutive pixels are neighbours and advance on the longer axis every time |
| Raster.HalfPixel | kernel/src/console.rs:149-172 | Every pixel is within half a pixel of the ideal line along the shorter axis |
| Raster.RectCovers | kernel/src/console.rs:177-193 | A rectangle lights exactly its area when filled, else exactly its border; nothing if a side is zero |
| Raster.LitBytes | kernel/src/console.rs:107-134 | Byte by byte: after pixels are lit a byte is 255 if it belongs to one of them that lies inside the framebuffer, and otherwise as it was |
| Raster.RectBytes | kernel/src/console.rs:177-201 | Drawing a rectangle sets the bytes of every pixel of its area, or of its border |
| Raster.Console.DrawLine | kernel/src/console.rs:149-172 | The integer error loop ends for every pair of endpoints, in every octant, and lights exactly the sampled ideal line |
| Raster.Console.DrawRect | kernel/src/console.rs:177-193 | Rows or four border lines light exactly the rectangle's pixels |
| Raster.Console.DrawPixel | kernel/src/console.rs:107-142 | Sets one pixel's bytes to 255 or 0; a pixel past the framebuffer's end is skipped |
| Network.GoldenPeriod | kernel/src/network.rs:234-242 | The search for a period coprime to the fast one ends within one fast period, at the first coprime number |
| Network.GatePeriodIs18 | kernel/src/network.rs:226-234 | The kernel's own gate period is 18, coprime to 7 |
| NetworkRuns.ActOk | kernel/src/network.rs:279-365 | Every action keeps endpoints, stimulus slots and open windows in range, so no tick difference underflows |
| NetworkRuns.ActInUnit | kernel/src/network.rs:151-165 | Evidence stays in [0,1] through every action, and weights do if every weight given is |
| NetworkRuns.RunInUnit | kernel/src/network.rs:252-255 | The same over every run |
| NetworkRuns.StdpDirection | kernel/src/network.rs:151-165 | Post after pre strengthens up to 1, post before pre weakens down to 0, a tie or a missing firing changes nothing |
| NetworkRuns.NextStimulus | kernel/src/network.rs:453-464 | A neuron's next stimulus is one contribution from each open synapse whose source fired this tick |
| NetworkRuns.DormantIsInert | kernel/src/network.rs:461-479 | A gated-off synapse keeps its weight and sends nothing: the stimulus and neurons are the same whatever its weight |
| NetworkRuns.DormantRun | kernel/src/network.rs:433-479 | Over any run in which a synapse stays gated off and is not trained by hand, its weight is unchanged and the run goes the same way in every other respect whatever that weight is |
| NetworkRuns.EvidenceIgnoresWeights | kernel/src/network.rs:431-451 | Two runs of the same ticks, trainings and additions with the same firings have the same evidence, windows and gates, whatever their weights and stimuli |
| NetworkRuns.EvidenceIsBlended | kernel/src/network.rs:252-255 | A synapse's evidence is a function of its sequence of verdicts alone |
| NetworkRuns.OffNeedsFive | kernel/src/network.rs:373-381 | After a gate switches on, at least five verdicts come before it is off |
| NetworkRuns.OnNeedsThree | kernel/src/network.rs:373-381 | After a gate switches off, at least three verdicts come before it is on |
| NetworkRuns.NoLockout | kernel/src/network.rs:484-486 | A gate check whose last four verdicts are hits (the target fired within fifteen ticks of the source) leaves the gate on; one whose last eight are misses (a window open longer) leaves it off |
| NetworkLaws.EvidenceTick | kernel/src/network.rs:431-451 | At a tick, a target firing within fifteen ticks of its source pulls evidence to 0.8 e + 0.2, a window open longer to 0.8 e, any other tick leaves it; when windows open and close |
| NetworkLaws.GateCheck | kernel/src/network.rs:373-381 | Gates are looked at on every eighteenth tick only: closed below 0.2, open above 0.5, else as they were |
| NetworkLaws.NeuronTick | kernel/src/network.rs:411-427 | A refractory neuron neither fires nor takes its stimulus; any other leaks, adds it, and fires exactly at its threshold |
| NetworkLaws.LeaksAway | kernel/src/network.rs:416 | Left alone for n ticks, a potential falls by n times the leak and stops at zero |
| NetworkLaws.WeightTick | kernel/src/network.rs:469-479 | Exactly the open synapses one of whose neurons fired learn: 0.1 times the decay of the distance, up or down, clamped to [0, 1] |
| NetworkLaws.ClockAndBeep | kernel/src/network.rs:488-497 | The clock moves by one; a firing starts forty speaker ticks, any other tick counts them down |
| NetworkLaws.NeuronAdded | kernel/src/network.rs:279-297 | A neuron is added exactly under a name not taken, silent, unmarked and last |
| NetworkLaws.NamesStayUnique | kernel/src/network.rs:279-283 | Over every run no two neurons share a name |
| NetworkLaws.SynapseAdded | kernel/src/network.rs:297-309 | A synapse is added exactly between two names that exist: open, fully trusted, last |
| NetworkLaws.Stimulated | kernel/src/network.rs:311-315 | A stimulus is added to what the named neuron has waiting and to nothing else |
| NetworkLaws.TrialEffect | kernel/src/network.rs:338-366 | A trial marks both neurons the given gap apart, applies one pairing whether the synapse is open or not, moves the clock past both, and changes nothing else |
| NetworkLaws.TrialRefused | kernel/src/network.rs:338-347 | A trial on names or a synapse that do not exist changes nothing |
| NetworkRuns.FiringsSpaced | kernel/src/network.rs:411-427 | Any two tick-driven firings of a neuron are at least its refractory period plus one tick apart |
| NetworkTick.GenericNetwork.TickAll | kernel/src/network.rs:407-497 | One tick in place: neurons, evidence, propagation, plasticity, gates, beep, in that order |
| NetworkTick.GenericNetwork.StepNeurons | kernel/src/network.rs:411-427 | The loop leaks, stimulates and fires every neuron that is not refractory |
| NetworkTick.GenericNetwork.SenseSynapses | kernel/src/network.rs:433-451 | Every synapse, open or dormant, gets its verdict and opens its window |
| NetworkTick.GenericNetwork.Propagate | kernel/src/network.rs:461-465 | Nested loops over fired neurons and their open synapses accumulate the next stimulus |
| NetworkTick.GenericNetwork.Learn | kernel/src/network.rs:471-479 | Plasticity on every open synapse touching a fired neuron |
| NetworkTick.GenericNetwork.EvaluateGates | kernel/src/network.rs:373-381 | The hysteresis band applied to every synapse |
| NetworkTick.GenericNetwork.TrainSynapse | kernel/src/network.rs:339-365 | Two marked firings the given gap apart, clock past both, and one weight update that bypasses the gate |
| NetworkTick.GenericNetwork.AddNeuronNamed | kernel/src/network.rs:279-295 | A new name adds one neuron and one stimulus slot; a known name changes nothing |
| NetworkTick.GenericNetwork.AddSynapseBetween | kernel/src/network.rs:297-309 | Between known names adds an open, fully trusted synapse |
| Elf.ParseAccepts | kernel/src/elf.rs:127-231 | A file is accepted exactly when its header is sound and it has one to eight load segments whose file ranges lie inside it; the result lists exactly those, in order |
| ElfLaws.HeaderPassesIff | kernel/src/elf.rs:127-171 | The header checks pass exactly on the magic, class, byte order, type, machine and header-size bytes, at least one header, and a table inside the file |
| ElfLaws.ParsesIff | kernel/src/elf.rs:127-231 | For a file that carries gABI structures: accepted exactly when they are sound, and then the entry and the load headers come back field by field in order |
| ElfLaws.RefusalIsTrue | kernel/src/elf.rs:127-231 | Every refusal gives a reason the file gives |
| Elf.ReadsPhdr | kernel/src/elf.rs:185-204 | A program header packed little-endian in the order of Elf64_Phdr is read back field by field |
| Elf.ReadsEhdr | kernel/src/elf.rs:142-158 | A file header packed in the order of Elf64_Ehdr is read back field by field |
| Elf.LittleEndianSplit | kernel/src/elf.rs:108-118 | A little-endian number is its low part followed by its high part, at every width |
| Elf.ParseElf | kernel/src/elf.rs:127-231 | The header walk, with every read inside the file |
| AddressSpaces.JobsSucceedIff | kernel/src/process.rs:1822-1833 | Mapping pages succeeds exactly when no page is mapped twice and enough frames are left |
| AddressSpaces.LoadedImage | kernel/src/process.rs:1822-1870 | A loaded file's memory is the flat specification: the file's bytes below p_filesz, zero from there to the end of the last page |
| AddressSpaces.LoadedShape | kernel/src/process.rs:1741-1942 | At most 16 segment pages, each address once and in a frame of its own; entry, stack and heap mapped; no earlier frame touched |
| LoadLaws.ProgramLoadsIff | kernel/src/process.rs:1693-1942 | A file loads if and only if: entry at the fixed address and inside a segment; one to eight segments, each page-aligned, not empty, at most four pages, inside the process's part of the address space; at most sixteen pages; none shared with another segment, the stack or the heap; a frame for each page, each page table and the PML4 |
| LoadLaws.ChecksIff | kernel/src/process.rs:1701-1770 | Exactly which programs pass the checks made before anything is mapped, in addresses and sizes |
| LoadLaws.RefusalIsTrue | kernel/src/process.rs:1701-1770 | Every refusal before mapping gives a reason the program gives |
| LoadLaws.LoadedInSlot | kernel/src/process.rs:1755-1762 | Every page of a loaded program lies in PML4 slot 170 |
| LoadLaws.LoadedPages | kernel/src/process.rs:1813-1942 | A loaded program has exactly the pages of its segments, its stack page and its four heap pages |
| LoadLaws.FlatLoadsIff | kernel/src/process.rs:1150-1305 | A one-page program loads exactly when its image fits a page and twelve frames are left |
| AddressSpaces.StackAndEntry | kernel/src/process.rs:1875-1877 | The entry check makes sure a mapped page backs the entry, so that internal error cannot occur |
| AddressSpaces.FlatShape | kernel/src/process.rs:1150-1305 | A one-page program sees its zero-padded image and a zero heap, in frames of its own |
| Loader.Memory.CreateProcessFromElf | kernel/src/process.rs:1693-1942 | Validation, then pages, stack and heap mapped one by one, give exactly the specified address space or the first error |
| Loader.Memory.CreateProcessFromImage | kernel/src/process.rs:1150-1305 | Code, stack and heap of a one-page program |
| Loader.Memory.Validate | kernel/src/process.rs:1693-1770 | The checks in the order of the source, exactly those ChecksIff describes |
| Loader.Memory.LoadSegment | kernel/src/process.rs:1822-1869 | The page loop of one segment |
| Loader.Memory.PageImage | kernel/src/process.rs:1842-1861 | A page zeroed and then filled with the file bytes that fall into it |
| Loader.Memory.PlacePage | kernel/src/process.rs:1825-1843 | One frame taken, mapped and filled, or the first failure |
| Isolation.FramesDisjoint | kernel/src/process.rs:1150-1305 | No frame backs pages of two processes |
| Isolation.PhysicallyDisjoint | kernel/src/process.rs:1150-1305 | In physical memory: on a map whose usable regions are apart no frame backs two pages, of one process or of two |
| Isolation.Isolated | kernel/src/process.rs:1150-1305 | Isolation: create, fork, exec, sbrk, store or drop for one process changes no other process's memory, page map or heap mark |
| Isolation.RunIsolated | kernel/src/process.rs:2208-2241 | The same over every run of operations on other processes |
| Isolation.ForkCopiesIff | kernel/src/process.rs:2208-2241 | A forked child sees exactly its parent's memory at every address if and only if the parent has no extra ELF pages |
| Isolation.ForkLosesSecondPage | kernel/src/process.rs:2208-2241 | Concrete run from boot: a two-page program sees its second page after a fork, its child sees nothing there |
| Isolation.ForkThenApart | kernel/src/process.rs:2208-2241 | After a fork neither side sees what the other does |
| Isolation.ExecSees | kernel/src/process.rs:2607-2631 | After exec: the new image at the code page, stack and heap contents kept, heap mark zero |
| Isolation.StoreSees | kernel/src/process.rs:1150-1305 | A process sees its own store at that address and nothing else changed |
| Isolation.CreatedSees | kernel/src/process.rs:1150-1305 | A one-page program just created sees its padded image, zeros in its heap, its stack and nothing else |
| Isolation.RefusedOrDropped | kernel/src/process.rs:2607-2631 | Operations on processes that are not there, oversized execs and stores outside the map change nothing; a drop drops one entry |
| Isolation.SbrkAnswers | kernel/src/process.rs:824-834 | sbrk moves the mark by exactly what was asked within 16384 bytes or refuses; what it hands out is mapped |
| Isolation.MarksStayOk | kernel/src/process.rs:824-834 | Over every run no heap mark passes the mapped heap |
| Frames.UsableDistinctIff | kernel/src/memory.rs:77-93 | No frame occurs twice if and only if no two usable regions step through a common page |
| Frames.UsableDistinct | kernel/src/memory.rs:77-85 | In particular with disjoint, page-aligned usable regions |
| Frames.UnalignedRepeats | kernel/src/memory.rs:83 | Disjoint is not enough: two disjoint regions that meet inside a page give one frame twice |
| Frames.FrameAllocator.Allocate | kernel/src/memory.rs:87-93 | On any map the next usable frame; when the usable regions are apart it is never returned at any other position |
| Ternary.UnpackPack | kernel/src/ternary.rs:89-117 | Unpacking packed trits gives them back, for every length |
| Ternary.LevelsExact | kernel/src/ternary.rs:128-156 | Each of the 59049 levels survives encoding and decoding exactly |
| Ternary.WithinHalfLevel | kernel/src/ternary.rs:128-156 | Any weight comes back within 1/118096 of its clamped value |
| Ternary.EncodeAgain | kernel/src/ternary.rs:128-156 | Encoding a decoded weight gives the same bytes |
| Ternary.EncodeBytes | kernel/src/ternary.rs:128-143 | The two bytes are the nearest level's remainder and quotient by 243 |
| Ternary.DecodeBytes | kernel/src/ternary.rs:146-156 | Any two bytes decode, each through its remainder by 243 |
| Ternary.PackTernary | kernel/src/ternary.rs:89-99 | Padding and chunking pack five digits to a byte |
| Ternary.UnpackTernary | kernel/src/ternary.rs:106-117 | Repeated division reads the digits back |
| Ternary.EncodeWeight | kernel/src/ternary.rs:128-143 | Two bytes per weight, at the nearest level |
| Ternary.DecodeWeight | kernel/src/ternary.rs:146-156 | The running power of three sums the digits |
| WeightStore.NameRoundTripIff | kernel/src/ata.rs:153-165 | A UTF-8 name comes back from its field if and only if it is at most sixteen bytes without a zero byte |
| WeightStore.LoadAfterSave | kernel/src/ata.rs:175-222 | Loading what was saved gives the first fourteen entries in order, each as its fields hold it |
| WeightStore.LoadExact | kernel/src/ata.rs:175-222 | With names that fit, every name comes back exactly and every weight within half a level |
| WeightStore.SaveAgain | kernel/src/ata.rs:175-222 | Saving what was loaded writes the identical sector |
| WeightStore.HeaderLayout | kernel/src/ata.rs:175-187 | The saved sector's first eight bytes |
| WeightStore.EntryLayout | kernel/src/ata.rs:188-196 | Where each kept entry's names and weight lie; zeros after the last |
| WeightStore.LoadsIff | kernel/src/ata.rs:204-211 | There is something to load exactly when the sector starts with the magic number |
| WeightStore.LoadReads | kernel/src/ata.rs:204-222 | Any sector that can be loaded gives as many entries as it counts, fourteen at most, each from its own 34 bytes |
| SharedDisk.SavingKeepsFiles | kernel/src/ata.rs:175-196 | Saving weights keeps the tree and what every path reads |
| SharedDisk.CallKeepsWeights | kernel/src/fs.rs:285-453 | Every filesystem call, at any depth, keeps the saved weights |
| SharedDisk.RunKeepsWeights | kernel/src/fs.rs:285-453 | Weights saved before a run of filesystem calls that keeps the tree are loaded after it |
| WeightStore.Store.SaveWeights | kernel/src/ata.rs:175-196 | The sector filled field by field; nothing to save is an error |
| WeightStore.Store.LoadWeights | kernel/src/ata.rs:204-222 | The entry loop, or none without the magic |
| Shell.SessionKeeps | kernel/src/shell.rs:528-605 | Over every session of canonical commands, none of which succeeds in allocating under exactly 32 directories, the current directory is always an existing directory |
| Shell.CmdKeepsIff | kernel/src/shell.rs:528-605 | Exactly which canonical commands keep the tree well formed and the current directory resolvable: all but such an allocation |
| Shell.CdGoes | kernel/src/shell.rs:528-554 | A canonical cd goes to the resolved path exactly when it is a directory, and otherwise stays |
| Shell.CdThereAndBack | kernel/src/shell.rs:535-539 | A successful cd to a child and then .. is back where it started |
| Shell.CdRootAndUp | kernel/src/shell.rs:535-541 | cd without a name or to '/' goes to the root, cd .. drops the last component, no cd changes the disk |
| Shell.MkdirThenCd | kernel/src/shell.rs:528-587 | A directory just made by a canonical name can be entered by it |
| Shell.CallKeepsCwdIff | kernel/src/shell.rs:588-605 | Exactly when a filesystem call leaves the current directory in place: unless it is an rmdir whose path names that very directory, by whatever spelling, and the directory is empty |
| Shell.DirStaysIff | kernel/src/fs.rs:438-453 | After a successful call an existing directory still exists, unless the call is an rmdir of exactly it; so an ancestor cannot go |
| Shell.AliasRemovesCwd | kernel/src/shell.rs:597-605 | From directory x, rmdir //x passes the check that protects the current directory, and the current directory is gone exactly when it was empty |
| Shell.AliasSession | kernel/src/shell.rs:528-605 | Concrete session on any blank disk: mkdir a, cd a, rmdir //a ends in a directory that does not exist |
| Shell.RmdirOkIff | kernel/src/fs.rs:438-453 | rmdir succeeds exactly when its path has no empty component, at most 32 directory components, and names an empty directory |
| Shell.ResolvedSplit | kernel/src/shell.rs:40-51 | A canonical argument resolves to the current components followed by its own, or to its own if it starts with '/' |
| Shell.ParseCanonical | kernel/src/fs.rs:214-224 | A canonical path parses into all components but the last, and the last |
| Shell.Prompt.CdCommand | kernel/src/shell.rs:528-554 | cd pops, returns to the root, or moves only to a path that resolves |
| Shell.Prompt.RmdirCommand | kernel/src/shell.rs:588-605 | rmdir refuses the current directory's own path string and otherwise asks the filesystem |

## Left out

- ATA handshakes and error bits, NIC, PCI, RTC, mouse, keyboard, speaker, GDT and IDT layout: hardware behaviour is outside the model.
- Failed sector reads of a present sector: `load_dir_at` turns them into empty tables, which would void every filesystem statement.
- u32 overflow of sector arithmetic in the occupancy scan: reachable only from a directory table that is not well formed.
- fs::list's text rendering of names (lossy UTF-8): listings carry the sixteen raw bytes.
- Single-step equality of File buffers with later disk contents: files opened twice keep independent buffers, as in the code.
- The byte limits usertest.rs puts on single read and write calls: the model's calls take any length.
- Saved general-purpose registers across a fork's first resumption: the model carries instruction pointer, stack pointer and result register.
- The frame-allocator lock held while an ELF program runs, and interrupts arriving during an excursion: each excursion is uninterrupted.
- A page fault with no active process: it halts the kernel.
- Contents of page-table frames and page permissions: an address space is a map from page to frame, page-table frames are counted but not filled.
- Memory written by a creation that fails half way: those frames belong to no process and are never handed out again.
- Physical frames of dropped processes: never reclaimed by the code either.
- f32 rounding, expf and roundf: reals, an abstract decay and exact rounding to nearest.
- Wrap-around of u32 fire counts and u64 tick counts: unbounded here.
- Fairness of the scheduler between slots: only progress of the bank as a whole is stated.
- Task counters, worker bodies and live_tasks reporting: no property beyond their own text.
- Text rendering, the other shell commands, boot self-tests, the DSL line parser and seeding of the fixed network: they only call what is modelled.
- FsRuns.RunRefines: leaves out runs in which a call succeeds in allocating under exactly 32 directories; RunKeepsIff and DeepFileOverwritten show that these break the tree and lose data.
- DescriptorFiles.RunFilesKept: leaves out runs with such a write-back, which DiskKeptIff shows to be exactly those that break the disk.
- Shell.SessionKeeps: leaves out sessions with such a command, which CmdKeepsIff shows to be exactly those that break it.
- Heap growth: the heap mark is the only effect of sbrk, since heap pages are mapped when a process is created.
