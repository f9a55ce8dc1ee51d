# The MuOS kernel, modelled and proved

MuOS is a small 32-bit kernel: a frame allocator, copy-on-write address spaces, a journalled file
system, FAT, processes with signals, a TCP sender and an ELF loader. This project describes the parts
of it that carry the most state as a model in Dafny and proves what they are for.

Every subsystem is described twice. The simple form is a value with one function per operation; the
theorems are about it. The second form is a class with the source's own fields and loops (bit words,
page-table entries in physical memory, sectors on a drive, ring buffers, the block list threaded through
the heap), and each of its methods is proved to have exactly the effect of its function. Where the code
does not do what it is for, the model does what the code does: a lemma gives an input that fails, and an
if-and-only-if lemma gives the condition under which it works. These are collected under "Findings".

| files | what they describe |
|---|---|
| Frames, FrameAllocator | the frame bitmap, reference counts and boot map of `src/mm.c` |
| Paging, CowOps, CowFork, Cow, CowWrite, CowSpaces, CowReap, CowLaunch | page tables, fork, write faults, launch, exit |
| CowRuns, CowDetach, CowConserve, CowReach, CowSeal, CowTrampoline, CowWitness | exec, and whole runs of the address-space operations |
| UserPages, AddressSpaces | the same operations on page-table entries in memory |
| Sectors, Journal, MufsJournal | the drive, crashes, and the metadata journal of `src/fs.c` |
| Records, Paths, Namespace, Mufs, MufsTree, MufsDisk, MufsRuns, FileSystem | the MuFS file system and its disk image |
| MufsContents, MufsCrash | the bytes of its files; crashes inside its operations, and the mount after them |
| Descriptors, DescriptorOps, DescriptorRuns, DescriptorPicture, PipeSlots, FdTables, Pipes | descriptor tables, open counts, pipes |
| Fat, FatVolume | cluster chains |
| Heap, HeapLive, KernelHeap | kmalloc and kfree |
| Processes, SchedRuns, SwitchRuns, ProcessLife, ForkWait, Scheduler | the process table, scheduling, context switches, and what fork and wait return |
| Signals, SignalRuns, SignalFrames | signal delivery and return |
| TcpSender, TcpRuns, TcpWindow, TcpSocket | the sending half of TCP |
| PathWalk, Calendar | path normalisation; dates to seconds |
| Elf, ElfImage, ElfReloc, ElfTwoBases, ElfLoadTwice, ElfValues, ElfLoader | parsing, mapping and relocating ELF images |

Words are naturals below 2^32 with the wrap written out. Bytes are a newtype. Time, the contents of the
network, the memory map, the frame a table is allocated from and what user code does between two kernel
entries are parameters.

## Model

| member | source | states |
|---|---|---|
| Frames.AllocPageMeaning | src/mm.c:253-261 | a page is refused exactly when the free count is zero; otherwise the lowest clear frame is taken with count one and nothing else changes |
| Frames.AllocPagesMeaning | src/mm.c:274-296 | a run is refused exactly when no run of that many clear frames exists anywhere; otherwise the lowest one is taken and nothing else changes |
| Frames.UnrefMeaning | src/mm.c:43-51 | dropping a reference keeps the free count exact; a shared frame only loses one count, the last reference frees it, and on a free frame no flag changes |
| Frames.DoubleFree | src/mm.c:298-304 | freeing a freed block again changes nothing |
| Frames.AllocThenFree | src/mm.c:274-304 | taking a block and giving it back restores every flag and the free count |
| Frames.BootFrees | src/mm.c:131-167 | after the loop over the memory map a frame is free exactly when a usable region holds it above the kernel and below the top of memory; what boot reserves and allocates after that loop is not in it |
| Frames.BootCountExactIffApart | src/mm.c:131-167 | the count of that loop never falls short, and is exact if and only if no two usable regions overlap |
| Frames.BootMiscounts | src/mm.c:131-167 | a memory map with two overlapping regions for which the count is one too high |
| FrameAllocator.Allocator.AllocPage | src/mm.c:83-97 | the scan that skips full 32-bit words takes the same frame as a search of one flag at a time |
| FrameAllocator.Allocator.AllocPages | src/mm.c:274-296 | the search that resumes just past the first used frame finds the lowest run of all |
| FrameAllocator.Allocator.FreePages | src/mm.c:298-304 | on bit words and counts, the effect of dropping one reference of each frame |
| Frames.ReserveMeaning | src/mm.c:357-373 | a range of bytes is reserved exactly when every frame that holds one of them exists and is free, and then just those are taken |
| FrameAllocator.Allocator.ReserveRange | src/mm.c:357-373 | all or nothing: a range with a used frame in it is left alone |
| CowRuns.RunRefines | src/proc.c:76-110 | over every run of launches, forks, threads, stores, execs and exits, with the outcome of each given by the frames there were, every space reads as if all pages had been copied at fork: what succeeded has its whole effect, what failed has none; the invariant holds in every state |
| CowRuns.StepRefines | src/mm.c:515-533 | the same for one operation, with the exact condition under which it succeeds |
| CowDetach.DetachIff | src/mm.c:552-562 | exec's detach succeeds if and only if the free frames cover the protected pages whose frame another space maps; then every mapped page is writable in a frame no other space maps, unshared pages have not moved and one frame went for each shared one; when it fails no frame is left; no page of any space reads differently |
| CowDetach.OwnStores | src/isr.c:60-66 | so after a detach a store to a mapped page never lacks a frame |
| CowReap.ForkKeepsIff | src/mm.c:473-496 | a fork leaves a well-formed kernel if and only if fewer than two or at least five frames are free, and succeeds exactly in the second case |
| CowReap.ForkRefused | src/mm.c:473-496 | with fewer than two frames a fork fails and nothing visible changes |
| CowReap.ForkBreaks | src/mm.c:483-486 | with two to four frames free the clean-up of the failed clone frees page tables of the parent |
| CowReap.ReapKeeps | src/proc.c:24-32 | reaping keeps the invariant and every page of the spaces that remain; a space goes exactly with its last user |
| CowWrite.UserStoreIsolated | src/isr.c:60-66 | a user store changes one byte of one page of its own space and no page of any other, or fails and changes nothing, and which of the two is decided by a condition on the entry, the count and the free frames |
| CowWrite.KernelStoreIsolatedIff | src/proc.c:609-621 | the kernel's store for a process is invisible to every other space if and only if the page is private already or a frame is free to copy it to |
| CowWrite.WritableKeeps | src/mm.c:515-533 | making a page private keeps the invariant, and succeeds exactly when it is mapped and private or copyable |
| CowLaunch.LaunchWorksIff | src/proc.c:43-72 | a program can be launched if and only if a free block of pages and five more frames exist |
| CowLaunch.LaunchRefused | src/proc.c:43-72 | a launch that fails gives everything back |
| CowLaunch.LaunchedKeeps | src/mm.c:405-449 | a launch keeps the invariant; the last frame of its block joins the frames no space holds |
| CowLaunch.LaunchedViews | src/mm.c:405-449 | the new space reads as zeroes, every other space as before |
| CowConserve.ForkReapConserves | src/proc.c:76-110 | fork, any stores and execs of parent and child, then the end of the child: the free count is what it was, less one frame for each page the parent moved off a frame that was shared before the fork |
| CowConserve.ForkReapExact | src/proc.c:76-110 | with no page shared before the fork the free count comes back exactly |
| CowConserve.LaunchReapLeaks | src/mm.c:405-449 | launching a program and reaping it costs exactly one frame, always |
| CowReach.BootInv | src/mm.c:99-222 | a kernel with an exact free count, frame 0 taken and no process satisfies the invariant, whatever else boot has reserved |
| CowReach.EntryCount | src/mm.c:28-36 | a mapped frame's count is the number of page-table entries that map it |
| CowReach.ReachableCounts | src/mm.c:28-51 | in every state reachable from boot a mapped frame is used and counted once per entry, a writable entry is the only one, and the free count is exact |
| CowSeal.RunSeals | src/proc.c:35-41 | over every run with stores below it, the trampoline of every space stays mapped read-only |
| CowTrampoline.RunCode | src/proc.c:35-41 | and over every run each space's own trampoline page still holds the code that returns from a handler, whatever is stored, forked, copied or reaped |
| CowSeal.TrampolineSealedIff | src/proc.c:609-621 | making a page writable leaves the trampoline read-only if and only if the page is not the trampoline itself |
| CowWitness.ForkBreaksReachably | src/mm.c:483-486 | from boot, one launch that leaves three frames, then a fork: the result is not well formed |
| CowWitness.KernelStoreLeaksReachably | src/proc.c:609-621 | from boot, one launch and one fork that use every frame: a kernel store for the parent shows in the child |
| CowWitness.LeakReachably | src/mm.c:405-449 | from boot, a launch and an exit: no process is left and one frame is gone |
| UserPages.Machine.MakeWritable | src/mm.c:515-533 | on entries in memory, for every page of the window and the trampoline: the effect of the copy-on-write function |
| UserPages.Machine.WriteProtect | src/mm.c:535-542 | the loop over the window protects every present entry |
| UserPages.Machine.ReleasePages | src/mm.c:544-550 | the loop drops one reference per present entry |
| UserPages.Machine.CloneUserPd | src/mm.c:473-496 | the clone loop, including its clean-up when frames run out |
| UserPages.Machine.CreateUserPd | src/mm.c:405-449 | the loop that allocates tables on demand builds the directory of the specification, and frames in use are untouched when it fails |
| AddressSpaces.Kernel.Fork | src/proc.c:76-110 | on the kernel's tables: the fork of the specification |
| AddressSpaces.Kernel.ShareSpace | src/proc.c:119-127 | a thread takes one more share of the space |
| AddressSpaces.Kernel.ReapProcess | src/proc.c:778-790 | on the kernel's tables: the reap of the specification |
| AddressSpaces.Kernel.DetachPages | src/mm.c:552-562 | on the kernel's tables, the loop that stops at the first page it cannot copy: the detach of the specification, whose meaning is CowDetach.DetachIff |
| AddressSpaces.Kernel.UserWrite | src/isr.c:60-66 | a store retried after its write fault |
| AddressSpaces.Kernel.KernelWrite | src/proc.c:349-353 | a store through the kernel's pointer into user memory |
| AddressSpaces.Kernel.Start | src/proc.c:43-72 | on the kernel's tables: the launch of the specification |
| Sectors.Drive.ReadBytes | src/ata.c:152-173 | the bytes asked for, across sector boundaries, and the error codes |
| Sectors.Drive.WriteBytes | src/ata.c:175-201 | the bytes are spliced into the image, and after each sector written the disk shows exactly that much of the request |
| Journal.RecoveredIs | src/fs.c:714-732 | a mount reads the copies when the header is valid and the tables otherwise, and leaves a clear header |
| Journal.ReplayCrash | src/fs.c:714-732 | wherever a replay stops, the next mount reads the same tables |
| Journal.RestartsRecover | src/fs.c:714-732 | however often the replay is interrupted, the mount that completes reads the same tables |
| Journal.CommitDone | src/fs.c:650-687 | a completed commit puts the new tables in place and clears the header |
| Journal.CommitCrash | src/fs.c:650-687 | wherever a commit stops, at any sector of any write, the next mount reads the old tables, the journal copy or the new tables |
| Journal.ShadowReached | src/fs.c:650-687 | one of those crashes does lead to the journal copy |
| Journal.AtomicIff | src/fs.c:650-687 | for any layout, a commit is atomic if and only if the copy, as its regions overlap, reads as the new or the old tables |
| Journal.DisjointAtomic | src/fs.c:650-732 | with regions that do not overlap every commit is atomic, through any number of interrupted replays |
| MufsJournal.MufsShadow | src/fs.c:599-605 | with the real constants the copy's last 64 bytes of file table are the first 64 of the directory table |
| MufsJournal.MufsShadowSlots | src/fs.c:599-605 | only the last file slot is affected |
| MufsJournal.MufsAtomic | src/fs.c:650-732 | with the real layout file slots 0 to 14 and every directory recover all old or all new, through any crashes |
| MufsJournal.MufsAtomicIff | src/fs.c:599-605 | the last slot recovers too if and only if its tail equals the head of the directory table, or nothing changes |
| MufsJournal.LifeStory | src/fs.c:650-732 | over any sequence of commits, crashes and mounts the tables are always those of some commit or its journal copy |
| MufsJournal.Volume.PersistMeta | src/fs.c:650-687 | the writes performed are the commit, and every image they show is one of its crash images |
| MufsJournal.Volume.ReplayJournal | src/fs.c:714-732 | the writes performed are the replay, and every image they show is one of its restarts |
| Records.FileRoundTrip | src/fs.c:617-638 | a file record decodes to what was encoded |
| Records.DirRoundTrip | src/fs.c:617-638 | a directory record decodes to what was encoded |
| Records.TableRoundTrip | src/fs.c:650-687 | every slot of a written table reads back |
| Paths.SplitParent | src/fs.c:39-59 | the scan accepts exactly the canonical paths and cuts at the last slash |
| Namespace.AncestorExists | src/fs.c:91-138 | if every name has its parent, every proper prefix of a name is a directory |
| Namespace.NoCollision | src/fs.c:326-377 | renaming a directory sends different names to different names |
| Namespace.MoveKeepsTree | src/fs.c:326-377 | a rename of a directory keeps names unique and parents present |
| Namespace.MoveLookup | src/fs.c:326-377 | looking up a moved name finds the slot the old name found |
| Namespace.MoveNothingElse | src/fs.c:326-377 | a path that is no moved name leads nowhere |
| MufsTree.CreateKeeps | src/fs.c:91-116 | creation fails exactly when the path is not free or no slot is; otherwise one name is added and the tree is kept |
| MufsTree.MkdirKeeps | src/fs.c:118-138 | the same for directories |
| MufsTree.RmdirKeeps | src/fs.c:140-167 | a directory goes exactly when it is empty, and no other name with it |
| MufsTree.DeleteKeeps | src/fs.c:248-266 | the name goes at once; slot and bytes stay exactly while something has the file open |
| MufsTree.UnrefKeeps | src/fs.c:282-293 | closing keeps every name, and the slot of an unlinked file goes with the last close |
| MufsTree.RenameKeeps | src/fs.c:295-324 | a rename changes one name and no content, or nothing |
| MufsTree.RenameDirMeaning | src/fs.c:326-377 | renaming a directory is prefix substitution on every name, or nothing, and the condition for either |
| MufsTree.RenameDirContents | src/fs.c:326-377 | what a path led to, its moved path leads to, bytes included |
| MufsRuns.StepKeepsIff | src/fs.c:91-495 | an operation keeps memory and disk in agreement and the names a tree if and only if it is not a write that exposes stale sectors between the old end and itself |
| MufsRuns.ContiguousClean | src/fs.c:485-495 | a write that starts at or before the end of the file never does |
| MufsRuns.RunKeeps | src/fs.c:91-495 | so in every state of every run without such a write |
| MufsRuns.WriteAtIff | src/fs.c:485-495 | a write at an offset keeps disk and memory in agreement if and only if the sectors between the old end and the write hold what memory holds |
| MufsRuns.RemountSame | src/fs.c:707-801 | a remount of a volume in order reproduces names, attributes and contents |
| MufsRuns.RunThenRemount | src/fs.c:707-801 | so at any point of such a run a remount reproduces the file system |
| MufsRuns.FormatOk | src/fs.c:707-801 | formatting any disk gives a volume in order |
| MufsRuns.GapWriteBreaks | src/fs.c:485-495 | a disk, a new file and one byte written at 1024: disk and memory differ |
| FileSystem.Store.CreateFile | src/fs.c:91-116 | on slots in an array and bytes on the drive: the create of the specification |
| FileSystem.Store.MakeDir | src/fs.c:118-138 | the mkdir of the specification, persisted |
| FileSystem.Store.RemoveDir | src/fs.c:156-167 | the rmdir of the specification, persisted |
| FileSystem.Store.DeleteFile | src/fs.c:248-266 | the delete of the specification, persisted |
| FileSystem.Store.UnrefFile | src/fs.c:282-293 | the close of the specification, persisted when the slot goes |
| FileSystem.Store.RenameFile | src/fs.c:295-324 | the rename of the specification, persisted |
| FileSystem.Store.RenameTree | src/fs.c:326-377 | the two loops over the slots are the prefix substitution |
| FileSystem.Store.WriteFile | src/fs.c:228-237 | on slots and drive: the whole-file write of the specification, whose bytes are MufsContents.WriteGives |
| FileSystem.Store.WriteFileAt | src/fs.c:485-495 | the write of the specification (MufsContents.WriteAtGives), with the sectors it sends to the disk |
| FileSystem.Store.ReadFileAt | src/fs.c:475-483 | the bytes inside the file, as many as asked for and there |
| FileSystem.Store.TruncateFile | src/fs.c:440-450 | the truncation of the specification (MufsContents.TruncateGives) |
| FileSystem.Store.Load | src/fs.c:733-801 | reading the tables and bodies gives the remount of the specification |
| MufsContents.WriteGives | src/fs.c:228-237 | a write makes the file the data, cut to the maximum, and changes no other slot |
| MufsContents.WriteAtGives | src/fs.c:485-495 | a write at an offset: those bytes are the data, the file's other bytes stay, and a gap shows what the buffer held |
| MufsContents.TruncateGives | src/fs.c:440-450 | the kept prefix is unchanged and a grown tail is zero |
| MufsContents.ReadAtGives | src/fs.c:475-483 | byte k of a read is byte offset + k of the file, as many as are asked for and there, and only the access time changes |
| MufsContents.CreateGives | src/fs.c:91-116 | a new file takes the lowest free slot and is empty, root's and not open |
| MufsContents.AttrGives | src/fs.c:545-570 | setting attributes changes neither name nor bytes |
| MufsContents.SlackHiddenIff | src/fs.c:485-495 | what a write leaves visible depends only on what was visible if and only if it does not start beyond the end |
| MufsContents.CutByteReturns | src/fs.c:436-450 | a byte written, cut off, and visible again after a write one further on |
| MufsContents.BytesLast | src/fs.c:91-495 | over every run a file in use keeps its bytes through every operation that does not write or truncate it: others' writes, renames, its own unlinking |
| MufsContents.ReadYourWrites | src/fs.c:228-237 | after a write and any such run a read returns the data, from memory and, after a remount, from the disk |
| MufsContents.ReadYourWritesAt | src/fs.c:485-495 | the same of the bytes of a write at an offset |
| MufsContents.RemountOk | src/fs.c:707-801 | a remounted volume is one the operations accept |
| MufsCrash.EffectIs | src/fs.c:91-495 | every operation changes the disk by at most one table commit followed by the sectors of one file, and these are what its step leaves |
| MufsCrash.CrashThenRemount | src/fs.c:650-801 | wherever an operation stops, at any sector of its commit or of its file, and however many mounts are interrupted after it, the mount that completes shows all directories and file slots 0 to 14 as before or all as after, and every other file with its bytes |
| MufsCrash.RunCrashRemount | src/fs.c:650-801 | so at any point of any run without stale gaps |
| MufsCrash.TornSlot | src/fs.c:599-605 | on a formatted disk the first mkdir: a crash in its commit leaves the last file slot neither old nor new |
| DescriptorOps.Dup2Keeps | src/user.c:202-212 | dup2 keeps every count exact although it releases before it retains |
| DescriptorOps.SwitchKeeps | src/user.c:256-262 | a context switch loses no descriptor and invents none |
| DescriptorRuns.CreateFileKeeps | src/fs.c:91-116 | a new file never takes a slot that a descriptor of any process names |
| DescriptorRuns.ForkReapBalances | src/user.c:264-274 | fork and then reaping the child gives every open count and writer count back |
| DescriptorRuns.StepKeeps | src/user.c:93-274 | every operation keeps every count equal to the descriptors that name the file or pipe |
| DescriptorRuns.RunKeeps | src/user.c:93-274 | in every state of every run the counts are exact and every open descriptor still names the file it was opened on |
| DescriptorRuns.StartInv | src/user.c:103-116 | a mounted file system with nothing open satisfies the invariant |
| DescriptorRuns.ReachableKeeps | src/user.c:93-274 | so the above holds of every run from there |
| DescriptorPicture.CloseMeans | src/user.c:233-239 | close frees that descriptor, leaves every other one of every table, and takes one from the count of the file or pipe it named and from no other; out of range it does nothing |
| DescriptorPicture.OpenMeans | src/user.c:118-124 | open gives the lowest free descriptor from 3 up, on the slot the path leads to, or -1 exactly when there is no such file or descriptor |
| DescriptorPicture.DupMeans | src/user.c:192-200 | dup gives the lowest free descriptor a copy of the entry, or -1 exactly when the argument is not open or none is free |
| DescriptorPicture.Dup2Means | src/user.c:202-212 | dup2 succeeds exactly when the source is open and the target in range, and then copies that entry |
| DescriptorPicture.PipeMeans | src/syscall.c:2251-2268 | both ends of an unused pipe on the two lowest free descriptors, or nothing |
| DescriptorPicture.StepMeans | src/user.c:93-274 | every operation changes the tables as it would plain tables without counts or a live copy |
| DescriptorPicture.RunMeans | src/user.c:93-274 | and so does every step of every run |
| PipeSlots.SlotsOnlyGo | src/pipe.c:20-29 | over every run the pipe slots in use are those at the start and one more for each pipe call, until all eight are; nothing gives one back |
| PipeSlots.PipesRunOut | src/pipe.c:20-29 | so after eight calls no process gets a pipe again, whatever was closed and whoever exited |
| PipeSlots.PipeWorksIff | src/syscall.c:2251-2268 | a pipe call works if and only if a slot was never used and two descriptors are free |
| PipeSlots.PipeLeaks | src/syscall.c:2251-2268 | a pipe made and both ends closed: the tables are as before and one slot is gone |
| FdTables.Tables.Dup2Fd | src/user.c:202-212 | on the descriptor arrays: the dup2 of the specification |
| FdTables.Tables.DupFd | src/user.c:192-200 | on the descriptor arrays: the dup of the specification |
| FdTables.Tables.CloseFd | src/user.c:233-239 | on the descriptor arrays: the close of the specification, whose meaning is DescriptorPicture.CloseMeans |
| FdTables.Tables.SwitchTo | src/user.c:256-262 | saving the live table and loading another, as specified |
| FdTables.Tables.ForkTable | src/proc.c:135-165 | retaining every entry of a saved table |
| FdTables.Tables.ReapTable | src/proc.c:155-165 | releasing every entry of a saved table |
| Pipes.PipeBuffer.Read | src/pipe.c:52-63 | the oldest bytes leave in order, as many as there are |
| Pipes.PipeBuffer.Write | src/pipe.c:65-77 | as many bytes as fit are appended in order |
| Fat.PickMeaning | src/fat.c:282-298 | allocation fails exactly when nothing is free, and otherwise takes the first free cluster round from the hint |
| Fat.OtherChain | src/fat.c:624-642 | a chain that was there shares no cluster with a new one and is unchanged |
| Fat.FreeMeaning | src/fat.c:300-307 | freeing clears the first 4096 clusters of a chain and no others |
| Fat.RollbackIff | src/fat.c:300-307 | rolling a new chain back restores every link if and only if it has at most 4096 clusters |
| Fat.RollbackLeaves | src/fat.c:300-307 | a chain of 4097 clusters that is not rolled back |
| Fat.WalkMeaning | src/fat.c:243-258 | walking a chain reads its clusters in order, as far as size and guard allow |
| FatVolume.ClusterCount | src/fat.c:624-642 | a stored file takes its length divided by the cluster size, rounded up |
| FatVolume.ReadBack | src/fat.c:243-258 | reading a file just written gives its bytes back, up to 4096 clusters |
| FatVolume.OtherFiles | src/fat.c:624-642 | files stored before keep chain and bytes |
| FatVolume.Volume.SetFat | src/fat.c:268-280 | every copy of the table gets the entry |
| FatVolume.Volume.AllocCluster | src/fat.c:282-298 | the scan from the hint to the end and round takes the cluster of the specification |
| FatVolume.Volume.FreeChain | src/fat.c:300-307 | the guarded loop clears what the specification says |
| FatVolume.Volume.WriteChain | src/fat.c:624-642 | either a chain holding the content, or no cluster was left, and then up to 4096 clusters the links are as before |
| FatVolume.Volume.ReadFile | src/fat.c:243-258 | the loop reads what the walk reads |
| Heap.MallocKeeps | src/kheap.c:47-75 | allocation keeps the blocks tiling the heap with no two free neighbours, and fails exactly when no free block is big enough |
| Heap.FreeKeeps | src/kheap.c:77-109 | release keeps both |
| Heap.FreeUndoesMalloc | src/kheap.c:77-109 | freeing what was just allocated restores the block list |
| Heap.Disjoint | src/kheap.c:47-75 | payloads of different blocks do not overlap and lie in the heap |
| HeapLive.MallocGives | src/kheap.c:47-75 | the first block that fits gives a live block of the units asked for, or one more if a single unit would be left; nothing was live there and every other live block stays |
| HeapLive.FreeTakes | src/kheap.c:77-109 | that block is no longer live and every other one is; freeing twice changes nothing |
| KernelHeap.PayloadKeeps | src/kheap.c:77-109 | a client that writes its own payload and forges no header leaves the heap sound |
| KernelHeap.KHeap.Alloc | src/kheap.c:47-75 | on headers in memory: the allocation of the block list |
| KernelHeap.KHeap.Free | src/kheap.c:77-109 | on headers in memory: the release of the block list; any other pointer changes nothing |
| KernelHeap.KHeap.Serve | src/kheap.c:47-109 | any run of allocations, releases and client writes is the same run on the block list |
| SchedRuns.StepKeeps | src/proc.c:683-790 | every scheduling event keeps at most one process running, the current one, and every parked process resumable |
| SchedRuns.ReachableKeeps | src/proc.c:167-182 | so does every run from boot |
| SchedRuns.TickSwitches | src/proc.c:683-704 | a timer tick passes the processor on whenever another process is ready |
| SchedRuns.FairRun | src/proc.c:278-292 | while a process stays ready the processor changes hands at most as often as there are slots before it, and eight times more per exit, reap or launch |
| SchedRuns.WaitsOrRuns | src/proc.c:278-345 | no event takes a ready process out of the queue but loading it or reaping it |
| SchedRuns.RunsSoon | src/proc.c:278-292 | a ready process that is not reaped becomes the current one once the processor has changed hands more often than there are slots before it, and eight times more per exit, reap or launch |
| SwitchRuns.ParkedRun | src/proc.c:294-345 | while others run, in any interleaving, a parked process keeps its registers, TLS, heap limits and descriptors |
| SwitchRuns.Preempted | src/proc.c:294-345 | preemption, any interleaving, then resumption is invisible |
| SwitchRuns.Slept | src/proc.c:713-745 | a blocking call gives back everything but the result in eax |
| SwitchRuns.RestoredExactly | src/proc.c:318-345 | the registers come back unchanged exactly when they were a user frame |
| SwitchRuns.RestoredOnce | src/proc.c:318-345 | being switched out again changes nothing more |
| ForkWait.ChildReturnsZero | src/syscall.c:2741-2781 | whatever runs in between, the child of a fork starts with its parent's registers, descriptors, directory, break and TLS, and zero in eax |
| ForkWait.ForkParks | src/syscall.c:2741-2781 | it has a new pid, its parent's as ppid, and no other process is changed |
| ForkWait.ThreadStarts | src/syscall.c:2787-2852 | a thread starts on its own stack and TLS, with eax zero |
| ForkWait.LaunchRuns | src/user.c:686-790 | a launched program runs at once in the lowest free slot, with the registers and descriptors given, from the root directory, with a break above its image |
| ForkWait.WaitReturnsPid | src/proc.c:355-380 | a parent blocked in wait4 resumes, whatever runs in between, with the pid of the child that exits in eax and all else it had |
| ForkWait.RouseReturns | src/proc.c:713-745 | a sleeper woken with a result resumes with it |
| ProcessLife.SleepStepIff | src/proc.c:713-745 | a sleeper goes on sleeping, its record unchanged, if and only if the event does not wake or reap it |
| ProcessLife.SleepLasts | src/proc.c:713-745 | so over every run it does not run before it is woken |
| ProcessLife.BlockSleeps | src/proc.c:713-745 | a blocking call that gives up the processor leaves the caller asleep in the way it asked for |
| ProcessLife.ExitDies | src/proc.c:747-776 | a process that exits is dead, whoever runs next |
| ProcessLife.DeadStays | src/proc.c:747-776 | over every run it stays dead and never runs again until it is reaped |
| ProcessLife.ReapFrees | src/proc.c:778-790 | reaping frees the slot and touches no other process |
| ProcessLife.PidsUnique | src/proc.c:215-222 | in every state reachable from boot no two processes have the same pid |
| ProcessLife.AnonFresh | src/user.c:372-382 | an anonymous mapping is page-aligned, above all handed out before and below the stack, and refused exactly when there is no such room |
| ProcessLife.BreakMoves | src/user.c:411-415 | the break goes where it is told between its base and the stack, and nowhere else |
| Scheduler.Cpu.PickNext | src/proc.c:278-292 | the scan from the slot after the current one picks the one the specification picks |
| Scheduler.Cpu.SchedTick | src/proc.c:683-704 | the tick of the specification on the process table |
| Scheduler.Cpu.BlockCurrent | src/proc.c:713-745 | the blocking call of the specification |
| Scheduler.Cpu.ExitCurrent | src/proc.c:747-776 | the exit of the specification |
| Scheduler.Cpu.WakeParentOf | src/proc.c:355-380 | waking the parent, as specified |
| Scheduler.Cpu.ForkCurrent | src/syscall.c:2741-2781 | the process-table half of fork |
| Scheduler.Cpu.ReapProc | src/proc.c:778-790 | the reap of the specification |
| Scheduler.Cpu.LoadProc | src/proc.c:318-345 | the load of the specification |
| Signals.DeliverTakes | src/proc.c:512-577 | the loop takes the lowest ready signal that does something and drops the ready ones below it |
| Signals.DeliverQuiet | src/proc.c:512-577 | with nothing to act on, the ready signals are dropped and nothing else happens |
| Signals.DeliverPending | src/proc.c:512-577 | delivery leaves blocked signals pending and adds none |
| SignalRuns.RunStacked | src/proc.c:541-603 | along every run of a process whose code leaves them alone, saved frames stay nested and intact |
| SignalRuns.ReturnRestores | src/proc.c:579-603 | every return restores the registers of the delivery it matches, whatever was nested in between |
| SignalRuns.NormalExactly | src/proc.c:579-603 | the registers come back unchanged exactly when flags and selectors were those of user mode |
| SignalRuns.HandlerRuns | src/proc.c:512-577 | the lowest ready signal that does something: its handler runs, with eip at it, eax and the argument its number, the return address its restorer or the trampoline, and the twelve registers saved above, exactly if it has one, fewer than four are active and the stack is in the window; else the process ends with the code stated |
| SignalRuns.CaughtRuns | src/proc.c:490-501 | a handler set and then its signal: that handler runs and returns where it was told |
| SignalRuns.BlockedThenRuns | src/syscall.c:2679-2701 | a signal sent while blocked does nothing, and is acted on once unblocked |
| SignalRuns.MaskDecides | src/syscall.c:2679-2701 | which signals are ready after each kind of mask change, signal by signal |
| SignalRuns.ActionPending | src/proc.c:490-501 | a new action drops the pending signal exactly if it is to be ignored or default |
| SignalRuns.ChildCatches | src/proc.c:428-437 | a child inherits handlers and mask, not pending signals or frames |
| SignalRuns.BlockedWaits | src/proc.c:512-577 | a blocked pending signal stays pending until unblocked or its action is reset |
| SignalRuns.NeverCaught | src/proc.c:490-501 | in every state of every process of every line of forks SIGKILL and SIGSTOP are neither blocked nor caught |
| SignalRuns.KillTakes | src/proc.c:512-577 | a pending SIGKILL is never lost; it ends the process unless the handler of a lower signal runs first |
| SignalRuns.FrameInsideIff | src/proc.c:541-563 | the whole handler frame stays inside the window if and only if esp is at least USER_BASE + 56 and at most USER_SIGTRAMP |
| SignalRuns.FrameEscapes | src/proc.c:541-563 | for every esp that delivery accepts outside that range, a process whose delivery enters the handler and writes outside the window |
| SignalFrames.Task.DeliverSignals | src/proc.c:512-577 | on words in user memory: the delivery of the specification, whose meaning is SignalRuns.HandlerRuns |
| SignalFrames.Task.SigReturn | src/proc.c:579-603 | on words in user memory: the return of the specification |
| SignalFrames.Task.SetSigAction | src/proc.c:490-501 | the new action and the old handler, or 22 and no change |
| SignalFrames.Task.SigProcMask | src/syscall.c:2679-2701 | the new mask, never with SIGKILL or SIGSTOP |
| TcpSender.WrapOrder | src/net.c:646-668 | for positions less than half the number space apart the wrapped test is the real order |
| TcpSender.AckTracks | src/net.c:646-668 | an acknowledgement of a sent position retires exactly the segments that end by it |
| TcpSender.AckOld | src/net.c:646-668 | an old or repeated acknowledgement changes nothing |
| TcpRuns.ConnectedInv | src/net.c:908-930 | a new connection satisfies the invariant |
| TcpRuns.RunKeeps | src/net.c:621-697 | over every run of data asked for, acknowledgements of sent positions and timer ticks, the ring holds, byte for byte, the segments sent and not yet acknowledged |
| TcpRuns.WindowHeld | src/net.c:841-871 | whatever the peer acknowledges: a segment goes out exactly when something is left and the window is not full, what is then in flight fits the window, and no more would have fitted unless the segment is full or the last |
| TcpRuns.FlightHeld | src/net.c:841-871 | with a peer that acknowledges only what was sent, the bytes really outstanding after a send are at most the congestion window |
| TcpRuns.WireGapless | src/net.c:841-871 | retransmissions apart, what is sent has no gap and no overlap, from the first position to the last, on every trace |
| TcpRuns.FiveTries | src/net.c:672-697 | at most five retransmissions happen without a segment being retired |
| TcpRuns.ResendsOldest | src/net.c:672-697 | a retransmission repeats the oldest unacknowledged segment |
| TcpWindow.SlowStart | src/net.c:663-667 | over any trace without a time-out, n new acknowledgements below the threshold add n segments to the window |
| TcpWindow.Avoidance | src/net.c:663-667 | above it they add n shares MSS * MSS / cwnd, bounded from both sides |
| TcpWindow.OnePerWindow | src/net.c:663-667 | so a window's worth of them adds at most one segment |
| TcpWindow.TimeoutWindow | src/net.c:686-694 | a time-out goes back to one segment, sets the threshold from the window, counts the retry and sets the timer |
| TcpWindow.ThresholdIff | src/net.c:687 | the threshold is half the window but at least two segments if and only if the window was at most two segments or at least four |
| TcpWindow.ThresholdLow | src/net.c:687 | a run from a new connection after which it is one and a half segments |
| TcpWindow.BacksOff | src/net.c:689 | after n time-outs without news the interval is one second doubled n times, at most eight |
| TcpWindow.TimerSet | src/net.c:636-640 | which events set the timer, and to what |
| TcpWindow.TimerWaits | src/net.c:678 | a timer acts from its interval on and not before, across the wrap of the clock |
| TcpRuns.AckIff | src/net.c:646-668 | for every acknowledgement number the accounting stays true if and only if it is old or of something sent; otherwise no room is left |
| TcpRuns.BlockedStays | src/net.c:646-668 | and then nothing is sent, over any run, until an acknowledgement passes the window's start again |
| TcpRuns.HonestIsOld | src/net.c:646-668 | which no acknowledgement of something sent does |
| TcpRuns.AckBeyond | src/net.c:646-668 | just after connecting, an acknowledgement of one position too many blocks all sending |
| TcpSocket.Sock.SendSeg | src/net.c:621-642 | on the ring buffer: the segment kept by the specification |
| TcpSocket.Sock.OnAck | src/net.c:646-668 | on the ring buffer: the acknowledgement of the specification |
| TcpSocket.Sock.OnTimer | src/net.c:672-697 | the time-out of the specification, and the segment sent again |
| TcpSocket.Sock.SendData | src/net.c:841-871 | the loop is a trace of the sender, whatever its polls bring: each round asks for what is left, it polls only with a full window, the segments on the wire are those of the trace and carry the data in order; the result counts them, and is short only when the connection closed |
| PathWalk.NormalizeMeans | src/syscall.c:496-545 | a result exists exactly when every step fits, and is then the canonical form of the stack that path and directory mean |
| PathWalk.NormalizeTwice | src/syscall.c:496-545 | a canonical path normalises to itself from any directory |
| PathWalk.RootParent | src/syscall.c:496-545 | from any directory, dots and parents alone, however many, lead from the root to the root |
| PathWalk.ParentsEnough | src/syscall.c:496-545 | as many parents as there are components lead to the root |
| PathWalk.CwdCanonical | src/syscall.c:1974-1982 | over any sequence of changes the working directory stays canonical |
| PathWalk.WalkIs | src/syscall.c:496-545 | the walk succeeds exactly when every intermediate path fits |
| PathWalk.Normalizer.Run | src/syscall.c:496-545 | the loop over a character buffer computes the walk |
| Calendar.ClosedForm | src/rtc.c:33-40 | the closed form is the day-by-day count, for every year |
| Calendar.NextIsOneMore | src/rtc.c:33-40 | the next day has the next number, and 1 January 1970 has zero |
| Calendar.DaysOrder | src/rtc.c:33-40 | later dates have larger numbers |
| Calendar.EpochExactIff | src/rtc.c:42-51 | the 32-bit conversion is exact from 1970 to its last second and only there |
| Calendar.EpochIncreases | src/rtc.c:42-51 | and strictly increasing there |
| Elf.MapAgrees | src/elf.c:166-328 | for every byte string, loading gives the verdict that checking gives: the code of the first fault, or the entry and the highest segment end; the verdict is stated apart from the loop |
| Elf.CheckIs | src/elf.c:182-189 | the loader's tests of one segment, with wrapping arithmetic, find exactly the faults: more bytes in the file than in memory, a piece of the file missing, a place outside the sandbox, a bad alignment |
| Elf.MapInside | src/elf.c:166-247 | nothing outside the sandbox is written, even when loading fails half way |
| Elf.MapPlaces | src/elf.c:166-247 | every byte of a segment that no later one covers is the file's, or zero past its end |
| ElfReloc.DynamicInside | src/elf.c:119-160 | whatever the tables say, every relocation store falls inside the sandbox |
| ElfReloc.LoadInside | src/elf.c:249-262 | so does everything loading writes |
| ElfTwoBases.TablesAlike | src/elf.c:68-160 | the relocation tables applied at two bases leave memories that differ by the distance in the words that move and nowhere else |
| ElfLoadTwice.LoadTwice | src/elf.c:249-262 | a position-independent image that loads at one base loads at any other; entry and end move by the distance, and memory differs in just the words named by a relative relocation or by a symbol that is not absolute, each by the distance |
| ElfValues.LoadValues | src/elf.c:68-160 | a load that succeeds leaves the mapped image with each relocated word what its type asks for, in terms of the mapped image alone: A + bias, S + A, or S; every other byte is as mapped |
| ElfValues.RelocatesIff | src/elf.c:68-160 | tidy tables are accepted if and only if they lie in the window, the second is of type REL, and every entry names a word in the window, a known type and, where it uses one, a defined symbol |
| ElfValues.DynSays | src/elf.c:125-144 | of the dynamic table up to its end, or its first 256 entries, the last entry of each tag counts |
| ElfImage.ImageRoundTrip | src/elf.c:21-51 | an image written field by field in the order of the ELF32 structures is accepted and gives back its header and program headers |
| ElfImage.LowestAtBase | src/elf.c:53-65 | a position-independent image linked at or below the base has its lowest segment exactly there |
| ElfLoader.LoadBias | src/elf.c:53-65 | the loop over the program headers computes the bias |
| ElfLoader.ValidateImage | src/elf.c:295-328 | the checking loop, with its own tests, computes that verdict |
| ElfLoader.Loader.MapSegments | src/elf.c:166-247 | the copying loops, with their own tests, leave memory and result as mapping does |
| ElfLoader.Loader.ApplyRelArray | src/elf.c:68-116 | the relocation loop leaves memory and code as specified; ElfValues.LoadValues says which words |
| ElfLoader.Loader.ApplyDynamic | src/elf.c:119-160 | the scan of the dynamic table and both relocation tables |
| ElfLoader.Loader.LoadEx | src/elf.c:249-262 | mapping, then relocation, as specified |

## Findings

Places where the code does less than it is for. Each has a failing input and an exact condition.

- Clone out of frames, `src/mm.c:478-486`. The child directory starts as a copy of the parent's, so when a
  table cannot be allocated the clean-up frees the tables still shared with the parent. It happens exactly
  with two to four frames free: `CowReap.ForkKeepsIff`, `CowWitness.ForkBreaksReachably`.
- One page per launch, `src/mm.c:418`. The block has one page more than the loop maps, and nothing gives it
  back: `CowConserve.LaunchReapLeaks`, `CowWitness.LeakReachably`.
- A failed copy is ignored, `src/proc.c:609-616`. The kernel's pointer into user memory is used although the
  page could not be made private: `CowWrite.KernelStoreIsolatedIff`, `CowWitness.KernelStoreLeaksReachably`.
  The same function accepts the trampoline page: `CowSeal.TrampolineSealedIff`.
- Journal regions overlap, `src/fs.c:602-604`. The copy of the file table is 64 bytes longer than its room, so
  the last file slot can come back torn: `MufsJournal.MufsAtomicIff`, `MufsCrash.TornSlot`.
- Gap writes, `src/fs.c:485-495`. A write beyond the end sends only its own sectors to the disk, so the gap
  keeps what the disk held: `MufsRuns.WriteAtIff`, `MufsRuns.GapWriteBreaks`.
- The guard of `free_chain`, `src/fat.c:300-307`. It stops after 4096 clusters, so a longer chain is not rolled
  back: `Fat.RollbackIff`, `Fat.RollbackLeaves`.
- Pipes are never given back, `src/pipe.c:20-29`. Nothing clears the mark of a slot, so the ninth pipe call since boot
  fails, and every one after it: `PipeSlots.PipeWorksIff`, `PipeSlots.PipesRunOut`, `PipeSlots.PipeLeaks`.
- Cut bytes come back, `src/fs.c:436-438`. Bytes past the size of a file stay in its buffer, and a later write beyond
  the end shows them: `MufsContents.SlackHiddenIff`, `MufsContents.CutByteReturns`.
- The threshold after a time-out, `src/net.c:687`. A window between two and four segments is halved to less than the
  two segments of section 3.1 of RFC 5681: `TcpWindow.ThresholdIff`, `TcpWindow.ThresholdLow`.
- Unvalidated acknowledgement, `src/net.c:646-668`. An acknowledgement of something not sent is taken, and then
  nothing is sent until later acknowledgements, also of things not sent, bring the window's start round:
  `TcpRuns.AckIff`, `TcpRuns.BlockedStays`, `TcpRuns.HonestIsOld`, `TcpRuns.AckBeyond`.
- Overlapping memory map, `src/mm.c:131-167`. A frame in two usable regions is counted twice:
  `Frames.BootCountExactIffApart`, `Frames.BootMiscounts`.
- The handler frame, `src/proc.c:541-563`. Only the address of the saved words is checked, not the two words
  below it or the end: `SignalRuns.FrameInsideIff`, `SignalRuns.FrameEscapes`.

## Left out

- CowRuns.RunRefines: excludes a fork with two to four frames free and a kernel store to a shared page with none
  free, the two operations that misbehave; `CowReap.ForkKeepsIff` and `CowWrite.KernelStoreIsolatedIff` say
  exactly what they do there.
- CowRuns.StepRefines: the same two operations are excluded, for the same reason.
- CowReach.ReachableCounts: so are runs that contain one of them.
- CowLaunch.LaunchWorksIff: the record of the space always fits the kernel heap; a failure of kmalloc for it is not
  part of this model.
- CowConserve.ForkReapConserves: the block of frames for the kernel stack, taken by `src/proc.c:231` and given back by
  `src/proc.c:787`, is not part of this model; `Frames.AllocThenFree` is what that pair of calls does.
- CowConserve.LaunchReapLeaks: nor is the kernel stack here, for the same reason.
- AddressSpaces.Kernel.ReapProcess: nor does it give the kernel stack back.
- AddressSpaces.Kernel.KernelWrite: the page is one of the window; what the call does to the trampoline page is
  `CowSeal.TrampolineSealedIff`.
- AddressSpaces.Kernel.Start: after a failed launch it does not say what the frames given back contain, only that
  frames in use are unchanged.
- FatVolume.ReadBack: above 4096 clusters it states the prefix that is read, as the guard of the reader stops there.
- FatVolume.Volume.WriteChain: says nothing of the links after a failure with more than 4096 clusters;
  `Fat.FreeMeaning` says what is cleared then.
- ElfLoadTwice.LoadTwice: assumes that the two windows were alike before loading (the kernel zeroes them), that the
  symbol table lies in the window, and that the relocation targets are aligned apart and away from the tables.
- ElfValues.LoadValues: assumes that no relocation stores into a table, a symbol in use or another relocation's word.
- ForkWait.ChildReturnsZero: the selectors of the parent have sixteen bits, as the processor keeps them.
- ForkWait.ThreadStarts: says how a thread starts, not what it finds after being switched out, as threads share state.
- SignalRuns.ReturnRestores: assumes that handlers do not write over saved frames or move the stack above them.
- KernelHeap.PayloadKeeps: payload writes that imitate a block header are excluded.
- Reference counts and process numbers do not wrap at 2^32; years are unbounded integers.
- Frame 0 is taken to be reserved, as the boot code leaves it.
- Padding bytes of MuFS records are written as zero; the superblock checks and the choice between mounting and
  formatting are not part of this model.
- A file unlinked while open keeps its slot on disk after a remount; the model keeps this and proves nothing more.
- String routines (copy, compare, length) are taken as their mathematical meaning.
- FAT directory entries, the byte encoding of FAT sectors, input/output errors and links that point outside the table.
- Overwriting an existing FAT file: the old chain is freed before the new one is built, so a failed overwrite loses it.
- Heap pointers are counted in units of 16 bytes; calls before the heap is ready are not part of this model.
- The wake-ups of sleepers other than a waiting parent, poll completion, and what they write to user memory.
- File offsets of descriptors, device and terminal descriptors beyond their counts.
- TcpSocket.Sock.SendData: the lengths are unbounded integers, so the cast of the count to `int` is not modelled.
- MufsCrash.CrashThenRemount: the last file slot is left out, as `MufsCrash.TornSlot` shows it must be, and so are the
  bytes of the file the operation was writing.
- Frames.BootFrees: module images, the user window and the page tables are reserved or allocated after the loop it is
  about; `Frames.ReserveMeaning` and `Frames.AllocPageMeaning` are what those calls do.
- TCP receive side, delivery over a lossy network, loopback and closing handshakes.
- ELF interpreter and auxiliary-vector information; the test for a power of two is written as repeated halving.
- Threads sharing a heap limit; the console, keyboard, graphics, DNS, DHCP, HTTP and shell code, which would add
  members of little depth.
