# A verified model of the xv6 kernel with EEVDF, shared pages and mmap

This project models the parts of an xv6 kernel for RISC-V that carry its hardest promises, and
proves those promises for every input, every interleaving and every run. The kernel extends xv6
with an EEVDF scheduler, reference-counted physical pages, and mmap/munmap with sharing across
fork.

The modules follow the kernel's own layers.

- **Scheduler** (`Eevdf`, `Deadlines`, `Fairness`, `Crowds`, `Unfair`, `Twins`): the division-free eligibility test;
  deadlines and dispatch over every run; the lag bound, and runs from states reachable after boot that
  break it where a dispatch lasts longer, a slice wraps or a process sleeps. The passes of the scheduler, the tick, wakeup, setnice and fork are
  methods of a process-table class, proved to take the transitions that the theorems are about.
- **Buffer cache** (`Ring`, `Bcache`): the circular list in its two link arrays, and the cache as
  a plain block store with least-recently-released replacement.
- **Log** (`RedoLog`, `LogCode`, `GroupCommit`, `FullLog`): what a crash after any block write
  leaves behind; the loops of log.c over the cache, which make exactly those writes; and group
  commit with space reservation as a machine over all client, commit, recovery and crash steps.
- **Memory** (`Kalloc`, `PageTable`, `Ownership`, `Vm`, `Mmap`, `Sbrk`, `Spaces`, `Workload`): the page allocator with
  reference counts; three-level Sv39 tables (section 4.4 of the RISC-V Privileged Architecture,
  version 20211203) as an implementation of a flat map; page ownership across mmap, faults,
  munmap, fork, sbrk and exit, and over any sequence of them from boot.
- **Files** (`Fs`): the bitmap, direct and indirect blocks, and file contents as one byte sequence
  per inode; the transaction bound of a write.
- **Exit and wait** (`WaitExit`, `WaitRuns`): fork, exit, wait, waitpid, sleep, wakeup and kill as a machine
  whose steps are the critical sections of the code.
- **User allocator** (`Umalloc`): malloc and free over the circular address-ordered list (section
  8.7 of The C Programming Language, second edition).
- **Disk driver** (`Virtio`): descriptors and rings (sections 2.6 and 5.2 of Virtio 1.1) with the
  device as a stepper of its own.

Code that updates state in place is a class whose methods are proved against functions of the old
state; ghost fields hold the abstract value (the free list as a sequence, the flat page map, the
owner of each block). Invariants that quantify over pages, blocks or descriptors go through a
named predicate per element.

Where the code does not do what one would expect, the model follows the code:

- The log holds as many blocks as the cache has buffers. A commit of a full log with no other
  buffer free panics in bget before it writes anything. `Commit` states exactly when it completes,
  `PanicExactly` when it happens over all runs, and `ThreeOperationsPanic` is such a run. While a commit
  waits for its disk write it holds one buffer more, which counts against everybody else.
- log_write tests for a full log before it looks for a block to absorb. The reservation therefore
  protects an operation only while it has logged fewer than MAXOPBLOCKS distinct blocks.
  `WriteLoop` shows that a file write stays within that until its last log_write.
- setnice re-arms the time slice even when the nice value does not change. A process that keeps
  renewing its own nice value never yields. The lag bound needs that a dispatch lasts at most five
  ticks, and `FiveIsExact` shows that no larger number will do.
- A slice that has run out is not re-armed at the tick, and time_slice is a 32-bit int. It wraps
  after 2^31 + 5 ticks without a wakeup or setnice, and the process does not yield for the next
  2^31 - 1 ticks.
- A process that wakes after a long sleep keeps its old virtual time, so it is behind, and the rest
  ahead, by as much as it slept.
- kmmap and growproc do not compare each other's ranges. Areas may overlap each other and the heap;
  fork and sbrk panic only where such an overlap has them map a page that is mapped already. An area that
  reached the trapframe would have it freed by munmap, so that one condition is left to the caller.
- kmmap adds its address to MMAPBASE in 64 bits, so an area can start below MMAPBASE, and at address 0
  (`WrapsToZero`). mmap_cleanup takes address 0 for the end of its list and leaves the areas from there on
  behind. `Cleanup` states what is removed; a freewalk over what is left panics exactly if a page of it
  is mapped (`LeafExactly`).
- malloc passes its request to sbrk as an int. From 2^27 units on the break moves down, not at all, or up
  by 16 bytes, and malloc treats the whole request as its own all the same; `Malloc` states both directions.
- A write whose copy from the user fails inside a block leaves the bytes before the failure in the
  block: they replace old bytes of the file, though the result does not count them.
- A buffer starts as block 0 of device 0, so at most one buffer per block holds for the real
  device only.

## Model

| member | source | states |
|---|---|---|
| Eevdf.LeftIsShiftedSum | kernel/proc.c:569-580 | the 64-bit accumulator of pass 2 is the exact sum of weight times shifted virtual time, modulo 2^64 |
| Eevdf.PassesIsEligible | kernel/proc.c:586-597 | while neither side reaches 2^64, the division-free comparison holds exactly when the process's virtual time is at most the weighted average of the ready set |
| Eevdf.PickIsEarliestEligible | kernel/proc.c:582-604 | process i is picked if and only if it is RUNNABLE, eligible, and no eligible RUNNABLE process has an earlier deadline, or the same one at a lower index |
| Eevdf.PickNeverStalls | kernel/proc.c:537-622 | with nothing RUNNING, a process is picked exactly when some process is RUNNABLE, for any virtual times, even where the comparison overflows, as long as no ready deadline is 2^64 - 1 |
| Deadlines.EntryStep | kernel/proc.c:141-150 | every event changes an entry's nice value, virtual time, deadline and slice in one of three ways only: the tick's accounting, a fresh slice, or not at all |
| Deadlines.NextKeepsTimed | kernel/trap.c:101-117 | every event keeps every virtual time within what the ticks so far allow and every deadline within one slice of it |
| Deadlines.AlwaysDispatched | kernel/proc.c:522-622 | after any sequence of events from boot, with the CPU free, the scheduler starts a process if and only if one is RUNNABLE |
| Deadlines.TickKeepsDeadline | kernel/trap.c:101-117 | a tick keeps vruntime + max(0, time_slice) * floor(1024000/w) <= vdeadline <= vruntime + floor(5120000/w) if and only if time_slice is not the least 32-bit int |
| Deadlines.SliceAtMostFive | kernel/trap.c:101-117 | for every weight the two bounds leave time_slice at most 5 |
| Deadlines.DeadlinesHold | kernel/trap.c:101-117 | over every sequence of events, those bounds hold for every entry throughout if and only if no process is ever charged more than 2^31 + 5 ticks since its last allocproc, wakeup or setnice; time_slice is then 5 minus that number |
| Deadlines.BootIsSound | kernel/proc.c:55-71 | the zeroed process table of boot meets the bounds |
| Deadlines.WrappedNeverYields | kernel/trap.c:101-117 | after the wrap the process keeps the CPU through every one of the next 2^31 - 1 ticks, and the bounds fail as long as its slice exceeds five |
| Fairness.NoneFarBehind | kernel/proc.c:586-597 | if nobody is more than c weighted units ahead of the average, nobody is more than c per other process behind it |
| Fairness.PacedIsTame | kernel/proc.c:569-597 | the lag bound keeps both sides of the comparison below 2^64, for any weights and up to 64 processes |
| Fairness.OtherKeepsPace | kernel/proc.c:733-826 | an event that does not lower the average and admits nobody too far ahead of it keeps everybody's lead within bounds |
| Fairness.LagBound | kernel/trap.c:94-124 | in every run from a level start whose dispatches last at most five ticks and whose other events are gentle in that sense, -(n-1)*5120000 <= w*(v - V) <= 5120000 for every ready process, and the comparison is exact |
| Fairness.PlainLagBound | kernel/trap.c:94-124 | dispatches and ticks alone: the lag bound holds as long as no process is charged more than 2^31 + 5 ticks without a fresh slice |
| Fairness.SameNiceIsGentle | kernel/proc.c:803-826 | setnice to the value a process already has, or of a process that is not ready, is gentle |
| Fairness.ShortUptimeIsTame | kernel/proc.c:569-597 | whatever processes do, sleeping included, the comparison cannot overflow in the first 47 million ticks |
| Unfair.RenewingLeads | kernel/proc.c:803-826 | for every k there is a run from sixty-four level processes in which one is dispatched once, calls setnice with its unchanged value before each of k ticks and never yields: every event is gentle, and it ends about k ticks ahead of the average; past five the bound is broken |
| Unfair.FiveIsExact | kernel/trap.c:94-124 | the lag bound holds in every gentle run from a level start whose dispatches last at most n ticks if and only if n <= 5 |
| Crowds.CrowdFromBoot | kernel/proc.c:242-346 | those level starts are reachable: after boot the first process can set its nice value, fork, sleep and be woken so that any number of processes are RUNNABLE at virtual time 0 with a full slice |
| Twins.RoundRobin | kernel/proc.c:522-622 | for every r the scheduler alternates between two equal processes: after r rounds both are level, each has been charged r + 5 ticks, and the slices are r below zero |
| Twins.WrapLeads | kernel/trap.c:101-117 | dispatches and ticks alone break the bound, by as much as one likes: from two level processes at virtual time 0 there is a run in which they take turns until each has had 2^31 + 5 ticks, and the next one then keeps the CPU |
| Twins.SleeperBreaksLag | kernel/proc.c:733-754 | a run from two level processes, of gentle events and dispatches of at most five ticks, and one wakeup: after k ticks of sleep the sleeper is half of them behind the average and the other half of them ahead, beyond the bound from eleven ticks on |
| Eevdf.ProcTable.MeasureQueue | kernel/proc.c:537-560 | pass 1 finds the least virtual time, the total weight and whether anything is RUNNABLE |
| Eevdf.ProcTable.SumLeft | kernel/proc.c:569-580 | pass 2 computes the left side modulo 2^64 |
| Eevdf.ProcTable.ChooseBest | kernel/proc.c:582-604 | pass 3 finds the first candidate of least deadline |
| Eevdf.ProcTable.Scheduler | kernel/proc.c:522-622 | the three passes together dispatch the process the specification picks |
| Eevdf.ProcTable.TimerInterrupt | kernel/trap.c:193-219 | one tick's accounting, time_slice as a 32-bit int and the clocks as 64-bit words; the transition the deadline and lag theorems are about |
| Eevdf.ProcTable.WakeupAll | kernel/proc.c:733-754 | exactly the sleepers on the channel, the caller excepted, become RUNNABLE with a fresh slice |
| Eevdf.ProcTable.SetNiceOf | kernel/proc.c:803-826 | 0 if and only if the value is in range and a used process has that pid; that process alone changes |
| Eevdf.ProcTable.ForkFrom | kernel/proc.c:283-346 | the child inherits nice and virtual time and starts a full slice; -1 exactly when the table is full or memory runs out, in which case the entry found is used and freed again |
| Ring.Unlink | kernel/bio.c:128-129 | unlinking a node leaves a well-linked ring without it |
| Ring.InsertFront | kernel/bio.c:130-133 | relinking a node after the head leaves a well-linked ring with it in front |
| Bcache.Cache.constructor | kernel/bio.c:36-53 | binit builds a ring of all NBUF buffers, all clean and unreferenced |
| Bcache.CoherentIsUnique | kernel/bio.c:58-90 | each real block has at most one buffer |
| Bcache.Cache.FindCached | kernel/bio.c:65-73 | finds the block's buffer exactly when it has one |
| Bcache.Cache.FindVictim | kernel/bio.c:76-88 | the victim is the least recently released buffer with no reference; none exactly when all are referenced |
| Bcache.Cache.Bget | kernel/bio.c:58-90 | the panic is reached exactly when the block is uncached and every buffer is referenced; a logged, uninstalled buffer is never recycled |
| Bcache.Cache.Bread | kernel/bio.c:92-104 | returns the block of the plain store: what was last put into it, through whatever buffers; no block of the store changes; none exactly when the block is uncached and every buffer is referenced |
| Bcache.Cache.Modify | kernel/log.c:206-214 | changing a held buffer sets that block of the plain store and no other |
| Bcache.Cache.Bwrite | kernel/bio.c:106-112 | one block write, of the buffer's content; the plain store is unchanged |
| Bcache.Cache.Brelse | kernel/bio.c:114-137 | drops one reference; at zero the buffer becomes the most recently released |
| Bcache.Cache.Bpin | kernel/bio.c:139-144 | one more reference |
| Bcache.Cache.Bunpin | kernel/bio.c:146-151 | one reference fewer, only where a dirty buffer keeps another |
| Bcache.LogicalUnchanged | kernel/bio.c:76-88 | recycling an unreferenced buffer or filling one from the disk changes no block's content |
| Bcache.FrontMove | kernel/bio.c:126-134 | moving a buffer to the front keeps the ring a permutation of all buffers, ordered by release time |
| RedoLog.HeaderRoundTrip | kernel/log.c:87-113 | reading back a written log header gives the same block list |
| RedoLog.CommitIsLogThenRecover | kernel/log.c:194-204 | from the header on, commit makes exactly the writes recovery would make |
| RedoLog.RecoverAgain | kernel/log.c:117-124 | recovery is idempotent |
| RedoLog.RecoveryCutShort | kernel/log.c:66-84 | recovery interrupted after any of its writes and run again ends where it would have |
| RedoLog.CommittedIs | kernel/log.c:66-84 | the committed disk holds each logged block's new value at its home and the old value everywhere else |
| RedoLog.CrashAtomicity | kernel/log.c:180-204 | a crash after any k of commit's writes, then any number of crashes during recovery, leaves the home blocks as before or as after the transaction, the latter exactly when the header write happened; recovering again changes nothing |
| LogCode.Log.LogWrite | kernel/log.c:215-236 | absorbs a logged block, appends and pins a new one; refuses exactly when the log is full, even for a block it would absorb |
| LogCode.Log.WriteLog | kernel/log.c:179-191 | makes exactly the log-area writes, in order, or none |
| LogCode.Log.InstallTrans | kernel/log.c:66-84 | makes exactly the home writes, in order, and unpins every block |
| LogCode.Log.Commit | kernel/log.c:194-204 | completes if and only if the log is empty or some buffer is unreferenced (LOGBLOCKS = NBUF = 30, so a full log with no other buffer free panics before any write); when it completes the disk writes are exactly the redo log's commit sequence and no home block of the plain store has changed |
| LogCode.StoreAfterCommit | kernel/log.c:194-204 | if every modified buffer is logged, the disk after a commit holds at every home block exactly what the plain store holds |
| LogCode.Log.Recover | kernel/log.c:117-124 | the disk ends as the specification's recovery, by exactly its write sequence |
| GroupCommit.RoomToLog | kernel/log.c:127-143 | an operation that has logged fewer than MAXOPBLOCKS distinct blocks never meets a full log |
| GroupCommit.NextKeeps | kernel/log.c:127-176 | every step of every client, of commit, of recovery, and every crash keeps the invariant |
| GroupCommit.Durable | kernel/log.c:194-236 | in every state, crashing now and recovering yields exactly the committed history |
| GroupCommit.EveryRun | kernel/log.c:127-236 | over every interleaving of operations, reads, commits, crashes and recoveries: crashing now and recovering yields the committed history; committed updates come only from finished operations, whole; no log_write during a commit; lh.n plus unused reservation is at most LOGBLOCKS; an idle log with nothing outstanding is empty |
| GroupCommit.PanicExactly | kernel/bio.c:76-90 | over every run the log's own panics are out of reach, and the only panic left happens exactly when bget is called for a block with no referenced buffer while thirty blocks are pinned, held by anybody, or held by commit for its current write; for a commit that is exactly at the start of a write with thirty blocks pinned or held |
| GroupCommit.CommitWants | kernel/log.c:66-191 | a commit asks for a buffer not referenced yet only for the log or header block at the start of each write; the home blocks it reads are pinned |
| FullLog.PanicIsBget | kernel/bio.c:58-90 | the machine panics exactly where bget over the cache does, given the same blocks in use |
| FullLog.FullIsReferenced | kernel/bio.c:76-90 | every buffer is referenced exactly when NBUF blocks are in use: the machine's condition is the cache's |
| FullLog.ThreeOperationsPanic | kernel/log.c:127-204 | a run of three operations, each within its reservation and with no buffer left held, that fills the log and panics when its commit starts |
| Kalloc.Kmem.Alloc | kernel/kalloc.c:107-131 | the head of the freelist with count 1; 0 exactly when the list is empty |
| Kalloc.Kmem.Free | kernel/kalloc.c:68-103 | one reference fewer; the page goes back on the list exactly with the last |
| Kalloc.Kmem.AddRef | kernel/kalloc.c:153-168 | one more reference to a page in use |
| Kalloc.Kmem.MemInfo | kernel/kalloc.c:134-150 | walking the freelist agrees with the page counter |
| Kalloc.Kmem.constructor | kernel/kalloc.c:42-62 | kinit puts every page on an acyclic list exactly once |
| PageTable.PteRoundTrip | kernel/vm.c:97-115 | a page-table entry is recovered from its 64-bit word |
| PageTable.PxOfAddress | kernel/vm.c:97-115 | the index macro applied to an address is the index of its page number |
| PageTable.PxInjective | kernel/vm.c:97-115 | distinct pages below MAXVA differ in some level's index, so no two alias a slot |
| PageTable.SetLeafFlat | kernel/vm.c:145-174 | writing one level-0 slot changes the flat map at exactly that page of that address space |
| PageTable.PruneFlat | kernel/vm.c:262-278 | freeing a tree leaves the flat map of every other address space alone |
| Ownership.CountsDetermined | kernel/kalloc.c:68-180 | the flat map, the direct holders and which pages are page tables determine every reference count |
| Ownership.AllCounts | kernel/kalloc.c:68-180 | two states with the same flat map and the same direct holders have the same counts outside the page tables, and everywhere if the same pages are page tables |
| Ownership.UnmapKeepsCounts | kernel/mmap.c:279-296 | clearing an entry and freeing its page keeps every count right if and only if the entry lies below the trapframe |
| Ownership.LeafExactly | kernel/vm.c:262-278 | freewalk meets a leaf, which is its panic, if and only if a page of the address space is still mapped |
| Ownership.MapCount | kernel/vm.c:145-174 | a new user mapping takes over one direct reference, and counts stay balanced |
| Ownership.UnmapCount | kernel/vm.c:192-212 | removing a user mapping drops one reference, and counts stay balanced |
| Vm.Memory.WalkAlloc | kernel/vm.c:97-115 | finds or builds the level-0 table of a page without changing the flat map; 0 only when memory is exhausted |
| Vm.Memory.Walk | kernel/vm.c:97-115 | the level-0 table of a page; 0 only if the page is unmapped |
| Vm.Memory.MapPage | kernel/vm.c:145-174 | the flat map gains exactly that page, or nothing changes and memory is exhausted |
| Vm.Memory.UnmapPage | kernel/vm.c:201-211 | the flat map loses exactly that page and its frame one reference |
| Vm.Memory.UnmapRange | kernel/vm.c:192-212 | the flat map loses exactly the range |
| Vm.Memory.MapFresh | kernel/vm.c:472-492 | one frame nobody else maps, filled and mapped, or no change |
| Vm.Memory.ShareInto | kernel/mmap.c:421-444 | the child's page gets the parent's frame and flags with one more reference, or nothing changes |
| Vm.Memory.NewSpace | kernel/vm.c:178-187 | an empty address space, or no change |
| Vm.Memory.CopySpace | kernel/vm.c:296-324 | for every mapped page a copy with the parent's contents and permissions on a frame that no other entry maps, or no change; no other address space's tables change |
| Vm.Memory.Freewalk | kernel/vm.c:262-278 | frees every page of the tree exactly once and nothing else; the leaf panic is out of reach when nothing is mapped |
| Vm.Memory.FreeSpace | kernel/vm.c:282-288 | an empty address space's table pages all become free and no other count changes |
| Mmap.MmapTable.FindByAddr | kernel/mmap.c:45-55 | the process's area with that start address, or none has it |
| Mmap.MmapTable.FindContaining | kernel/mmap.c:57-71 | an area of the process holding the page, or none holds it |
| Mmap.MmapTable.AllocPage | kernel/mmap.c:104-145 | a mapped page is left alone; otherwise one unshared frame with the prescribed contents and permissions, or no change |
| Mmap.MmapTable.Map | kernel/mmap.c:148-242 | nothing changed for bad arguments or a full table, else one more area as the arguments say, starting at MMAPBASE + addr in 64 bits; areas may overlap; with MAP_POPULATE every page not mapped before sits on a frame of its own; a failed MAP_POPULATE unmaps the first area with that start address; the result is the start or 0, which at address 0 are the same |
| Mmap.WrapsToZero | kernel/mmap.c:148-185 | a call that kmmap accepts and that makes an area at address 0 |
| Mmap.MmapTable.Populate | kernel/mmap.c:227-241 | the populated pages are exactly a prefix of the area, each on its own frame with the prescribed contents |
| Mmap.MmapTable.Munmap | kernel/mmap.c:250-305 | exactly the area's entry, pages and file reference go |
| Mmap.MmapTable.Fault | kernel/mmap.c:310-335 | maps at most the faulting page, only inside an area that allows the access, on a frame of its own; no address space or holder changes; areas that do not overlap keep their prescribed contents |
| Mmap.MmapTable.Touch | kernel/mmap.c:310-335 | touching pages in any order and with any repetition maps exactly those pages |
| Mmap.LazyEqualsEager | kernel/mmap.c:76-145 | touching every page of an area lazily ends in the same bytes and permissions as MAP_POPULATE: file bytes, zero past the end of the file |
| Mmap.MmapTable.Cleanup | kernel/mmap.c:339-365 | terminates, and exactly the process's areas before its first one at address 0, and their pages, are gone; so all of them if and only if none starts at address 0 |
| Mmap.MmapTable.CopyAreas | kernel/mmap.c:368-414 | each area of the parent gets one entry for the child in an unused slot, until the table is full |
| Mmap.MmapTable.Fork | kernel/mmap.c:368-448 | on success the child has the parent's areas and maps exactly its populated pages through the same entries, and no populated page lay in two areas; the remap panic only if one did; on failure areas and file references are as before, and so are the pages and every reference count outside the page tables if the child had nothing mapped there; areas of the child are left behind only if the parent has one at address 0 |
| Mmap.FilesDetermined | kernel/file.c:46-83 | areas and other holders determine every file's reference count |
| Spaces.EveryCount | kernel/kalloc.c:68-180 | between any two operations every page's reference count is the number of user entries mapping it plus one for a trapframe or table page plus the kernel's other references, and zero exactly on the freelist |
| Spaces.NewPagetable | kernel/proc.c:200-230 | a root with just trampoline and trapframe, or no change |
| Spaces.Create | kernel/proc.c:152-165 | a new address space, or no change |
| Spaces.FreePagetable | kernel/proc.c:234-240 | every entry of the root and every page of its tree go; no leaf is met |
| Spaces.FreeProc | kernel/proc.c:179-196 | after mmap_cleanup the process's memory is all released and every other address space is untouched |
| Spaces.Grow | kernel/proc.c:260-279 | fresh zeroed pages up to the new size, or no change; the remap panic only where a populated page of an area lies in the way |
| Spaces.Shrink | kernel/vm.c:246-258 | exactly the pages above the new size go |
| Spaces.MoveBreak | kernel/sysproc.c:80-106 | sbrk in bytes: the break moves by n, or not at all when n would take it below zero; eager growth maps fresh zeroed pages or changes nothing, lazy growth maps none, a negative n unmaps exactly the pages given up; past the trapframe it fails |
| Spaces.VmFault | kernel/vm.c:471-492 | maps a zeroed page only below the size and only where none was |
| Spaces.ForkProc | kernel/proc.c:283-317 | the child gets private copies below the size and shares the areas' populated pages; on failure the page tables and every reference count are as before; the remap panic only if a populated page lies in two areas or in one below the size, and success only if none does; areas of the child are left behind only if the parent has one at address 0 |
| Spaces.Keep | kernel/kalloc.c:107-131 | a page for the kernel's own use (a pipe, an argument string) that nobody else holds, with all counts balanced |
| Spaces.Return | kernel/kalloc.c:68-103 | giving one such reference back keeps all counts balanced |
| Workload.World.Apply | kernel/proc.c:179-317 | create, fork, exit, reap, mmap, munmap, a page fault, sbrk and the kernel's own allocations each keep ownership balanced, sizes right and zombies without areas; the only ways out are the remap of a page already mapped and an area at address 0 |
| Workload.World.constructor | kernel/main.c:12-34 | the kernel as kinit leaves it at boot is balanced: no process, no area, every page on the freelist |
| Workload.World.DoExit | kernel/proc.c:367-411 | exit leaves a zombie without areas if and only if the process has no area at address 0 |
| Workload.World.DoReap | kernel/proc.c:179-196 | freeing any zombie releases its memory; no leaf is met |
| Workload.Run | kernel/kalloc.c:68-180 | over every sequence of these operations from boot, by any processes, every reference count is right after each, and the sequence is cut short only at a fork of a doubled page, an sbrk over an area's populated page, or an exit or failed fork of a process with an area at address 0 |
| Fs.WordSet | kernel/fs.c:429-440 | storing a word in an indirect block changes that word only |
| Fs.FileSystem.Balloc | kernel/fs.c:66-89 | the lowest free block, marked and zeroed; 0 exactly when every bit is set |
| Fs.FileSystem.Bfree | kernel/fs.c:92-106 | clears exactly that bit |
| Fs.FileSystem.Bmap | kernel/fs.c:405-444 | the block's disk address, allocated if need be; no file's bytes change, a mapped block costs nothing, new owners are at most that slot and the indirect block, 0 only on a full disk |
| Fs.FileSystem.Itrunc | kernel/fs.c:448-476 | the file is empty and owns nothing, every other file keeps blocks and bytes, and no free block is freed |
| Fs.FreePlusOwned | kernel/fs.c:66-106 | free and owned blocks together are always the whole data area |
| Fs.FileSystem.Readi | kernel/fs.c:494-520 | the slice of the file's byte sequence, clipped at its end, or -1 and the part before it when the destination faults; nothing is allocated or changed |
| Fs.FileSystem.Writei | kernel/fs.c:528-562 | a splice of the file's byte sequence, short only on a full disk or when a copy from the user fails; bytes before such a failure are in the block though not counted, replacing old ones within the file's size; other files unchanged; at most 10 distinct blocks logged for 3072 bytes, on a disk of any size |
| Fs.FileSystem.WriteLoop | kernel/fs.c:539-551 | before the inode is logged a chunk has logged at most 9 distinct blocks, because an unaligned first block is already mapped |
| Fs.FileSystem.Filewrite | kernel/file.c:148-173 | what is written is a prefix of the source at the old offset, the offset moves past exactly that unless a copy from the user fails inside a block, the result is n only if all of it was written; no transaction exceeds 10 blocks |
| WaitRuns.EveryRun | kernel/proc.c:351-512 | the protocol invariant holds after every sequence of critical sections of any number of processes |
| WaitRuns.NoLostWakeup | kernel/proc.c:702-754 | in every reachable state with wait_lock free, nobody sleeps in kwait with a zombie child or in waitpid(pid) with that child a zombie, reparented children included |
| WaitRuns.ReapedOnce | kernel/proc.c:415-512 | a pid joins the reaped ones only by its parent's scan finding it a zombie, which frees the slot |
| WaitRuns.ZombieIsReaped | kernel/proc.c:415-512 | a zombie leaves the table only by being reaped, and no pid is reaped a second time |
| WaitRuns.ExitedIsReapedOrZombie | kernel/proc.c:367-411 | the processes that have exited and not been reaped are exactly the zombies in the table |
| WaitRuns.NoChildrenIsRight | kernel/proc.c:450-454 | kwait gives up for lack of children only when there are none, waitpid only when no child has that pid |
| Umalloc.InsertOk | user/umalloc.c:24-44 | freeing a block leaves the list ordered by address, disjoint and fully coalesced |
| Umalloc.InsertSum | user/umalloc.c:24-44 | freeing conserves units |
| Umalloc.TakeOk | user/umalloc.c:76-82 | taking units from the end of a free block leaves the list ordered and coalesced, and clear of the block taken |
| Umalloc.MergeLinked | user/umalloc.c:33-42 | the pointer and size updates of a merge leave the headers a ring for the merged list |
| Umalloc.Allocator.FindPlace | user/umalloc.c:30-32 | the search around the ring terminates at the block's place in address order |
| Umalloc.Allocator.Release | user/umalloc.c:24-44 | the block joins the ring, merged with the neighbours it touches |
| Umalloc.Allocator.Free | user/umalloc.c:24-44 | the block leaves the live ones, units are conserved, all other blocks keep their places |
| Umalloc.Allocator.Morecore | user/umalloc.c:46-61 | at least 4096 units, and as many as asked for, join the ring, so that a large enough block exists; with no memory nothing changes |
| Umalloc.Allocator.Walk | user/umalloc.c:74-90 | one trip around the ring finds the first block after freep that fits, or there is none |
| Umalloc.Allocator.Malloc | user/umalloc.c:63-90 | a block of enough units disjoint from every live and free one, units conserved; 0 only if nothing fits and sbrk fails; the loop terminates; the break really moves by the bytes malloc counts on if and only if the request is below 2^27 units, and otherwise down, not at all, or up by 16 bytes |
| Umalloc.SbrkArgument | user/umalloc.c:50-54 | the int argument of sbrk is the bytes meant if and only if fewer than 2^27 units are asked for, and at most 16 otherwise |
| Virtio.Disk.AllocDesc | kernel/virtio_disk.c:156-166 | the lowest free descriptor, or none is free |
| Virtio.Disk.Alloc3 | kernel/virtio_disk.c:201-213 | three different free descriptors, or no change and fewer than three are free |
| Virtio.Disk.FreeChain | kernel/virtio_disk.c:185-197 | exactly the three descriptors of the chain become free and blank |
| Virtio.QueuePush | kernel/virtio_disk.c:271-277 | the ring slot written for a new entry holds no unread one, however often the 16-bit index has wrapped |
| Virtio.QueuePop | kernel/virtio_disk.c:312-325 | the indices differ exactly when something is unread, and the slot read is the oldest entry |
| Virtio.Disk.Start | kernel/virtio_disk.c:215-280 | the request's three-link chain is laid out and offered once; it waits exactly when fewer than three descriptors are free |
| Virtio.Disk.DeviceTake | kernel/virtio_disk.c:271-277 | the device sees exactly the offered requests, in order, with their chains intact |
| Virtio.Disk.DeviceDone | kernel/virtio_disk.c:309-314 | a taken request is posted once, with whatever status the device gives, overwriting no unseen completion |
| Virtio.Disk.Interrupt | kernel/virtio_disk.c:294-327 | exactly the posted requests' buffers stop being busy, up to the first with a non-zero status; the status panic happens exactly when there is one |
| Virtio.Disk.Finish | kernel/virtio_disk.c:282-291 | exactly the request's own three descriptors become free |

## Left out

- Deadlines.AlwaysDispatched: stated up to 2^47 ticks, where virtual times and deadlines fit in 64 bits.
- Deadlines.DeadlinesHold: stated up to 2^47 ticks, for the same reason.
- Fairness.PlainLagBound: stated up to 2^47 ticks, for the same reason.
- Fairness.LagBound: stated up to 2^47 ticks; gentle is a sufficient condition on the events other than dispatch and tick; that the bound needs it is shown by runs, not as an equivalence.
- Fairness.ShortUptimeIsTame: bounds the overflow of the comparison with arbitrary sleepers by a number of ticks, not by a condition on the sleep.
- Mmap.MmapTable.Map: asks the caller for an area that ends below the trapframe, which kmmap does not check; UnmapKeepsCounts shows what goes wrong otherwise.
- Spaces.Grow: works in whole pages, sizes rounded up; MoveBreak is the call in bytes.
- Workload.Run: passes over an operation that has no live process, open file or reference to act on, and mmap of a range that reaches the trapframe; it does not go on past an area at address 0 that cleanup leaves behind.
- Umalloc.Allocator.Malloc: asks sbrk to return memory above all it returned before.
- WaitRuns.EveryRun: pids are unbounded integers; that every waiter eventually runs is not stated.
- GroupCommit.EveryRun: block contents come with each log_write; who waits for whose buffer is not modelled; the sleeping and waking of begin_op is only its enabling condition.
- Multi-CPU races between the passes of the scheduler: the passes see one snapshot of the table.
- exec, which replaces an address space without cleaning up its areas.
- Directories, paths, link counts, inode allocation and reference counts of inodes.
- The on-disk copy of an inode, which iupdate keeps equal to the one in memory; logging the inode block is counted.
- The bit layout of the free map: a bit is a boolean, and bitmap blocks appear only in what is logged.
- Sleep locks and the memory ordering of spinlocks; a critical section is one step.
- copyin, copyout and page faults taken inside the kernel on their behalf.
- The kernel's own page table, boot, traps, the console, pipes and device registers.
- Stack guard pages: uvmclear only clears the user bit, so user pages are told by address, not by that bit.
- User programs other than the allocator, and the building of the initial file system.
