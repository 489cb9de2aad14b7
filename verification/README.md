# yonix in Dafny

yonix is an xv6-derived kernel with its own swap, schedulers, semaphores and write-ahead log, plus a
shell, an allocator, a regular expression matcher and a tool that builds file systems.  This project
models the parts of it that carry the difficult promises and proves those promises for every input,
every run or every interleaving.

The components are independent, and each follows the same plan.  What the code does is an imperative
model: classes whose fields the methods update, with the loops of the original.  Where the promise is
about whole runs, the calls are also steps of a state machine (`State`, `Event`, `Enabled`, `Step`,
`Run`); a ghost run inside the class ties the methods to it, so that whatever is proved about all runs
holds of the methods.

| files | component |
|---|---|
| `Log`, `LogProtocol`, `LogSafety`, `LogTooSmall`, `LogDevice` | write-ahead log, group commit, crash recovery |
| `FreeList`, `Malloc` | the K&R allocator |
| `SwapState`, `Swap`, `SwapSupply`, `SwapLimits`, `SwapStale`, `PageTable`, `Slab` | demand paging, two-level page tables, slabs |
| `ShellGrammar`, `ShellRoundTrip`, `ShellBlanks`, `Shell` | the shell's parser |
| `KernelState`, `Kernel`, `RoundRobin`, `LinkedQueue` | process life cycle, schedulers, queues |
| `PipeState`, `Pipe`, `BoundedBuffer`, `BufferProgram`, `BufferEnds` | pipes, semaphores, producers and consumers |
| `MkfsFiles`, `MkfsInodes`, `Mkfs` | the file system builder |
| `Regex` | the matcher of grep |
| `Sums`, `Common` | helpers |

**Atomicity.**  A kernel call runs unpreempted up to its next `sleep`.  That is the design intent; the
code does not enforce it, because system calls use a trap gate (src/trap.c:50) and the timer can yield
in kernel mode (src/trap.c:144).  Block writes are atomic, and a crash may come between any two.

**Where the code does not keep a promise.**  The code is modelled as it is, and the exact condition
under which it keeps the promise is proved:

- Operations within their allowance can reach the panic of `log_write` if and only if
  `log.size <= LOGSIZE`, and mkfs makes the two equal (`LogTooSmall.PanicsExactlyWhenSmall`).
- `malloc` returns a block large enough if and only if rounding the request up does not wrap around
  in 32 bits (`Malloc.PayloadFits`).
- `copyuvm` copies a page exactly unless it evicts its own source page (`SwapLimits.CopyIsExactWhen`).
- `deallocuvm` keeps the paging invariant if and only if the page is present
  (`SwapLimits.ShrinkKeepsInvWhen`).  A page that was swapped out leaves its key behind.  If it grows
  back and is evicted again, a fault reads what was written last if and only if it went to a lower slot
  than the one left behind, or the old contents are the same (`SwapStale.ReadIsRightWhen`); before the
  shrink that is the question whether a free slot lies below the page's slot
  (`SwapStale.StaleReadWhen`, with a case in `SwapStale.StaleRead`).
- `kill` keeps the ready queues complete if and only if its victim is not asleep
  (`KernelState.KillKeepsQueuesWhen`); a killed sleeper is never dispatched again
  (`KernelState.KilledIsNeverDispatched`).
- `walkpgdir` leaves every other entry alone if and only if the table exists, a frame is free, or the
  page evicted for the table belongs to another address space (`PageTable.WalkIsInvisibleWhen`), and
  `mappages` does if and only if none of the pages that second chance picks for its tables is a page
  of this address space outside the range (`PageTable.OthersUnchangedWhen`).
- mkfs does not limit the number of inodes.  After `balloc` an inode reads as it was written if and only
  if its number is below 208 (`Mkfs.Image.BAlloc`): the next eight lie in the bitmap's sector.  From 216
  on, `ialloc` overwrites a block of the data area (`Mkfs.DataBlockHit`).
- A reader sleeps only on an empty pipe unless a killed or reader-less writer fills the pipe and
  returns without a wake-up (`PipeState.StepKeepsReadersWhen`, `PipeState.ReaderLeftAsleep`).
- `mappages` covers exactly the pages of its range if and only if the range is not empty; at a page
  boundary an empty range means the whole address space (`PageTable.CoversExactlyWhen`).

**Code against comments.**  The comment at src/proc.h:169 gives 115 to 125 for static priorities; the
code gives 105 to 135.  The sleep average is documented to grow with sleep; by the unsigned arithmetic
of src/schedule.c:109 it falls until it would turn negative and then jumps to its maximum
(`KernelState.SleepAverage`).  The code is followed in both cases.

## Model

| member | source | states |
|---|---|---|
| `LogDisk.InstallInvisible` | src/log.c:46-56 | copying a log block home leaves the header and everything that survives a crash as it was |
| `LogDisk.ClearInvisible` | src/log.c:72-92 | emptying the header after all entries are home changes nothing that survives a crash |
| `LogDisk.HeadCommits` | src/log.c:72-83 | the single header write turns the surviving image into the cached one, all blocks at once |
| `LogSafety.StepRefines` | src/log.c:46-183 | every step of calls, commit, recovery or crash is a step of an atomic store with a durable and a volatile image |
| `LogSafety.RunRefines` | src/log.c:46-163 | crash atomicity: over every run, with crashes anywhere, also during recovery, the log behaves as the atomic store |
| `LogSafety.OnlyCommitsAreDurable` | src/log.c:154-163 | without a commit point nothing that survives a crash changes, however often the machine crashes and recovers |
| `LogSafety.QuietDisk` | src/log.c:86-92 | when commit or recovery is done the header is empty and the home blocks hold the durable image |
| `LogSafety.ReadersSeeVolatile` | src/log.c:166-183 | what a reader gets, cached or from disk, is the volatile image, also in the middle of a commit |
| `LogSafety.CommitAndRecoveryFinish` | src/log.c:86-92 | undisturbed, every commit and every recovery comes to an end |
| `LogSafety.CommitIsExclusive` | src/log.c:95-136 | while committing there is no open operation, nothing can be logged, and others can only fall asleep |
| `LogSafety.EndNeverPanics` | src/log.c:114-136 | the panic of `end_op` is unreachable |
| `LogSafety.ListIsWhatWasLogged` | src/log.c:166-183 | on every run, also during a commit, the block list is duplicate-free and holds exactly the blocks logged since the last commit or crash |
| `LogSafety.RunKeepsReservation` | src/log.c:95-110 | on every run of operations within their allowance, entries plus unused allowances fit LOGSIZE |
| `LogSafety.ModestNeverPanics` | src/log.c:166-183 | with more than LOGSIZE log blocks such operations meet no panic |
| `LogSafety.SleeperHasWaker` | src/log.c:95-136 | a process asleep on the log could not be admitted and has a commit or an open operation left to wake it |
| `LogProtocol.AdmittedWhen` | src/log.c:95-110 | an operation is admitted if and only if nobody commits and ten blocks for it and every open one, with the entries there are, fit into thirty |
| `LogTooSmall.SmallLogPanics` | src/log.c:166-183 | with at most LOGSIZE log blocks a run of operations within their allowance reaches the panic |
| `LogTooSmall.PanicsExactlyWhenSmall` | src/log.c:166-183 | the panic can be reached if and only if log.size <= LOGSIZE |
| `LogDevice.Log.WriteHead` | src/log.c:72-83 | one block write stores the count and the entries in the header |
| `LogDevice.Log.ReadHead` | src/log.c:59-69 | the entries read are those of the header block |
| `LogDevice.Log.WriteLog` | src/log.c:139-151 | every block write in between still recovers to the old image |
| `LogDevice.Log.InstallTrans` | src/log.c:46-56 | every block write in between still recovers to the committed image |
| `LogDevice.Log.Commit` | src/log.c:154-163 | each block write leaves a disk that recovers to the old or to the cached image, and at the end the cached one is home |
| `LogDevice.Log.RecoverFromLog` | src/log.c:86-92 | every block write of recovery keeps what is durable, and the header ends empty |
| `LogDevice.Log.BeginOp` | src/log.c:95-110 | admitted or asleep by the admission test, as one step of the protocol |
| `LogDevice.Log.RecordBlock` | src/log.c:174-181 | a block already listed is absorbed, a new one appended |
| `LogDevice.Log.LogWrite` | src/log.c:166-183 | panics exactly when the list is full, and otherwise is one step of the protocol |
| `LogDevice.Log.EndOp` | src/log.c:114-136 | never panics; the last operation out makes everything cached durable, others change nothing durable |
| `FreeList.RingReaches` | src/umalloc.c:24-44 | the free list is one cycle: from any free block the pointers lead to any other |
| `FreeList.FreeKeepsHalf` | src/umalloc.c:33-44 | linking and merging a freed block keeps the address-ordered ring and the tiling of the heap |
| `FreeList.MergedIsCoalesced` | src/umalloc.c:33-44 | after `free` no two free blocks touch |
| `FreeList.SplitKeepsInv` | src/umalloc.c:77-83 | cutting the tail of a free block keeps the heap invariant and every live payload |
| `FreeList.UnlinkKeepsInv` | src/umalloc.c:75-76 | handing out a whole free block keeps the heap invariant |
| `FreeList.GrowKeepsInv` | src/umalloc.c:46-61 | fresh memory from `sbrk` enters as one live block and keeps the heap invariant |
| `Malloc.PayloadFits` | src/umalloc.c:69 | the payload holds nbytes if and only if rounding up does not wrap in 32 bits |
| `Malloc.UnitsAre` | src/umalloc.c:46-69 | the payload is the least multiple of eight that holds nbytes; core is asked for in pieces of at least 4096 units |
| `Malloc.RunKeepsOrder` | src/umalloc.c:24-90 | on every sequence of calls and of stores by the program into its blocks: one ring in address order, disjoint blocks, nothing left to coalesce |
| `Malloc.RunConserves` | src/umalloc.c:24-90 | on every such sequence free plus live units are the units obtained from `sbrk` |
| `Malloc.BlocksKeepTheirContents` | src/umalloc.c:24-90 | on every such sequence the program finds in its blocks what it last stored there |
| `Malloc.Umalloc.StoreUnit` | src/umalloc.c:63-90 | a store into a live block changes that unit and nothing of the heap |
| `Malloc.Umalloc.FindPlace` | src/umalloc.c:30-32 | the search of `free` ends at the free block before the freed one after fewer steps than there are free blocks, from any `freep` |
| `Malloc.Umalloc.Link` | src/umalloc.c:33-43 | the header updates of `free`, merging upwards and downwards |
| `Malloc.Umalloc.Free` | src/umalloc.c:24-44 | the block is no longer live, all other live blocks and their payloads are as before |
| `Malloc.Umalloc.MoreCore` | src/umalloc.c:46-61 | afterwards some free block holds the units asked for, also when the new core merged into its predecessor |
| `Malloc.Umalloc.Cut` | src/umalloc.c:74-86 | the request becomes a new live block, the tail of a free one, and `freep` is the block before |
| `Malloc.Umalloc.Search` | src/umalloc.c:73-89 | first fit on the lap from `freep`; `morecore` succeeds at most once, and only when no free block was large enough; fails only if none is and `sbrk` refuses |
| `Malloc.Umalloc.Malloc` | src/umalloc.c:63-90 | a new live block of the rounded size and no other change of live blocks or payloads; null only when nothing fits and `sbrk` refuses |
| `SwapState.KeyIsOr` | src/vm.c:536-546 | for page-aligned va and pid below 0x1000 the bit-or of the key is a sum |
| `SwapState.KeyInjective` | src/vm.c:536-546 | the key determines address and process |
| `SwapState.KeyParts` | src/vm.c:536-546 | the low twelve bits of the key are the pid and the others the address |
| `SwapState.RunKeepsInv` | src/vm.c:488-664 | on every run of maps, writes, evictions and faults, frames, queue, swap map and slots agree with the flat memory |
| `SwapState.SwapRefinesFlatMemory` | src/vm.c:610-664 | whatever was evicted and faulted in between, a page holds the value last written to it |
| `SwapState.KeysOccurOnce` | src/vm.c:488-565 | no key occurs twice across the page queue and the swap map together |
| `SwapLimits.CopyIsExactWhen` | src/vm.c:396-407 | the copy is exact if and only if the source was not the page evicted, or the overwritten words had those values |
| `SwapLimits.CopyCanFail` | src/vm.c:396-407 | a run to a state in which the copy differs |
| `SwapLimits.CopyOfIsCopied` | src/vm.c:396-407 | the copy that the methods make is the one of that condition, for the page that second chance picks |
| `Swap.Memory.CopyFrame` | src/vm.c:396-407 | the new frame holds the source page, unless no frame was free and second chance picked the source itself, in which case it holds that page with the words written by `kfree`; the exact condition for a panic |
| `Swap.TrueCopies` | src/vm.c:379-428 | when a frame was free for each copy, every page of the child is the parent's |
| `Swap.Memory.CopyPage` | src/vm.c:389-419 | one round of `copyuvm`: flat memory gains the copy as `CopyFrame` makes it, in the state behind the fault if the source was out, and no other page changes; the exact condition for a panic |
| `Swap.Memory.CopyUvm` | src/vm.c:379-428 | without any assumption on free frames: every page of the child is the copy made in the state of its round, every page there was is as it was, and a panic means exhaustion; with a free frame for everything it asks for there is no panic and a frame was free for each copy |
| `SwapLimits.ShrinkKeepsInvWhen` | src/vm.c:299-325 | shrinking keeps the invariant if and only if the page is present |
| `SwapStale.ReadIsRightWhen` | src/vm.c:503-512 | however a history goes on after a page was shrunk away while it was out: when the page is out again, a fault brings back what was written last if and only if its slot is below the one left behind, or the contents left behind are the same |
| `SwapStale.StaleReadWhen` | src/vm.c:299-325 | shrink, grow back, write, evict, fault, from any history: the page reads what was written if and only if at the start a free slot lay below the page's slot, or the page held the same |
| `SwapStale.CarefulShrinking` | src/vm.c:299-325 | on every run in which only present pages are shrunk away, every page holds what was written last and every fault finds its own slot |
| `SwapStale.StaleRead` | src/vm.c:313 | a history after which the page reads the old contents |
| `SwapSupply.FrameNeedsRoom` | src/kalloc.c:80-96 | a frame is found if and only if one is free or a page can be evicted to a free slot, and costs one of those |
| `SwapSupply.FaultIsServedWhen` | src/vm.c:610-642 | the exact condition, in free frames, queued pages, free slots and slabs, for a fault not to panic |
| `SwapSupply.GrowOneNeedsRoom` | src/vm.c:264-286 | one round of growth succeeds if and only if there is room for the frames it asks for |
| `SwapSupply.EnoughRoom` | src/vm.c:254-295 | with room for every page, table and slab page, growth does not panic |
| `SwapSupply.NeededWithoutSwap` | src/vm.c:254-295 | when no swap slot is free, growth does not panic if and only if there are free frames for all of those |
| `Swap.Memory.constructor` | src/kalloc.c:35-41 | `freerange` makes a free list without duplicates whose length is `nfreeblock` |
| `Swap.Memory.SelPage` | src/vm.c:568-587 | second chance: the victim is the first page without its bit or else the first of all, and exactly the bits looked at are cleared |
| `Swap.Memory.AllocSlot` | src/vm.c:488-500 | the first free slot, panic exactly when there is none |
| `Swap.Memory.FindSlot` | src/vm.c:503-512 | the first slot with the key, panic exactly when there is none |
| `Swap.Memory.FreePageSlot` | src/vm.c:524-533 | the first slot with the key becomes free, if there is one |
| `Swap.Memory.FreePage` | src/vm.c:549-565 | the first entry with the key leaves the queue, with its slot if the flag is set; nothing happens for a key that is not queued |
| `Swap.Memory.PageOut` | src/vm.c:645-664 | a frame becomes free, only the victim's table entry changes, flat memory does not; panics exactly when queue or swap is exhausted |
| `Swap.Memory.Kalloc` | src/kalloc.c:80-96 | a frame nobody uses; panics exactly when nothing is free and nothing can be evicted |
| `Swap.Memory.AddPage` | src/vm.c:536-546 | the page is the last of the queue; what the slab costs never evicts the page itself; the exact condition for a panic |
| `Swap.Memory.PageIn` | src/vm.c:610-642 | the page is present afterwards and flat memory is unchanged; the exact condition for a panic |
| `Swap.Memory.UserWrite` | src/vm.c:590-642 | a write through a fault changes exactly the one page of the flat memory; panics exactly when the fault cannot be served |
| `Swap.Memory.UserRead` | src/vm.c:590-642 | a read through a fault returns the flat memory's page; panics exactly when the fault cannot be served |
| `Swap.GrownSparesOthers` | src/vm.c:536-546 | growth of one process leaves every page of every other as it was, although all use the same addresses |
| `Swap.Memory.AllocUvm` | src/vm.c:254-295 | the process gains exactly the pages of the range, zeroed, and no other process is touched; refused at KERNBASE, nothing happens for a shrinking range; the exact condition for a panic |
| `PageTable.EvictedLookups` | src/vm.c:645-664 | an eviction clears the present bit of its page and keeps frame and flags; no other entry changes |
| `PageTable.HardwareLookup` | src/vm.c:92-115 | an entry is found by the upper ten and the middle ten bits of the address |
| `PageTable.SecondChanceIs` | src/vm.c:568-587 | the page picked is the first without its bit or else the first of all, and exactly the bits in front of it are cleared |
| `PageTable.NewTableKeepsLookups` | src/vm.c:98-108 | a cleared table page changes no entry |
| `PageTable.WalkedLookups` | src/vm.c:92-115 | a walk changes at most the present bit of the page evicted for its table |
| `PageTable.WalkIsInvisibleWhen` | src/vm.c:92-115 | a walk changes no entry if and only if the table exists, a frame is free, or the page that second chance picks belongs to another address space |
| `PageTable.WalkEvictsNeighbour` | src/vm.c:98-101 | an address space with the kernel's tables in which a walk evicts a page of its own |
| `PageTable.SetEntry` | src/vm.c:134 | writing one entry changes the entry of one page |
| `PageTable.CoversExactlyWhen` | src/vm.c:118-144 | the loop goes through exactly the pages covering the range, up to the top page of the 32-bit space, if and only if the range is not empty |
| `PageTable.WalkKeepsMapped` | src/vm.c:125-141 | no page mapped by this call is evicted by it |
| `PageTable.OthersUnchangedWhen` | src/vm.c:118-144 | `mappages` leaves all other entries as they were if and only if none of the pages picked by second chance, one for each missing table without a free frame, lies in this address space outside the range; and it maps over no present page if and only if none of its own pages is picked |
| `PageTable.PicksInQueue` | src/vm.c:568-587 | the pages picked are queued pages |
| `PageTable.LastRound` | src/vm.c:136-137 | the test that ends the loop succeeds in the last round and not before, in wrapping arithmetic |
| `PageTable.AddressSpace.SelPage` | src/vm.c:568-587 | second chance: the first entry without its bit or else the first of all, with the bits before it cleared |
| `PageTable.AddressSpace.Kalloc` | src/kalloc.c:80-96 | a free frame or that of the page picked; panics exactly when there is neither |
| `PageTable.AddressSpace.Walk` | src/vm.c:92-115 | finds the table of a page or makes one, as one walk step; null exactly when it must not allocate, panic exactly when it cannot |
| `PageTable.AddressSpace.MapRound` | src/vm.c:125-134 | one page is mapped, or it was mapped before, or no frame can be had |
| `PageTable.AddressSpace.MapPages` | src/vm.c:118-144 | the pages of the range map to consecutive frames; evicted are the first pages picked by second chance, as many as tables lack a free frame, and they lose only their present bit; no other entry changes; on failure exactly the pages before it |
| `Slab.SlabsDisjoint` | src/kalloc.c:99-108 | different slabs share no byte and lie inside their page |
| `Slab.SlabPool.SlabInit` | src/kalloc.c:99-108 | a page yields 127 new slabs, different from all others |
| `Slab.SlabPool.FreeSlab` | src/kalloc.c:111-119 | a used slab becomes free; free and used slabs stay a partition |
| `Slab.SlabPool.AllocSlab` | src/kalloc.c:122-133 | a slab that nobody uses, from a new page only if none is free |
| `ShellRoundTrip.RoundTrip` | src/sh.c:255-428 | printing a well-formed tree and parsing the text gives the tree back with nothing left over |
| `ShellRoundTrip.PrintingNormalises` | src/sh.c:315-428 | every accepted line has a well-formed tree, and printing it gives a line with the same tree |
| `ShellRoundTrip.ParserImage` | src/sh.c:315-428 | the well-formed trees (words without blanks and symbols, at most 9 arguments) are exactly those the parser produces |
| `ShellBlanks.CharactersAre` | src/sh.c:252-253 | which characters are blanks, symbols and parts of words |
| `ShellBlanks.BlanksAreAlike` | src/sh.c:255-308 | lines that differ in their kinds of blanks, or in blanks at the end, have the same tree or are both rejected |
| `ShellBlanks.AnyBlankWillDo` | src/sh.c:255-308 | any of the five blanks may be replaced by any other or added at the end of a line |
| `ShellBlanks.TypedWord` | src/sh.c:315-329 | a word typed with its newline is a command of that one word |
| `ShellBlanks.OperatorsAre` | src/sh.c:331-357 | what the characters for pipe, list and background stand for |
| `ShellBlanks.RedirectionsAre` | src/sh.c:359-396 | the two redirections, and a parenthesised list as one command of a pipe |
| `ShellBlanks.AppendIsWrite` | src/sh.c:369-377 | `>>` is read like `>` |
| `ShellBlanks.NineArguments` | src/sh.c:416-422 | at most nine arguments, all of them words |
| `Shell.GetToken` | src/sh.c:255-297 | kind and extent of the next token, and the cursor behind the blanks that follow |
| `Shell.Peek` | src/sh.c:299-308 | the cursor moves over blanks and the next character is reported |
| `Shell.ParseRedirections` | src/sh.c:359-381 | the loop over redirections computes the grammar's function, and every file name is a whole word of the buffer |
| `Shell.ParseArguments` | src/sh.c:409-424 | the argument loop with its limit computes the grammar's function |
| `Shell.ParseExecAt` | src/sh.c:398-428 | computes the grammar's function on the rest of the buffer, and terminates on every input |
| `Shell.ParseBlockAt` | src/sh.c:383-396 | the same for a parenthesised block, which consumes input |
| `Shell.ParsePipeAt` | src/sh.c:347-357 | the same for pipes |
| `Shell.ParseLineAt` | src/sh.c:331-345 | the same for lines with their ampersands and semicolons |
| `Shell.NulTerminate` | src/sh.c:431-474 | NULs are written at the ends of the tree's words and nowhere else |
| `Shell.EndsOutsideWords` | src/sh.c:286-291 | the end of a word is never inside a word |
| `Shell.WordsSurvive` | src/sh.c:431-474 | the C string at every word of the tree is exactly that word of the line |
| `Shell.ParseCommand` | src/sh.c:315-329 | accepts exactly the lines of the grammar, returns their tree, and leaves every word as a C string in the buffer |
| `KernelState.SliceOfNice` | src/proc.h:169-173 | the time slice for every nice value |
| `KernelState.PrioritiesAreMonotone` | src/proc.h:169-175 | nicer processes get no better priority and no longer slice, sleepers get no worse priority |
| `KernelState.DynamicPriIs` | src/proc.h:174-175 | the dynamic priority is the static one less the bonus plus five, held within 100 and 139 |
| `KernelState.SleepAverage` | src/schedule.c:102-110 | what the mixed signed and unsigned arithmetic of `sleep` comes to |
| `KernelState.StepKeepsTable` | src/process.c:89-136 | every event keeps slots, pids, the running process and the ranges in order |
| `KernelState.StepKeepsParents` | src/process.c:214-256 | every event leaves every process but init with a live parent |
| `KernelState.StepKeepsWaits` | src/process.c:397-437 | after no event does anybody sleep in `wait` beside a zombie child |
| `KernelState.StepKeepsInv` | src/process.c:89-256 | every event keeps the life-cycle and the scheduling invariant |
| `KernelState.BootedInv` | src/process.c:359-393 | the state after `userinit` satisfies the invariant |
| `KernelState.RunKeepsInv` | src/process.c:89-437 | on every run: unused slots are queued once, live pids differ, one process runs, every other has a live parent, averages and priorities stay in range, queues are complete and in order |
| `KernelState.DispatchPicksBest` | src/scheduler_class.c:135-152 | on every run the scheduler takes a process of least dynamic priority that has waited longest in its queue |
| `KernelState.NothingQueuedNothingReady` | src/scheduler_class.c:135-152 | if all queues are empty nobody is ready |
| `KernelState.ReadyOnce` | src/scheduler_class.c:135-206 | a ready process is in the queue of its dynamic priority, once, and in no other queue |
| `KernelState.QueuedAreReady` | src/scheduler_class.c:135-206 | nobody else is in the queues |
| `KernelState.NoForgottenZombie` | src/process.c:214-256 | a zombie's parent is live and not asleep in `wait`, also when the zombie was handed to init |
| `KernelState.KillKeepsQueuesWhen` | src/process.c:259-270 | `kill` keeps the queues complete if and only if the victim is not asleep |
| `KernelState.KilledIsNeverDispatched` | src/process.c:259-270 | on every continuation a killed sleeper stays ready and never runs again |
| `KernelState.SleeperToKill` | src/process.c:259-270 | a run to a state with a sleeping child that can be killed |
| `KernelCalls.Machine.constructor` | src/process.c:22-37 | the empty queues and the first process |
| `KernelCalls.Machine.SchedPriority` | src/scheduler_class.c:135-152 | finds a best ready process by the first non-empty queue, or nobody is ready |
| `KernelCalls.Machine.SwitchTo` | src/scheduler_class.c:141-147 | the head of the queue runs, one step of the machine |
| `KernelCalls.Machine.Wakeup` | src/schedule.c:112-122 | exactly the sleepers aimed at become ready and are queued |
| `KernelCalls.Machine.Fork` | src/process.c:162-209 | a child in the first free slot, ready and queued under the next pid, with the caller as parent, or for a thread's thread the caller's parent; failure exactly without a slot or a copy, with the slot given back |
| `KernelCalls.Machine.Sleep` | src/schedule.c:102-110 | the running process is asleep on that event, nobody runs, and no other process changes |
| `KernelCalls.SleepersAreFound` | src/schedule.c:102-122 | a `wakeup` on the event, and an exiting child of a process in `wait` or `lwp_join`, finds the sleeper |
| `KernelCalls.Machine.AdoptChildren` | src/process.c:233-245 | exactly the children of the exiting process get init as parent |
| `KernelCalls.Machine.ExitProc` | src/process.c:214-256 | panics exactly for init; otherwise the process is a zombie, a parent asleep in `wait` is ready, nobody has the zombie as parent any more, and other processes change in nothing else |
| `KernelCalls.Machine.WaitScan` | src/process.c:397-437 | reaps the first zombie child and frees its slot, or reports that there is no child, or is asleep in `wait` or `lwp_join` with a child but without a zombie child |
| `KernelCalls.Machine.GiveUpCpu` | src/schedule.c:71-77 | the process ends up at the tail of the queue of its new priority, one step of the machine |
| `KernelCalls.Machine.RemoveFirst` | src/scheduler_class.c:156-165 | the search of the `after` function finds and removes the entry just queued |
| `KernelCalls.Machine.TimesliceYield` | src/schedule.c:83-94 | nothing under an eternal slice; otherwise a tick, followed by giving up the processor exactly when the slice is used up |
| `KernelCalls.Machine.IncNice` | src/sysproc.c:96-103 | the nice value changes if and only if it stays in range |
| `RoundRobin.BoundedWaiting` | src/scheduler_class.c:97-115 | while a process stays ready at most PROC_NUM - 1 others are dispatched and at most one call finds nobody |
| `RoundRobin.ThenItsTurn` | src/scheduler_class.c:97-115 | after PROC_NUM - 1 others the next call switches to the process, or winds the cursor back and the call after it does |
| `RoundRobin.BoundIsReached` | src/scheduler_class.c:97-115 | the bound is exact |
| `RoundRobin.Scheduler.Body` | src/scheduler_class.c:97-115 | the cursor moves to the next ready process, or is wound back when there is none before the end |
| `LinkedQueue.Queue.constructor` | src/queue_netbsd.h:56-59 | the empty queue |
| `LinkedQueue.Queue.InsertTail` | src/queue_netbsd.h:71-76 | the sequence grows at its end, and links run through it in both directions |
| `LinkedQueue.Queue.Remove` | src/queue_netbsd.h:95-102 | the sequence without that element |
| `LinkedQueue.Queue.ForEach` | src/queue_netbsd.h:104-105 | visits the elements in order, each once |
| `LinkedQueue.Queue.FindFirst` | src/scheduler_class.c:159-163 | the first wanted element |
| `PipeState.TestsAgree` | src/pipe.c:73-108 | the tests on wrapped counters agree with unbounded counters |
| `PipeState.FillEnters` | src/pipe.c:73-89 | writing enters as many bytes as there is room for, in order |
| `PipeState.DrainTakes` | src/pipe.c:91-108 | reading takes the oldest bytes, as many as asked for or as there are |
| `PipeState.PipeIsFifo` | src/pipe.c:56-108 | on every run bytes read are the first bytes written, occupancy is within 0 and 512, counters agree modulo 2^32, a sleeping writer means a full pipe, and readers and writers never sleep together |
| `PipeState.StepKeepsReadersWhen` | src/pipe.c:77-84 | a step keeps sleeping readers on an empty pipe if and only if it is not the return of an abandoned write |
| `PipeState.ReadersSleepOnEmpty` | src/pipe.c:91-108 | on every run without such a return a sleeping reader means an empty pipe with its writing end open |
| `PipeState.EndOfFile` | src/pipe.c:56-71 | on every run, behind the closing of the writing end nobody sleeps in a read |
| `PipeState.ReaderLeftAsleep` | src/pipe.c:77-84 | a run in which a reader sleeps beside a full pipe |
| `Pipes.Pipe.constructor` | src/pipe.c:23-39 | an empty open pipe |
| `Pipes.Pipe.CopyIn` | src/pipe.c:77-86 | the copy loop enters bytes until none is left or the ring is full |
| `Pipes.Pipe.WriteFrom` | src/pipe.c:73-89 | all bytes entered exactly when they fit; otherwise the pipe is full and the writer asleep with the rest, or refused because nobody reads or it was killed; readers are woken unless it was refused |
| `Pipes.Pipe.CopyOut` | src/pipe.c:100-104 | the copy loop takes the oldest bytes |
| `Pipes.Pipe.ReadFrom` | src/pipe.c:91-108 | the oldest bytes, and writers are woken; asleep exactly on a pipe that was empty and may still be written, interrupted exactly there when killed; nothing, at once, on an empty pipe whose writing end is closed |
| `Pipes.Pipe.CloseEnd` | src/pipe.c:56-71 | closes that end and not the other, wakes all who sleep on it, and frees the pipe exactly when both are closed |
| `BufferState.StepKeepsInv` | src/consumer.c:128-187 | every statement of every thread keeps units, sleepers and ring in order |
| `BufferState.UnitsAreConserved` | src/semaphore.c:22-51 | semaphores are never negative, and empty plus full plus units in flight is 8 |
| `BufferState.MutualExclusion` | src/semaphore.c:65-89 | at most one thread is between its mut_p and its mut_v |
| `BufferState.NoSlotIsOverwritten` | src/consumer.c:139-142 | producers write only empty slots and consumers empty only full ones |
| `BufferState.FullSlotsFromHeadToTail` | src/consumer.c:128-187 | at every moment the full slots are the cyclic range from head to tail, less the one just emptied at head, plus the one just filled at tail |
| `BufferState.NobodyAtTheBuffer` | src/consumer.c:128-187 | while the mutex is free there are no such slots |
| `BufferState.SleeperLacksUnits` | src/semaphore.c:22-51 | a sleeper that wants k units sleeps on a value below k |
| `BufferEnds.RunKeepsSurplus` | src/consumer.c:128-187 | full slots plus items still to be made, less items still to be taken, is the same throughout a run |
| `BufferEnds.EverybodyFinishes` | src/consumer.c:128-187 | no deadlock: when rounds match, a run that cannot go on has all threads finished |
| `BufferEnds.EveryRunEnds` | src/consumer.c:128-187 | no run is longer than a bound given by its start |
| `BufferEnds.ProgramMatches` | src/consumer.c:131-162 | the rounds of the four producers and four consumers match |
| `BufferProgram.Shared.Wakeup` | src/semaphore.c:46-47 | exactly the sleepers on the semaphore are woken |
| `BufferProgram.Shared.SemP` | src/semaphore.c:22-37 | takes the units or sleeps |
| `BufferProgram.Shared.SemV` | src/semaphore.c:39-51 | gives the units and wakes the sleepers |
| `BufferProgram.Shared.Statement` | src/consumer.c:128-187 | each statement of a thread is one step of the protocol |
| `MkfsFiles.SetWordSets` | src/mkfs.c:55-65 | writing a little-endian address changes that address and no other |
| `MkfsInodes.InodeLayout` | src/mkfs.c:183-208 | at which bytes of a sector the fields of an inode are |
| `MkfsInodes.InodePlace` | src/mkfs.c:190-193 | eight inodes a sector, from sector 32 on |
| `MkfsInodes.BlockLayout` | src/mkfs.c:270-286 | twelve direct addresses, the others in the table |
| `MkfsFiles.HoldsOne` | src/mkfs.c:255-297 | a file has one content |
| `MkfsFiles.NoSharing` | src/mkfs.c:255-297 | no block, data or table, belongs to two files or twice to one |
| `MkfsFiles.HoldsFrame` | src/mkfs.c:255-297 | work on other files does not change what a file reads as |
| `MkfsFiles.AllocDirect` | src/mkfs.c:271-275 | allocating a direct block extends the file's blocks by one |
| `MkfsFiles.AllocTable` | src/mkfs.c:276-285 | the first indirect block takes a table and a data block |
| `MkfsFiles.AllocIndirect` | src/mkfs.c:280-285 | allocating an indirect block extends the file's blocks by one |
| `MkfsFiles.WriteAppends` | src/mkfs.c:287-290 | copying bytes behind the end of a file appends them |
| `Mkfs.OthersSound` | src/mkfs.c:255-297 | an append leaves every other inode's content unchanged |
| `Mkfs.InodeWritten` | src/mkfs.c:295-296 | the inode write completes its file and leaves the others as they were |
| `MkfsInodes.WriteChangesOne` | src/mkfs.c:183-208 | `winode` changes that inode and no other, although eight share the sector |
| `MkfsInodes.InodeAreaWhen` | src/mkfs.c:190-194 | an inode lies in the inode area if and only if its number is below 208; the next eight lie in the bitmap's sector, the others in the data area |
| `MkfsInodes.BitmapIsNoInode` | src/mkfs.c:246-248 | a bitmap whose ones all come first never holds an inode in use |
| `Mkfs.SurvivesBitmapWhen` | src/mkfs.c:237-251 | behind the bitmap write an inode reads as it was written if and only if its number is below 208 |
| `Mkfs.DataBlockHit` | src/mkfs.c:190-194 | an inode from 216 on overwrites a data block: files that do not refer to it are untouched, one whose data it is survives exactly if the bytes agree, one whose table it is does not |
| `MkfsInodes.MarkOne` | src/mkfs.c:247 | setting a bit of the bitmap changes that bit and no other |
| `Mkfs.Image.constructor` | src/mkfs.c:108-111 | a zeroed image without files |
| `Mkfs.Image.RInode` | src/mkfs.c:197-208 | the inode read is the one in its sector |
| `Mkfs.Image.WInode` | src/mkfs.c:183-195 | read, change and write back one sector; fails exactly behind the end of the image |
| `Mkfs.Image.IAlloc` | src/mkfs.c:223-235 | on any image the inode reads back with the type asked for, one link, size 0 and no block, and all other inodes as before; below 216 it is an empty file beside the others, from 216 on its sector is a data block |
| `Mkfs.Image.LocateDirect` | src/mkfs.c:271-275 | the address of a direct block, allocated if missing |
| `Mkfs.Image.LocateIndirect` | src/mkfs.c:276-286 | the address of an indirect block, allocated with its table if missing |
| `Mkfs.Image.IAppend` | src/mkfs.c:255-297 | the file reads as its old bytes followed by the new ones, all others as before; types, links and all other inodes are kept; blocks from `freeblock` on stay zero; succeeds exactly when size and image allow it |
| `Mkfs.FitsIs` | src/mkfs.c:255-297 | that condition in numbers: at most 140 blocks of 512 bytes, and one block more from the thirteenth on |
| `Mkfs.Image.BAlloc` | src/mkfs.c:237-251 | the bitmap marks exactly the metadata and the blocks that belong to files; the files of inodes below 208 are as before; an inode reads as it was written if and only if it is one of those |
| `Regex.ParsePrint` | src/grep.c:72-96 | every writable pattern is read back as itself |
| `Regex.PrintParse` | src/grep.c:72-96 | every string is the print of its parse |
| `Regex.WritableWhen` | src/grep.c:72-96 | the writable patterns are exactly those that some string is read as |
| `Regex.SpecialCharactersAre` | src/grep.c:72-106 | what the special characters mean, and that all others stand for themselves |
| `Regex.MatchesStar` | src/grep.c:98-106 | a repetition matches nothing, or one character and itself again |
| `Regex.MatchHere` | src/grep.c:84-96 | true if and only if some division of the text from this position fits the items |
| `Regex.MatchStar` | src/grep.c:98-106 | true if and only if the repetition and the rest fit from this position |
| `Regex.Match` | src/grep.c:72-82 | true if and only if the text contains a match |

## Left out

- Preemption inside a kernel call: see "Atomicity" above.
- Boot code, assembly, device drivers, trap frames and context switches: hardware; the disk is a map of blocks, the swap device a map of slots.
- `bread`, `bwrite` and `brelse`: a coherent cache, dirty buffers not recycled, atomic block writes.
- `console.c`, `sysfile.c`, `exec.c`, `syscall.c`, `runcmd` and small user programs: argument plumbing and I/O.
- `exec` and threads under paging: `exec` queues new pages under the pid of the old image (src/exec.c:59) and threads share a table but not a pid (src/process.c:449), so keys do not identify pages there.
- Pids above 0xfff under paging: `va | pid` is no longer a key then; `Swap.Memory.AllocUvm` asks for a pid below.
- Shrinking in the runs of `SwapState`: the code departs from flat memory there, exactly as `SwapLimits` and `SwapStale` say.
- A null `kalloc` in `walkpgdir`, `mappages` and `allocuvm`: with swapping on `kalloc` evicts or panics, so these branches are dead.
- The accessed bit and the answers of `sbrk` and `kalloc`: inputs of the model.
- Requests of 2^31 bytes or more to `sbrk`, whose argument is signed: `Malloc.Umalloc.Malloc` takes the answer of `sbrk` as given, a range above the heap or a refusal.
- Switching schedulers at run time and the FIFO scheme: `sched_fifo_init` frees entries while it iterates over them and `sched_priority_init` clears the wrong queue (src/scheduler_class.c:72-83, src/scheduler_class.c:182-189).
- `kill` as an event of kernel runs: under the priority scheme it breaks the ready queues, exactly as `KernelState.KillKeepsQueuesWhen` says.
- Swap.Memory.AllocSlab: counts slabs and the page an empty pool takes; which slab is handed out is modelled in `Slab`.
- Round trip of `>>`: the shell gives it the same tree as `>`, so it prints as `>`.
- The root directory's size fix-up and directory entries in mkfs: easy.
- Negative byte counts of pipe calls: they copy nothing, like a count of zero.
