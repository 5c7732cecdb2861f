# Proofs about the TPE2-SO kernel

A Dafny model of a small teaching kernel and two of its tools, with proofs about whole runs. Each
part follows one source file.

| files | source | what is modelled |
|---|---|---|
| `heap_layout.dfy`, `heap.dfy` | memory_manager.c | the first-fit heap: blocks over one arena, and the code on header words |
| `scheduler_spec.dfy`, `scheduler_runs.dfy`, `scheduler_effects.dfy`, `round_robin.dfy`, `scheduler.dfy` | scheduler.c | what each operation does, what every run keeps, who moves where, how long a turn lasts, and the code on linked nodes |
| `semaphores.dfy`, `semaphore_table.dfy`, `lists.dfy` | semaphores.c | semaphores composed with the scheduler, and the code on the table |
| `philosophers.dfy` | philosophers.c | the dining philosophers as a step relation, for any number of them |
| `pipe.dfy`, `pipe_runs.dfy` | pipe.c | the ring between 32-bit counters, and readers and writers over whole runs |
| `descriptors.dfy`, `descriptor_runs.dfy`, `fifo_runs.dfy`, `descriptor_table.dfy` | fd.c, pipe.c | reference-counted descriptors and FIFOs |
| `buddy_tree.dfy`, `buddy.dfy` | buddy.c | the buddy allocator |
| `bmfs.dfy` | bmfs.c | the directory of the file system utility |
| `numbers.dfy`, `decimal.dfy` | stringUtil.c | printing and parsing numbers |

`dafny verify dfyconfig.toml` checks everything.

The code that changes things in place is modelled by classes and methods. A method is proved
against a function on values that says what the operation does (`Scheduler.Scheduler.Schedule`
against `SchedulerSpec.Tick`, say), and the theorems about runs are about those functions.

## How the code is read

- Interrupts are off in the kernel, because system calls go through interrupt gates. A kernel call
  is one step up to the point where it gives up the processor; a call that sleeps goes on, later,
  in a step of its own (semaphores, pipes).
- Node allocation in the scheduler and the semaphores succeeds unless a parameter `memory` says
  that it does not. Priorities are at least 1, as commands.c:197 requires of its users.
- Nobody else wakes or kills a process that sleeps on a semaphore, a semaphore is not deleted while
  somebody sleeps on it, and no semaphore value reaches 2^64. Since the end of a foreground process
  wakes the shell (scheduler.c:314-344), none ends while the shell sleeps on a semaphore.
- `free` gets NULL or a live pointer. `startNode` lies outside the arena.
- No byte written to a pipe equals the end marker -1, nobody is in a call on an end that closes,
  and calls are shorter than 2^31 bytes. One reader and one writer are in a call at a time, which
  is what the semaphores of the pipe are for (`Semaphores.MutexAdmitsOne`).
- The PID fields of a new pipe are 0. `openPipe` (pipe.c:127-169) does not write them; left-over
  bytes there would unblock some process, if any, at the first read or write.
- Closes name slots from 3 on.
- File names are not empty, have at most 31 characters and do not start with the byte 1; a disk
  has at least the three blocks `initialize` insists on. `create` is asked for at least 1 MiB,
  which its callers check (bmfs.c:160 and 174).

Some places are modelled as they are evidently meant:

- scheduler.c:392 tests for an empty ring after line 390 has used `current`; the model tests first.
  scheduler.c:272 tests `== NULL` before using the pointer; the model tests `!= NULL`, as line 219.
- pipe.c:222 posts the semaphore numbered like the writer; the model posts `readqueue`, which
  line 196 waited for.
- buddy.c does not compile. The model has one level variable, line 152 calls `_alloc`, the block to
  merge at line 231 is chosen by the parity of the index as at line 212, and lines 244 to 246 read
  the level byte of the block.
- bmfs.c:785-802 fills a copy of the record; the model stores it in the directory. A directory
  without an end record counts 64 entries (line 730). The scan of lines 752 to 776 ends at the first
  deleted record, as the comment at 758 to 760 says; `Bmfs.GapAsWritten` is the scan as it stands.

## What turned out false

- References to pipe ends are leaked for good, exactly when `openPipe` is called with one
  descriptor free (it then stays in use and names a freed pipe), a process whose standard input or
  output is a pipe forks, or a process opens the same end of a FIFO again
  (`DescriptorRuns.AccountedExactly`, `DescriptorRuns.LeakedForGood`), as happens in runs
  (`DescriptorRuns.OneFreeEntryIsReached`, `DescriptorRuns.RedirectedForkLeaks`,
  `DescriptorRuns.SecondOpenLeaks`).
- A philosopher can starve: of two, one can eat for ever while the other tries again and again
  (`Philosophers.OneOfTwoCanStarve`), though it can always still come to eat
  (`Philosophers.EverybodyCanStillEat`).
- Closing an end of a pipe does not wake who sleeps at the other (`PipeRuns.CloseLeavesAsleep`,
  `PipeRuns.SleepsUntilWoken`), and closing the write end of a full pipe loses its contents
  (`PipeRuns.CloseKeepsBytes`, `PipeRuns.FullRingIsReached`).
- The comparison function of bmfs.c orders wrongly for some blocks from 2^31 on
  (`Bmfs.ComparisonIsExact` says which, `Bmfs.ComparisonOverflows` has examples), and its gap scan
  as written can choose blocks of a file (`Bmfs.WrittenScanExact`, `Bmfs.DeletedRecordMisleads`).
- The buddy allocator hands out blocks too small for requests within 17 bytes of 2^64
  (`Buddy.HoldsRequest`, `Buddy.TooSmallABlock`), and its count of used memory falls with every
  block given back (`Buddy.Allocator.UsedMemoryDrifts`, `Buddy.LendOnce`).
- `itoa` loses leading digits of some numbers from ten times 2^31 on (`Decimal.DecimalRoundTrip`
  says which, `Decimal.TenTimesTwoTo32` has one).

## Model

| member | source | states |
|---|---|---|
| `HeapLayout.EveryRunIsSound` | Kernel/MemoryManager/memory_manager.c:67-159 | Every run of allocations and releases of live pointers (or NULL) from a sound heap ends in a sound one: blocks tile the arena, the free list holds exactly the free blocks in strictly ascending order, no two free blocks touch, sizes are multiples of 8; and if nothing is live at the end the heap is the initial one |
| `HeapLayout.StepKeepsInv` | Kernel/MemoryManager/memory_manager.c:67-159 | One allocation or release keeps that invariant |
| `HeapLayout.InitialIsInv` | Kernel/MemoryManager/memory_manager.c:31-65 | The heap after initialisation is sound, with all bytes up to the sentinel free |
| `HeapLayout.ReleasingAllRestores` | Kernel/MemoryManager/memory_manager.c:115-159 | Releasing all live blocks, in any order and after any history, is a legal run and ends in the initial heap |
| `HeapLayout.DrainedHeapIsInitial` | Kernel/MemoryManager/memory_manager.c:115-159 | A sound heap without live blocks has exactly one free block, the whole arena |
| `HeapLayout.NullIsExact` | Kernel/MemoryManager/memory_manager.c:73-113 | alloc returns NULL exactly when the rounded request is 0 or no free block has the rounded size |
| `HeapLayout.RoundedMeaning` | Kernel/MemoryManager/memory_manager.c:72-80 | Rounding gives 0 exactly for the request 0 and for requests that do not survive 64-bit arithmetic; otherwise the least multiple of 8 that holds request and header |
| `HeapLayout.EarlyExitIsExact` | Kernel/MemoryManager/memory_manager.c:82-84 | The early exit on freeBytesRemaining never refuses a request that first fit would serve |
| `HeapLayout.FreeBytesBound` | Kernel/MemoryManager/memory_manager.c:82-84 | Each free block is at most the sum of the free sizes |
| `HeapLayout.GrantIsLowestFit` | Kernel/MemoryManager/memory_manager.c:86-112 | A granted payload is 8-aligned and comes from the lowest free block that fits; its block holds the request and at most 32 bytes more than the rounded size; the block is split, the rest staying free, exactly when more than 32 bytes would be left over |
| `HeapLayout.GrantFramesLive` | Kernel/MemoryManager/memory_manager.c:86-112 | An allocation leaves every live block as it was and makes only the granted one live |
| `HeapLayout.LivePayloads` | Kernel/MemoryManager/memory_manager.c:86-112 | Live payloads are 8-aligned, lie inside the arena, hold at least the requested size and are disjoint from every other block |
| `HeapLayout.BlocksTileArena` | Kernel/MemoryManager/memory_manager.c:31-159 | Every address of the arena below the sentinel is in exactly one block |
| `HeapLayout.FreeBlocksAreApart` | Kernel/MemoryManager/memory_manager.c:115-146 | The block behind a free block is live: no two free blocks are adjacent |
| `HeapLayout.BytesAreConserved` | Kernel/MemoryManager/memory_manager.c:108-157 | The free bytes are the arena less the bytes of the live blocks |
| `HeapLayout.AllocatedKeepsInv` | Kernel/MemoryManager/memory_manager.c:67-113 | An allocation keeps the invariant, and changes nothing when it returns NULL |
| `HeapLayout.CarveKeepsInv` | Kernel/MemoryManager/memory_manager.c:96-112 | Taking a block, split when more than 32 bytes are left over, keeps the invariant and takes exactly the bytes of the block from the free bytes |
| `HeapLayout.CutThenReleased` | Kernel/MemoryManager/memory_manager.c:101-106 | Splitting and listing the rest through addNodeToFreeList leaves the rest in place of the block, unmerged |
| `HeapLayout.ReleasedKeepsInv` | Kernel/MemoryManager/memory_manager.c:115-159 | Releasing a live block, merged with either neighbour or both, keeps the invariant and gives its bytes back to the free bytes |
| `HeapLayout.ReleasedFramesLive` | Kernel/MemoryManager/memory_manager.c:148-159 | A release makes exactly the released block not live and leaves the other live blocks as they were |
| `Heap.MemoryManager.constructor` | Kernel/MemoryManager/memory_manager.c:23-27 | Before its first use the manager stands for the initial heap |
| `Heap.MemoryManager.ListInit` | Kernel/MemoryManager/memory_manager.c:31-65 | Initialisation writes the headers of the initial heap and nothing else |
| `Heap.MemoryManager.Alloc` | Kernel/MemoryManager/memory_manager.c:67-113 | The code on header words does to the heap exactly what is described on blocks, returns the same pointer, and changes no byte of a live payload |
| `Heap.MemoryManager.AdjustSize` | Kernel/MemoryManager/memory_manager.c:72-80 | The test and the mask arithmetic compute the rounded size |
| `Heap.MemoryManager.FindFit` | Kernel/MemoryManager/memory_manager.c:86-94 | The walk over the next pointers ends at the first free block that fits, or at the sentinel, with its predecessor |
| `Heap.MemoryManager.TakeBlock` | Kernel/MemoryManager/memory_manager.c:96-106 | Unlinking, and splitting off the rest, does what taking a block is described to do |
| `Heap.MemoryManager.MarkBlock` | Kernel/MemoryManager/memory_manager.c:108-110 | The mark in the size word and the new count of free bytes make the heap whole again |
| `Heap.MemoryManager.AddNodeToFreeList` | Kernel/MemoryManager/memory_manager.c:115-146 | The walk and the two merges release the block; only header words change |
| `Heap.MemoryManager.LinkNode` | Kernel/MemoryManager/memory_manager.c:123-145 | The writes of the two merges and the link, in each of their combinations |
| `Heap.MemoryManager.Free` | Kernel/MemoryManager/memory_manager.c:148-159 | free of NULL does nothing; free of a live pointer releases its block; no byte of another live payload changes |
| `Heap.MemoryManager.Store` | Kernel/MemoryManager/memory_manager.c:67-159 | A write of a user into a live payload leaves the heap sound |
| `Heap.AddNodeSound` | Kernel/MemoryManager/memory_manager.c:115-146 | The header words after addNodeToFreeList describe the heap with the block released, and no other word changed |
| `Heap.AddWritesLinked` | Kernel/MemoryManager/memory_manager.c:115-146 | Those words form the linked free list of that heap |
| `Heap.WritesAgree` | Kernel/MemoryManager/memory_manager.c:123-145 | The code merges in one pass; linking first and then merging at each side leaves the same words |
| `Heap.UnlinkWhole` | Kernel/MemoryManager/memory_manager.c:96-98 | Unlinking a block that is not split leaves the links and sizes of the heap without it |
| `Heap.UnlinkCut` | Kernel/MemoryManager/memory_manager.c:98-104 | So does unlinking with both size words rewritten, for a block that is split |
| `Heap.MarkAllocated` | Kernel/MemoryManager/memory_manager.c:109-110 | Setting the top bit of the size and clearing next marks the block as live and leaves the list alone |
| `Heap.HeadersOutsidePayloads` | Kernel/MemoryManager/memory_manager.c:18-27 | No header word lies inside a payload |
| `Heap.HeaderWritesKeepPayloads` | Kernel/MemoryManager/memory_manager.c:67-159 | Code that writes header words only changes no payload |
| `SchedulerRuns.EveryRunIsSound` | Kernel/Scheduler/scheduler.c:24-95 | In every run from boot of creation, ticks, yields, blocks, unblocks, terminations and priority changes: each live pid is exactly once in exactly one of the ready ring and the blocked list, halt is 1 exactly when the idle context runs, credits stay between 1 and the priority (0 for the current process), and every context that does not run can be resumed where it was left |
| `SchedulerRuns.StepKeeps` | Kernel/Scheduler/scheduler.c:354-398 | One operation keeps that invariant, and one that goes through the scheduler continues at the stack pointer on record for whoever it dispatches: the one of its last interruption or of its creation |
| `SchedulerRuns.TickKeeps` | Kernel/Scheduler/scheduler.c:354-398 | A tick keeps each live process in exactly one list, except a head that terminated |
| `SchedulerRuns.TickContexts` | Kernel/Scheduler/scheduler.c:354-398 | A tick saves the interrupted context and hands out the stack pointer on record for the one dispatched, even if an unblock installed a new current process while idle |
| `SchedulerRuns.TurnedCredits` | Kernel/Scheduler/scheduler.c:378-389 | After the turn the head is ready and has at least one tick to spend, so that the decrement never underflows |
| `SchedulerRuns.DispatchedKeeps` | Kernel/Scheduler/scheduler.c:390-397 | Dispatching takes exactly one from the credit of the head |
| `SchedulerRuns.CreateKeeps` | Kernel/Scheduler/scheduler.c:24-59 | A new process joins the live ones, in one list |
| `SchedulerRuns.BlockKeeps` | Kernel/Scheduler/scheduler.c:163-208 | Blocking any pid keeps the invariant |
| `SchedulerRuns.UnblockKeeps` | Kernel/Scheduler/scheduler.c:210-249 | Unblocking any pid keeps the invariant, also while idle |
| `SchedulerRuns.UnblockCounts` | Kernel/Scheduler/scheduler.c:210-249 | Unblocking moves a blocked process to the ring and changes nothing for any other pid |
| `SchedulerRuns.YieldKeeps` | Kernel/Scheduler/scheduler.c:400-404 | Yielding keeps the invariant |
| `SchedulerRuns.TerminateKeeps` | Kernel/Scheduler/scheduler.c:251-349 | Terminating a current, ready or blocked process removes exactly that pid; pid 1 is never removed |
| `SchedulerRuns.HandBackKeeps` | Kernel/Scheduler/scheduler.c:313-317 | Giving the keyboard back to the shell when a foreground process ends keeps the invariant |
| `SchedulerRuns.PriorityKeeps` | Kernel/Scheduler/scheduler.c:146-161 | A priority change caps the credit and keeps the invariant |
| `SchedulerRuns.SearchFindsLive` | Kernel/Scheduler/scheduler.c:65-95 | Searching the ring and then the blocked list finds exactly the live pids |
| `SchedulerEffects.BlockMovesOther` | Kernel/Scheduler/scheduler.c:163-208 | Blocking another ready process moves it from the ring to the front of the blocked list, in state BLOCKED, with full credit and its stack pointer; all others keep record and order, and the caller runs on |
| `SchedulerEffects.BlockMovesCaller` | Kernel/Scheduler/scheduler.c:183-208 | A process that blocks itself goes there with the stack pointer it was interrupted at, and the next in the ring runs, or nobody |
| `SchedulerEffects.BlockElsewhere` | Kernel/Scheduler/scheduler.c:183-208 | Blocking a process that is not in the ring does nothing |
| `SchedulerEffects.UnblockMoves` | Kernel/Scheduler/scheduler.c:210-245 | An unblocked process goes right behind the current one, with the credit and stack pointer it had; unblocking any other does nothing |
| `SchedulerEffects.PriorityChanges` | Kernel/Scheduler/scheduler.c:146-161 | A priority change sets the priority of exactly that process, capping its credit, and nothing else |
| `SchedulerEffects.ForegroundChanges` | Kernel/Scheduler/scheduler.c:98-108 | Marking changes the foreground flag of exactly that process |
| `SchedulerEffects.HandBackMoves` | Kernel/Scheduler/scheduler.c:313-344 | The end of a foreground process brings the shell to the foreground and, if it was blocked, right behind the current process; the end of another changes nothing for it |
| `SchedulerEffects.TerminateTakesOther` | Kernel/Scheduler/scheduler.c:320-349 | Ending another process takes exactly that one out of its list; the caller runs on |
| `SchedulerEffects.TerminateTakesCaller` | Kernel/Scheduler/scheduler.c:309-319 | A process that ends itself is gone, and the next in the ring runs, or nobody |
| `SchedulerEffects.TerminateRefused` | Kernel/Scheduler/scheduler.c:304-349 | Ending the shell or an unknown process does nothing |
| `SchedulerEffects.CreateAppends` | Kernel/Scheduler/scheduler.c:24-59 | A new process goes to the end of the ring, in the background, with medium priority and full credit; process 0 only sets the idle context |
| `SchedulerEffects.TickMoves` | Kernel/Scheduler/scheduler.c:354-398 | A timer tick saves the stack pointer and takes one credit from who then runs: the same process, or, when it had none, the next one, and it waits at the end with full credit |
| `SchedulerEffects.TickLeavesIdle` | Kernel/Scheduler/scheduler.c:354-398 | A tick while idle keeps the idle context and dispatches the first process that has become ready, if any |
| `RoundRobin.TickTurnsRing` | Kernel/Scheduler/scheduler.c:354-398 | While every process of the ring is ready, a tick either runs the head on or turns the ring, and the ring stays so |
| `RoundRobin.TicksTurnRing` | Kernel/Scheduler/scheduler.c:354-398 | The same over any number of ticks |
| `RoundRobin.TurnLasts` | Kernel/Scheduler/scheduler.c:385-390 | Credit pays for as many ticks as it says |
| `RoundRobin.TurnEnds` | Kernel/Scheduler/scheduler.c:385-389 | The tick after the last credit turns the ring |
| `RoundRobin.TurnGoesOn` | Kernel/Scheduler/scheduler.c:385-397 | A process keeps the processor as long as it has credit |
| `RoundRobin.FullTurn` | Kernel/Scheduler/scheduler.c:385-397 | A turn that starts with full credit p lasts exactly p ticks, and the next process follows |
| `RoundRobin.Arrives` | Kernel/Scheduler/scheduler.c:354-398 | The j-th process of the ring is dispatched after an exact number of ticks, with the ring turned and refilled behind it |
| `RoundRobin.WaitBound` | Kernel/Scheduler/scheduler.c:354-398 | That number is at most the sum of the priorities, plus one tick if the head has not paid for any yet |
| `RoundRobin.DispatchedAfterWait` | Kernel/Scheduler/scheduler.c:354-398 | While only the timer interrupts, each ready process is dispatched after exactly that many ticks |
| `RoundRobin.EventTurnsRing` | Kernel/Scheduler/scheduler.c:354-404 | A tick and a yield of a calm scheduler move the ring, and leave it calm |
| `RoundRobin.RunsWithinWait` | Kernel/Scheduler/scheduler.c:354-404 | Whatever ticks and yields come, the j-th process of the ring runs after at most its number of ticks |
| `RoundRobin.WaitBehindHead` | Kernel/Scheduler/scheduler.c:354-404 | For a process other than the running one the sum of the priorities is enough in any case |
| `RoundRobin.NoStarvation` | Kernel/Scheduler/scheduler.c:354-404 | While the ready set and the priorities do not change, every ready process is dispatched within as many ticks and yields, in any order, as the sum of the ready priorities; only the running one, if it still has all its credit, may take one more until it runs again |
| `RoundRobin.NobodyStarves` | Kernel/Scheduler/scheduler.c:354-404 | That holds in every state reached from boot in which a process runs |
| `RoundRobin.RunningIsCalm` | Kernel/Scheduler/scheduler.c:354-404 | In such a state every process of the ring is ready, with credit, and none is idle |
| `Scheduler.Scheduler.RingIsClosed` | Kernel/Scheduler/scheduler.c:37-56 | next and prev are mutual inverses around the ring, counter is its length, and current is NULL exactly when counter is 0 |
| `Scheduler.Scheduler.AddProcess` | Kernel/Scheduler/scheduler.c:24-59 | The code on nodes creates the process at the end of the ring, sets the idle context for pid 0, and returns -1 without a change when memory runs out |
| `Scheduler.Scheduler.SearchReady` | Kernel/Scheduler/scheduler.c:65-73 | The walk of counter steps finds the first node of a pid, or NULL |
| `Scheduler.Scheduler.SearchBlocked` | Kernel/Scheduler/scheduler.c:75-84 | The walk to NULL finds the first node of a pid, or NULL |
| `Scheduler.Scheduler.SearchNode` | Kernel/Scheduler/scheduler.c:86-95 | The ring first, then the blocked list |
| `Scheduler.Scheduler.SetBackground` | Kernel/Scheduler/scheduler.c:98-108 | The flag of the process found, and no other, changes |
| `Scheduler.Scheduler.ChangePriority` | Kernel/Scheduler/scheduler.c:146-161 | Priority and capped credit of the process found change; -1 if there is none |
| `Scheduler.Scheduler.RemoveBlocked` | Kernel/Scheduler/scheduler.c:163-193 | The node leaves the ring, with current passed on, and goes to the front of the blocked list with full credit |
| `Scheduler.Scheduler.BlockProcess` | Kernel/Scheduler/scheduler.c:195-208 | Blocking the current process goes through the scheduler; another ready one is moved at once; -1 for any other pid |
| `Scheduler.Scheduler.UnblockProcess` | Kernel/Scheduler/scheduler.c:210-249 | The node leaves the blocked list and joins the ring right behind current |
| `Scheduler.Scheduler.RemoveTerminated` | Kernel/Scheduler/scheduler.c:251-293 | The node leaves whichever list it is in |
| `Scheduler.Scheduler.TerminateProcess` | Kernel/Scheduler/scheduler.c:305-349 | All branches of termination, with the return code |
| `Scheduler.Scheduler.Schedule` | Kernel/Scheduler/scheduler.c:354-398 | The timer interrupt on nodes is the tick described on values, and returns its stack pointer |
| `Scheduler.Scheduler.Yield` | Kernel/Scheduler/scheduler.c:400-404 | A yield gives up the rest of the credit and schedules |
| `Scheduler.LinkBehind` | Kernel/Scheduler/scheduler.c:234-241 | Linking a node between two neighbours gives the ring with that node; creation and unblocking both do it |
| `Scheduler.UnlinkFromRing` | Kernel/Scheduler/scheduler.c:166-179 | Joining the neighbours of a node gives the ring without it |
| `Semaphores.EveryRunCounts` | Kernel/Semaphores/semaphores.c:208-237 | In every run from boot, with any scheduling in between: value = initial + posts - completed waits, never below 0; a queue is non-empty only at value 0; the processes queued are exactly those asleep on the semaphore, and all are blocked |
| `Semaphores.MutexAdmitsOne` | Kernel/pipe/pipe.c:153-157 | A semaphore that starts at 1, as the two of a pipe do, and is posted only by who has completed a wait and not posted since, lets one process in at a time; its value is 0 exactly while one is inside |
| `Semaphores.EnteredKeeps` | Kernel/Semaphores/semaphores.c:208-237 | Each call, a sleep and the hand-over of a post among them, keeps value and number of processes inside at a sum of 1 |
| `Semaphores.WaitSegment` | Kernel/Semaphores/semaphores.c:208-224 | A wait is what the table does up to where the caller sleeps; nobody else resumes then |
| `Semaphores.PostSegments` | Kernel/Semaphores/semaphores.c:226-237 | A post is what the table does up to the yield and then the rest of the wait of the first sleeper, who runs next |
| `Semaphores.ExistsWhileOpen` | Kernel/Semaphores/semaphores.c:113-252 | In every run from boot a semaphore exists exactly while some process has opened it and not closed it since, and its list holds exactly these processes, each once |
| `Semaphores.OpenStartsAnew` | Kernel/Semaphores/semaphores.c:113-133 | An open starts a new semaphore, with the value asked for and nobody waiting, exactly when nobody has it open; otherwise value and queue stay |
| `Semaphores.CloseUsed` | Kernel/Semaphores/semaphores.c:239-252 | Closing takes the caller off the list, and the last one takes the semaphore along |
| `Semaphores.CallKeeps` | Kernel/Semaphores/semaphores.c:113-252 | One call, or one scheduler operation, keeps that invariant |
| `Semaphores.HandOver` | Kernel/Semaphores/semaphores.c:226-237 | A post that pops a sleeper makes the first one in the queue the very next process to run; it completes its wait without looking at the value, which is back at 0 before anybody else runs |
| `Semaphores.WokenRunsNext` | Kernel/Semaphores/semaphores.c:231-235 | Unblocking behind the current process and yielding dispatches the unblocked one |
| `Semaphores.SleepKeeps` | Kernel/Semaphores/semaphores.c:208-224 | A wait at value 0 leaves the process asleep at the end of the queue, and the invariant intact |
| `Semaphores.BlocksItself` | Kernel/Semaphores/semaphores.c:141-145 | A process that goes to sleep is in the blocked list |
| `Semaphores.OpLeavesBlocked` | Kernel/Semaphores/semaphores.c:141-145 | No scheduler operation but its own wakeup or end takes a process out of the blocked list |
| `Semaphores.BlockedDoesNotRun` | Kernel/Semaphores/semaphores.c:216-221 | A process in the blocked list is not the one that runs |
| `SemaphoreTable.SemaphoreTable.Search` | Kernel/Semaphores/semaphores.c:9-17 | The walk finds the semaphore of an identifier, or NULL |
| `SemaphoreTable.SemaphoreTable.Open` | Kernel/Semaphores/semaphores.c:113-133 | Codes 1, 0 and -1, and the table after each |
| `SemaphoreTable.SemaphoreTable.Wait` | Kernel/Semaphores/semaphores.c:208-224 | A wait up to where it sleeps: the table and the scheduler after it in each branch |
| `SemaphoreTable.SemaphoreTable.Take` | Kernel/Semaphores/semaphores.c:214-221 | The decrement, with or without a sleep before it |
| `SemaphoreTable.SemaphoreTable.Post` | Kernel/Semaphores/semaphores.c:226-237 | Adds one, pops and unblocks the first sleeper, and yields, in that order |
| `SemaphoreTable.SemaphoreTable.Close` | Kernel/Semaphores/semaphores.c:239-252 | Codes -1, -2 and 1; the last user takes the semaphore along |
| `SemaphoreTable.SemaphoreTable.Remove` | Kernel/Semaphores/semaphores.c:19-39 | Exactly the semaphore of that identifier leaves the list |
| `SemaphoreTable.Semaphore.AddActive` | Kernel/Semaphores/semaphores.c:41-63 | A process is listed once among those who opened the semaphore |
| `SemaphoreTable.Semaphore.RemoveActive` | Kernel/Semaphores/semaphores.c:65-88 | Its entry, and no other, leaves the list |
| `SemaphoreTable.Semaphore.IsActive` | Kernel/Semaphores/semaphores.c:147-156 | Whether a process opened the semaphore |
| `Philosophers.NeighboursNeverEatTogether` | Userland/SampleCodeModule/philosophers.c:26-51 | For every number of philosophers from 2 on, in every interleaving, no two neighbours eat at once |
| `Philosophers.NoLostWakeup` | Userland/SampleCodeModule/philosophers.c:26-51 | One waiting on its own semaphore at 0 is hungry and has a neighbour that eats, or that is between its THINKING write and its post |
| `Philosophers.OnlyHungryGetTokens` | Userland/SampleCodeModule/philosophers.c:41-51 | Who is about to post a token has a hungry neighbour on that side |
| `Philosophers.SomebodyCanStep` | Userland/SampleCodeModule/philosophers.c:26-51 | In every reachable state some philosopher can step |
| `Philosophers.EverybodyCanStillEat` | Userland/SampleCodeModule/philosophers.c:26-51 | From every reachable state every philosopher can still come to eat |
| `Philosophers.OneOfTwoCanStarve` | Userland/SampleCodeModule/philosophers.c:26-51 | But it need not: two philosophers have a run of any number of rounds, both stepping in each, in which one never eats |
| `Philosophers.StarvingIsReached` | Userland/SampleCodeModule/philosophers.c:26-51 | The table where one eats and the other waits, hungry and without a token, is reached from the start |
| `Philosophers.StarvingAgain` | Userland/SampleCodeModule/philosophers.c:26-51 | From there a round of steps of both leads back to it, and the one that waits does not eat on the way |
| `Philosophers.LeavesInside` | Userland/SampleCodeModule/philosophers.c:30-50 | Whoever holds the mutex can always go on and give it back |
| `Philosophers.StopsEating` | Userland/SampleCodeModule/philosophers.c:42-51 | One that eats can stop, when the mutex is free |
| `Philosophers.StartsEating` | Userland/SampleCodeModule/philosophers.c:26-40 | One whose neighbours do not eat can eat, when the mutex is free |
| `Philosophers.StepKeeps` | Userland/SampleCodeModule/philosophers.c:26-51 | Every step of every philosopher keeps the invariant behind the three |
| `Philosophers.StepOneInside` | Userland/SampleCodeModule/philosophers.c:30-50 | At most one philosopher is between taking and giving back the mutex, whose value is 0 exactly then |
| `Philosophers.StepNotForgotten` | Userland/SampleCodeModule/philosophers.c:31-50 | The part about tokens: stale ones may lie around, but none that is owed is missing |
| `Philosophers.StartIsSound` | Userland/SampleCodeModule/philosophers.c:106-125 | All thinking, mutex 1, no tokens |
| `Philosophers.Left` | Userland/SampleCodeModule/philosophers.c:20-20 | The macro gives the left neighbour around the table |
| `Philosophers.Right` | Userland/SampleCodeModule/philosophers.c:21-21 | The macro gives the right neighbour around the table |
| `Pipes.Pipe.constructor` | Kernel/pipe/pipe.c:148-151 | A new pipe is empty and open at both ends |
| `Pipes.Pipe.Read` | Kernel/pipe/pipe.c:198-216 | The loop delivers exactly the next bytes, at most count, up to the marker; it sleeps exactly when the ring is empty and the write end open |
| `Pipes.Pipe.ReadPipe` | Kernel/pipe/pipe.c:192-223 | The call: -1 if the read end is closed |
| `Pipes.Pipe.Write` | Kernel/pipe/pipe.c:232-252 | The loop puts as many bytes as fit; at a full ring it sleeps, or gives up with -1 if the read end is closed |
| `Pipes.Pipe.WritePipe` | Kernel/pipe/pipe.c:226-253 | The call: -1 if either end is closed |
| `Pipes.Pipe.TakeByte` | Kernel/pipe/pipe.c:211-215 | One byte leaves the front of the contents |
| `Pipes.Pipe.PutByte` | Kernel/pipe/pipe.c:245-245 | One byte joins the end of the contents |
| `Pipes.Pipe.CloseRead` | Kernel/pipe/pipe.c:171-174 | Closing the read end changes nothing else |
| `Pipes.Pipe.CloseWrite` | Kernel/pipe/pipe.c:174-177 | The marker goes behind the contents, which stay, unless the ring is full: then nothing is left to read |
| `Pipes.Pipe.AtEnd` | Kernel/pipe/pipe.c:199-214 | The two tests of the reader tell the end of the contents and the empty, open pipe |
| `Pipes.Pipe.Full` | Kernel/pipe/pipe.c:234-234 | The test of the writer tells the full ring, also when a counter has wrapped around |
| `Pipes.CellOfNext` | Kernel/pipe/pipe.c:213-215 | The ring runs on unbroken when a counter wraps around 2^32 |
| `Pipes.EmptyAndFull` | Kernel/pipe/pipe.c:199-234 | Comparing the 32-bit counters tells 0 and 4096 bytes in flight |
| `PipeRuns.ReadsArePrefixOfWrites` | Kernel/pipe/pipe.c:171-253 | In every run the bytes read, in order, followed by the at most 4096 in the ring (or those lost in the close of a full one), are the bytes written by the calls that returned and, behind them, by the one in progress |
| `PipeRuns.EveryCallReturns` | Kernel/pipe/pipe.c:190-253 | In every run each read returns the number of bytes it delivered, fewer than asked for only if none are left, and 0 only behind the close of the write end; each write returns its full length, having put all its bytes, or -1 exactly when an end was closed at its start or the read end has been closed and the rest does not fit; reads one after the other are a prefix of writes one after the other |
| `PipeRuns.StepLogs` | Kernel/pipe/pipe.c:190-253 | Every segment and close keeps the account of returned calls behind it |
| `PipeRuns.CloseKeepsBytes` | Kernel/pipe/pipe.c:174-177 | Closing the write end keeps the bytes in flight if and only if the ring is not full: whatever follows, readers get all of them or none; once a full ring was closed, every later read returns 0 |
| `PipeRuns.ClosedRunBytes` | Kernel/pipe/pipe.c:171-223 | In every run behind the close of the write end, readers get what was left in the ring, in order, and nothing else |
| `PipeRuns.FullRingIsReached` | Kernel/pipe/pipe.c:226-253 | A write of 4096 bytes returns and leaves a full ring; the close then loses all of them |
| `PipeRuns.SleepersHaveReason` | Kernel/pipe/pipe.c:192-253 | At every context switch a reader asleep means an empty ring, a writer asleep a full one, and so never both; spurious wakeups do no harm |
| `PipeRuns.StepKeeps` | Kernel/pipe/pipe.c:171-253 | Every segment, wakeup and close keeps the invariant behind the two |
| `PipeRuns.ClosedPipeDrains` | Kernel/pipe/pipe.c:171-223 | After the write end is closed no read sleeps, the remaining bytes come in order, and then every read returns 0 |
| `PipeRuns.CloseLeavesAsleep` | Kernel/pipe/pipe.c:171-178 | In every reachable state, closing an end leaves somebody asleep in a call if and only if the other side was asleep, though its call would now return at once |
| `PipeRuns.SleepsUntilWoken` | Kernel/pipe/pipe.c:171-253 | Whatever follows the close of an end, a process is asleep on the pipe if and only if it was then and nobody outside has woken it since |
| `PipeRuns.SleepersExist` | Kernel/pipe/pipe.c:192-240 | A reader of an empty pipe, and a writer of more bytes than the ring holds, are left asleep by a close of the other end |
| `DescriptorRuns.EveryReferenceCounts` | Kernel/pipe/fd.c:18-56 | In every run of opening, forking, closing, ending and FIFO steps, ref is the number of processes that hold the entry plus the FIFOs that name it plus the references leaked; an entry in use names a pipe that is not freed, except that a lost one, held by nobody, names a freed pipe |
| `DescriptorRuns.AccountedExactly` | Kernel/pipe/fd.c:18-56 | Nothing is leaked if and only if the run never makes a pipe while exactly one entry is free, forks a process whose standard slots were redirected to an entry in use, or opens an end of a FIFO in a process that has it open |
| `DescriptorRuns.StepLeaks` | Kernel/pipe/fd.c:18-56 | One operation leaks a reference if and only if it is one of these three |
| `DescriptorRuns.LeakedForGood` | Kernel/pipe/fd.c:18-56 | From any reached state on, what is leaked stays so, and more is leaked exactly in the runs with one of these operations |
| `DescriptorRuns.RedirectedForkLeaks` | Kernel/Scheduler/scheduler.c:17-22 | A run of three operations shows the second: open a pipe, redirect standard input to it, fork |
| `DescriptorRuns.SecondOpenLeaks` | Kernel/pipe/pipe.c:78-102 | A run of three operations shows the third: make a FIFO and open its read end twice |
| `DescriptorRuns.FreedExactlyOnce` | Kernel/pipe/fd.c:32-46 | A pipe is freed at most once, and is freed exactly when no entry that names it, lost ones aside, has references |
| `DescriptorRuns.NothingLeaks` | Kernel/pipe/fd.c:32-46 | When the last process and the last FIFO are gone, a pipe has been freed, once, if and only if no leaked reference holds one of its ends; so all have after a run that leaks nothing |
| `DescriptorRuns.StepKeeps` | Kernel/pipe/fd.c:18-56 | One operation keeps the invariant |
| `DescriptorRuns.OpenPipeExact` | Kernel/pipe/pipe.c:127-169 | Opening a pipe loses an entry if and only if exactly one is free (and memory does not run out first) |
| `DescriptorRuns.OneFreeEntryIsLost` | Kernel/pipe/pipe.c:134-145 | With exactly one free entry, that entry stays in use, and names a freed pipe |
| `DescriptorRuns.OneFreeEntryIsReached` | Kernel/pipe/pipe.c:127-169 | A run gets there: 126 pipes opened and one descriptor closed; the next pipe loses the entry |
| `DescriptorRuns.OpenCases` | Kernel/pipe/pipe.c:134-146 | openPipe succeeds exactly when two entries are free |
| `DescriptorRuns.OpenPipeKeeps` | Kernel/pipe/pipe.c:127-169 | The process then holds both entries, each once; or nothing changes, or an entry is lost |
| `DescriptorRuns.CloseKeeps` | Kernel/pipe/fd.c:32-46 | Closing a slot gives up one reference |
| `DescriptorRuns.CloseTables` | Kernel/pipe/fd.c:32-46 | A pipe end closes when its entry reaches 0, and the pipe is freed when that was the second |
| `DescriptorRuns.ForkKeeps` | Kernel/Scheduler/scheduler.c:17-22 | A child inherits every slot of its parent, each counted once more; the references for redirected standard slots are nobody's |
| `DescriptorRuns.ExitKeeps` | Kernel/Scheduler/scheduler.c:295-298 | A process that ends gives up all its slots |
| `DescriptorRuns.MkFifoKeeps` | Kernel/pipe/pipe.c:43-76 | A FIFO holds a reference to both its entries |
| `DescriptorRuns.OpenFifoKeeps` | Kernel/pipe/pipe.c:78-102 | Opening an end of a FIFO adds a reference; the second one for the same slot is nobody's |
| `DescriptorRuns.RmFifoKeeps` | Kernel/pipe/pipe.c:104-124 | Removing a FIFO gives up both |
| `DescriptorRuns.MapStdKeeps` | Kernel/Scheduler/scheduler.c:114-126 | Redirecting slots 0 and 1 takes no reference |
| `FifoRuns.OpenedByName` | Kernel/pipe/pipe.c:78-102 | In every run each name stands for one FIFO, with a read and a write end of one pipe; opening an end by name gives an entry of the kind asked for, counted once more, and -1 if there is no such name |
| `FifoRuns.MadeExactly` | Kernel/pipe/pipe.c:43-76 | mkFifo succeeds exactly if the name is not 0 and not taken, a FIFO is free and openPipe succeeds |
| `FifoRuns.RemovedExactly` | Kernel/pipe/pipe.c:104-124 | rmFifo succeeds exactly if there is a FIFO of that name, and then there is none |
| `FifoRuns.StepFifos` | Kernel/pipe/pipe.c:43-124 | One operation keeps names unique and ends of their kind |
| `FifoRuns.ForkInherits` | Kernel/Scheduler/scheduler.c:17-22 | A child gets the slots of its parent, and no other process changes |
| `FifoRuns.MapStdRedirects` | Kernel/Scheduler/scheduler.c:114-126 | Redirection changes slots 0 and 1 of one process, and only if it has both descriptors |
| `DescriptorTable.Table.InitFd` | Kernel/pipe/fd.c:18-30 | The loop takes the first free entry from 3 on |
| `DescriptorTable.Table.CloseFd` | Kernel/pipe/fd.c:32-46 | One reference less, and the pipe end closed at 0 |
| `DescriptorTable.Table.FdDup` | Kernel/pipe/fd.c:48-56 | One reference more, if the entry is in use |
| `DescriptorTable.Table.OpenPipe` | Kernel/pipe/pipe.c:127-169 | Both entries and the pipe, or a refusal |
| `DescriptorTable.Table.ClosePipe` | Kernel/pipe/pipe.c:171-190 | The end closes; with both closed the pipe is freed |
| `DescriptorTable.Table.MkFifo` | Kernel/pipe/pipe.c:43-76 | The first free FIFO, refused for identifier 0, a taken identifier, or lack of room |
| `DescriptorTable.Table.FindFree` | Kernel/pipe/pipe.c:49-60 | One loop finds the free FIFO and the taken identifier |
| `DescriptorTable.Table.OpenFifo` | Kernel/pipe/pipe.c:78-102 | The descriptor of the end asked for, or -1 |
| `DescriptorTable.Table.RmFifo` | Kernel/pipe/pipe.c:104-124 | Both descriptors closed, the FIFO free |
| `DescriptorTable.Table.ForkFd` | Kernel/Scheduler/scheduler.c:17-22 | The loop copies and duplicates all slots |
| `DescriptorTable.Table.CloseSlots` | Kernel/Scheduler/scheduler.c:295-298 | The loop closes the slots from 3 on |
| `Buddy.Allocator.AllocBlock` | Kernel/MemoryManager/buddy.c:137-176 | A block of the level becomes live, and no other changes; it is, or is split off, the smallest free block that is large enough; NULL exactly when no block of that size or larger is free |
| `Buddy.Allocator.Alloc` | Kernel/MemoryManager/buddy.c:179-195 | The smallest block larger than request and overhead, with its level byte; NULL exactly when there is none; it holds the request if and only if request and overhead do not wrap around 2^64 |
| `Buddy.Allocator.FreeBlock` | Kernel/MemoryManager/buddy.c:198-238 | Exactly that block stops being live; it merges upwards until its buddy is not free |
| `Buddy.Allocator.FreeMem` | Kernel/MemoryManager/buddy.c:241-247 | The level byte leads to the block of the payload, whose size is taken off the used memory |
| `Buddy.Allocator.constructor` | Kernel/MemoryManager/buddy.c:119-134 | One free block of level 0 |
| `Buddy.Allocator.AllFreed` | Kernel/MemoryManager/buddy.c:198-238 | When nothing is live, whatever happened before, only the block of level 0 is left |
| `Buddy.Allocator.FindInList` | Kernel/MemoryManager/buddy.c:92-106 | The walk tells whether a block is free |
| `Buddy.GetLevel` | Kernel/MemoryManager/buddy.c:108-117 | The loop finds the level of the smallest block larger than a size |
| `Buddy.SizeIsWidth` | Kernel/MemoryManager/buddy.c:11-11 | The macro gives exact halves down to level 26 and 0 below |
| `Buddy.ArenaIsTiled` | Kernel/MemoryManager/buddy.c:137-238 | Free and live blocks partition the arena: each address is in exactly one |
| `Buddy.BlocksAreAligned` | Kernel/MemoryManager/buddy.c:137-238 | Each block lies in the arena, aligned to its own size |
| `BuddyTree.BuddyIsSibling` | Kernel/MemoryManager/buddy.c:209-213 | The parity of the index finds the only sibling |
| `BuddyTree.UsedBlocksDecide` | Kernel/MemoryManager/buddy.c:198-238 | The live blocks decide everything else: two allocators without free siblings and with the same live blocks have the same free blocks |
| `Buddy.MergeLeaves` | Kernel/MemoryManager/buddy.c:226-237 | Two free siblings become their parent, and nothing else changes |
| `Buddy.FreeLeaf` | Kernel/MemoryManager/buddy.c:221-224 | A block whose buddy is not free is freed alone, and no two siblings are free |
| `Buddy.HalveLeaf` | Kernel/MemoryManager/buddy.c:158-169 | Splitting leaves the right half free and the left one to be taken |
| `Buddy.TakeLeaf` | Kernel/MemoryManager/buddy.c:173-174 | Taking a free block leaves no two siblings free |
| `Buddy.HoldsRequest` | Kernel/MemoryManager/buddy.c:181-193 | A payload holds its request if and only if request and overhead do not wrap around 2^64 |
| `Buddy.TooSmallABlock` | Kernel/MemoryManager/buddy.c:181-193 | 2^64 - 16 bytes get a block of two |
| `Buddy.Allocator.UsedMemoryDrifts` | Kernel/MemoryManager/buddy.c:189-246 | At any time after any history, used memory is the sum of the live requests less the surplus of every block given back; with nothing live it is 0 if and only if nothing was ever given back |
| `Buddy.LendOnce` | Kernel/MemoryManager/buddy.c:179-246 | One block given out and back leaves the count negative, whatever its size |
| `Bmfs.FilesNeverOverlap` | Bootloader/BMFS/bmfs.c:696-815 | Over any run of create and delete from a formatted disk, files lie in blocks 1 to n - 2 and no two share a block |
| `Bmfs.CreateIsFirstFit` | Bootloader/BMFS/bmfs.c:696-815 | create takes the lowest place where the size, rounded up to blocks of 2 MiB, fits; it is refused for the name exactly if it exists, else for the directory exactly if all 64 records are files, and else for space exactly if the file fits nowhere |
| `Bmfs.CreateKeeps` | Bootloader/BMFS/bmfs.c:696-815 | create keeps the invariant of the directory |
| `Bmfs.CreateAddsOne` | Bootloader/BMFS/bmfs.c:785-802 | create adds the new file, with the size rounded up to blocks of 2 MiB, and changes no other |
| `Bmfs.CreateTakesFirstSlot` | Bootloader/BMFS/bmfs.c:723-802 | The record takes the place of the first deleted one, or follows the last |
| `Bmfs.DeleteKeeps` | Bootloader/BMFS/bmfs.c:897-918 | delete keeps the invariant of the directory |
| `Bmfs.DeleteRemovesOne` | Bootloader/BMFS/bmfs.c:897-918 | delete removes the file of that name and changes no other; it succeeds exactly if there is one |
| `Bmfs.FirstGapIsLowest` | Bootloader/BMFS/bmfs.c:752-776 | The scan over sorted records finds the lowest place that fits, or tells that there is none |
| `Bmfs.ScanGoesOn` | Bootloader/BMFS/bmfs.c:769-776 | A gap too small is passed by; the difference that measures a gap is never negative |
| `Bmfs.SortOrders` | Bootloader/BMFS/bmfs.c:750-750 | Sorting puts files first, by starting block, and deleted records last |
| `Bmfs.SortMembers` | Bootloader/BMFS/bmfs.c:750-750 | and permutes the records |
| `Bmfs.ComparisonIsExact` | Bootloader/BMFS/bmfs.c:683-694 | The comparison truncated to an int orders two files correctly if and only if their distance modulo 2^32 keeps to the right half, as it does for blocks below 2^31; it is the distance if and only if that fits |
| `Bmfs.ComparisonOverflows` | Bootloader/BMFS/bmfs.c:693-693 | It is wrong for 2^31 against 0 and for blocks 2^32 apart, and right for 2^31 against 1 |
| `Bmfs.DeletedRecordMisleads` | Bootloader/BMFS/bmfs.c:752-776 | On a directory reached by two creations and a deletion, the scan exactly as written chooses blocks of a file |
| `Bmfs.WrittenScanExact` | Bootloader/BMFS/bmfs.c:752-776 | On every sound directory the scan as written gives the place intended if and only if the file fits somewhere or no deleted file ended at least its size before the last block; otherwise the place it gives does not fit |
| `Bmfs.ScanAsWritten` | Bootloader/BMFS/bmfs.c:752-776 | The same from any point of the scan over sorted records |
| `Bmfs.ScansDeleted` | Bootloader/BMFS/bmfs.c:762-776 | Behind the files, the scan takes the end of some deleted extent that is far enough from the last block, if there is one |
| `Bmfs.Disk.FindFile` | Bootloader/BMFS/bmfs.c:205-231 | The loop finds the record of a name before the end of the directory |
| `Bmfs.Disk.CountRecords` | Bootloader/BMFS/bmfs.c:723-742 | One loop counts the records in use and finds the slot for a new one |
| `Bmfs.Disk.FindGap` | Bootloader/BMFS/bmfs.c:749-776 | The loop computes the first gap |
| `Bmfs.Disk.Create` | Bootloader/BMFS/bmfs.c:696-815 | create on the directory in memory |
| `Bmfs.Disk.Delete` | Bootloader/BMFS/bmfs.c:897-918 | delete on the directory in memory |
| `Numbers.RoundTrip` | Userland/SampleCodeModule/stringUtil.c:100-214 | For every value and base 2 to 36, parsing what was printed returns the same 32 bits and consumes exactly the digits, in unsigned and in signed mode |
| `Numbers.SignedRoundTrip` | Userland/SampleCodeModule/stringUtil.c:162-214 | In signed mode every number from -2^31 to 2^31 - 1, written with its sign, comes back as it is, the sign consumed |
| `Numbers.NothingToRead` | Userland/SampleCodeModule/stringUtil.c:162-214 | Where no digit is, nothing is stored; a minus sign is consumed in signed mode, and is no digit in unsigned mode |
| `Numbers.FirstDigitsCount` | Userland/SampleCodeModule/stringUtil.c:176-182 | With a length limit only the first digits count: the value without its last digits |
| `Numbers.PrintedPlainly` | Userland/SampleCodeModule/stringUtil.c:100-127 | Numbers are printed in digits and capital letters, without leading zeros |
| `Numbers.SmallLetterIsRead` | Userland/SampleCodeModule/stringUtil.c:186-193 | Small letters are read like capital ones |
| `Numbers.UintToBase` | Userland/SampleCodeModule/stringUtil.c:100-127 | The digit loop and the reversal write the digits, a closing 0 and nothing more, and return their number |
| `Numbers.LowDigits` | Userland/SampleCodeModule/stringUtil.c:106-111 | The loop produces the digits, last first |
| `Numbers.Reverse` | Userland/SampleCodeModule/stringUtil.c:115-124 | The two pointers reverse the digits in place |
| `Numbers.StrToIntBase` | Userland/SampleCodeModule/stringUtil.c:162-214 | Sign, digits and stored value; the result stays as it was if no digit was read |
| `Numbers.ParseDigits` | Userland/SampleCodeModule/stringUtil.c:176-203 | The loop stops at the first character that is no digit, and its 32-bit number is the worth of the digits |
| `Numbers.DigitsAreWorth` | Userland/SampleCodeModule/stringUtil.c:106-111 | The digits written are worth the number |
| `Numbers.DigitsAreDigits` | Userland/SampleCodeModule/stringUtil.c:109-109 | Every character written is a digit of the base, and none a minus sign |
| `Numbers.DigitIsRead` | Userland/SampleCodeModule/stringUtil.c:186-193 | A digit written is read as itself |
| `Numbers.HornerWraps` | Userland/SampleCodeModule/stringUtil.c:201-202 | Wrapping around at every step or once at the end is the same |
| `Numbers.StopsBehindDigits` | Userland/SampleCodeModule/stringUtil.c:176-199 | Parsing stops right behind the digits |
| `Decimal.DecimalRoundTrip` | Userland/SampleCodeModule/stringUtil.c:8-44 | Reading what itoa wrote gives the number back if and only if the number is below ten times 2^31, or has eleven digits and its tenth, as an int, has ten |
| `Decimal.TenTimesTwoTo32` | Userland/SampleCodeModule/stringUtil.c:24-33 | 42949672960 is printed as one digit and read as 0 |
| `Decimal.EnoughDigits` | Userland/SampleCodeModule/stringUtil.c:24-26 | The digits itoa counts are enough for exactly those numbers |
| `Decimal.SmallNumbersRoundTrip` | Userland/SampleCodeModule/stringUtil.c:22-26 | In particular for all numbers below ten times 2^31 |
| `Decimal.Itoa` | Userland/SampleCodeModule/stringUtil.c:22-44 | The code writes that text, with a leading 0 for a single digit, and returns its digit count |
| `Decimal.OneDigitPrinted` | Userland/SampleCodeModule/stringUtil.c:28-34 | A number of one digit is printed with a leading 0 |
| `Decimal.OthersPrinted` | Userland/SampleCodeModule/stringUtil.c:36-43 | Any other number whose digits are counted well is printed in just these digits, without a leading 0 |
| `Decimal.Atoi` | Userland/SampleCodeModule/stringUtil.c:8-19 | The loop reads the leading digits |
| `Decimal.LastDigitsValue` | Userland/SampleCodeModule/stringUtil.c:37-41 | The digits written are worth the number modulo the power of ten |

## Left out

- Graphics, fonts, speaker, clock, keyboard, snakes and shell: device and user interface code.
- Pure64, the boot sectors and all assembly; `acquire` and `release` never contend with interrupts off.
- processManagement.c: the layout of a new stack. Processes get increasing pids, and a stack pointer.
- Killing or unblocking a sleeper of a semaphore, and deleting a semaphore with sleepers: the code makes no promise there.
- The start of a second round of philosophers over the old vector: the model starts with all thinking.
- bmfs.c: initialize, read, write, list and the image file behind the directory.
- stringUtil.c: copying and comparing strings.
- Semaphores.EveryRunCounts: runs in which a foreground process ends while the shell sleeps on a semaphore; `unblockProcess(1)` then forces it awake.
- Semaphores.CallKeeps: the same.
- Pipes.Pipe.constructor: sets the PID fields, which the code leaves as it finds them.
- Heap.MemoryManager.Alloc: memory is kept in 64-bit words at multiples of 8, so that payload bytes appear as words.
- Heap.MemoryManager.ListInit: lines 38 to 42, for an arena that does not start at a multiple of 8, are never taken.
- SemaphoreTable.SemaphoreTable.Wait: ends where the process sleeps; `Take` is the rest of the call, and `Semaphores.PostSegments` puts the two together.
- SemaphoreTable.Semaphore.AddActive: the linked queues of processes are sequences, and their nodes never run out.
- DescriptorTable.Table.CloseFd: fd.c:34 admits the identifier 255, one past the table, which the model answers with -1; no slot and no FIFO ever holds it.
- DescriptorTable.Table.ClosePipe: the deletion of the two semaphores, and pipe.c:39-41 and 161-188, `pipeTable`, which is used to list pipes only.
- Buddy.Allocator.Alloc: blocks smaller than the 16 bytes of a list entry, which only requests within 17 bytes of 2^64 lead to, overlap their neighbours when they are listed; the lists of the model are apart from the arena. The count of used memory does not wrap around 2^63.
- Buddy.Allocator.AllocBlock: the linked lists of free blocks are sequences, and addresses count from the start of the arena.
- Scheduler.Scheduler.Schedule: the memory collision check of scheduler.c:362-366, which halts the machine.
- Scheduler.Scheduler.RemoveTerminated: unlinks the node; its descriptors are closed in `DescriptorTable.Table.CloseSlots`, and scheduler.c:300-301, giving back its memory, is not part of this model.
- Bmfs.SortOrders: the library's qsort is modelled as insertion sort with the comparison function.
