# Jrinx kernel: a verified model of its stateful core

Jrinx is a small multi-core RISC-V kernel written in Rust. This project models the parts of it that keep
state and carry invariants, and proves what those parts promise. `dafny verify dfyconfig.toml` checks everything.

| file | what it models |
|---|---|
| `Addressing.dfy`, `PageTable.dfy` | Sv32 and Sv39 index splitting, the page table entry encoding, and the radix-tree page table with its frame map |
| `FastPriorityQueue.dfy` | the 64-lane bitmap priority queue |
| `Executor.dfy`, `Inspector.dfy`, `Runtime.dfy` | the three scheduler levels: tasks, executors, and the per-CPU run loops with the machine-wide halting protocol |
| `ScheduleTable.dfy` | the cyclic schedule table, its validator and its walk |
| `TimedEvents.dfy`, `TimerQueue.dfy`, `Clock.dfy` | the timeout/cancel race, the event queue with the hardware timer, and the tick arithmetic |
| `StackAllocator.dfy`, `StackRuns.dfy` | guard-separated executor stacks: the allocator object, and its calls from any threads at once |
| `Intervals.dfy` | interval subtraction by a sweep with an "infinity" weight |
| `ListenOwnership.dfy`, `ListenTable.dfy` | TCP sockets driven from any threads over one port table, the table itself, and the ephemeral port search |
| `IrqRouting.dfy` | interrupt enable words and the strategies that rewrite them |
| `Errors.dfy` | failure values, `Option`, `Result` |

Code that updates objects in place is a class whose methods are proved against functions on the abstract
contents. Four concurrent protocols (halting, timeout against cancel, stack allocation, socket ownership) are transition systems in which
every step is one critical section or atomic action of the source, and the theorems hold for every interleaving.

Hardware, assembly and external crates appear as parameters: frames that the allocator still has (`supply`), whether a page can be mapped
(`mapOk`), what an executor or a task does while it runs (`Slice`, `Poll`), clock readings, and which connections smoltcp considers established.

## What turned out not to hold

The code is modelled as it is. Where a natural promise fails, there is a concrete run and the exact condition.

- **Stacks stay in their region.** The bound check leaves out the guard. A stack may end one guard size past the region; with the
  configured sizes the 33rd stack on riscv32 and the 15873rd on riscv64 lie entirely outside, on riscv64 where the device region
  starts (`Overrun`, `KernelOverrun`). An allocation keeps all stacks inside exactly when its slot is recycled or
  `next + size + guard` is in the region (`StaysInside`).
- **Schedule windows are disjoint.** They are within a frame; across frames exactly when the last window ends before the first of the
  next frame starts, which the validator does not check (`FrameBoundary`, `AcceptedButOverrunning`).
- **An accepted inspector is periodic.** Its entry count times its period is the frame size exactly when its offsets are distinct;
  empty windows may share one (`PeriodFillsFrame`, `AcceptedButNotPeriodic`).
- **An accepted table can be run.** The empty table is accepted, and on it, and no other, `sched_next` indexes out of range
  (`SchedNext`, `EmptyTableAccepted`).
- **The order of the entries does not matter to the validator.** The sort leaves entries of one offset in any order. An accepted table stays accepted
  in every sorted order exactly when no empty window shares its offset with a non-empty one (`AnyOrderExactly`, `OrderMatters`).
- **A task that yields lets all others of its priority go first.** Exactly when no other task has an entry of that priority behind an entry
  that the task already had in the queue (`YieldPromiseExactly`); with a wake still queued it can resume too early (`YieldWithWakeQueued`).
- **An executor runs its tasks to completion.** It finishes when its queue is empty, and is dropped with the tasks that then wait for a
  wake; none is left exactly when every task has returned ready (`Executor.Run`, `RunAccount`, `FinishesTooEarly`).
- **A finished inspector is dropped.** An inspector that a visit emptied is dropped exactly when the slice that emptied it was not marked
  pending; otherwise it is empty and pending, and no later visit drops it (`Visit`, `Stranded`).
- **Halting loses no work.** A CPU is left without work exactly when it has left `Unused` or never booted; one that booted and is still
  `Unused` loses its inspectors (`HaltLosesExactly`, `HaltWithWorkLeft`).
- **The timer follows the queue.** `remove` programs the timer of the CPU it runs on. A cancel from another CPU leaves the owner's timer
  right exactly when another event is at least as early, and overwrites the caller's (`Remove`, `RemoteCancel`). After the drain, the handler takes
  an interrupt that is still pending for a stray one and detaches the timer: exactly when the earliest remaining time lies before the end
  of the current tick, and then that event is lost (`HandleInterrupt`, `LostInsideTick`, `LostEvent`).
- **The clock is monotone.** `get_time` multiplies in 64 bits. The clock is monotone up to a tick exactly when the product does not wrap by
  then; at 10 MHz it wraps after about half an hour (`MonotoneExactly`, `ClockWraps`).
- **`unmap` succeeds only on a mapped page.** It succeeds exactly when a frame is recorded and the tables exist, which a failed `map` followed by
  a `map` of a neighbour brings about; in every case the page ends up unmapped (`Unmap`, `UnmapUnmapped`, `NewAndUnmapUnmapped`).
- **`accept` takes connections of its own socket.** It does exactly when the socket still answers for the port that was read; a shutdown
  and new bind in between makes it take a connection of another socket (`AcceptsItsOwn`, `CrossedAccept`).
- **Subtracted addresses are never yielded.** A point is yielded exactly when its added bounds outnumber 32767 times its subtracted ones,
  so the result is exact for up to 32767 added bounds (`SweepResult`, `Outweighed`).
- **The routing strategies work on every board.** The load strategies go through CPU 0, for which the SiFive board has no context, so they get
  through on virtio only (`MinLoad`, `MinCount`). On a SiFive board the rotation that comes round to CPU 0 leaves the UART interrupt
  enabled nowhere, and one started on CPU 1 fails at once (`Rotate`, `InitAndRotate`).

## Model

| member | source | states |
|---|---|---|
| `Addressing.IndexesInjective` | kern/modules/addr/src/lib.rs:23-36 | two canonical pages with the same indexes are the same page, for two and three levels |
| `Addressing.FrameInWindow` | kern/modules/addr/src/lib.rs:15-17 | the linear-map address of every usable frame has its first index in the linear-map window |
| `Addressing.WindowExactly` | kern/modules/config/src/arch/riscv.rs:1-46 | a root index is in the window exactly when some usable frame has it |
| `Addressing.PermRoundTrip` | kern/modules/paging/src/arch/riscv/mod.rs:84-89 | the eight permission bits read back from a word are the ones put in |
| `Addressing.EntryRoundTrip` | kern/modules/paging/src/arch/riscv/mod.rs:62-90 | decoding an encoded entry gives the page-aligned address and the permission asked for with A added if it is readable and D if it is writable, flag by flag; it is valid exactly when V was given |
| `Addressing.EntryLayout` | kern/modules/paging/src/arch/riscv/mod.rs:62-75 | the entry bit by bit: frame number from bit ten up, then D, A, G, U, X, W, R, V, where W sets D and R sets A |
| `Addressing.CanonicalNumber` | kern/modules/addr/src/lib.rs:23-36 | a canonical page is recovered from the bits that the indexes see |
| `Addressing.IndexLayout` | kern/modules/addr/src/lib.rs:23-36 | the indexes with the page offset are the digits of the translated bits of the address |
| `Paging.NewRoot` | kern/modules/paging/src/arch/riscv/boot.rs:133-136 | the new root has a valid entry exactly where the upper half of the boot table has one |
| `Paging.NewTree` | kern/modules/paging/src/common.rs:69-76 | a new table is well shaped, owns its root frame and maps no user page |
| `Paging.KeysApart` | kern/modules/paging/src/common.rs:50-103 | a user page is never the linear-map address of a frame, so the two kinds of key in `frames` cannot collide |
| `Paging.AtPath` | kern/modules/paging/src/common.rs:77-90 | every walk stays inside owned tables, reached by entries that are links and not huge pages, and stands where its indexes say |
| `Paging.AddTableLeaves` | kern/modules/paging/src/common.rs:99-104 | linking in an empty table changes no mapping of any page |
| `Paging.SetLeafLeaves` | kern/modules/paging/src/common.rs:52-53 | writing a leaf entry changes the mapping of that page and of no other |
| `Paging.MapView` | kern/modules/paging/src/common.rs:48-55 | installing an entry adds exactly that mapping to the page map |
| `Paging.MapFailedView` | kern/modules/paging/src/common.rs:50-52 | a `map` that runs out of frames leaves no dangling leaf and no mapping changed |
| `Paging.UnmapView` | kern/modules/paging/src/common.rs:57-65 | clearing an entry removes exactly that mapping and leaves no dangling leaf |
| `Paging.TablesAlive` | kern/modules/paging/src/common.rs:103-103 | every table frame in use is kept alive by `frames` |
| `Paging.LastCallWins` | kern/modules/paging/src/common.rs:42-65 | after any run of calls a page maps to what the last successful `map` gave it, or nothing after an `unmap` |
| `Paging.UndecidedPageKept` | kern/modules/paging/src/common.rs:42-65 | calls for other pages, and failed maps, never change what a page maps to |
| `Paging.PageTable.constructor` | kern/modules/paging/src/common.rs:69-76 | a new page table is valid, maps nothing and shares the kernel entries |
| `Paging.PageTable.Find` | kern/modules/paging/src/common.rs:77-90 | returns the last-level table exactly when all tables above it exist |
| `Paging.PageTable.Lookup` | kern/modules/paging/src/common.rs:31-40 | answers from the page map; the recorded frame is always there when it is read |
| `Paging.PageTable.Translate` | kern/modules/paging/src/common.rs:20-29 | answers the mapped frame plus the offset, and fails exactly on unmapped pages |
| `Paging.PageTable.AddTable` | kern/modules/paging/src/common.rs:99-104 | a fresh zeroed frame becomes an owned table, and no leaf changes |
| `Paging.PageTable.FindOrCreate` | kern/modules/paging/src/common.rs:92-108 | succeeds exactly when enough frames are left for the missing tables; no leaf changes either way |
| `Paging.PageTable.Map` | kern/modules/paging/src/common.rs:42-55 | the page map gains exactly this mapping, or none when frames run out; the invariant holds in both cases |
| `Paging.PageTable.Install` | kern/modules/paging/src/common.rs:52-54 | writing the entry of the recorded frame adds exactly that mapping |
| `Paging.PageTable.Unmap` | kern/modules/paging/src/common.rs:57-65 | the page map loses exactly this page; success exactly when a frame was recorded and the tables exist |
| `Paging.RunCalls` | kern/modules/paging/src/common.rs:42-65 | after any run of calls, with an allocator that may run dry at any of them, the table is valid and its page map is the replay of the calls |
| `Paging.RunThenLookup` | kern/modules/paging/src/common.rs:31-65 | `lookup` after any run answers with the frame of the last deciding `map` and its permission with V, with A if readable and D if writable, every other flag as asked; it fails after a deciding `unmap` |
| `Paging.SupplyComplete` | kern/modules/paging/src/common.rs:99-99 | a frame that nobody keeps alive is on offer to a call unless the limit of that call is reached |
| `Paging.MappedCanBeUnmapped` | kern/modules/paging/src/common.rs:57-65 | a mapped page is recorded and has its tables, so unmapping it succeeds |
| `Paging.UnmapUnmapped` | kern/modules/paging/src/common.rs:42-65 | on any table: after a failed map of a page and a map of a neighbour, unmap of the page succeeds although it was never mapped |
| `Paging.NewAndUnmapUnmapped` | kern/modules/paging/src/common.rs:57-76 | such a run on a new table |
| `FastPq.SetBitSpec` | kern/modules/util/src/fastpq.rs:40-41 | setting a bit of the occupancy word changes that bit only |
| `FastPq.ClearBitSpec` | kern/modules/util/src/fastpq.rs:54-54 | clearing a bit changes that bit only |
| `FastPq.HighBitSpec` | kern/modules/util/src/fastpq.rs:49-49 | the leading-zeros formula finds the highest set bit |
| `FastPq.FrontUnique` | kern/modules/util/src/fastpq.rs:45-58 | there is one oldest entry of the highest priority |
| `FastPq.PopLane` | kern/modules/util/src/fastpq.rs:50-51 | popping a lane removes its oldest entry and leaves the other lanes alone |
| `FastPq.HighestLane` | kern/modules/util/src/fastpq.rs:49-51 | the head of the highest non-empty lane is the front of the whole queue |
| `FastPq.NoOvertaking` | kern/modules/util/src/fastpq.rs:38-58 | when an entry reaches the front, everything that was ahead of it with at least its priority has been taken out, whatever happened in between |
| `FastPq.TrackedInOrder` | kern/modules/util/src/fastpq.rs:38-58 | entries never change their order |
| `FastPq.FastPriorityQueue.Enqueue` | kern/modules/util/src/fastpq.rs:38-43 | appends to the abstract queue; a bit is set exactly when its lane is not empty |
| `FastPq.FastPriorityQueue.Dequeue` | kern/modules/util/src/fastpq.rs:45-58 | takes the oldest entry of the highest priority; none exactly when nothing is queued |
| `FastPq.RunQueue` | kern/modules/util/src/fastpq.rs:38-58 | over any run the bitmap queue gives the answers of the stable priority queue and holds the same entries |
| `FastPq.TrackAppend` | kern/modules/util/src/fastpq.rs:38-58 | where an entry stands after two runs in a row is where the second takes it from where the first left it |
| `Executors.BookSpawn` | kern/modules/multitask/src/executor.rs:137-144 | a spawn keeps polls + queued entries = 1 + wakes for every live task |
| `Executors.BookWake` | kern/modules/multitask/src/executor.rs:239-241 | so does a wake, of a live or a completed task |
| `Executors.BookTake` | kern/modules/multitask/src/executor.rs:173-177 | taking an entry leaves one poll owed, or none if the task has completed |
| `Executors.BookPoll` | kern/modules/multitask/src/executor.rs:179-191 | a poll settles the entry that was taken |
| `Executors.BookDone` | kern/modules/multitask/src/executor.rs:186-189 | completion takes the task out of the books of live tasks |
| `Executors.Executor.constructor` | kern/modules/multitask/src/executor.rs:92-121 | a new executor has its root task live and queued once |
| `Executors.Executor.SpawnTask` | kern/modules/multitask/src/executor.rs:137-144 | queues the id first and registers it unless it is live; the books balance also when it is refused |
| `Executors.Executor.WakeTask` | kern/modules/multitask/src/executor.rs:239-241 | queues the task with its own priority, also between a dequeue and its poll and after the task has completed |
| `Executors.Executor.NextId` | kern/modules/multitask/src/executor.rs:173-173 | takes out the oldest entry of the highest priority |
| `Executors.Executor.PollTask` | kern/modules/multitask/src/executor.rs:179-191 | the whole executor afterwards: one poll more, the wakes, spawns and queue entries of the poll, the priority of the task as the current one, a waker for it, and completion if it returned ready |
| `Executors.WakesCounted` | kern/modules/multitask/src/executor.rs:239-241 | the actions of a poll add to the account of a known task exactly the wakes of that task |
| `Executors.RoundAccount` | kern/modules/multitask/src/executor.rs:173-191 | a turn adds exactly its poll, if the task was picked, and the wakes of the poll |
| `Executors.Executor.RunOne` | kern/modules/multitask/src/executor.rs:173-194 | one turn of the loop, exactly: the front entry goes, its task is polled if it is live and skipped if completed; the executor finishes exactly on an empty queue, when every live task has used up its wakes |
| `Executors.Executor.Run` | kern/modules/multitask/src/executor.rs:165-195 | the whole loop, with whatever is queued between its turns, is the run of the specification; finished exactly when it finds the queue empty, and then without live tasks exactly when all are done |
| `Executors.RunAccount` | kern/modules/multitask/src/executor.rs:165-195 | over any run the account of a task has grown by exactly the polls and wakes that happened, and it is done exactly when a poll of it returned ready |
| `Executors.FinishesTooEarly` | kern/modules/multitask/src/executor.rs:173-194 | a finished executor that still has a waiting task |
| `Executors.NothingSlipsAhead` | kern/modules/multitask/src/lib.rs:110-118 | no later entry of the same task gets in front of a queued one |
| `Executors.OnePriority` | kern/modules/multitask/src/executor.rs:239-241 | all entries of a task have its priority |
| `Executors.YieldOrder` | kern/modules/multitask/src/lib.rs:102-122 | when a task is resumed, every entry that stood ahead of its first one with equal or higher priority has been taken, for any queue and any operations |
| `Executors.HigherGone` | kern/modules/multitask/src/lib.rs:102-122 | nor is any entry of higher priority left, wherever it stood |
| `Executors.YieldPromiseExactly` | kern/modules/multitask/src/lib.rs:102-122 | every entry of another task queued at the yield with equal or higher priority goes first exactly when no other task of the same priority stands behind an entry the task already had |
| `Executors.OwnWakesPassNobody` | kern/modules/multitask/src/lib.rs:110-118 | any number of further wakes of the task itself break nothing |
| `Executors.YieldWithWakeQueued` | kern/modules/multitask/src/lib.rs:110-118 | a queue on which another task is passed over |
| `Executors.TraceRuns` | kern/modules/multitask/src/executor.rs:165-195 | the queue of the executor after any run of its loop is the stable priority queue after the trace of that run |
| `Executors.TracePriority` | kern/modules/multitask/src/executor.rs:239-241 | everything a run queues for a known task has its priority |
| `Executors.ExecutorYieldOrder` | kern/modules/multitask/src/lib.rs:102-122 | the yield order on the executor itself, for any run of its loop |
| `Inspectors.TakeOut` | kern/modules/multitask/src/inspector.rs:135-137 | queue ids plus the switched-in executor are the registered ids, each once, also after a dequeue |
| `Inspectors.Inspector.constructor` | kern/modules/multitask/src/inspector.rs:46-59 | a new inspector is idle with its root executor queued |
| `Inspectors.Inspector.Register` | kern/modules/multitask/src/inspector.rs:86-98 | a known id is refused and changes nothing; a new one is registered and joins the queue last |
| `Inspectors.Inspector.MarkPending` | kern/modules/multitask/src/inspector.rs:73-84 | refused when idle, idempotent otherwise |
| `Inspectors.Inspector.SetCurrent` | kern/modules/multitask/src/inspector.rs:149-164 | clearing does not take away a pending mark |
| `Inspectors.Inspector.Take` | kern/modules/multitask/src/inspector.rs:135-137 | takes the front executor; an empty queue means an empty registry |
| `Inspectors.Inspector.PutBack` | kern/modules/multitask/src/inspector.rs:191-199 | a finished executor is unregistered, any other joins the queue last with its priority; neither unwrap fails |
| `Inspectors.Inspector.RunOne` | kern/modules/multitask/src/inspector.rs:167-207 | the front executor runs; the queue loses it, gains what it registers and, unless it finishes, gains it again last; no executor is lost |
| `Inspectors.Inspector.Run` | kern/modules/multitask/src/inspector.rs:166-208 | the run passes through groups each of which is the one before after one slice; the loop ends only with an empty registry or a pending mark |
| `Inspectors.TraceRuns` | kern/modules/multitask/src/inspector.rs:166-208 | the queue of executors after any rounds is the stable priority queue after the same puts and gets |
| `Inspectors.TakesTurns` | kern/modules/multitask/src/inspector.rs:166-208 | an executor runs only after all those of equal or higher priority that were queued before it have run, whatever they register |
| `Inspectors.Inspector.Visit` | kern/modules/multitask/src/runtime.rs:285-304 | a drained inspector is dropped exactly when it was idle or had an executor to run; an emptied one exactly when the last slice was not marked; an empty pending one never |
| `Inspectors.Stranded` | kern/modules/multitask/src/runtime.rs:295-304 | an inspector that stays empty and pending, and is not dropped, however often it is visited |
| `Runtimes.ConservedKept` | kern/modules/multitask/src/runtime.rs:271-306 | every step keeps queue plus inspector in hand equal to the registry, each once |
| `Runtimes.QueueOwnStep` | kern/modules/multitask/src/runtime.rs:212-224 | what each step does to the queue: a pop takes the first, a registration and an unfinished inspector join last, nothing else changes it |
| `Runtimes.FirstInFirstOut` | kern/modules/multitask/src/runtime.rs:271-306 | over any stretch of any run, what a CPU pops followed by what is then queued is what was queued followed by what has joined |
| `Runtimes.PoppedInTurn` | kern/modules/multitask/src/runtime.rs:271-306 | the inspector queued at position i is popped after exactly the i ahead of it |
| `Runtimes.RoundRobin` | kern/modules/multitask/src/runtime.rs:295-304 | when an unfinished inspector is next popped, exactly those queued when it came back have been popped in between, each once and in order |
| `Runtimes.BetweenPops` | kern/modules/multitask/src/runtime.rs:271-306 | between two pops of an inspector that stays registered, every inspector queued at the first is popped exactly once, in order, and then those that joined before it was put back |
| `Runtimes.BegunKept` | kern/modules/multitask/src/runtime.rs:271-306 | a booted CPU that is still `Unused` has something to run |
| `Runtimes.OthersKeep` | kern/modules/multitask/src/runtime.rs:308-339 | a CPU's step can only raise another CPU's interrupt |
| `Runtimes.InterruptsAreKept` | kern/modules/multitask/src/runtime.rs:141-166 | a pending interrupt stays until its CPU takes it or wakes, and both clear it |
| `Runtimes.LastArrival` | kern/modules/multitask/src/runtime.rs:320-337 | the last CPU to reach its endpoint has woken one that is already there |
| `Runtimes.StepKeepsInv` | kern/modules/multitask/src/runtime.rs:141-166 | every step of every CPU keeps the protocol invariant |
| `Runtimes.RunKeepsInv` | kern/modules/multitask/src/runtime.rs:141-166 | it holds in every state of every run |
| `Runtimes.HaltedMeansAllDone` | kern/modules/multitask/src/runtime.rs:308-318 | on several CPUs the machine halts only when every started CPU is at its endpoint with nothing queued or registered |
| `Runtimes.HaltLosesExactly` | kern/modules/multitask/src/runtime.rs:308-318 | in a halted state, on any number of CPUs, a CPU has no work left exactly when it has left `Unused` or never booted; a single CPU has none |
| `Runtimes.NobodyIsStranded` | kern/modules/multitask/src/runtime.rs:159-164 | while two or more started CPUs are all at the endpoint and the machine runs, one of them is due to look again |
| `Runtimes.StillRechecks` | kern/modules/multitask/src/runtime.rs:159-164 | no step of another CPU takes that back |
| `Runtimes.RecheckHalts` | kern/modules/multitask/src/runtime.rs:308-318 | its own steps lead to the decision, and the decision is to halt |
| `Runtimes.HaltWithWorkLeft` | kern/modules/multitask/src/runtime.rs:312-318 | a run that halts with an inspector queued on a CPU still `Unused` |
| `ScheduleTables.SortKeepsGroups` | kern/modules/multitask/src/runtime.rs:424-427 | sorting by inspector and offset gives each inspector its entries in table order |
| `ScheduleTables.CheckGroup` | kern/modules/multitask/src/runtime.rs:427-454 | true exactly when the group has one period and duration and all its cyclic gaps equal the period |
| `ScheduleTables.CheckWindows` | kern/modules/multitask/src/runtime.rs:411-422 | true exactly when each offset is in the frame and each window ends by the next one |
| `ScheduleTables.Valid` | kern/modules/multitask/src/runtime.rs:410-457 | true exactly when windows and every inspector's group are in order |
| `ScheduleTables.New` | kern/modules/multitask/src/runtime.rs:343-360 | gives the same entries sorted by offset when these are accepted, and fails otherwise |
| `ScheduleTables.AnyOrderExactly` | kern/modules/multitask/src/runtime.rs:348-348 | an accepted table stays accepted in every order the sort may choose exactly when no empty window shares its offset with a non-empty one |
| `ScheduleTables.OrderMatters` | kern/modules/multitask/src/runtime.rs:416-420 | two entries that are accepted one way round and rejected the other |
| `ScheduleTables.DisjointInFrame` | kern/modules/multitask/src/runtime.rs:411-422 | windows of one frame are pairwise disjoint |
| `ScheduleTables.EvenlySpaced` | kern/modules/multitask/src/runtime.rs:438-454 | entry i of an accepted group starts i periods after the first |
| `ScheduleTables.PeriodFillsFrame` | kern/modules/multitask/src/runtime.rs:438-454 | entry count times period is the frame size exactly when offsets are distinct |
| `ScheduleTables.AcceptedIsPeriodic` | kern/modules/multitask/src/runtime.rs:410-457 | in an accepted table, an inspector with non-empty windows fills the frame with its period |
| `ScheduleTables.StartsArePeriodic` | kern/modules/multitask/src/runtime.rs:362-400 | starts over all frames are the arithmetic progression from the first offset |
| `ScheduleTables.EveryTermIsAStart` | kern/modules/multitask/src/runtime.rs:362-400 | and every term of the progression is a start |
| `ScheduleTables.FrameBoundary` | kern/modules/multitask/src/runtime.rs:411-422 | windows of different frames are disjoint exactly when the last one ends before the next frame's first |
| `ScheduleTables.AcceptedButOverrunning` | kern/modules/multitask/src/runtime.rs:411-422 | an accepted table whose window overruns the frame |
| `ScheduleTables.AcceptedButNotPeriodic` | kern/modules/multitask/src/runtime.rs:442-449 | an accepted table with two empty windows at one offset |
| `ScheduleTables.StartsNeverGoBack` | kern/modules/multitask/src/runtime.rs:394-397 | start instants never go backwards, also across frames |
| `ScheduleTables.SchedTable.Start` | kern/modules/multitask/src/runtime.rs:362-364 | the base of the walk becomes the clock reading |
| `ScheduleTables.SchedTable.SchedNext` | kern/modules/multitask/src/runtime.rs:366-400 | call k returns entry k mod n and arms, as numbers, the window end `base + (k div n) * frame + offset + duration` and the start if it still lies ahead; the index is out of range exactly on the empty table |
| `ScheduleTables.KeptExactly` | kern/modules/multitask/src/runtime.rs:366-377 | the armed events that a call keeps are exactly those that have not retired, each as often as before |
| `ScheduleTables.KeptInOrder` | kern/modules/multitask/src/runtime.rs:366-377 | in their order: those of a first part, then those of the rest |
| `ScheduleTables.EmptyTableAccepted` | kern/modules/multitask/src/runtime.rs:366-371 | the empty table is accepted and the first call on it fails |
| `TimedEvents.StepKeepsOwner` | kern/modules/timed-event/src/lib.rs:85-119 | once a call has removed the event from the queue, it stays the only one |
| `TimedEvents.CallsAreArrivals` | kern/modules/timed-event/src/lib.rs:108-119 | in every run call c is of the kind of the c-th arrival |
| `TimedEvents.RunHasOwner` | kern/modules/timed-event/src/lib.rs:108-119 | the call that removed the event is the first that came to the queue |
| `TimedEvents.AtMostOnce` | kern/modules/timed-event/src/lib.rs:85-123 | in every interleaving at most one callback runs, once; a call that returns has run the callback of the kind it arrived with; the status names it; the handler is never missing after a removal |
| `TimedEvents.ExactlyOnce` | kern/modules/timed-event/src/lib.rs:108-119 | when all calls have ended, the first one at the queue succeeded, the callback of its own kind has run, and all others were turned away |
| `TimedEvents.StatusIsFinal` | kern/modules/timed-event/src/lib.rs:97-97 | the status changes once |
| `TimerQueues.RetainAgrees` | kern/modules/timed-event/src/lib.rs:172-175 | removing an id from both keeps heap and registry in agreement, without duplicates |
| `TimerQueues.TimedEventQueue.Peek` | kern/modules/timed-event/src/lib.rs:164-168 | gives the least (time, id); the registry lookup always succeeds |
| `TimerQueues.TimedEventQueue.PeekOutdated` | kern/modules/timed-event/src/lib.rs:151-154 | none exactly when nothing is due |
| `TimerQueues.TimedEventQueue.UpdateTimer` | kern/modules/timed-event/src/lib.rs:180-186 | the caller's timer becomes the earliest time or MAX, and no other timer changes |
| `TimerQueues.TimedEventQueue.Create` | kern/modules/timed-event/src/lib.rs:71-83 | the event is registered under a new id and the timer follows the queue |
| `TimerQueues.TimedEventQueue.Remove` | kern/modules/timed-event/src/lib.rs:170-178 | succeeds exactly for a registered event; a right timer of the owner stays right exactly when the caller is the owner, the event is unknown, or another event is at least as early |
| `TimerQueues.StillFollows` | kern/modules/timed-event/src/lib.rs:170-186 | a timer left alone while an event is removed stays right exactly when another event is as early |
| `TimerQueues.RemoteCancel` | kern/modules/timed-event/src/lib.rs:115-119 | a cancel from another CPU that leaves the owner's timer armed for nothing and the caller's own event without a timer |
| `TimerQueues.TimedEventQueue.Fire` | kern/modules/timed-event/src/lib.rs:109-113 | the event is removed before its handler runs; the registry is then the old one without the event and what the handler cancels, with one new id per time it creates; the timer follows the queue even if it did not before |
| `TimerQueues.FireEffect` | kern/modules/timed-event/src/lib.rs:85-113 | id by id: of the old events exactly the fired and the cancelled ones are gone, and there is exactly one new event per created time, with that time |
| `TimerQueues.FiresByTime` | kern/modules/trap/src/timer_int.rs:17-21 | events fire by time, and those of one time in the order of their creation |
| `TimerQueues.FiredFirst` | kern/modules/trap/src/timer_int.rs:17-21 | whatever the handler did, all that is still queued comes after the event that fired |
| `TimerQueues.TimedEventQueue.Drain` | kern/modules/trap/src/timer_int.rs:17-21 | from any queue, with other CPUs cancelling events at any moment: the loop ends, takes events up in (time, id) order, each one due, fires those nobody cancelled after the look, leaves none due, and loses none but those taken up or cancelled; the timer is right exactly when the cancels since the last event that fired kept it right; the registry afterwards is, as an equality, what the turns make of it |
| `TimerQueues.TimedEventQueue.RemoteAll` | kern/modules/timed-event/src/lib.rs:115-119 | cancels by other CPUs keep the owner's timer right exactly as long as each leaves an event that is as early |
| `TimerQueues.TimedEventQueue.Turn` | kern/modules/trap/src/timer_int.rs:17-21 | one turn of the loop, with cancels before the look and between the look and the timeout, which then fails; the registry and the next id afterwards as equalities |
| `TimerQueues.TimedEventQueue.Timeout` | kern/modules/trap/src/timer_int.rs:18-20 | the event looked at fires, with its handler's whole effect, unless it was cancelled meanwhile; all that is left comes after it |
| `TimerQueues.KeepsAppend` | kern/modules/timed-event/src/lib.rs:170-186 | whether a sequence of cancels keeps the timer right is decided step by step |
| `TimerQueues.TimedEventQueue.HandleInterrupt` | kern/modules/trap/src/timer_int.rs:10-27 | the timer is detached exactly when the tick programmed for the earliest remaining event has come, that is, when its time lies before the end of the tick |
| `TimerQueues.TimedEventQueue.CheckStray` | kern/modules/trap/src/timer_int.rs:23-26 | the second half of the handler, and when it detaches the timer |
| `TimerQueues.MaxReached` | kern/modules/hal/src/arch/riscv/cpu.rs:31-36 | a timer at MAX is pending from the tick programmed for `Duration::MAX` |
| `TimerQueues.LostInsideTick` | kern/modules/trap/src/timer_int.rs:17-26 | with the clock last read in the same tick, the event is lost exactly when its time lies strictly inside that tick |
| `TimerQueues.LostEvent` | kern/modules/trap/src/timer_int.rs:10-27 | an event for 150 ns at 10 MHz that stays in the queue with the timer at MAX |
| `Clock.MaxIsNever` | kern/modules/hal/src/arch/riscv/cpu.rs:31-36 | `Duration::MAX` programs tick 2^64 - 1 at every frequency up to a gigahertz |
| `Clock.ProgrammedTickIsClose` | kern/modules/hal/src/arch/riscv/cpu.rs:22-36 | the clock at the programmed tick is at most the requested time and less than one tick and one nanosecond before it |
| `Clock.ReadIsRoundedDown` | kern/modules/hal/src/arch/riscv/cpu.rs:22-36 | when a tick is a whole number of nanoseconds, it is the time rounded down to ticks |
| `Clock.DueAtItsTick` | kern/modules/hal/src/arch/riscv/cpu.rs:22-36 | an event is due at its tick exactly when its time is a whole number of ticks |
| `Clock.MonotoneExactly` | kern/modules/hal/src/arch/riscv/cpu.rs:22-29 | up to a gigahertz, the clock is monotone up to a tick exactly when the 64-bit product has not wrapped or the frequency is not set; then it stands at zero |
| `Clock.FallsAtWrap` | kern/modules/hal/src/arch/riscv/cpu.rs:25-25 | at every such frequency it falls at the first tick that wraps |
| `Clock.TickReached` | kern/modules/hal/src/arch/riscv/cpu.rs:31-36 | the tick programmed for a time has come exactly when the time lies before the end of the current tick |
| `Clock.ClockWraps` | kern/modules/hal/src/arch/riscv/cpu.rs:25-25 | at 10 MHz the clock falls from 1844 seconds to 29 nanoseconds in one tick, and is monotone exactly until then |
| `StackAllocators.RoundUp` | kern/modules/stack-alloc/src/lib.rs:49-49 | the least page multiple that is at least the size |
| `StackAllocators.SlotsDisjoint` | kern/modules/stack-alloc/src/lib.rs:51-65 | two slots, guard included, have no address in common, whatever their use |
| `StackAllocators.CachedIsUnmapped` | kern/modules/stack-alloc/src/lib.rs:82-86 | no page of a cached slot is mapped |
| `StackAllocators.OwnerUnique` | kern/modules/stack-alloc/src/lib.rs:67-69 | a page belongs to one page of one stack |
| `StackAllocators.TakeBooks` | kern/modules/stack-alloc/src/lib.rs:51-65 | handing out a slot keeps all books and the bound, and the slot was neither in use nor mapped |
| `StackAllocators.Release` | kern/modules/stack-alloc/src/lib.rs:74-80 | a freed slot is on no list until its pages are unmapped |
| `StackAllocators.PutBack` | kern/modules/stack-alloc/src/lib.rs:86-86 | a slot without pages goes to the front of the list of its size |
| `StackAllocators.StaysInside` | kern/modules/stack-alloc/src/lib.rs:53-61 | exactly when an accepted allocation keeps all stacks inside the region |
| `StackAllocators.NothingMapped` | kern/modules/stack-alloc/src/lib.rs:67-69 | no page of a slot being handed out is mapped, so none is mapped twice |
| `StackAllocators.StackAllocator.constructor` | kern/modules/stack-alloc/src/lib.rs:30-46 | the guard is rounded up and the first slot starts one guard before the region |
| `StackAllocators.StackAllocator.TakeSlot` | kern/modules/stack-alloc/src/lib.rs:51-63 | the most recently freed slot of that size, or the next fresh one |
| `StackAllocators.StackAllocator.Claim` | kern/modules/stack-alloc/src/lib.rs:51-65 | one call at a time: fails exactly when no slot is cached and the check refuses a fresh one; otherwise the slot is in use and its top on the books |
| `StackAllocators.StackAllocator.MapStack` | kern/modules/stack-alloc/src/lib.rs:67-69 | maps the pages in order up to the first that fails; `AllocatedIsMapped` says which addresses these are |
| `StackAllocators.StackAllocator.Allocate` | kern/modules/stack-alloc/src/lib.rs:48-72 | on success all pages are mapped for the first time and the top is at most one guard past the region; on failure part-way the slot stays on the books with exactly the pages below mapped; in addresses of the returned top: every address of the stack below it is mapped, none of the guard below that is, and no other address changes |
| `StackAllocators.AllocatedIsMapped` | kern/modules/stack-alloc/src/lib.rs:64-72 | when all pages of a slot are mapped, exactly the stack between guard and top has gained its mapping |
| `StackAllocators.PagesAdded` | kern/modules/stack-alloc/src/lib.rs:67-69 | the first n pages of a slot cover exactly the n page sizes above its guard |
| `StackAllocators.NotMappedAt` | kern/modules/stack-alloc/src/lib.rs:67-69 | no address of a guard is mapped, nor any of a slot without pages |
| `StackAllocators.StackAllocator.UnmapStack` | kern/modules/stack-alloc/src/lib.rs:82-84 | unmaps the pages in order up to the first that fails; when none fails the slot has no page left |
| `StackAllocators.StackAllocator.Deallocate` | kern/modules/stack-alloc/src/lib.rs:74-88 | an unknown top is refused; a slot is cached only when all its pages are unmapped and is never used again otherwise; on success no address of stack or guard below the given top is mapped, and no other address changes |
| `StackAllocators.FreedIsUnmapped` | kern/modules/stack-alloc/src/lib.rs:82-86 | when all pages of a slot are unmapped, no address of it is mapped and every other address is as before |
| `StackAllocators.Recycle` | kern/modules/stack-alloc/src/lib.rs:48-88 | a freed stack is the next one handed out for its size, also in a full region |
| `StackAllocators.Overrun` | kern/modules/stack-alloc/src/lib.rs:53-61 | in a region that n slots fill, n + 1 stacks are handed out, and the last starts at the end of the region |
| `StackAllocators.KernelOverrun` | kern/modules/config/src/arch/riscv.rs:23-46 | both configured regions are of that kind: 33 and 15873 live stacks, one of them past the end |
| `StackRuns.TakeKeepsInv` | kern/modules/stack-alloc/src/lib.rs:51-63 | the section under the cache lock gives out a slot that no thread is busy with |
| `StackRuns.EnterKeepsInv` | kern/modules/stack-alloc/src/lib.rs:64-65 | entering the slot as allocated keeps the books |
| `StackRuns.MapKeepsInv` | kern/modules/stack-alloc/src/lib.rs:67-69 | mapping one page, or failing with or without its frame recorded, keeps the books and the other threads |
| `StackRuns.RemoveKeepsInv` | kern/modules/stack-alloc/src/lib.rs:75-80 | taking any slot off the books, also one that a thread is still mapping, keeps the books and the other threads |
| `StackRuns.UnmapKeepsInv` | kern/modules/stack-alloc/src/lib.rs:82-87 | unmapping one page, failing to, or caching the slot keeps the books and the other threads |
| `StackRuns.MapperIsAhead` | kern/modules/stack-alloc/src/lib.rs:82-84 | a thread that still maps a slot is past every page that can be unmapped |
| `StackRuns.PushTasks` | kern/modules/stack-alloc/src/lib.rs:86-86 | when all pages of a slot have been unmapped, nobody maps it any more |
| `StackRuns.RunKeepsInv` | kern/modules/stack-alloc/src/lib.rs:48-88 | the invariant holds along every interleaving of any calls |
| `StackRuns.SlotsStaySafe` | kern/modules/stack-alloc/src/lib.rs:48-88 | in every interleaving of any calls no address is in two slots and no page of a cached slot is mapped |
| `StackRuns.NeverMappedTwice` | kern/modules/stack-alloc/src/lib.rs:67-69 | a page about to be mapped is neither mapped nor recorded |
| `StackRuns.KernelMap` | kern/modules/multitask/src/executor.rs:35-40 | the mapper of the executor stacks takes the steps of the model on the page table |
| `StackRuns.KernelUnmap` | kern/modules/multitask/src/executor.rs:41-45 | the unmapper succeeds only on recorded pages, always on mapped ones, and takes the steps of the model |
| `StackRuns.SafeExactlyIfStrict` | kern/modules/stack-alloc/src/lib.rs:64-86 | every run is safe if and only if the unmapper refuses pages not yet handed to the mapper; with one that does not, a run from the start caches a stack that is then mapped |
| `Intervals.PositiveWeight` | kern/modules/util/src/interval.rs:32-50 | with at most 32767 added bounds the weight is positive exactly on added minus subtracted |
| `Intervals.MergedSpec` | kern/modules/util/src/interval.rs:77-88 | the merged endpoints ascend strictly, cancel in total, and their running sum is added minus 32767 times subtracted |
| `Intervals.SweepSeparated` | kern/modules/util/src/interval.rs:55-70 | the sweep yields ascending, non-empty, strictly separated intervals |
| `Intervals.SweepExact` | kern/modules/util/src/interval.rs:55-70 | they cover exactly the points of positive weight |
| `Intervals.SweepResult` | kern/modules/util/src/interval.rs:32-88 | all of it for the endpoints of any bounds |
| `Intervals.ExclusiveIntervals.constructor` | kern/modules/util/src/interval.rs:33-42 | the endpoints are those of the added bounds |
| `Intervals.ExclusiveIntervals.Subtract` | kern/modules/util/src/interval.rs:45-50 | one more subtracted bound |
| `Intervals.ExclusiveIntervals.IntoIter` | kern/modules/util/src/interval.rs:77-88 | the iterator starts from the merged endpoints with sum zero |
| `Intervals.ExclusiveIntervals.Collect` | kern/modules/util/src/interval.rs:32-88 | the union of the yielded intervals is the added bounds minus the subtracted ones |
| `Intervals.Iter.Next` | kern/modules/util/src/interval.rs:55-70 | yields the next interval of the sweep; `left` is set when it is unwrapped, and the sweep ends with sum zero |
| `Intervals.Outweighed` | kern/modules/util/src/interval.rs:40-40 | one added bound too many outweighs a subtracted one |
| `ListenOwnership.FirstConnected` | kern/modules/driver/src/smoltcp_impl/listen_table.rs:95-101 | the first connected handle of a queue |
| `ListenOwnership.SwapRemoved` | kern/modules/driver/src/smoltcp_impl/listen_table.rs:109-109 | `swap_remove_front` takes out that handle and no other |
| `ListenOwnership.SectionMoved` | kern/modules/driver/src/smoltcp_impl/tcp.rs:412-436 | a compare-and-swap into or a store out of a section keeps one holder per BUSY socket |
| `ListenOwnership.ListenGains` | kern/modules/driver/src/smoltcp_impl/listen_table.rs:65-76 | inserting an entry gives the port to this socket and touches no other claim |
| `ListenOwnership.UnlistenLoses` | kern/modules/driver/src/smoltcp_impl/listen_table.rs:78-81 | the entry that is cleared is the one its socket inserted |
| `ListenOwnership.QueueDropped` | kern/modules/driver/src/smoltcp_impl/listen_table.rs:37-43 | the handles of a dropped queue leave the socket set, all others keep their home |
| `ListenOwnership.HandleTaken` | kern/modules/driver/src/smoltcp_impl/listen_table.rs:92-115 | an accepted handle moves from its queue to the new socket |
| `ListenOwnership.HandleQueued` | kern/modules/driver/src/smoltcp_impl/listen_table.rs:117-144 | a new handle joins one queue, which stays within its limit |
| `ListenOwnership.IncomingExactly` | kern/modules/driver/src/smoltcp_impl/listen_table.rs:117-144 | a packet joins the queue of its port exactly when someone listens there on its address or on any, and fewer than 512 wait; a packet for another address changes nothing |
| `ListenOwnership.RemoveKeepsInv` | kern/modules/driver/src/smoltcp_impl/tcp.rs:547-556 | a socket whose drop is through `shutdown` is closed and claims nothing |
| `ListenOwnership.StepKeepsInv` | kern/modules/driver/src/smoltcp_impl/tcp.rs:210-307 | every action of every thread keeps the invariant |
| `ListenOwnership.RunKeepsInv` | kern/modules/driver/src/smoltcp_impl/tcp.rs:210-307 | so does every run |
| `ListenOwnership.OccupiedIffClaimed` | kern/modules/driver/src/smoltcp_impl/listen_table.rs:65-81 | a port is occupied exactly when a socket listens on it or is inside its listen or shutdown section, and then only one |
| `ListenOwnership.BusyIffOneInside` | kern/modules/driver/src/smoltcp_impl/tcp.rs:404-436 | a socket is BUSY exactly while one thread is inside its section |
| `ListenOwnership.ShutdownFreesItsOwn` | kern/modules/driver/src/smoltcp_impl/tcp.rs:292-303 | the entry that shutdown is about to clear exists and belongs to no other socket |
| `ListenOwnership.OneHome` | kern/modules/driver/src/smoltcp_impl/listen_table.rs:117-144 | every handle in the socket set is in one position of one queue or in one socket, never both, and no queue exceeds 512 |
| `ListenOwnership.StreamHasHandle` | kern/modules/driver/src/smoltcp_impl/tcp.rs:276-289 | the handle that shutdown unwraps is always there |
| `ListenOwnership.DropLeavesNoEntry` | kern/modules/driver/src/smoltcp_impl/tcp.rs:547-556 | a dropped socket leaves no entry behind |
| `ListenOwnership.ListeningOwnership` | kern/modules/driver/src/smoltcp_impl/tcp.rs:210-307 | invariant and port ownership in every state of every run from the start |
| `ListenOwnership.BindAlone` | kern/modules/driver/src/smoltcp_impl/tcp.rs:210-233 | an undisturbed bind of an unbound socket gives it the endpoint and changes nothing else |
| `ListenOwnership.BindRefused` | kern/modules/driver/src/smoltcp_impl/tcp.rs:210-233 | bind of a bound socket, or without a free port, leaves everything as it was |
| `ListenOwnership.StartRefused` | kern/modules/driver/src/smoltcp_impl/tcp.rs:404-436 | bind and listen on a socket that is not closed, and accept on one that does not listen, change nothing |
| `ListenOwnership.ListenAlone` | kern/modules/driver/src/smoltcp_impl/tcp.rs:238-250 | an undisturbed listen on a free port adds this entry and nothing else |
| `ListenOwnership.ListenEphemeral` | kern/modules/driver/src/smoltcp_impl/tcp.rs:238-250 | listen on a socket without a port listens on the chosen one, at the address of the socket |
| `ListenOwnership.ListenRefused` | kern/modules/driver/src/smoltcp_impl/tcp.rs:238-250 | listen on a taken port leaves everything as it was |
| `ListenOwnership.ListenPortless` | kern/modules/driver/src/smoltcp_impl/tcp.rs:238-250 | so does listen without a port when none is free |
| `ListenOwnership.ShutdownAlone` | kern/modules/driver/src/smoltcp_impl/tcp.rs:274-307 | an undisturbed shutdown undoes bind and listen |
| `ListenOwnership.ShutdownStream` | kern/modules/driver/src/smoltcp_impl/tcp.rs:274-290 | an undisturbed shutdown of a stream closes it and forgets its endpoint, keeps its handle and touches no port |
| `ListenOwnership.DropClosed` | kern/modules/driver/src/smoltcp_impl/tcp.rs:547-556 | the drop of a closed socket takes it and its handle away and nothing else |
| `ListenOwnership.AcceptsItsOwn` | kern/modules/driver/src/smoltcp_impl/tcp.rs:257-271 | accept serves its own socket exactly when that socket still answers for the port it read |
| `ListenOwnership.AcceptEnters` | kern/modules/driver/src/smoltcp_impl/tcp.rs:257-264 | accept goes to the port that its socket listens on |
| `ListenOwnership.AcceptExactly` | kern/modules/driver/src/smoltcp_impl/listen_table.rs:92-115 | it fails on a port nobody listens on, waits while no connection is established, and else makes the first established one a stream socket with that endpoint, out of the queue and of no other |
| `ListenOwnership.CrossedAccept` | kern/modules/driver/src/smoltcp_impl/tcp.rs:257-271 | a run in which it does not: a handle from another socket's queue ends in the accepted socket |
| `ListenTables.ListenTable.constructor` | kern/modules/driver/src/smoltcp_impl/listen_table.rs:50-59 | all 65536 slots start empty |
| `ListenTables.ListenTable.CanListen` | kern/modules/driver/src/smoltcp_impl/listen_table.rs:61-63 | true exactly for a free port |
| `ListenTables.ListenTable.Listen` | kern/modules/driver/src/smoltcp_impl/listen_table.rs:65-76 | only a free port is taken; a taken one keeps its entry and queue |
| `ListenTables.ListenTable.Unlisten` | kern/modules/driver/src/smoltcp_impl/listen_table.rs:78-81 | that slot is emptied and every handle of its queue leaves the socket set |
| `ListenTables.ListenTable.Accept` | kern/modules/driver/src/smoltcp_impl/listen_table.rs:92-115 | takes the first connected handle, fails as the source does otherwise, and is the step of the ownership model |
| `ListenTables.ListenTable.Incoming` | kern/modules/driver/src/smoltcp_impl/listen_table.rs:117-144 | a packet for a listening address becomes the last handle of its queue unless the queue is full |
| `ListenTables.ListenTable.GetEphemeralPort` | kern/modules/driver/src/smoltcp_impl/tcp.rs:558-580 | returns the first free port from the cursor on, between 49152 and 65535; fails exactly when all 16384 are taken; the cursor moves on and wraps |
| `ListenTables.Find` | kern/modules/driver/src/smoltcp_impl/listen_table.rs:95-101 | the search loop finds the first connected handle |
| `IrqRouting.EnabledSpec` | kern/modules/driver/src/irq/riscv_plic.rs:175-186 | enabling sets the bit of that context and interrupt and no other of any context |
| `IrqRouting.DisabledSpec` | kern/modules/driver/src/irq/riscv_plic.rs:187-198 | disabling clears that bit and no other |
| `IrqRouting.ContextNumbers` | kern/modules/driver/src/irq/riscv_plic.rs:87-98 | the contexts as numbers, 2 cpu + 1 on virtio and 2 cpu on SiFive but none for CPU 0, and the word of each enable bit |
| `IrqRouting.SortSpec` | kern/modules/driver/src/irq/irq_dispatch.rs:74-75 | the stable sort gives a permutation ordered by key and then by CPU |
| `IrqRouting.Preferred` | kern/modules/driver/src/irq/irq_dispatch.rs:74-75 | as many CPUs as are given, all below five, the first two the two lowest |
| `IrqRouting.RoutedSpec` | kern/modules/driver/src/irq/irq_dispatch.rs:53-91 | from any enable words each of the two interrupts ends on exactly one CPU and no other bit changes |
| `IrqRouting.RotatedSpec` | kern/modules/driver/src/irq/irq_dispatch.rs:149-161 | a rotation leaves the UART interrupt on exactly the CPU the index names if and only if it was on no other CPU but that and the one before; no other interrupt changes |
| `IrqRouting.InitSpec` | kern/modules/driver/src/irq/irq_dispatch.rs:25-38 | enabling both interrupts on a CPU sets these two bits and no other; the UART is then on that CPU alone if and only if no other had it |
| `IrqRouting.SwitchedOff` | kern/modules/driver/src/irq/irq_dispatch.rs:156-159 | disabling the UART on the only CPU that has it leaves it nowhere |
| `IrqRouting.CountOrder` | kern/modules/driver/src/irq/irq_dispatch.rs:132-138 | ordering by the packed load is ordering by priority, then interrupt count, then CPU |
| `IrqRouting.Router.Enable` | kern/modules/driver/src/irq/riscv_plic.rs:175-186 | fails exactly when the CPU has no context on the board; otherwise one word is rewritten with the bit set |
| `IrqRouting.Router.Disable` | kern/modules/driver/src/irq/riscv_plic.rs:187-198 | fails exactly when the CPU has no context on the board; otherwise one word is rewritten with the bit cleared |
| `IrqRouting.Router.Init` | kern/modules/driver/src/irq/irq_dispatch.rs:19-39 | from any enable words: interrupts 8 and 10 of the given CPU are enabled and no other bit changes; the UART is then on exactly that CPU if and only if no other had it; the counts are zero; fails exactly without a context |
| `IrqRouting.Router.MinLoad` | kern/modules/driver/src/irq/irq_dispatch.rs:46-93 | gets through exactly on virtio with two running CPUs: the two of lowest priority get one interrupt each, the lowest the heavier, every other bit unchanged, the counts reset; with fewer CPUs the lighter interrupt is left nowhere |
| `IrqRouting.Router.MinCount` | kern/modules/driver/src/irq/irq_dispatch.rs:101-148 | gets through exactly on virtio with all CPUs running: the network goes to the lightest CPU and the UART to the second, every other bit unchanged; otherwise both are disabled up to the first CPU that is not running |
| `IrqRouting.Router.Rotate` | kern/modules/driver/src/irq/irq_dispatch.rs:149-161 | from any enable words: the UART is then on exactly the CPU the index named if and only if it was on no other but that and the one before; what is left when a context is missing |
| `IrqRouting.Router.InitAndRotate` | kern/modules/driver/src/irq/irq_dispatch.rs:19-161 | on virtio, after n rotations the UART is on CPU (start + n - 1) mod 5 and on no other; on SiFive the rotation that comes round to CPU 0 leaves it nowhere, and one started on CPU 1 fails at once |

## Left out

- `TcpSocket::connect`, `poll_connect`, `send`, `recv` and readiness polling are driven by smoltcp's own state; a socket of the model becomes connected by `accept` only.
- Boot code, trap entry and register switching are assembly; a switch is one step during which an executor does whatever a `Slice` says.
- smoltcp, virtio, the buddy allocator, the device tree and SBI are external; only what their callers rely on is modelled.
- Network buffers, the UART driver, the ELF loader, logging, device probing, macros and build tooling are not modelled.
- Interrupts that arrive between `set_current` and the switch, and window ends that fire after an inspector has gone idle.
- Inspectors taken off the run queue by `enact_sched_table`; the runtime model has no schedule table in force.
- `PLICInner::init` and `disable_all`: the strategies start from arbitrary enable words instead.
- The page table manages canonical pages that are not below an entry copied from the boot table; the boot table's own walk is not modelled. Reads and writes of mapped memory, and the TLB, are not either.
- Integer widths are modelled where results depend on them (the clock, the entry encoding); address sums in the stack allocator and the intervals, schedule times and interrupt counts are unbounded.
- StackAllocators.StackAllocator.Claim: one call at a time, since the object model has no threads (`StackRuns` has them); a slot has a positive size because either the stack or the guard is not empty.
- StackAllocators.StackAllocator.Deallocate: any error of the unmapper is reported as one error value, and likewise for `Allocate` and its mapper.
- StackRuns.KernelMap: the stack area consists of pages that the kernel page table manages and nobody else uses.
- IrqRouting.Router.InitAndRotate: starts with the UART interrupt enabled nowhere, which controller initialisation provides.
- FastPq.FastPriorityQueue.Enqueue: priorities are at most 63, the range of the lane array.
- TimerQueues.TimedEventQueue.Drain: handlers create only events later than every clock reading of the loop; without that the loop need not end.
- ScheduleTables.New: sorts by insertion; the source may order entries of equal offset otherwise, which matters exactly as `AnyOrderExactly` says.
- ListenTables.ListenTable.Listen: port zero is excluded, as the source asserts.
