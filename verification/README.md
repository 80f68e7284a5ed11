# FleetOS: verified model of the kernel's resource managers

FleetOS simulates an operating system for drones, tick by tick. This project models the five
modules that keep state between ticks, together with the few kernel steps that make their invariants
hold across modules, and proves what those modules are for.

* **Deadlock manager** (`src/deadlock.c`): allocation and request matrices, one FIFO wait queue per
  resource, recursive depth-first search for a cycle, choice of a victim, clean-up and hand-over.
  Proved: detection answers exactly whether the wait-for graph has a cycle, which is exactly whether
  the processes can *not* all run to their end one after another; the victim is the maximum by
  (priority value, pid) over exactly the processes that lead to a cycle; detect-and-resolve ends, in
  no more rounds than there are such processes; units are conserved, queues agree with the request
  matrix, and grants follow the order of the requests.
* **Scheduler** (`src/scheduler.c`): round robin, or three feedback queues with quanta, demotion and
  a periodic boost, over circular arrays. Proved: each thread is in one place only, over every run;
  nobody starves, with an explicit bound that every tick lowers and no other operation raises, and that
  is at most 4 ticks a thread, or 38 ticks and 2 a thread under the feedback queues;
  levels change only by demotion and boost, and a blocked thread comes back to its own; the first of the
  highest queue is served, and runs for exactly its slice; the numbers of boosts and of switches.
* **File system** (`src/filesystem.c`): files as chains through an allocation table. Proved: the
  chains partition the blocks in use, so every loop along a chain ends and no block is lost; reading
  returns exactly what the history of writes to that path determines; a write that does not fit
  stores exactly as much as there is room for; the lowest free blocks are taken; the clean-up of a process
  deletes exactly its own log files.
* **Paging** (`src/memory.c` and the fault completion in `src/kernel.c`): frame table and page tables.
  Proved: the two are inverse to each other after every event, also when a process evicts its own
  page; translation is injective; the evicted page is the least recently used one, and eviction
  agrees with a list ordered by recency.
* **Bounded buffer** (`src/sync.c`): ring buffer, mutex and condition variables. Proved: first in,
  first out over every run, for the items and for those who wait at each condition; every item that goes
  in or out wakes the next who waits for it.

## How the model is built

Each module appears twice. A class has the source's arrays, counters and loops, updated in place
(`DeadlockManager.dfy`, `ReadyQueue.dfy`, `Scheduler.dfy`, `FileSystem.dfy`, `Paging.dfy`, `Sync.dfy`).
A ghost field of the class holds the same state as a value, and each method states which value it
leaves as a function of the one it found. What the source promises is proved about those values and
about runs of them (`...Rules`, `...Proofs`, `...Runs` and the files on graphs, chains and contents).
The files `...Outcomes` say of every operation what it answers and whom it serves, for all states and in
terms of processes, threads, frames and items alone: which thread is dispatched and for how many ticks,
which result code comes with which effect, who is woken, which frame is handed out.
`WaitForGraph` and `Completion` define cycles and progress without any reference to the search.

All sizes (processes, resources, threads, queue slots, frames, pages, blocks, block size, entries) are
parameters of the constructors; the constants 16, 32, 64, 8 and 3 of the source are instances. The
quanta 4, 2, 4, 8 and the boost interval 30 are the source's.

Assumptions about how the modules are called, which the kernel meets:

* Process and thread ids are indices into the kernel's tables (`src/kernel.c:265-297`).
* A process that waits for a resource does not ask for another one that it would have to wait for, since
  the kernel blocks it (`src/kernel.c:609`). `RequestKeepsIffMayAsk` says exactly when a request keeps
  the resource graph consistent.
* Threads are added or unblocked only when they are not the current one. `AddKeepsIffNotCurrent` says
  that this is exactly when adding keeps the scheduler consistent.
* Ticks of the scheduler are numbered consecutively from 0 (`src/kernel.c:684`, `src/kernel.c:753`).
* Paths contain no NUL, and one that is longer than 63 characters does not begin with the 63 characters
  of a name in use. The kernel's own paths are shorter (`src/kernel.c:617-619`).

One assumption is not met by the kernel once it has killed a process: in the scheduler results a thread
becomes done only through `scheduler_terminate`, while the kernel's clean-up marks threads done where
they stand (`src/kernel.c:214-216`). That step is not part of this model.

Where the code differs from its documentation, its intent or what one would expect, the model follows
the code:

* `docs/report.md:474` says that the processes marked are those in the cycle. The search also leaves
  the path that leads into the cycle marked, so the victim may be a process that only waits for the
  deadlocked ones: `VictimOffCycle` gives a run that ends so. `VictimOnCycleIff` says for each graph and
  its priorities exactly when the victim is on a cycle, `VictimsOnCyclesIffNoTails` for which graphs it is
  whatever the priorities are.
* `docs/report.md:535` says that `deadlock_release` triggers the waking of waiters. It does not:
  `ReleaseDoesNotWake` says exactly when that matters.
* `src/filesystem.c:10` fills the table with the byte of -2, not with the number:
  `MemsetFillsWord` shows that every entry then differs from -2 and no block counts as free. This is
  the one place where the model follows the intent: its table starts with every entry equal to -2.
* A write to an existing file starts a new block even if the last one is partly empty
  (`src/filesystem.c:94-99`). `ConcatenationIffAligned` says exactly when reading back is nevertheless
  the concatenation of what was written.
* A virtual address just below zero passes the range check of `mem_access`, because C division
  truncates. `TranslationStaysInFrame` says that exactly the addresses from zero on are translated
  into their own frame, and `TranslationInjective` which pairs of addresses can collide.
* `scheduler_priority_boost` raises only threads that wait in a queue; the running one keeps its level.
* `fs_create` fails when the table is full even if the file exists (`src/filesystem.c:35`).

## Model

| member | source | states |
|---|---|---|
| DeadlockManager.ResourceManager.Detect | src/deadlock.c:133-165 | reports a victim exactly when the wait-for graph of the active processes has a cycle; the victim is the maximum by (priority value, pid) over exactly the active processes from which a cycle is reachable |
| DeadlockManager.ResourceManager.DfsCycle | src/deadlock.c:106-131 | the recursive search: it succeeds only if everybody left on the stack leads to a cycle, and if it fails the stack is as before and whoever was visited and left does not lead to one; it ends because the set of unvisited processes shrinks |
| DeadlockManager.ResourceManager.Follow | src/deadlock.c:113-125 | one neighbour is dealt with: skipped, searched, or found on the stack, with what that says about cycles |
| DeadlockManager.ResourceManager.AllExplored | src/deadlock.c:110-126 | when all neighbours were visited and left, the process leads to no cycle |
| DeadlockManager.ResourceManager.Push | src/deadlock.c:107-108 | entering a process keeps the bookkeeping of the search |
| DeadlockManager.ResourceManager.Pop | src/deadlock.c:128 | leaving a process that leads to no cycle keeps it, too |
| DeadlockManager.ResourceManager.SearchFrom | src/deadlock.c:143-147 | one search from cleared arrays succeeds exactly when its root leads to a cycle |
| DeadlockManager.ResourceManager.PickVictim | src/deadlock.c:148-156 | the loop over the stack keeps the best victim of all stacks seen so far |
| DeadlockManager.ResourceManager.Consider | src/deadlock.c:139-158 | after the root pid all doomed processes up to pid have been compared, and nobody else |
| DeadlockManager.ResourceManager.HasOutgoingRequest | src/deadlock.c:94-104 | is true exactly for the active processes that ask for something |
| DeadlockManager.ResourceManager.constructor | src/deadlock.c:10-19 | all resources free, nobody active, nobody waiting, all arrays consistent with that |
| DeadlockManager.ResourceManager.SetPriority | src/deadlock.c:25-28 | only the priority of a pid in range changes |
| DeadlockManager.ResourceManager.Alloc | src/deadlock.c:39-54 | result code and new graph for every pid and rid, in range or not |
| DeadlockManager.ResourceManager.Request | src/deadlock.c:56-78 | 0 exactly for a resource newly held, 1 exactly for one held before, -1 otherwise, with a place at the end of the queue while it has room, for every caller; the graph stays consistent if the process waits nowhere, or if in a settled graph it need not wait |
| DeadlockManager.ResourceManager.Ask | src/deadlock.c:62-63 | the request is noted and the process active, nothing else changes |
| DeadlockManager.ResourceManager.Join | src/deadlock.c:74-76 | the process is last in the queue of that resource, other queues are as before |
| DeadlockManager.ResourceManager.Release | src/deadlock.c:80-92 | the resource becomes free and nothing else changes |
| DeadlockManager.ResourceManager.TakeBack | src/deadlock.c:185-188 | the inner loop ends after at most one release, and the request is dropped |
| DeadlockManager.ResourceManager.Cleanup | src/deadlock.c:181-191 | the process holds nothing, asks for nothing and is inactive; everybody else is untouched; the graph stays consistent |
| DeadlockManager.ResourceManager.Deactivate | src/deadlock.c:190 | only the active flag is cleared |
| DeadlockManager.ResourceManager.Offer | src/deadlock.c:196-211 | one turn of the waking loop crosses out a dead waiter, or grants a free resource to the first live one, or leaves the entry |
| DeadlockManager.ResourceManager.OfferAll | src/deadlock.c:196-211 | the loop hands the resource to the first live waiter if it is free, and reports exactly that waiter |
| DeadlockManager.ResourceManager.Compact | src/deadlock.c:213-219 | the entries that are not crossed out move up in order, other rows are untouched |
| DeadlockManager.ResourceManager.CompactRow | src/deadlock.c:213-219 | the queue of that resource is what was left in its row, all other tables and queues are as before |
| DeadlockManager.ResourceManager.WakeWaiters | src/deadlock.c:193-220 | waking one queue: the new graph and the waiter reported to the callback |
| DeadlockManager.ResourceManager.WakeQueues | src/deadlock.c:176-178 | the queues are woken one after another, and each resource is handed to whoever was due before the first was woken |
| DeadlockManager.ResourceManager.Resolve | src/deadlock.c:167-179 | clean-up, then all queues are woken; who was given what is reported |
| DeadlockManager.ResourceManager.DetectAndResolve | src/kernel.c:658-667 | does something exactly if there is a cycle, and then leaves a settled graph in which the victim and nobody new leads to a cycle no longer |
| DeadlockManager.ResourceManager.UnitsConserved | src/deadlock.c:39-92 | available plus the sum of all allocations of a resource is 1 |
| DeadlockManager.OfferStep | src/deadlock.c:196-211 | how far the row, the grant and the report have got after one more entry |
| DeadlockManager.OfferNext | src/deadlock.c:196-211 | after one more entry the resource has gone to that entry exactly if it is active and nobody before it was |
| WaitForGraph.BackEdge | src/deadlock.c:122-124 | when the search meets its own stack, everybody on the stack leads to a cycle |
| WaitForGraph.LeadsNowhere | src/deadlock.c:128-130 | a process whose successors do not lead to a cycle does not either |
| WaitForGraph.TrapLeadsToCycle | src/deadlock.c:106-131 | in a set of processes each of which waits for one of the set, everybody leads to a cycle |
| WaitForGraph.DoomedIsLargestTrap | src/deadlock.c:133-165 | the processes that lead to a cycle are active, each waits for one of them, and every other set of active processes of this kind is part of theirs |
| WaitForGraph.TrapIsDoomed | src/deadlock.c:133-165 | active processes each of which waits for one of them all lead to a cycle |
| WaitForGraph.NoCycleIffNoneDoomed | src/deadlock.c:160-164 | there is a cycle exactly when some active process leads to one |
| WaitForGraph.CompletionOrderIffNoCycle | src/deadlock.c:133-165 | there is no cycle exactly when the active processes can be lined up so that each waits only for earlier ones |
| Completion.NoCycleIffAllCanFinish | src/deadlock.c:133-165 | in a settled graph there is no cycle exactly when all active processes can finish one after another, each having been given by then all it asked for |
| Completion.FinishKeepsDoomed | src/deadlock.c:181-220 | the end of a process that can finish never frees one that leads to a cycle |
| Completion.SomebodyCanFinish | src/deadlock.c:133-165 | without a cycle some active process asks for nothing |
| VictimChoice.VictimsOnCyclesIffNoTails | docs/report.md:474 | the victim is on a cycle under all priorities exactly when no two doomed processes wait for the same one |
| VictimChoice.VictimOnCycleIff | docs/report.md:474 | with given priorities the victim is on a cycle exactly when each doomed process off the cycles is outranked by one on a cycle |
| VictimChoice.TwoOnCycle | src/deadlock.c:147-156 | two processes on cycles that wait for the same process are the same |
| VictimChoice.NoTailsOnCycle | src/deadlock.c:147-156 | when no two doomed processes wait for the same one, every doomed process is on a cycle |
| ResourceRuns.VictimOffCycle | docs/report.md:474 | a run from the initial state whose last graph has a victim that is on no cycle |
| ResourceRuns.OffCycleReachable | src/deadlock.c:56-78 | the requests that lead to that graph |
| ResourceProofs.ResolveShrinksDoomed | src/deadlock.c:167-220 | a kill takes the killed process out of the set of those that lead to a cycle and puts nobody in |
| ResourceProofs.DetectResolveTerminates | src/kernel.c:658-667 | every history of detections and kills is at most as long as the number of processes that lead to a cycle at its start; the victims are different and doomed from the start; when it cannot go on, or is that long, there is no cycle left |
| ResourceProofs.EachRoundSavesOne | src/deadlock.c:167-179 | after i rounds at least i doomed processes fewer, and the earlier victims are not among them |
| ResourceProofs.ResolveKeeps | src/deadlock.c:167-179 | a kill leaves a consistent graph in which nobody waits for a free resource; other processes keep what they hold |
| ResourceProofs.CleanupKeeps | src/deadlock.c:181-191 | clean-up keeps conservation and the agreement of queues and requests, and touches only the one process |
| ResourceProofs.WakeKeeps | src/deadlock.c:193-220 | waking a queue keeps the graph consistent, settles that resource and unsettles none |
| ResourceProofs.WakeAllKeeps | src/deadlock.c:176-178 | waking all queues settles all resources |
| ResourceProofs.WakeAllLeaves | src/deadlock.c:176-178 | waking some queues does not change who is due at the others; exactly those due were given their resource |
| ResourceProofs.RequestKeeps | src/deadlock.c:56-78 | a request keeps the graph consistent and settled, and a wait queue never overflows |
| ResourceProofs.RequestKeepsIffMayAsk | src/deadlock.c:56-78 | in a settled graph a request keeps it consistent, and then settled, exactly when it does not make a process wait that waits already |
| ResourceProofs.AskingTwice | src/deadlock.c:70-77 | otherwise the process is in two places of the queues, or twice in one |
| ResourceProofs.InitConsistent | src/deadlock.c:10-19 | the initial graph is consistent, settled and without a cycle |
| ResourceOutcomes.InitOutcome | src/deadlock.c:10-19 | one unit of each resource is free, nobody holds, asks or waits, all priorities are 0 |
| ResourceOutcomes.RequestOutcome | src/deadlock.c:56-78 | for every pid and rid: 0 comes exactly with a grant of a free resource, 1 exactly if it was held, -1 otherwise and, in range, with a place at the end of the queue while it has room; nothing else changes |
| ResourceOutcomes.AllocOutcome | src/deadlock.c:39-54 | 0 exactly for a free resource, which is then held and not asked for; -1 changes nothing |
| ResourceOutcomes.ReleaseOutcome | src/deadlock.c:80-92 | a held resource is free and nobody's; one that is not held stays as it is |
| ResourceOutcomes.PriorityOutcome | src/deadlock.c:25-28 | only the priority of that process is set, and only if it exists |
| ResourceOutcomes.WakeOutcome | src/deadlock.c:196-211 | a free resource goes to the active process that stands first in its queue, who is reported; else nobody gets anything |
| ResourceOutcomes.WokenQueue | src/deadlock.c:213-219 | exactly the active processes that were not served remain, in their order; other queues are untouched |
| ResourceOutcomes.CleanupOutcome | src/deadlock.c:181-191 | the process holds and asks for nothing, what it held is free, everybody else is untouched |
| ResourceOutcomes.ResolveOutcome | src/deadlock.c:167-179 | each resource of the killed process goes to who stands first in its queue, and to nobody if nobody else waits; no other resource changes hands |
| ResourceRuns.RunKeeps | src/deadlock.c:39-220 | in every state of every run each resource is free or held by exactly one process, the queues hold exactly the waiting processes, each once, and nobody waits for a free resource |
| ResourceRuns.NoOvertaking | src/deadlock.c:193-220 | over every run: as long as p waits for r, nobody who was not ahead of p gets r |
| ResourceRuns.StepInOrder | src/deadlock.c:56-78 | one step brings p the resource, kills p, or leaves everybody behind p behind it |
| ResourceRuns.ReleaseDoesNotWake | docs/report.md:535 | releasing leaves a settled graph settled exactly when nobody waits for the resource |
| ReadyQueues.ReadyQueue.Find | src/scheduler.c:25-32 | the slot of the element at its position in the queue, or -1 if it is not queued |
| ReadyQueues.ReadyQueue.RemoveAt | src/scheduler.c:34-49 | exactly the element in that slot goes and the others keep their order, through wrap-around |
| ReadyQueues.ReadyQueue.ShiftDown | src/scheduler.c:41-47 | the loop moves everything behind the gap one place forward |
| ReadyQueues.ReadyQueue.Push | src/scheduler.c:51-57 | appends unless full or already there |
| ReadyQueues.ReadyQueue.Append | src/scheduler.c:168-170 | the unguarded append of round robin, which needs a free slot |
| ReadyQueues.ReadyQueue.Pop | src/scheduler.c:59-65 | takes the head |
| ReadyQueues.ReadyQueue.Remove | src/scheduler.c:251-252 | search and removal together |
| Schedulers.Scheduler.constructor | src/scheduler.c:110-133 | empty queues, no current thread, the first quantum of the mode |
| Schedulers.Scheduler.Add | src/scheduler.c:135-158 | the new scheduler value; a consistent state stays consistent exactly if the thread is not the current one |
| Schedulers.Scheduler.AddRR | src/scheduler.c:137-142 | round robin: nothing if queued or full, else the end of the queue |
| Schedulers.Scheduler.AddMLFQ | src/scheduler.c:144-148 | feedback queues: the queue of the thread's level, or of its priority the first time |
| Schedulers.Scheduler.Register | src/scheduler.c:151-157 | the thread table takes in each thread once |
| Schedulers.Scheduler.Next | src/scheduler.c:160-236 | the running thread is put back, the first of the highest queue that is not empty is dispatched with that queue's quantum; consistency is kept |
| Schedulers.Scheduler.NextRR | src/scheduler.c:166-192 | round robin with a thread waiting: put back, then dispatch the head |
| Schedulers.Scheduler.NextMLFQ | src/scheduler.c:195-235 | the feedback queues: nothing if all are empty, else put back, choose, dispatch |
| Schedulers.Scheduler.SwitchMLFQ | src/scheduler.c:200-235 | with a thread waiting: put back, choose, dispatch |
| Schedulers.Scheduler.TakeRR | src/scheduler.c:173-191 | the head becomes current with a full quantum |
| Schedulers.Scheduler.TakeMLFQ | src/scheduler.c:217-234 | the head of the chosen queue becomes current with the quantum of that queue |
| Schedulers.Scheduler.Requeue | src/scheduler.c:166-171 | where a running thread is put back in either mode |
| Schedulers.Scheduler.FirstReady | src/scheduler.c:207-213 | the highest queue that is not empty, or 3 if all are empty |
| Schedulers.Scheduler.Dispatch | src/scheduler.c:219-233 | the new current thread runs; a switch is counted if it is another one |
| Schedulers.Scheduler.Block | src/scheduler.c:238-263 | a running thread keeps its level and the next one is dispatched, a queued one leaves its queue |
| Schedulers.Scheduler.Dequeue | src/scheduler.c:250-261 | the thread leaves the first queue that holds it |
| Schedulers.Scheduler.BlockThread | src/kernel.c:108-111 | marking a thread blocked and blocking it keeps the scheduler consistent |
| Schedulers.Scheduler.UnblockThread | src/kernel.c:127-130 | making a thread ready and adding it gives the new value for every thread, and keeps the scheduler consistent exactly if the thread is not the current one |
| Schedulers.Scheduler.Terminate | src/scheduler.c:270-289 | the thread is in no queue, not current and done; consistency is kept |
| Schedulers.Scheduler.Stop | src/scheduler.c:272-274 | the thread is no longer the current one |
| Schedulers.Scheduler.Tick | src/scheduler.c:291-320 | the whole tick, in the order boost clock, quantum, demotion, dispatch, boost; consistency is kept; the result tells whether the quantum had ended or nobody ran |
| Schedulers.Scheduler.Turn | src/scheduler.c:298-316 | the tick without its boost |
| Schedulers.Scheduler.Demote | src/scheduler.c:306-312 | the running thread goes one queue down, at most to the lowest |
| Schedulers.Scheduler.CountDown | src/scheduler.c:304-305 | one tick of the quantum is used up; tells whether it was the last |
| Schedulers.Scheduler.Mark | src/scheduler.c:292-296 | the boost clock starts with the first tick that is not 0; tells whether a boost is due |
| Schedulers.Scheduler.Expire | src/scheduler.c:306-313 | demotion, then dispatch |
| Schedulers.Scheduler.Boost | src/scheduler.c:322-338 | the queues (Q0, Q1, Q2) become (Q0 ++ Q1 ++ Q2, empty, empty), and exactly the moved threads get level 0 |
| Schedulers.Scheduler.DrainAll | src/scheduler.c:331-337 | the two loops together move everything to the top queue, in order |
| Schedulers.Scheduler.MoveUp | src/scheduler.c:333-335 | one turn moves the head of a lower queue to the end of the top one, at level 0 |
| Schedulers.Scheduler.DrainRing | src/scheduler.c:332-336 | the draining loop empties a queue behind the top one, dropping nobody |
| SchedulerProofs.Drained | src/scheduler.c:331-337 | draining both queues thread by thread is the concatenation |
| SchedulerProofs.FitsOnTop | src/scheduler.c:51-57 | during a boost no push is refused for lack of room or as a duplicate |
| SchedulerProofs.InitConsistent | src/scheduler.c:110-133 | the initial state satisfies the invariant |
| SchedulerOutcomes.InitOutcome | src/scheduler.c:110-133 | nobody waits or runs; the first slice is 4 ticks, or 2 under the feedback queues; all counters are 0 |
| SchedulerOutcomes.HighestFirst | src/scheduler.c:195-236 | with somebody queued, the thread dispatched has the smallest level of all queued ones and the running one, and is the first of its queue, or the running one if that queue is empty |
| SchedulerOutcomes.HighestFirstInTick | src/scheduler.c:304-315 | the same when a slice ends, the running thread competing as the last of the level below |
| SchedulerOutcomes.HighestFirstInBlock | src/scheduler.c:242-248 | blocking the running thread dispatches the first of the highest queue that is not empty |
| SchedulerOutcomes.NextOutcome | src/scheduler.c:160-236 | in both modes: nothing with nobody waiting; else the running thread goes to the end of its queue, the first in line runs with a slice of 4, or of 2, 4 or 8 ticks by level, and a switch is counted if it is another one; nobody else changes |
| SchedulerOutcomes.TickOutcome | src/scheduler.c:291-320 | with nobody running the first in line is served; with slice left the thread runs on; else it goes one level down and to the end there, and the first in line is served; round robin lets a lone thread run on |
| SchedulerOutcomes.TickScene | src/scheduler.c:292-320 | a boost is due at 30 ticks after the last one; it takes place after the turn, changes no thread's place in line, and raises exactly those in line |
| SchedulerOutcomes.BoostOutcome | src/scheduler.c:322-338 | all who wait are in the top queue in the order of the line at level 0, and nothing else changes but the clock and the count |
| SchedulerOutcomes.BlockOutcome | src/kernel.c:108-111 | the thread is blocked and out of line; if it ran, the first in line runs |
| SchedulerOutcomes.TerminateOutcome | src/scheduler.c:270-289 | the thread is done and out of line, nobody is dispatched in its place, nobody else changes |
| SchedulerOutcomes.AddOutcome | src/scheduler.c:135-158 | a thread that does not wait yet is ready and last of its queue: that of its level, or the first time the top one for CRITICAL and HIGH, the middle one for NORMAL, the bottom one for LOW; it is in the thread table once |
| SchedulerOutcomes.UnblockOutcome | src/kernel.c:127-130 | the same for a thread that was blocked |
| SchedulerService.FullSlice | src/scheduler.c:304-316 | over every run: a thread that begins to run and is left alone runs for 4 ticks, or 2, 4 or 8 by its level; the last of them lets it go on only if nobody waits at its new level or above, else the first in line runs |
| SchedulerService.RunsOn | src/scheduler.c:304-319 | over every run: a running thread that is left alone runs as long as its slice exceeds the ticks passed, and keeps its level |
| SchedulerService.DispatchSlice | src/scheduler.c:191-234 | whichever operation makes a thread run, it has the full slice of its level |
| SchedulerService.SwitchCount | src/scheduler.c:177-180 | over every run the switch counter counts exactly the steps that made another thread run |
| SchedulerService.StepSwitches | src/scheduler.c:219-221 | each operation adds one to the counter exactly if it makes another thread run |
| SchedulerProofs.AddKeeps | src/scheduler.c:135-158 | adding keeps the invariant |
| SchedulerProofs.NextKeeps | src/scheduler.c:160-236 | dispatching keeps the invariant |
| SchedulerProofs.BlockThreadKeeps | src/scheduler.c:238-263 | blocking keeps the invariant |
| SchedulerProofs.UnblockThreadKeeps | src/kernel.c:127-130 | unblocking keeps the invariant |
| SchedulerProofs.AddKeepsIffNotCurrent | src/scheduler.c:135-158 | adding a thread keeps the invariant exactly when it is not the current one |
| SchedulerProofs.UnblockKeepsIffNotCurrent | src/kernel.c:127-130 | and so does unblocking |
| SchedulerProofs.TerminateKeeps | src/scheduler.c:270-289 | terminating keeps the invariant |
| SchedulerProofs.BoostKeeps | src/scheduler.c:322-338 | boosting keeps the invariant |
| SchedulerProofs.TickKeeps | src/scheduler.c:291-320 | a tick keeps the invariant |
| SchedulerProofs.QueuesFit | src/scheduler.c:51-57 | all queues together hold no more threads than exist besides the current one, so no queue overflows |
| SchedulerRuns.SingleLocation | src/scheduler.c:135-338 | in every state of every run each thread is in at most one slot of all queues, the current one in none; queued threads are ready and at the level of their queue; every ready thread ever added is queued |
| SchedulerRuns.RunKeeps | src/scheduler.c:135-338 | the invariant holds in every state of every run |
| SchedulerRuns.DispatchedInTime | docs/report.md:249-263 | over every run, in both modes: a queued thread that is not itself blocked or terminated is dispatched before WaitBound ticks have passed |
| SchedulerRuns.StepAdvances | src/scheduler.c:135-338 | every tick lowers the bound by at least one, and no other operation on other threads raises it |
| SchedulerRuns.TickAdvances | src/scheduler.c:291-338 | a tick dispatches the thread or lowers its bound, with or without a boost |
| SchedulerRuns.OtherNotWorse | src/scheduler.c:135-289 | an operation on another thread dispatches the thread or leaves its position and the quantum before it no worse |
| SchedulerRuns.WaitShrinks | src/scheduler.c:291-320 | bound plus ticks passed never exceeds the initial bound |
| SchedulerRuns.WaitBoundAtMost | src/scheduler.c:291-338 | the bound is at most 4 ticks for each thread in round robin, 38 ticks and 2 for each thread in the feedback queues, if the boost clock is not ahead and a round robin quantum is at most 4 |
| SchedulerRuns.RunTimed | src/scheduler.c:291-338 | over every run the boost clock is not ahead of the kernel's and a round robin quantum is at most 4 |
| SchedulerRuns.NobodyStarves | docs/report.md:249-263 | in every run of a new scheduler, in both modes: a thread that is queued at any point, and from then on not itself blocked or terminated, is dispatched within that fixed number of ticks |
| SchedulerRuns.TickLevels | src/scheduler.c:291-338 | the level after a tick of every thread: 0 if boosted, one lower in rank if its quantum ended, else unchanged |
| SchedulerRuns.OtherLevels | src/scheduler.c:135-289 | no other operation changes a level, except that the first add sets it from the priority |
| SchedulerRuns.UnblockReturnsToLevel | src/scheduler.c:242-268 | unblocking a thread that is blocked or done puts it at the end of the queue of the level it then has |
| SchedulerRuns.LevelWhileOff | src/scheduler.c:238-338 | over every run: a thread that is blocked or done stays so and keeps its level until it is added or unblocked, whatever ticks, boosts and other operations there are |
| SchedulerRuns.BlockedComesBack | src/scheduler.c:238-268 | over every run: a thread blocked in step a and next brought back by the unblock in step b goes to the end of the queue of the level at which it was blocked |
| SchedulerRuns.BoostCount | src/scheduler.c:291-329 | after ticks 0 to T of a run there have been (T - 1) / 30 boosts, whatever else happened |
| SchedulerRuns.OnlyTicksBoost | src/scheduler.c:322-329 | no operation but a tick moves the boost clock |
| FatTable.AppendKeeps | src/filesystem.c:80-85 | linking a free block behind a chain keeps the partition and takes exactly that block |
| FatTable.JoinKeeps | src/filesystem.c:94-100 | linking a chain behind another keeps the partition |
| FatTable.BeheadKeeps | src/filesystem.c:131-136 | freeing the first block of a chain keeps the partition |
| FatTable.ChainStep | src/filesystem.c:98 | following a chain stays in range and meets -1 exactly at its last block |
| FatTable.BlocksConserved | src/filesystem.c:53-142 | free blocks plus chain lengths is the number of blocks |
| FatTable.CountOnChains | src/filesystem.c:53-142 | no block is counted twice: the blocks on the chains are as many as the chains are long |
| FatTable.TakesNext | src/filesystem.c:18-23 | taking the lowest block that is still free continues the sequence of the lowest free blocks |
| FileContents.ChunkCount | src/filesystem.c:63 | the number of blocks a piece is cut into is its size divided by the block size, rounded up |
| FileContents.ChunksPad | src/filesystem.c:73-78 | cutting a piece into blocks pads it to the next block boundary with zeros |
| FileContents.AllChunksPad | src/filesystem.c:94-101 | the blocks of a history of writes hold the padded pieces one after another |
| FileContents.AlignedViewIsConcatenation | src/filesystem.c:105-124 | pieces that fill whole blocks, but for the last, read back as their concatenation |
| FileContents.GapAfter | src/filesystem.c:94-99 | after the first piece that ends inside a block, reading gives a zero instead of the next piece |
| FileContents.ConcatenationIffAligned | src/filesystem.c:94-124 | pieces of given lengths read back as their concatenation, whatever their bytes, exactly when all but the last fill whole blocks |
| FileContents.ReadStep | src/filesystem.c:114-122 | one turn of the reading loop |
| BlockStore.StoreKeeps | src/filesystem.c:77-85 | storing a block changes one chain's contents by one row and no other file; free blocks stay zero |
| BlockStore.JoinStoreKeeps | src/filesystem.c:94-100 | attaching the new chain appends its contents to the file's and leaves other files alone |
| BlockStore.BeheadStoreKeeps | src/filesystem.c:131-136 | freeing a block leaves other files alone, and the block is zero |
| BlockStore.MemsetFillsWord | src/filesystem.c:10 | filling memory with a byte stores the intended number only for 0 and -1; with -2 no block is free |
| LogPaths.PrefixFitsOwnFilesOnly | src/filesystem.c:165-173 | of the paths "/logs/drone_" + D + "_..." with D the digits of q, the prefix of process p fits exactly those with q = p |
| LogPaths.PrefixFitsKernelFiles | src/kernel.c:618 | the same for the kernel's own log files "/logs/drone_D_seq_E.log" |
| LogPaths.PrefixFitsLogsOnly | src/filesystem.c:167 | it fits no path that does not begin with "/logs/drone_" |
| LogPaths.DecimalReads | src/filesystem.c:167 | the digits printed for a number, read back digit by digit, give that number, with no leading zero |
| LogPaths.ReadsUnique | src/filesystem.c:167 | a number is written in one way only |
| Directories.CutOutcome | src/filesystem.c:44-45 | an entry keeps a path of up to 63 characters as it is, and the first 63 of a longer one |
| FileSystems.FileSystem.FindFreeBlock | src/filesystem.c:18-23 | the lowest free block, or that there is none |
| FileSystems.FileSystem.FindFile | src/filesystem.c:25-32 | the one entry with that path, or -1 |
| FileSystems.FileSystem.Create | src/filesystem.c:34-51 | -1 exactly when the table is full; a new path, cut off after 63 characters, gets the first unused entry and an empty history; nothing else changes |
| FileSystems.FileSystem.Enter | src/filesystem.c:44-49 | a free entry is filled in and all other files are untouched |
| Directories.EnterKeeps | src/filesystem.c:44-49 | a new entry agrees with the blocks on the disk, and so do all others |
| FileSystems.FileSystem.Write | src/filesystem.c:53-103 | refuses in exactly the listed cases, a path that is too long among them, which leaves an empty file behind; otherwise returns min(size, block size times free blocks), appends exactly those bytes to the history of that path only, and adds to the file's blocks exactly the lowest free ones that they need, from the lowest up |
| FileSystems.FileSystem.WriteBlocks | src/filesystem.c:66-92 | the new chain holds the first bytes of the data, in the lowest free blocks from the lowest up; it stops early only when no block is free |
| FileSystems.FileSystem.StoreChunk | src/filesystem.c:77-85 | one block is filled and linked, the rest of it is zero |
| FileSystems.FileSystem.WriteOne | src/filesystem.c:73-85 | one turn of the writing loop: one block more, the next bytes of the data |
| FileSystems.FileSystem.LastBlock | src/filesystem.c:97-98 | the loop along the chain ends, at its last block |
| FileSystems.FileSystem.Attach | src/filesystem.c:94-100 | the new chain follows the file's old one |
| FileSystems.FileSystem.Append | src/filesystem.c:66-103 | writing from a first free block: how much is stored, which blocks it takes, and whose history grows |
| FileSystems.FileSystem.Account | src/filesystem.c:101 | the size and the history of the file grow by what was written |
| Directories.AccountKeeps | src/filesystem.c:94-101 | when the new blocks follow the file's old ones, its entry agrees with its longer history, and the other files are untouched |
| FileSystems.FileSystem.AppendIfRoom | src/filesystem.c:63-103 | the write to an existing file, with its two refusals |
| FileSystems.FileSystem.FindOrCreate | src/filesystem.c:56-61 | the entry of the path, created if missing, or -1 if there is no room for it or the path is too long to be found again |
| FileSystems.FileSystem.Read | src/filesystem.c:105-124 | -1 for an empty request or a missing file; else the first min(n, size) bytes of the padded pieces ever written to that path |
| FileSystems.FileSystem.ReadChain | src/filesystem.c:111-123 | the loop copies a prefix of the chain's contents and ends |
| FileSystems.FileSystem.ReadBlock | src/filesystem.c:115-121 | what is copied from one block, and which block is next |
| FileSystems.FileSystem.ChunkSize | src/filesystem.c:115-117 | the smallest of what is wanted, a block, and what is left |
| FileSystems.FileSystem.Delete | src/filesystem.c:126-142 | exactly that path is forgotten, and exactly its blocks become free |
| FileSystems.FileSystem.FreeChain | src/filesystem.c:130-136 | the loop frees the whole chain and ends |
| FileSystems.FileSystem.FreeOne | src/filesystem.c:132-135 | one block is free and zero, the chain starts with the next one |
| FileSystems.FileSystem.Forget | src/filesystem.c:138-140 | the entry is given up |
| Directories.ForgetKeeps | src/filesystem.c:126-141 | when its blocks are free, giving up an entry leaves all others in agreement with the disk |
| FileSystems.FileSystem.CleanupProcess | src/filesystem.c:165-173 | exactly the files with the log prefix of the process are deleted: of the kernel's "/logs/drone_D_seq_E.log" those whose D reads as the pid, none outside "/logs/drone_"; the others keep their contents |
| FileSystems.FileSystem.CleanupSlot | src/filesystem.c:169-171 | one entry is deleted exactly if it is used and has the prefix |
| FileSystems.FileSystem.BlocksAccountedFor | src/filesystem.c:53-142 | in every state: free blocks plus chain lengths is the size of the disk, no block is shared, each file has as many blocks as its history needs |
| FileSystems.FileSystem.Empty | src/filesystem.c:8-12 | an empty disk with all blocks free |
| FileSystems.FileSystem.MakeDirectories | src/filesystem.c:13-15 | the three directory entries exist and are empty |
| PagingProofs.FaultKeeps | src/kernel.c:377-387 | allocation and repair together keep frame table and page tables inverse and the counters true, whoever loses a page, and the page is mapped afterwards |
| PagingProofs.PlaceEvicting | src/kernel.c:381-387 | the case of an eviction, including a process that evicts its own page |
| PagingProofs.AccessKeeps | src/memory.c:94-110 | access keeps the tables inverse |
| PagingProofs.FreeProcessKeeps | src/memory.c:112-122 | freeing a process keeps the tables inverse and the free count true |
| PagingProofs.TranslationStaysInFrame | src/memory.c:97-109 | a translated address is in its page's frame exactly when the virtual address is not negative |
| PagingProofs.TranslationInjective | src/memory.c:94-110 | two translations give the same physical address only for the same process and virtual address, or if exactly one of the two virtual addresses is negative |
| PagingProofs.TranslationReaches | src/memory.c:97-109 | where in physical memory each translated address lies, negative ones included |
| PagingRules.FindFree | src/memory.c:20-25 | the lowest free frame, or none |
| PagingRules.Oldest | src/memory.c:27-37 | the lowest of the frames with the earliest access |
| PagingRuns.RunKeeps | src/memory.c:39-136 | in every state of every run the tables are inverse, the counters true, and each frame carries the tick of its page's last touch |
| PagingRuns.StepKeeps | src/memory.c:39-127 | every event keeps the tables inverse and the stamps equal to the last touches |
| PagingRuns.EvictsLeastRecentlyUsed | src/memory.c:58-74 | a page is evicted exactly when a fault finds no free frame, and it is the one whose last touch in the history is earliest, in the lowest such frame |
| PagingRuns.EvictsListTail | src/memory.c:27-37 | with distinct touch ticks the evicted page is the last of the list ordered by recency |
| PagingRuns.RefinesList | src/memory.c:27-110 | over every run with distinct touch ticks the pages in memory are exactly those of the list, in the order of their stamps |
| PagingOutcomes.InitOutcome | src/memory.c:8-14 | every frame is free, no page has one, all stamps are 0 |
| PagingOutcomes.NothingToAllocate | src/memory.c:39-49 | a page out of range gives -1 and one that has a frame gives that frame, and nothing changes |
| PagingOutcomes.AllocateOutcome | src/memory.c:58-91 | otherwise the lowest free frame, or with none free the lowest of those with the earliest stamp, whose page is reported; the frame and the page's entry point to each other, the stamp is the current tick, and nothing else changes |
| PagingOutcomes.FaultOutcome | src/kernel.c:377-387 | after the repair the page has that frame, the page that lost it has none, and no other entry differs |
| PagingOutcomes.NoFaultOutcome | src/kernel.c:377-387 | completing a fault of a page out of range, or mapped by then, does nothing |
| PagingOutcomes.AccessOutcome | src/memory.c:94-110 | a mapped page gives frame times page size plus offset, and its frame the current tick; anything else -1 and no change |
| PagingOutcomes.FreeProcessOutcome | src/memory.c:112-122 | exactly the frames of the process are free, its table is empty, all other frames and tables are as before |
| Paging.PhysicalMemory.constructor | src/memory.c:8-14 | all frames free |
| Paging.PhysicalMemory.SetTick | src/memory.c:16-18 | only the clock changes |
| Paging.PhysicalMemory.FindFreeFrame | src/memory.c:20-25 | the scan finds the lowest free frame |
| Paging.PhysicalMemory.SelectVictim | src/memory.c:27-37 | the scan finds the lowest of the frames with the earliest access |
| Paging.PhysicalMemory.AllocatePage | src/memory.c:39-92 | frame, eviction report and new tables for every page number; the page's entry is the frame returned, which is the lowest free one if any is free; the victim's page table is not corrected |
| Paging.PhysicalMemory.PutPage | src/memory.c:79-84 | frame, stamp and page table entry are set, nothing else |
| Paging.PhysicalMemory.CompleteFault | src/kernel.c:377-387 | allocation followed by the repair in the victim's page table keeps the tables inverse |
| Paging.PhysicalMemory.Unmap | src/kernel.c:381-387 | exactly the evicted page of the victim is unmapped |
| Paging.PhysicalMemory.Access | src/memory.c:94-110 | physical address or -1, the missing page if that is why, and the stamp |
| Paging.PhysicalMemory.Stamp | src/memory.c:107 | only the stamp of that frame changes |
| Paging.PhysicalMemory.FreeProcess | src/memory.c:112-122 | all frames of the process are free, its table is empty, nobody else is affected |
| Paging.PhysicalMemory.FreeFramesOf | src/memory.c:114-120 | the loop frees exactly the frames of the process and counts them |
| Paging.PhysicalMemory.ClearTable | src/memory.c:121 | no page is mapped |
| Paging.PhysicalMemory.PageCount | src/memory.c:129-136 | the count of mapped pages, which equals pages_used |
| Sync.WaitQueue.Enter | src/sync.c:60-65 | enters at the end unless there already or full |
| Sync.WaitQueue.Leave | src/sync.c:68-76 | takes the first, the others move up |
| Sync.WaitQueue.LeaveAll | src/sync.c:78-85 | reports the first ids, as many as there is room for, and empties the queue |
| Sync.WaitQueue.Remove | src/sync.c:99-111 | the two loops take out exactly that id and keep the order |
| Sync.Mutex.constructor | src/sync.c:12-17 | a free mutex that nobody waits for |
| Sync.Mutex.Lock | src/sync.c:19-38 | acquires a free mutex, else the caller waits |
| Sync.Mutex.Unlock | src/sync.c:40-56 | frees the mutex and reports the first waiter |
| Sync.BoundedBuffer.constructor | src/sync.c:87-97 | empty buffer, free mutex, empty wait queues |
| Sync.BoundedBuffer.Wait | src/sync.c:58-66 | gives the mutex up and joins the condition's queue |
| Sync.BoundedBuffer.AskMutex | src/sync.c:143-145 | the mutex is acquired, or the caller waits for it |
| Sync.BoundedBuffer.Put | src/sync.c:152-154 | the item goes to the end of the ring |
| Sync.BoundedBuffer.Take | src/sync.c:177-179 | the first item of the ring is taken |
| Sync.BoundedBuffer.SignalAndUnlock | src/sync.c:156-160 | the first waiter of the condition and the first of the mutex are reported, in this order |
| Sync.BoundedBuffer.Produce | src/sync.c:140-163 | result, woken processes and new state |
| Sync.BoundedBuffer.ProduceLocked | src/sync.c:147-162 | result, woken processes and new state once the mutex is held |
| Sync.BoundedBuffer.Consume | src/sync.c:165-188 | item or failure, woken processes and new state |
| Sync.BoundedBuffer.ConsumeLocked | src/sync.c:172-187 | item or failure, woken processes and new state once the mutex is held |
| Sync.BoundedBuffer.RemovePid | src/sync.c:99-138 | the process leaves all three queues |
| Sync.BoundedBuffer.ReleaseMutex | src/sync.c:190-194 | only the owner's mutex is released |
| Sync.BoundedBuffer.WakeWaiters | src/kernel.c:403-433 | the kernel's wake-up step with its fixed array |
| BufferRuns.RunConserves | src/sync.c:87-194 | over every run: produced is consumed followed by the contents, never more than fits; mutex free and unwaited at call boundaries; at each condition those made to wait and not removed are, in order and each once, those woken followed by those still waiting |
| BufferRuns.FirstInFirstOut | src/sync.c:140-188 | the k-th item out is the k-th item in |
| BufferRuns.FirstComeFirstServed | src/sync.c:58-85 | over every run and for each condition: the processes woken are a prefix of those made to wait and not removed |
| BufferRuns.EveryItemSignals | src/sync.c:140-188 | over every run: each accepted item wakes the next in line for an item, each item handed out the next in line for space, and a call that fails wakes nobody and puts its caller in line |
| BufferRuns.CrossServed | src/sync.c:99-138 | a removed process leaves the line and nobody else does |
| BufferRuns.ProduceOutcome | src/sync.c:140-163 | at a call boundary an item that is stored wakes exactly the first who waits for one; it fails only because the buffer is full, and the caller then waits, once |
| BufferRuns.ConsumeOutcome | src/sync.c:165-188 | at a call boundary an item that is taken wakes exactly the first who waits for space; it fails only because the buffer is empty, and the caller then waits, once |
| BufferRuns.WakeOutcome | src/kernel.c:403-433 | afterwards nobody waits for an item while there is one or for space while there is some, and all who did were reported in order |
| BufferRules.NobodyTurnedAway | src/sync.c:78-85 | a wait queue always has room for one more process, and the smaller array of the broadcast holds all waiters |
| BufferRules.PurgeTakesOne | src/sync.c:99-138 | removing a process takes out exactly its one entry |
| BufferRules.InitOutcome | src/sync.c:87-97 | empty buffer, free mutex, empty queues |
| BufferRules.LockOutcome | src/sync.c:19-38 | in any state: a free mutex is had, else the caller is last in its queue, once, while there is room |
| BufferRules.UnlockOutcome | src/sync.c:40-56 | the mutex is free and its first waiter has left the queue |
| BufferRules.ReleaseMutexOutcome | src/sync.c:190-194 | the same if the process held it, else nothing |
| BufferRules.StoreOutcome | src/sync.c:140-163 | in any state with free mutex and space: the item is last, and woken are the first who waits for an item and the first who waits for the mutex |
| BufferRules.FetchOutcome | src/sync.c:165-188 | in any state with free mutex and an item: the first item is handed out, and woken are the first who waits for space and the first who waits for the mutex |
| BufferRules.RefusedOutcome | src/sync.c:143-150 | in any other state nobody is woken and the caller waits for the mutex, for space or for an item |
| BufferRules.WakeUpOutcome | src/kernel.c:403-433 | in any state: which queues the wake-up step empties, and whom it reports |

## Left out

- Logging, JSON output, `src/logger.c`, `src/main.c`, the web interface, interactive input and sleeping: formatting and I/O. Log calls are dropped from the modelled bodies.
- The main loop of `src/kernel.c` and its metrics: only the steps named in the table are modelled, in the order in which the kernel takes them.
- The table of pending events (`src/kernel.c:328-339`, `src/kernel.c:633-645`): its compaction leaves stale entries, so nothing about completing each event once holds.
- Which thread the kernel wakes for a buffer waiter: `src/kernel.c:544` passes a process id that `src/kernel.c:410` looks up as a thread id. The buffer is modelled up to the ids it reports.
- Resources of a process that ends normally: the kernel does not free them (`src/kernel.c:652`); the deadlock results are about the module's own operations.
- The effect of the victim callback on threads (`src/kernel.c:232-243`): waking reports the processes instead.
- Null pointers and the bounds of `int` in counters: ids, sizes and ticks are unbounded integers here. The limits the source checks itself are all modelled.
- Blocks and wait-queue rows of one resource are copied whole where the source uses `memcpy` and `memset`: a block is a sequence of bytes in an array of blocks.
- `dfs_cycle`'s `counter` and `progress` arguments, which nothing reads.
- `deadlock_init` called a second time, which keeps old priorities: the model starts with all priorities zero.
- `src/pcb.c`, `src/thread.c` and `src/drone.c` beyond the fields and the three state changes used here, and plain getters: they hold no state that the results depend on.
- FileSystems.FileSystem.Create: requires that a path longer than 63 characters does not begin with the 63 characters of a name in use; the source would make a second entry with that name (`src/filesystem.c:44-45`), of which only the first is ever found.
- FileSystems.FileSystem.Write: requires the same of its path, which it may create.
- FileSystems.FileSystem.FindOrCreate: requires the same of its path, which it may create.
- FileSystems.FileSystem.Empty: follows the intended fill of the table, not the bytes that `src/filesystem.c:10` stores.
- ReadyQueues.ReadyQueue.Append: requires a free slot; into a full ring the source would overwrite the head. In every reachable state there is one, as SchedulerProofs.QueuesFit says.
- SchedulerRuns.DispatchedInTime: counts ticks of the scheduler; the processes' own pace is not part of this model.
