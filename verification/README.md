# ZeOS: a verified model of the kernel

ZeOS is a small teaching kernel for the 386. This project models the parts of it where data
structures are shared and changed in place, and proves what they are for:

* **processes**: ten PCBs that move between the free queue, the ready queue, twenty semaphore
  queues, "running" and "idle" by pointer surgery on intrusive lists, and round-robin scheduling;
* **memory**: the byte map of frames, page tables, program breaks and the contents of the frames,
  as `fork`, `sbrk`, `exit` and stores of user programs change them;
* **directory counters**, which let threads share an address space;
* four smaller algorithms: the boot sector's loading loop, the two-step 64-by-32 division,
  `itoa`, and the keyboard's ring buffer.

## How it is built

Each half of the kernel is there twice. `Processes.dfy` and `AddressSpaces.dfy` say in terms of
values what a step means (a queue is a sequence, a heap grows by rounding its break up to a page);
the theorems are about these. `Lists.dfy`, `ProcessTable.dfy` and `MemoryManager.dfy` are the
source's own form: list nodes with `next` and `prev`, arrays, loops with their roll-back, unsigned
arithmetic and four cases of alignment. Every method there ends with `Abs()` being what the value
half prescribes. `Kernel.dfy` puts the halves together as one state machine and `Zeos.dfy` does
the same with the two classes, from boot on.

| files | contents |
|---|---|
| `Layout`, `Queues` | constants; rings of tasks as disjoint sequences |
| `Processes`, `ProcessInvariants`, `ProcessSteps` | the process machine, its invariant, every step and run |
| `Scheduling`, `Semaphores` | bounded waiting; the semaphore law and the outcome of a wait |
| `Outcomes`, `Quanta` | what each process step answers and all it changes; a dispatched task keeps its quantum |
| `Lists`, `ProcessTable` | the same machine on the heap |
| `Frames`, `AddressSpaces`, `MemoryInvariants` | first fit, page tables, who owns which frame |
| `SbrkLaws`, `ForkLaws`, `MemCopy` | what `sbrk`, `fork` and `copy_data` promise, and when |
| `MemoryManager` | the same memory on arrays |
| `Kernel`, `Zeos` | both halves together |
| `Runs` | what holds over whole runs, and which steps the premises have to exclude |
| `Accounting`, `Leaks` | where every frame is, which steps orphan one, and what forks cost for good |
| `Calls` | fork, sbrk, exit and stores as kernel steps: answers and all changes; PIDs in order |
| `Projection` | the process part of a kernel run is a run of the process machine, so its theorems hold there |
| `BootSector`, `Division`, `Itoa`, `CircularBuffer` | the smaller algorithms |

A system call is one step, except that a `sem_wait` that blocks is two: it blocks, and after
`task_switch` has come back (`current := next`) it resumes. `waiting` in a PCB stands for what the
kernel stack of a suspended call holds.

## Premises

`Kernel.KEnabled` states what the steps of a run need, and `Runs.PremisesExactly` proves that the
conditions on `fork` and `sbrk` exclude no more than they must.

* *A covered heap.* A caller whose `fork` takes a PCB, or whose `sbrk` is not refused, has the heap
  pages below its break mapped. In every run that is so of directory 2, the one of task 1 and its
  clones, as long as a task lives there, and of no other live directory, because all other breaks
  are 0 (`Runs.OnlyTask1HasHeap`). So in the runs below only task 1 and its clones fork with
  success and have an `sbrk` that is not refused; their children run, clone, use semaphores, store,
  exit, and have an `sbrk` refused. A fork from a break of 0 leaves the page table, and so does a
  shrink; a growth that is not refused maps over the kernel pages.
* *A free directory.* A `fork` that takes a PCB finds a directory counter that is 0.
  `ProcessSteps.TwoFreePcbsFindDirectory` says when that is certain. What happens otherwise is
  proved too, for the call, but the run ends there.
* *No wrap.* The end address of an `sbrk` that shrinks is not below 0.

An *exact* heap is a covered one with nothing mapped above the break. PCBs that a fork without
enough memory drops are collected in `lost`; claims about running tasks are about tasks that are
neither idle, lost nor free. A directory is *sound* if no lost PCB has it. An *orphan* is a frame in
use that no sound directory has as data or heap. Nothing gives an orphan back; nor the frames of heap
pages left in the slot of an ended child, which are orphaned when the next fork takes that slot.

## What the code does not do

The model follows the code. These are places where it does less than one would expect; each has
its exact condition.

* `sys_fork` never writes the child's entry of `programbreak_table`. The heap loop of `sys_fork`
  stays in the page table if and only if the father's break is at least 1 and at most the end of
  the table (`Runs.ForkInTableExactly`), so a child whose break is 0 must not fork, and can: after
  boot, a fork, a `sem_init` and a `sem_wait` the first child runs with a free PCB and a free
  directory, and its fork would write entries up to 0xFFFFF (`Runs.ChildForkLeavesTable`).
* For the same reason no child ever has an exact heap (`Runs.NoChildExact`; for one fork by
  itself `ForkLaws.ChildExactExactly` has the condition on the slot, which no run from boot
  meets). When a child's directory ends, the frames of its data come back and those of its heap,
  as many as the father had heap pages at the fork, do not (`Runs.ChildHeapLeaks`; for one fork
  by itself `ForkLaws.ForkThenEnd`). They are in use in every later state of the run
  (`Leaks.HeapFrameStays`), so a granted fork costs as many frames as the father has heap pages for
  good: the heap pages given to all children of a run and the even frames still free are together
  at most 376 (`Leaks.ForksUseUpFrames`).
* `sbrk` from such a break of 0 is refused, or leaves the table, or maps its frames over the
  kernel pages (`SbrkLaws.SbrkFromZero`).
* `allocate_DIR` returns 1 also when no slot is free. A fork then gives the child its father's
  directory uncounted; the counts stay exact if and only if a slot is free
  (`ProcessSteps.ForkCountsExactly`). The two page tables are then one: the father's data and heap
  pages are mapped to the new frames before anything is copied, each page is copied onto itself,
  and the old frames stay in use with nobody mapping them (`ForkLaws.SharedForkLosesData`). A
  granted fork leaves the caller's table and all it sees as they were if and only if a slot is free
  and nothing is mapped in the window above the heap (`Runs.CallerSurvivesExactly`). Boot spends
  two slots on task 0, so after seven forks in a row a PCB is free and no directory
  (`ProcessSteps.EighthForkHasNoDirectory`), and the eighth fork loses task 1's data
  (`Runs.EighthForkLosesData`).
* A fork that returns `-ENOMEM` gives back its frames but neither the PCB nor the directory.
* An `sbrk` that ends unaligned below the heap leaves page 284 mapped although the break is then
  the start of the heap. In a run that is the only way in which directory 2 can fail to be exact
  (`SbrkLaws.ExactAfterExactly`, `Runs.HeapOfTask1`), and `sbrk(1)`, `sbrk(-2)` right after boot does
  it (`Accounting.StalePageReached`).
  * The next growth maps a new frame over that page; the old one stays in use and no directory has
    it (`Accounting.NextGrowthOrphans`). So `sbrk(n)` and then `sbrk(-n)` restores the memory if and
    only if no page from the break to the page of the new break was mapped
    (`SbrkLaws.GrowthUndone`), and after 356 such pairs an empty heap cannot grow by a byte
    (`Accounting.EmptyHeapCannotGrow`).
  * The next fork uses the page for its window and clears it; the frame is orphaned, and the caller
    does not survive although a directory is free (`Accounting.NextForkOrphans`).
  * If the directory ends before that, all its frames come back (`Runs.EndOfTask1`).
* A step orphans a frame if and only if it takes a mapped page with that frame away without giving
  it back: a growth maps over it, a fork uses its window there, a fork builds the child in a slot
  where an earlier child's heap pages are left, or a fork without enough memory loses the
  directory it had begun (`Accounting.OrphansExactly`, `FramesAccountedFor`).
* An `sbrk` that shrinks to an end that wraps below 0 leaves the page table
  (`SbrkLaws.ShrinkInTableExactly`).
* The law of a semaphore can break in two ways. A signal that finds nobody waiting and the counter
  at 2^31 - 1 overflows it; `sem_init(0, 2^31 - 1)` and `sem_signal(0)` right after boot do that
  (`Semaphores.FullCounterBreaks`). A signal that finds a waiter and a negative counter grants a unit
  that is not there; for that `sem_init` must have had a value of 2^31 or more, and `sem_init(0, 2^31)`
  as the first call opens the way (`Semaphores.BootBreaksLaw`). A run obeys the law all along if and
  only if neither happens (`Semaphores.LawAllAlong`), from a counter that is not negative if and only
  if the first does not (`Semaphores.LawAllAlongExactly`). So after a successful `sem_init` the law
  holds of all runs without an overflow if and only if the value is below 2^31
  (`Semaphores.LawFromInitExactly`), and of all runs whatsoever with no value
  (`Semaphores.NoInitHoldsAlways`).
* `copy_data` is a byte copy for all contents of memory if and only if it moves no words or the
  destination does not start 1 to 3 bytes above the source (`MemCopy.ByteCopyExactly`).
* The boot loader's loop ends for every `syssize` below 0xF000 (`BootSector.ReadIt`). From 0xF000 on
  no place it can be at ends it (`BootSector.LoopEndsExactly`, `LoopGoesOn`). It spares the boot sector's own copy if and only if it is at most 0x7FFF.
* The buffers of `printnum` and `perror` hold the text only of numbers below 10^9 and below 100
  (`Itoa.BuffersOfCallers`).

## Model

| member | source | states |
|---|---|---|
| Lists.RingUnique | list.c:6-99 | the links of a ring determine its nodes and their order |
| Lists.InitListHead | list.c:6-10 | the node becomes the head of an empty ring |
| Lists.Link | list.c:18-26 | the new node stands between the two given ones, whose outer links stay |
| Lists.ListAdd | list.c:36-39 | a ring of s becomes a ring of the node followed by s |
| Lists.ListAddTail | list.c:50-53 | a ring of s becomes a ring of s followed by the node |
| Lists.Unlink | list.c:62-66 | the two nodes become neighbours, their outer links stay |
| Lists.ListDel | list.c:74-79 | the ring keeps all other nodes in order; the node has null links |
| Lists.ListIsLast | list.c:86-90 | true exactly of the last node |
| Lists.ListEmpty | list.c:96-99 | true exactly of the empty ring |
| Queues.AppendDisjoint | list.c:50-53 | appending a task that is on no ring keeps all rings disjoint |
| Queues.RemoveDisjoint | list.c:74-79 | taking a task out of a ring leaves it on no ring and every other task where it was |
| ProcessTable.ProcessTable.constructor | system.c:129-177 | from zeroed memory the boot sequence reaches the boot state, with all rings well linked |
| ProcessTable.BootSequence | sched.c:79-115 | init_idle and init_task1 turn ten free PCBs into idle and task 1 in directories 1 and 2 and eight free ones |
| ProcessTable.ProcessTable.AddTail | list.c:50-53 | one of 22 rings grows at its tail; the other 21 and the null links of all other unqueued nodes are kept |
| ProcessTable.ProcessTable.Del | list.c:74-79 | a task anywhere on its ring leaves it and gets null links; the other tasks, rings and null links are kept |
| ProcessTable.ProcessTable.First | sched.c:21-24 | the first node of a ring is that of the first task |
| ProcessTable.ProcessTable.IsEmpty | list.c:96-99 | tells whether the queue is empty |
| ProcessTable.ProcessTable.UpdateProcessState | sched.c:157-170 | a task that is not running leaves its ring, wherever it stands; then it joins the queue given, if any, and has the state that goes with it |
| ProcessTable.ProcessTable.SchedNextRr | sched.c:174-200 | the head of the ready queue is dispatched with a full quantum, or idle if there is none |
| ProcessTable.ProcessTable.Preempt | sched.c:204-207 | the running task, unless idle, goes to the tail of the ready queue and the next is dispatched |
| ProcessTable.ProcessTable.Schedule | sched.c:202-208 | one tick of the process machine, including the 32-bit decrement of left_ticks |
| ProcessTable.ProcessTable.InitQueues | system.c:104-106 | all ring heads become empty rings |
| ProcessTable.ProcessTable.FillFreeQueue | system.c:83-91 | the ten PCBs are on the free queue in order, each with PID -1 |
| ProcessTable.ProcessTable.InitSemaphores | system.c:119-125 | every semaphore has counter 0 and no owner |
| ProcessTable.ProcessTable.InitIdle | sched.c:79-94 | the first free PCB becomes idle with PID 0, quantum 50 and a directory |
| ProcessTable.ProcessTable.InitTask1 | sched.c:99-115 | the next one becomes the running task 1 |
| ProcessTable.ProcessTable.SysSemInit | sys.c:194-201 | the step of the machine with its error codes; the list head is reset |
| ProcessTable.ProcessTable.SysSemWait | sys.c:203-217 | the step of the machine: refused, granted at once, or blocked |
| ProcessTable.ProcessTable.BlockOn | sys.c:206-209 | the caller joins the wait queue and another task is dispatched |
| ProcessTable.ProcessTable.ReturnFromWait | sys.c:212-216 | the end of sem_wait: 0, or -EINVAL when marked, and the mark is cleared |
| ProcessTable.ProcessTable.SysSemSignal | sys.c:219-232 | the step of the machine: the first waiter is made ready or the counter goes up in 32 bits |
| ProcessTable.ProcessTable.WakeFirst | sys.c:225-229 | the first waiter moves to the tail of the ready queue, marked for a destroy |
| ProcessTable.ProcessTable.DrainQueue | sys.c:238-245 | the loop of sem_destroy does what draining the queue means |
| ProcessTable.ProcessTable.SysSemDestroy | sys.c:234-250 | the step of the machine with its error codes |
| ProcessTable.ProcessTable.AllocateDirectory | sched.c:45-63 | the first directory with counter 0 is taken, if there is one; 1 is returned in any case |
| ProcessTable.ProcessTable.TakeFreePcb | sys.c:68-73 | the first free PCB leaves its ring and becomes a copy of the caller's, links included |
| ProcessTable.ProcessTable.LaunchTask | sys.c:127-144 | the new task gets the next PID and is ready at the tail |
| ProcessTable.ProcessTable.ForkBegin | sys.c:66-75 | PCB and directory of the child, whether or not one is free |
| ProcessTable.ProcessTable.ForkFinish | sys.c:127-144 | the end of a fork that gets its memory; the invariant holds if a directory was free |
| ProcessTable.ProcessTable.ForkFail | sys.c:104-108 | the end of one that does not: PCB and directory are lost |
| ProcessTable.ProcessTable.SysClone | sys.c:147-182 | the step of the machine with its error codes; the thread shares and counts the directory |
| ProcessTable.ProcessTable.ExitBegin | sys.c:253-261 | the caller's semaphores are destroyed and its directory counter goes down; tells whether it reached 0 |
| ProcessTable.ProcessTable.ExitFinish | sys.c:265-268 | the PCB is freed with PID -1 and another task dispatched |
| ProcessTable.ProcessTable.Deliver | sys.c:147-250 | every step but fork and exit refines the machine and keeps all rings well linked |
| ProcessInvariants.StateTellsRing | sched.c:157-170 | READY holds exactly on the ready queue, BLOCKED exactly on a wait queue, RUN of the rest: so `state!=ST_RUN` says whether to unlink |
| ProcessInvariants.WaitersHaveSemaphore | sys.c:203-210 | a task waits only on an initialised semaphore |
| ProcessInvariants.TickInv | sched.c:202-208 | a tick keeps the invariant of processes |
| ProcessInvariants.SemInitInv | sys.c:194-201 | sem_init keeps it and throws no waiter away |
| ProcessInvariants.SemWaitInv | sys.c:203-217 | sem_wait keeps it, blocking or not |
| ProcessInvariants.SemSignalInv | sys.c:219-232 | sem_signal keeps it |
| ProcessInvariants.SemDestroyInv | sys.c:234-250 | sem_destroy keeps it |
| ProcessSteps.CloneInv | sys.c:147-182 | clone keeps it |
| ProcessSteps.ForkInv | sys.c:66-145 | fork keeps it, with or without memory, while a directory is free |
| ProcessSteps.CloseOwnedInv | sys.c:255-257 | the loop of exit takes the caller off its own semaphores and changes no other owner, PID or directory |
| ProcessSteps.ExitInv | sys.c:253-268 | exit keeps it; in particular every owner_pid stays -1 or the PID of a live task |
| ProcessSteps.StepInv | sys.c:66-268 | every step of the process machine keeps the invariant |
| ProcessSteps.BootInv | system.c:152-177 | boot establishes it |
| ProcessSteps.RunInv | sys.c:66-268 | every run keeps it |
| ProcessSteps.TwoFreePcbsFindDirectory | sched.c:45-63 | with two free PCBs there is a free directory, by pigeonhole |
| ProcessSteps.ForkCountsExactly | sched.c:45-63 | a fork keeps directory counts exact if and only if a directory is free |
| ProcessSteps.ForksFromBoot | sched.c:45-63 | PCBs and counters after any number of forks from boot up to seven |
| ProcessSteps.EighthForkHasNoDirectory | sched.c:45-63 | after seven there is a free PCB and no free directory |
| ProcessSteps.LastThread | sys.c:259-264 | the counter reaches 0 exactly when no other PCB in use has the directory |
| ProcessSteps.SomeoneElse | sys.c:66-145 | while a task other than idle runs some other PCB is ready, free or waiting: failed forks cannot lose them all |
| Scheduling.TickDelay | sched.c:202-208 | a tick dispatches a ready task or brings its delay down by exactly one |
| Scheduling.ReadyStep | sched.c:143-208 | no step takes a ready task off the queue but to dispatch it, and none raises its delay |
| Scheduling.WaitingRun | sched.c:143-208 | over a run in which it is not dispatched the delay falls by the number of ticks |
| Scheduling.BoundedWaiting | sched.c:119-208 | a ready task is dispatched within left_ticks plus the quanta of the tasks ahead of it |
| Scheduling.DelayAtMost400 | sched.c:119-208 | and that is never more than 400 ticks |
| Outcomes.InitOutcome | sys.c:194-201 | sem_init: -EINVAL exactly for n outside 0..19, -EBUSY exactly for an initialised one, else 0, value (less 2^32 from 2^31 on) and owner stored and nothing else changed |
| Outcomes.WaitRefusedExactly | sys.c:203-217 | sem_wait: -EINVAL exactly if not initialised, 0 exactly if initialised with a positive counter, which goes down by one; else it blocks |
| Outcomes.WaitBlocks | sys.c:206-209 | a wait that blocks appends the caller to the wait queue; the next ready task gets a full quantum, or idle runs; no other semaphore changes |
| Outcomes.ResumeOutcome | sys.c:212-216 | -EINVAL exactly if the caller is marked, 0 if not; the mark goes and nothing else changes |
| Outcomes.SignalOutcome | sys.c:219-232 | sem_signal: -EINVAL exactly if not initialised, else 0; the first waiter goes unmarked to the end of the ready queue, or with none the counter goes up in 32 bits; nothing else changes |
| Outcomes.DestroyOutcome | sys.c:234-250 | sem_destroy: -EINVAL exactly if not initialised, -EPERM exactly if another task's, else 0; the waiters go in order and marked to the end of the ready queue |
| Outcomes.CloneOutcome | sys.c:147-182 | clone: -EAGAIN exactly without a free PCB, -EINVAL exactly if there is one and the function is outside 0x100000..0x11BFFF or the stack outside 0x108000..0x11BFFF; else the PID, new and the next in order, of a live ready task with the caller's directory and quantum, outside any call |
| Outcomes.ForkOutcome | sys.c:66-145 | fork: -EAGAIN exactly without a free PCB, -ENOMEM exactly with one but without memory; else the PID of a live ready task with the caller's quantum, outside any call, in the lowest free directory |
| Outcomes.CloseOwnedReadies | sys.c:255-257 | the loop of exit appends the waiters of the caller's semaphores to the ready queue, semaphore by semaphore, and changes nobody's PID, directory or quantum |
| Outcomes.ExitOutcome | sys.c:253-268 | exit puts the PCB with PID -1 at the end of the free queue, counts the directory down, frees the caller's semaphores and no others, and the next ready task gets a full quantum |
| Quanta.TickExactly | sched.c:143-208 | a tick with more than one left takes one off and changes nothing else; the last one sends the task behind all ready ones and gives the first of these, itself if it is alone, a full quantum |
| Quanta.DispatchExactly | sched.c:143-208 | the processor changes hands by a last tick, an exit or a wait that blocks and by nothing else, and who gets it has a full quantum |
| Quanta.StillRuns | sched.c:143-208 | over any run a task that neither exits nor blocks runs as long as it has ticks left, which go down with the ticks |
| Quanta.QuantumExactly | sched.c:143-208 | and with the last of them it goes behind all ready tasks; it goes on exactly if there are none |
| Quanta.RunQuanta | sched.c:79-115 | in every run from boot every PCB in use has a quantum of 50 |
| Quanta.KernelStillRuns | sched.c:143-208 | StillRuns for kernel runs |
| Quanta.KernelQuantumExactly | sched.c:143-208 | QuantumExactly for kernel runs |
| Quanta.KernelQuanta | sched.c:174-200 | in every state of every kernel run quanta are 50 and the running task has 1 to 50 ticks left; when another is dispatched it has 50 |
| Semaphores.DrainReadies | sys.c:238-245 | a destroy readies all waiters in order, marked |
| Semaphores.CloseEvicts | sys.c:234-250 | no waiter is left, each is ready and marked, the semaphore has no owner |
| Semaphores.CloseOwnedFate | sys.c:255-257 | exit evicts the waiters of the caller's semaphores and leaves all others alone |
| Semaphores.OtherStepUntouched | sys.c:194-232 | an open semaphore and its waiters are changed only by waits and signals on it |
| Semaphores.LogCounts | sys.c:203-232 | the calls and signals that the law counts are all sem_wait and sem_signal events of the run, whatever they answered |
| Semaphores.RunBalanced | sys.c:203-232 | from any counter, counter, granted waits and queue stay in balance over every run in which no signal overflows the counter or wakes a waiter while it is negative |
| Semaphores.SignalBalanced | sys.c:219-232 | a signal keeps the balance, or overflows the counter or overdraws it, and then the law breaks at once |
| Semaphores.SemaphoreLaw | sys.c:203-232 | from a counter v >= 0, in every run in which the semaphore stays open and no signal finds nobody waiting and the counter at 2^31 - 1: of all the waits called, min(waits, max(0, v + signals)) are granted, the counter is v + signals - granted, waiters imply a counter of at most 0, grants follow the order of calls |
| Semaphores.LawAllAlong | sys.c:203-232 | from any counter a run obeys the law after every step if and only if no signal overflows the counter and none wakes a waiter while it is negative |
| Semaphores.LawAllAlongExactly | sys.c:203-232 | from a counter that is not negative if and only if no signal overflows it |
| Semaphores.LawFromInit | sys.c:194-232 | the law, over all waits and signals, from a successful sem_init with a value below 2^31, in every run in which no signal overflows the counter |
| Semaphores.RunsFromInitExactly | sys.c:194-232 | after a successful sem_init with any value, which runs obey the law all along: those without an overflow and an overdraft, where a value below 2^31 excludes the latter |
| Semaphores.NegativeCounterBreaks | sys.c:197-232 | with a negative counter and any task but idle running there is a run in which the law breaks: the caller clones or signals if nobody is ready, blocks, and the next task signals |
| Semaphores.LawHoldsExactly | sys.c:194-232 | from a state without waiters the law holds of all runs without an overflow if and only if the counter starts non-negative or idle runs |
| Semaphores.LawFromInitExactly | sys.c:194-232 | after a successful sem_init it holds of all runs without an overflow if and only if the value is below 2^31 |
| Semaphores.BootBreaksLaw | sys.c:194-201 | sem_init(0, 2^31) as the first call after boot succeeds, and some run without an overflow breaks it |
| Semaphores.OverflowBreaks | sys.c:219-224 | from any non-negative counter there is a run of signals that overflows it and breaks the law |
| Semaphores.LawHoldsAlwaysExactly | sys.c:194-232 | so the law holds of all runs, with overflow or without, if and only if idle runs |
| Semaphores.NoInitHoldsAlways | sys.c:194-232 | and after no sem_init, whatever its value |
| Semaphores.FullCounterBreaks | sys.c:219-224 | sem_init(0, 2^31 - 1) and sem_signal(0) as the first calls after boot make the counter -2^31 |
| Semaphores.OwnerStep | sys.c:234-257 | an open semaphore is closed by its owner's destroy or exit and by nothing else |
| Semaphores.ReleaseStep | sys.c:203-250 | a waiter is released by a signal or by a close, and marked exactly by the latter |
| Semaphores.PendingStep | sys.c:203-217 | a released task keeps its mark until it resumes |
| Semaphores.WaitOutcome | sys.c:203-250 | in every run a wait that blocked returns 0 if and only if a signal released it and -EINVAL if and only if a close did |
| Frames.TakeDistinct | mm.c:236-249 | frames handed out in a row are distinct |
| Frames.TakeLowest | mm.c:236-249 | they are the lowest free even frames |
| Frames.TakeSum | mm.c:236-249 | taking a + b frames is taking a and then b |
| Frames.TakeSucceeds | mm.c:236-249 | n frames can be had if and only if n even frames are free |
| Frames.ReleaseMarked | mm.c:269-273 | giving back the frames just taken restores the map |
| Frames.AtMost376 | mm.c:236-249 | at most 376 distinct frames remain for data and heap |
| MemoryInvariants.RoomFor | mm.c:236-249 | mapped pages of a directory and frames to be had together are at most 376 |
| MemoryInvariants.GrowthStaysInTable | sys.c:375-403 | the heap is at most 356 pages and a growth that succeeds, also from a break of 0, ends at page 639 or below, although the guard admits page 1024 |
| MemoryInvariants.ForkWindowStaysInTable | sys.c:98-122 | a fork that succeeds has at most 168 heap pages to copy and its window ends at page 639 or below |
| MemoryInvariants.SbrkInv | sys.c:370-430 | an sbrk of a covered heap, or a refused one, keeps the memory invariant and the heap covered |
| MemoryInvariants.ForkInv | sys.c:77-122 | fork keeps it and the father's heap covered; a failed fork sets the half-built directory apart |
| MemoryInvariants.FreeInv | mm.c:252-265 | ending a directory keeps it and stays in the table |
| MemoryInvariants.EndReturnsFrames | mm.c:252-273 | for any live directory: exactly its data and heap frames become free, and likewise nothing stays mapped, if and only if nothing is mapped above the page of its break |
| MemoryInvariants.BootMemInv | mm.c:60-111 | boot establishes it, and an exact heap for task 1 |
| SbrkLaws.GrowthAllOrNothing | sys.c:375-400 | a growth succeeds if and only if its end passes the guard and enough even frames are free; otherwise -ENOMEM and nothing changed |
| SbrkLaws.SbrkAnswer | sys.c:370-430 | for every increment, 0 included, sbrk in the heap answers the old break, exactly if the increment is not positive or its end passes the guard and enough even frames are free, or -ENOMEM with nothing changed; the new break, and no other table or contents changed |
| SbrkLaws.GrowthPages | sys.c:381-403 | exactly the pages that start between the old and the new break are mapped, to frames that were free, and no other frame is taken |
| SbrkLaws.ShrinkPages | sys.c:405-420 | exactly the pages from the end to that of the old break are unmapped and their frames free, but for page 284 when the end is unaligned below the heap |
| SbrkLaws.ExactAfterExactly | sys.c:374-428 | when a covered heap, exact or not, is exact after an sbrk: if and only if nothing was mapped above the old break that the call neither maps over nor unmaps, and no unaligned end below the heap leaves page 284 |
| SbrkLaws.SbrkNearlyExact | sys.c:374-428 | a heap with nothing but page 284 mapped above its break stays so |
| SbrkLaws.SbrkExactness | sys.c:374-428 | an exact heap stays exact if and only if the end is in the heap, or aligned, or there was no heap |
| SbrkLaws.ShrinkInTableExactly | sys.c:378-415 | the loop of a shrink stays in the table if and only if the end does not wrap |
| SbrkLaws.SbrkFromZero | sys.c:374-403 | from a break of 0 a shrink leaves the table; a growth succeeds if and only if it passes the guard and gets its frames, and then, and only then, the kernel pages are mapped over |
| SbrkLaws.GrowthComposes | sys.c:381-428 | from any covered heap sbrk(a) then sbrk(b) succeeds if and only if sbrk(a + b) does and leaves the same memory |
| SbrkLaws.GrowthUndone | sys.c:381-428 | from any covered heap a successful sbrk(n) and then sbrk(-n) restores tables, frame map and break if and only if no page from the break to the page of the new break was mapped |
| ForkLaws.CopiedFrames | sys.c:110-122 | each destination frame gets what its source held at the start; other frames keep theirs |
| ForkLaws.ForkAllOrNothing | sys.c:99-109 | fork gets its frames if and only if enough even ones are free; if not, only the child's table has changed |
| ForkLaws.ForkTables | sys.c:77-122 | page by page, the tables after a fork that is granted and after one that is not, which leaves the father's heap frames mapped in the lost directory too |
| ForkLaws.ForkFaithful | sys.c:77-122 | the child has the father's kernel and code frames, and in frames that were free the contents of his data and heap |
| ForkLaws.ForkUnnoticed | sys.c:110-122 | every live directory keeps its table, but for the window in the father's, and sees the same contents |
| ForkLaws.SharedForkLosesData | sys.c:110-122 | if the child has the father's directory, the father sees what the new frames held; his old ones stay in use and nobody maps them |
| ForkLaws.FatherSurvivesExactly | sys.c:77-122 | a granted fork keeps the father's table and all he sees if and only if the child's directory is another one and the window was empty |
| ForkLaws.ForkNearlyExact | sys.c:110-122 | nor does a fork leave the father more than page 284 above his break |
| ForkLaws.WriteIsolated | sys.c:110-122 | a store to data or heap is seen in that page of that directory and nowhere else |
| ForkLaws.ChildExactExactly | sys.c:89-122 | the child's heap is exact if and only if the break left in its slot is not below the father's and the slot still maps exactly the pages between |
| ForkLaws.FirstChildNotExact | sys.c:89-122 | which it does not for the first child after boot; Runs.NoChildExact has all others |
| ForkLaws.ForkThenEnd | mm.c:252-265 | the child's end restores the frame map if and only if the break left in its slot covers its heap and no page left there by an earlier child |
| MemCopy.CopyData | utils.c:6-20 | the word loop and the byte tail leave memory as Copied says |
| MemCopy.CopyWords | utils.c:10-13 | the word loop, for as long as more than four bytes are left |
| MemCopy.CopyTail | utils.c:14-19 | the byte loop |
| MemCopy.CopyDataIsByteCopy | utils.c:6-20 | that is a byte copy unless words move 1 to 3 bytes up |
| MemCopy.OverlapDiffers | utils.c:6-20 | in that case it is not, if source and destination start with different bytes |
| MemCopy.ByteCopyExactly | utils.c:6-20 | so it is one for all contents of memory if and only if that case is excluded |
| MemCopy.BytesMoved | utils.c:6-20 | a byte copy that does not run into its source delivers the bytes as they were |
| MemoryManager.MemoryManager.AllocFrame | mm.c:236-249 | first fit over the even frames from 256 up, or -1 |
| MemoryManager.MemoryManager.ReleaseFrame | mm.c:269-273 | the frame becomes free if it is above 256 |
| MemoryManager.MemoryManager.AllocFrames | sys.c:99-109 | the allocation loop with its roll-back takes n frames or leaves the map as it was |
| MemoryManager.MemoryManager.SetSsPag | mm.c:276-284 | one entry is mapped |
| MemoryManager.MemoryManager.DelSsPag | mm.c:287-290 | one entry is cleared |
| MemoryManager.MemoryManager.UnmapOne | sys.c:413-414 | one page is unmapped and exactly the frame it had is given back |
| MemoryManager.MemoryManager.PagesToMap | sys.c:378-389 | the four cases of aligned and unaligned breaks come to the pages between the two rounded up |
| MemoryManager.MemoryManager.MapRange | sys.c:401-403 | consecutive pages are mapped to the frames |
| MemoryManager.MemoryManager.UnmapDown | sys.c:410-415 | pages are unmapped downwards and their frames given back |
| MemoryManager.MemoryManager.GrowHeap | sys.c:381-403 | a growth maps the missing pages or changes nothing |
| MemoryManager.MemoryManager.ShrinkHeap | sys.c:405-420 | a shrink unmaps everything from its end up to the page of the old break, with the extra page of an aligned end |
| MemoryManager.MemoryManager.SysSbrk | sys.c:370-430 | the whole call does what Sbrk prescribes; no index leaves the table |
| MemoryManager.MemoryManager.ShareRange | sys.c:80-93 | a range of the child is mapped as the father's, also if their tables are one |
| MemoryManager.MemoryManager.ShareAll | sys.c:80-93 | the first three loops of fork map code, kernel and heap of the child as the father's |
| MemoryManager.MemoryManager.CopyPage | sys.c:119-119 | copy_data between two logical pages copies one frame to another |
| MemoryManager.MemoryManager.MoveThroughWindow | sys.c:111-121 | one turn: page mapped in the child, copied through the window from what the father's table then shows, window cleared |
| MemoryManager.MemoryManager.CopyLoop | sys.c:110-122 | all turns: data and heap mapped in the child, the window cleared, the pages copied in order, for two tables or one |
| MemoryManager.MemoryManager.ForkSpace | sys.c:77-122 | the address space of the child is what Fork prescribes, with a directory of its own or the father's; no index leaves either table |
| MemoryManager.MemoryManager.FreePages | mm.c:252-265 | the end of an address space is what FreeUserPages prescribes |
| MemoryManager.MemoryManager.constructor | mm.c:139-147 | paging after boot, with task 1's pages and break |
| MemoryManager.MemoryManager.InitTablePages | mm.c:60-81 | every table maps the kernel one to one but for page 0 and the two guard pages |
| MemoryManager.MemoryManager.InitFrames | mm.c:203-215 | exactly the kernel frames are in use |
| MemoryManager.MemoryManager.SetUserPages | mm.c:86-111 | task 1's code and data get the first 28 even frames |
| Kernel.ExitAlwaysEnabled | mm.c:252-265 | a task can exit at any time without leaving the table |
| Kernel.KStepInv | sys.c:66-430 | every step of processes and memory together keeps both invariants and their connection |
| Kernel.KBootInv | system.c:152-177 | boot establishes them |
| Kernel.KRunInv | sys.c:66-430 | they hold in every state of every run from boot |
| Kernel.PagesHaveTheirOwnFrames | mm.c:236-273 | in every run each data or heap page of a live directory has a used even frame between 256 and 1024 that no other page has |
| Kernel.KernelAndCodeShared | sys.c:80-87 | in every run kernel page i has frame i and the code pages have task 1's code frames |
| Kernel.ForkMeaning | sys.c:66-145 | fork returns the PID of a live ready task in a directory of its own that sees what the caller saw; no live directory sees a change but that of the window |
| Calls.AlwaysEnabled | sys.c:66-430 | in every state that keeps the invariant ticks, and outside a call exit, clone, stores and all semaphore calls with any arguments, are steps |
| Calls.SbrkCall | sys.c:370-430 | sbrk as a kernel step: when it answers the old break and when -ENOMEM, with the state as it was; without a heap always the latter |
| Calls.ForkCall | sys.c:66-145 | fork as a kernel step: -EAGAIN exactly without a free PCB, -ENOMEM exactly with one and fewer free even frames than data and heap pages, else a new task as ForkOutcome has it in a directory nobody had |
| Calls.StoreCall | mm.c:276-284 | a store changes one byte of one page of the caller's directory and is seen in no other |
| Calls.ExitCall | sys.c:259-264 | exit ends the directory exactly when no other PCB in use has it; then its data and its pages up to that of the break are unmapped and their frames free, and nothing else in memory changes |
| Calls.StepPids | sys.c:127-128 | fork and clone that succeed answer the next PID and move it on by one, and no other step does |
| Calls.PidsInOrder | sys.c:127-128 | over every kernel run the n-th new task gets PID n + 1, so that none is given twice |
| Zeos.Zeos.Start | system.c:129-177 | the boot sequence makes a kernel in the boot state with a valid heap |
| Zeos.Zeos.Deliver | sys.c:147-250 | clock tick, semaphores and clone are steps of the kernel machine |
| Zeos.Zeos.SysFork | sys.c:66-145 | fork on lists, arrays and page tables is what KFork says, with or without a free directory, and with one a step of the kernel machine |
| Zeos.Zeos.SysExit | sys.c:253-268 | exit is the exit step |
| Zeos.Zeos.SysSbrk | sys.c:370-430 | sbrk is the sbrk step |
| Runs.RunOneHeap | sys.c:374-428 | in every state of every run only directory 2 has a break, and while a task lives there its heap is covered and nothing but page 284 is mapped above the break |
| Runs.OnlyTask1HasHeap | sched.c:114-114 | so a live directory is covered exactly if it is directory 2, and no other is ever exact |
| Runs.HeapOfTask1 | sys.c:405-427 | directory 2 is exact in a run if and only if its heap is not empty or page 284 is not mapped |
| Runs.NoChildExact | sys.c:66-145 | no directory a fork has given to a child is exact in any state of the run |
| Runs.ForkInTableExactly | sys.c:90-93 | the heap loop of fork stays in the table if and only if the father's break is between 1 and the end of the table |
| Runs.PremisesExactly | sys.c:66-430 | the premises admit, with a free directory, exactly the forks that stay in the table, and exactly the sbrks that stay in the table and leave the caller its kernel and code pages |
| Runs.ChildForkLeavesTable | sys.c:90-93 | a run of three steps after which the first child's fork leaves the table |
| Runs.ChildHeapLeaks | mm.c:252-265 | when a child's directory ends exactly its data frames come back; its heap frames stay in use and no live directory maps them |
| Runs.EndOfTask1 | mm.c:252-265 | when directory 2 ends, exactly its data and heap frames come back and nothing stays mapped |
| Runs.CallerSurvivesExactly | sys.c:75-122 | a granted fork keeps the caller's table and memory if and only if a directory is free and the window was empty |
| Runs.ForksOfTask1 | sys.c:66-145 | up to seven forks from boot form a run, each taking 20 frames |
| Runs.EighthForkLosesData | sched.c:45-63 | after which an eighth is granted without a directory and the caller's table or memory does not survive |
| Accounting.MappingOrphans | sys.c:401-403 | mapping fresh frames orphans exactly the frames that were mapped there |
| Accounting.ClearingOrphans | mm.c:287-290 | so does clearing entries |
| Accounting.ReleasingOrphansNothing | sys.c:410-415 | clearing entries and giving their frames back orphans none |
| Accounting.GrantedForkOrphans | sys.c:66-122 | a granted fork orphans exactly what the child's slot had where its data and heap now are and what the father had in the window |
| Accounting.RefusedForkOrphans | sys.c:99-109 | one without enough memory orphans exactly what the child's slot had |
| Accounting.OrphansExactly | sys.c:66-430 | a step of the kernel orphans a frame if and only if it takes a mapped page with it away without giving it back; orphans stay |
| Accounting.FramesAccountedFor | sys.c:66-430 | in every state of every run the orphans are exactly the frames some step before has dropped; every other frame from 272 up is free or held |
| Accounting.NextGrowthOrphans | sys.c:401-403 | with page 284 still mapped at an empty heap, sbrk(1) orphans its frame and sbrk(-1) does not bring the memory back |
| Accounting.NextForkOrphans | sys.c:110-122 | so does a fork, and the caller does not survive |
| Accounting.StalePageReached | sys.c:405-427 | sbrk(1), sbrk(-2) from boot is a run to such a state |
| Accounting.PairsUseUpFrames | sys.c:370-430 | each such pair takes one frame more, up to 356 |
| Accounting.EmptyHeapCannotGrow | sys.c:395-400 | and then sbrk(1) of an empty heap is refused |
| Leaks.SlotTaken | sys.c:66-122 | a fork into a slot leaves a page an earlier child has left there, or orphans its frame |
| Leaks.HeapFrameStays | sys.c:66-430 | the frame of a heap page a fork has given to a child is in use in every later state of the run, at that page or orphaned |
| Leaks.GivenStay | sys.c:66-430 | all frames so given in a run are distinct and in use |
| Leaks.ForksUseUpFrames | sys.c:66-430 | heap pages given to children so far and free even frames are together at most 376 in every state of every run |
| Projection.ProcessRun | sched.c:143-208 | between any two states of a kernel run the process part is a legal run of the process machine |
| Projection.KernelBoundedWaiting | sched.c:119-208 | in a kernel run a ready task is dispatched within its delay in clock ticks |
| Projection.KernelSemaphoreLaw | sys.c:203-232 | in a kernel run a semaphore that stays open, from a counter that is not negative, obeys the law in every state if and only if no signal overflows its counter; its waits and signals are all those among the steps |
| Projection.KernelWaitOutcome | sys.c:203-250 | in a kernel run a blocked wait returns 0 if and only if a signal released it and -EINVAL if and only if a destroy or the owner's exit did |
| BootSector.SectorsToReadFit | bootsect.S:225-234 | the size check gives at least one sector, within the track and the 64 KB segment, and no larger count would be |
| BootSector.Advance | bootsect.S:237-249 | track, head and sector move on by the sectors read |
| BootSector.AdvanceMemory | bootsect.S:250-256 | segment and offset move on by as much, also where the segment wraps |
| BootSector.PlaceOfRequest | bootsect.S:259-284 | every BIOS read is possible and its address is 0x10000 + 512 * (sector number - 1) |
| BootSector.GuardMeansMore | bootsect.S:219-222 | the loop test asks whether sectors are missing |
| BootSector.ReadIt | bootsect.S:210-257 | memory gets the disk from sector 1 on, in whole segments beyond syssize; the BIOS reads listed deliver just that, in order, and each is possible and as large as its track and segment allow |
| BootSector.LoopEndsExactly | bootsect.S:218-222 | there is a place of the loader at which the test ends the loop if and only if syssize is below 0xF000 |
| BootSector.LoopGoesOn | bootsect.S:218-222 | from 0xF000 on the test goes on at every place, however many sectors are loaded |
| BootSector.LoaderSparesItself | bootsect.S:210-257 | the loaded range stays below 0x90000 if and only if syssize is at most 0x7FFF |
| Division.Divl | utils.c:112-112 | quotient and remainder of one divl, which fit 32 bits because the upper half is below the base |
| Division.DoDiv | utils.c:103-115 | the halves of the quotient and the remainder satisfy n = q * base + r with r below the base |
| Division.DivisionUnique | utils.c:103-115 | which determines them |
| Division.GetTicks | utils.c:121-132 | the time stamp divided by the cycles per tick, in 32 bits |
| Itoa.WriteBackwards | libc.c:19-25 | the remainder loop writes the digits, last first, and nothing else |
| Itoa.ReverseInPlace | libc.c:27-32 | the swapping loop reverses the first cells and leaves the rest |
| Itoa.Itoa | libc.c:11-33 | the buffer holds the decimal text, a 0, and then what it held before; for a negative number just the 0 |
| Itoa.Strlen | libc.c:35-44 | the place of the first 0 |
| Itoa.ReadBack | libc.c:11-33 | reading the text gives the number; no leading zero, no 0 inside |
| Itoa.NoTextExactly | libc.c:11-33 | the text is empty exactly for a negative number |
| Itoa.OnlyText | libc.c:11-33 | and no other text does |
| Itoa.DigitCount | libc.c:19-25 | a number has at most k digits if and only if it is below 10^k |
| Itoa.BuffersOfCallers | system.c:198-203 | which numbers fit the buffers of printnum and perror |
| CircularBuffer.KeyBuffer.constructor | system.c:72-76 | the buffer starts empty |
| CircularBuffer.KeyBuffer.PushKey | circbuff.c:3-10 | the bounded queue grows at its end, or nothing changes when 666 bytes wait |
| CircularBuffer.KeyBuffer.PopKey | circbuff.c:16-22 | it loses its first byte, or nothing changes when it is empty |
| CircularBuffer.KeyBuffer.Front | circbuff.c:12-14 | the oldest byte |
| CircularBuffer.KeyBuffer.Empty | circbuff.c:24-26 | true exactly of the empty queue |
| CircularBuffer.KeyBuffer.Full | circbuff.c:27-29 | true exactly when 666 bytes wait |
| CircularBuffer.KeyBuffer.Count | circbuff.c:30-32 | the number of bytes waiting |
| CircularBuffer.Place | circbuff.c:3-22 | wrapping a pointer at the end of the ring is (first + i) mod 666 |
| CircularBuffer.FirstInFirstOut | circbuff.c:3-32 | over every history accepted bytes are the delivered ones followed by the waiting ones, and every byte typed is accepted or dropped |
| CircularBuffer.ReadDelivers | circbuff.c:12-22 | a read delivers the oldest unread byte if there is one |
| CircularBuffer.DroppedExactlyWhenFull | circbuff.c:3-10 | a byte is dropped exactly when 666 accepted ones are unread |

## Left out

- Zeos.Zeos.SysSbrk: asks for a covered heap of the caller, or that the call is refused, and for an end address that does not wrap; PremisesExactly shows that nothing else is harmless.
- Zeos.Zeos.SysFork: asks for a covered heap of the caller when a PCB is free; ForkInTableExactly and PremisesExactly show what it is for. Without a free directory the invariant is not promised, which ForkCountsExactly shows is not to be had.
- ProcessSteps.ForkInv: asks for a free directory, for the same reason.
- MemoryManager.MemoryManager.SysSbrk: asks for an end that does not wrap and, for a shrink, a heap, without which ShrinkInTableExactly and SbrkFromZero have the loop leave the table.
- MemoryManager.MemoryManager.ShrinkHeap: asks for the same.
- MemoryManager.MemoryManager.ForkSpace: asks for a break in the heap; from a break of 0 the loop leaves the table, as ForkInTableExactly says.
- MemoryInvariants.ForkWindowStaysInTable: asks for a covered heap, for the same reason.
- MemoryInvariants.SbrkInv: asks for a covered heap or a refused call; a growth from a break of 0 breaks the invariant, as SbrkFromZero says.
- MemoryInvariants.ForkInv: asks for a covered heap and a child's directory that is not in use; SharedForkLosesData has the other case, in which the invariant is lost.
- BootSector.ReadIt: syssize below 0xF000, without which the loop does not end; BIOS errors, and the error dump, are not modelled.
- MemoryManager.MemoryManager.StoreByte: a user program's store; loading, page faults and the permission bits of entries are not modelled. The source's set_ss_pag also makes the kernel's absent pages present and the code pages writable in a child.
- Keyboard reading and wake-up: sys_read_keyboard starts from an index it never sets; of the keyboard only the ring buffer is here.
- Page tables are values in an array indexed by directory; a pointer to a table is that index.
- PIDs are unbounded; the 32-bit wrap of global_PID is not modelled.
- Inline assembly, the stacks forged by fork and clone, context switch and system call entry: `task_switch` is `current := next`, a new task is ready.
- Time statistics (enter_system, exit_system, sys_get_stats), console output, sys_write and sys_read, access_ok and check_fd.
- free_pages: a debugging count that starts from an uninitialised variable.
- TLB and caches; the copy of user code and data into memory at the end of boot; the size of the kernel stack that holds the arrays of sys_fork and sys_sbrk.
- The rest of bootsect.S (A20, interrupt controllers, protected mode).
