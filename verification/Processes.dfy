// The process side of the kernel as a state machine: PCBs, the 22 rings, semaphores,
// directory counters and the round-robin scheduler. Every system call that changes them is
// one step; a sem_wait that blocks is two, block and (once dispatched again) resume.
module Processes {
  import opened Layout
  import opened Queues

  datatype TaskState = StRun | StReady | StBlocked

  // struct task_struct without its list links. `dir` stands for dir_pages_baseAddr and
  // pos_in_dir_counter, which are always set together. `waiting` is what the saved kernel
  // stack of a blocked sem_wait holds: its argument, or -1 when no call is suspended.
  datatype Pcb = Pcb(pid: int, state: TaskState, quantum: nat, semDestroyed: bool,
                     dir: TaskId, waiting: int)

  datatype Sem = Sem(counter: int, owner: int)

  // `lost` collects the PCBs dropped by a fork that ran out of frames.
  datatype Procs = Procs(tasks: seq<Pcb>, queues: Rings, sems: seq<Sem>, dirCounter: seq<int>,
                         current: TaskId, idle: TaskId, leftTicks: nat, nextPid: int,
                         lost: set<TaskId>)

  datatype Outcome = Returns(code: int) | Suspended

  predicate Shape(s: Procs) {
    && |s.tasks| == NR_TASKS && |s.queues| == NR_QUEUES
    && |s.sems| == NR_SEMS && |s.dirCounter| == NR_TASKS
  }

  function Cur(s: Procs): Pcb
    requires Shape(s)
  {
    s.tasks[s.current]
  }

  function SetTask(s: Procs, p: TaskId, t: Pcb): (s': Procs)
    requires Shape(s)
    ensures Shape(s')
  {
    s.(tasks := s.tasks[p := t])
  }

  function Enqueue(s: Procs, r: nat, p: TaskId): (s': Procs)
    requires Shape(s) && r < NR_QUEUES
    ensures Shape(s')
  {
    s.(queues := Append(s.queues, r, p))
  }

  function Dequeue(s: Procs, r: nat): (s': Procs)
    requires Shape(s) && r < NR_QUEUES && s.queues[r] != []
    ensures Shape(s')
  {
    s.(queues := Pop(s.queues, r))
  }

  // list_del of the task at place k of ring r.
  function TakeOut(s: Procs, r: nat, k: nat): (s': Procs)
    requires Shape(s) && r < NR_QUEUES && k < |s.queues[r]|
    ensures Shape(s')
  {
    s.(queues := RemoveAt(s.queues, r, k))
  }

  /* Scheduling */

  // sched_next_rr: dispatch the head of the ready queue, or idle when there is none. Going
  // idle leaves left_ticks as it was.
  function SchedNext(s: Procs): (s': Procs)
    requires Shape(s)
    ensures Shape(s')
  {
    if s.queues[READY] == [] then s.(current := s.idle)
    else
      var next := s.queues[READY][0];
      var s1 := SetTask(Dequeue(s, READY), next, s.tasks[next].(state := StRun));
      s1.(current := next, leftTicks := s.tasks[next].quantum)
  }

  // Put the running task at the tail of a ring in the given state.
  function Park(s: Procs, r: nat, st: TaskState): (s': Procs)
    requires Shape(s) && r < NR_QUEUES
    ensures Shape(s')
  {
    Enqueue(SetTask(s, s.current, Cur(s).(state := st)), r, s.current)
  }

  // The quantum is over: the running task, unless idle, goes to the tail of the ready queue.
  function Rotate(s: Procs): (s': Procs)
    requires Shape(s)
    ensures Shape(s')
  {
    SchedNext(if s.current != s.idle then Park(s, READY, StReady) else s)
  }

  // schedule: one clock tick. left_ticks is a 32-bit unsigned variable.
  function Tick(s: Procs): (s': Procs)
    requires Shape(s)
    ensures Shape(s')
  {
    var s1 := s.(leftTicks := UInt32(s.leftTicks - 1));
    if s1.leftTicks != 0 then s1 else Rotate(s1)
  }

  /* Semaphores */

  function SemInit(s: Procs, n: int, value: nat): (r: (Procs, Outcome))
    requires Shape(s)
    ensures Shape(r.0)
  {
    if !(0 <= n < NR_SEMS) then (s, Returns(-EINVAL))
    else if s.sems[n].owner != -1 then (s, Returns(-EBUSY))
    else
      (s.(sems := s.sems[n := Sem(Int32(value), Cur(s).pid)],
          queues := s.queues[SemQueue(n) := []]),
       Returns(0))
  }

  // The end of sem_wait, run at once or after the task has been dispatched again.
  function FinishWait(s: Procs): (r: (Procs, Outcome))
    requires Shape(s)
    ensures Shape(r.0)
  {
    var s1 := SetTask(s, s.current, Cur(s).(waiting := -1, semDestroyed := false));
    (s1, Returns(if Cur(s).semDestroyed then -EINVAL else 0))
  }

  // The caller joins the wait queue of n and gives up the processor.
  function Block(s: Procs, n: nat): (s': Procs)
    requires Shape(s) && n < NR_SEMS
    ensures Shape(s')
  {
    SchedNext(Park(SetTask(s, s.current, Cur(s).(waiting := n)), SemQueue(n), StBlocked))
  }

  function TakeUnit(s: Procs, n: nat): (s': Procs)
    requires Shape(s) && n < NR_SEMS
    ensures Shape(s')
  {
    s.(sems := s.sems[n := s.sems[n].(counter := s.sems[n].counter - 1)])
  }

  function SemWait(s: Procs, n: int): (r: (Procs, Outcome))
    requires Shape(s)
    ensures Shape(r.0)
  {
    if !(0 <= n < NR_SEMS) then (s, Returns(-EINVAL))
    else if s.sems[n].owner == -1 then (s, Returns(-EINVAL))
    else if s.sems[n].counter <= 0 then (Block(s, n), Suspended)
    else FinishWait(TakeUnit(s, n))
  }

  function SemSignal(s: Procs, n: int): (r: (Procs, Outcome))
    requires Shape(s)
    ensures Shape(r.0)
  {
    if !(0 <= n < NR_SEMS) then (s, Returns(-EINVAL))
    else if s.sems[n].owner == -1 then (s, Returns(-EINVAL))
    else if s.queues[SemQueue(n)] == [] then
      (s.(sems := s.sems[n := s.sems[n].(counter := Int32(s.sems[n].counter + 1))]), Returns(0))
    else
      var p := s.queues[SemQueue(n)][0];
      var s1 := SetTask(Dequeue(s, SemQueue(n)), p, s.tasks[p].(state := StReady));
      (Enqueue(s1, READY, p), Returns(0))
  }

  // Wake the first waiter of n on behalf of a destroy.
  function Evict(s: Procs, n: nat): (s': Procs)
    requires Shape(s) && n < NR_SEMS && s.queues[SemQueue(n)] != []
    ensures Shape(s') && |s'.queues[SemQueue(n)]| == |s.queues[SemQueue(n)]| - 1
  {
    var p := s.queues[SemQueue(n)][0];
    var s1 := SetTask(Dequeue(s, SemQueue(n)), p,
                      s.tasks[p].(state := StReady, semDestroyed := true));
    Enqueue(s1, READY, p)
  }

  function Drain(s: Procs, n: nat): (s': Procs)
    requires Shape(s) && n < NR_SEMS
    ensures Shape(s')
    decreases |s.queues[SemQueue(n)]|
  {
    if s.queues[SemQueue(n)] == [] then s else Drain(Evict(s, n), n)
  }

  // sys_sem_destroy once its checks have passed.
  function Close(s: Procs, n: nat): (s': Procs)
    requires Shape(s) && n < NR_SEMS
    ensures Shape(s')
  {
    var s1 := Drain(s, n);
    s1.(sems := s1.sems[n := s1.sems[n].(owner := -1)])
  }

  function SemDestroy(s: Procs, n: int): (r: (Procs, Outcome))
    requires Shape(s)
    ensures Shape(r.0)
  {
    if !(0 <= n < NR_SEMS) || s.sems[n].owner == -1 then (s, Returns(-EINVAL))
    else if s.sems[n].owner != Cur(s).pid then (s, Returns(-EPERM))
    else (Close(s, n), Returns(0))
  }

  /* Directories */

  // The first directory whose counter is 0, from d on; NR_TASKS when there is none.
  function FreeDir(counter: seq<int>, d: nat): (r: nat)
    requires d <= |counter|
    ensures d <= r <= |counter|
    ensures forall i :: d <= i < r ==> counter[i] != 0
    ensures r < |counter| ==> counter[r] == 0
    decreases |counter| - d
  {
    if d == |counter| || counter[d] == 0 then d else FreeDir(counter, d + 1)
  }

  // allocate_DIR. With no free directory it changes nothing and still reports success.
  function AllocateDir(s: Procs, p: TaskId): (s': Procs)
    requires Shape(s)
    ensures Shape(s')
  {
    var d := FreeDir(s.dirCounter, 0);
    if d == NR_TASKS then s
    else SetTask(s, p, s.tasks[p].(dir := d)).(dirCounter := s.dirCounter[d := 1])
  }

  /* Creation and termination */

  // Take a PCB off the free queue and copy the caller's into it.
  function TakePcb(s: Procs): (s': Procs)
    requires Shape(s) && s.queues[FREE] != []
    ensures Shape(s')
  {
    SetTask(Dequeue(s, FREE), s.queues[FREE][0], Cur(s))
  }

  // Give the new task its PID and make it ready.
  function Launch(s: Procs, p: TaskId): (s': Procs)
    requires Shape(s)
    ensures Shape(s')
  {
    var s1 := SetTask(s, p, s.tasks[p].(pid := s.nextPid, state := StReady));
    Enqueue(s1, READY, p).(nextPid := s.nextPid + 1)
  }

  // sys_fork up to allocate_DIR: the new PCB is on no ring, its directory is chosen.
  function PreparedFork(s: Procs): (s': Procs)
    requires Shape(s) && s.queues[FREE] != []
    ensures Shape(s')
  {
    AllocateDir(TakePcb(s), s.queues[FREE][0])
  }

  // sys_fork; `granted` tells whether the frames the child needs could be allocated.
  function Fork(s: Procs, granted: bool): (r: (Procs, Outcome))
    requires Shape(s)
    ensures Shape(r.0)
  {
    if s.queues[FREE] == [] then (s, Returns(-EAGAIN))
    else
      var child := s.queues[FREE][0];
      var s1 := PreparedFork(s);
      if !granted then (s1.(lost := s1.lost + {child}), Returns(-ENOMEM))
      else (Launch(s1, child), Returns(s.nextPid))
  }

  predicate CloneArgsOk(function_: int, stack: int) {
    && L_USER_START <= function_ < (PAG_LOG_INIT_DATA + NUM_PAG_DATA) * PAGE_SIZE
    && PAG_LOG_INIT_DATA * PAGE_SIZE <= stack < (PAG_LOG_INIT_DATA + NUM_PAG_DATA) * PAGE_SIZE
  }

  function Clone(s: Procs, function_: int, stack: int): (r: (Procs, Outcome))
    requires Shape(s)
    ensures Shape(r.0)
  {
    if s.queues[FREE] == [] then (s, Returns(-EAGAIN))
    else if !CloneArgsOk(function_, stack) then (s, Returns(-EINVAL))
    else
      var d := Cur(s).dir;
      var s1 := TakePcb(s).(dirCounter := s.dirCounter[d := s.dirCounter[d] + 1]);
      (Launch(s1, s.queues[FREE][0]), Returns(s.nextPid))
  }

  // One turn of the loop of sys_exit over the semaphores.
  function CloseIfOwned(s: Procs, n: nat): (s': Procs)
    requires Shape(s) && n < NR_SEMS
    ensures Shape(s')
  {
    if s.sems[n].owner == Cur(s).pid then SemDestroy(s, n).0 else s
  }

  // The first n turns.
  function CloseOwned(s: Procs, n: nat): (s': Procs)
    requires Shape(s) && n <= NR_SEMS
    ensures Shape(s')
  {
    if n == 0 then s else CloseIfOwned(CloseOwned(s, n - 1), n - 1)
  }

  // sys_exit up to the point where it knows whether the directory has lost its last thread.
  function LeaveDir(s: Procs): (s': Procs)
    requires Shape(s)
    ensures Shape(s')
  {
    var s1 := CloseOwned(s, NR_SEMS);
    var d := Cur(s1).dir;
    s1.(dirCounter := s1.dirCounter[d := s1.dirCounter[d] - 1])
  }

  function Exit(s: Procs): (s': Procs)
    requires Shape(s)
    ensures Shape(s')
  {
    var s1 := LeaveDir(s);
    SchedNext(Enqueue(SetTask(s1, s1.current, Cur(s1).(pid := -1)), FREE, s1.current))
  }

  /* Steps and runs */

  datatype Event =
    | ClockTick
    | Init(n: int, value: nat)
    | Wait(n: int)
    | Resume
    | Signal(n: int)
    | Destroy(n: int)
    | DoClone(function_: int, stack: int)
    | DoFork(granted: bool)
    | DoExit

  // When an event can happen: ticks always, a resume when the running task is inside
  // sem_wait, a system call when a user task runs outside one; and fork only while a free
  // directory is left for a free PCB.
  predicate Enabled(s: Procs, e: Event)
    requires Shape(s)
  {
    e.ClockTick? ||
    (&& s.current != s.idle
     && (e.Resume? <==> Cur(s).waiting >= 0)
     && (e.Init? ==> e.value < TWO_32)
     && (e.DoFork? ==> s.queues[FREE] == [] || FreeDir(s.dirCounter, 0) < NR_TASKS))
  }

  function Step(s: Procs, e: Event): (r: (Procs, Outcome))
    requires Shape(s)
    ensures Shape(r.0)
  {
    match e
    case ClockTick => (Tick(s), Suspended)
    case Init(n, v) => SemInit(s, n, v)
    case Wait(n) => SemWait(s, n)
    case Resume => FinishWait(s)
    case Signal(n) => SemSignal(s, n)
    case Destroy(n) => SemDestroy(s, n)
    case DoClone(f, st) => Clone(s, f, st)
    case DoFork(g) => Fork(s, g)
    case DoExit => (Exit(s), Suspended)
  }

  function Run(s: Procs, evs: seq<Event>): (s': Procs)
    requires Shape(s)
    ensures Shape(s')
  {
    if evs == [] then s
    else Step(Run(s, evs[..|evs| - 1]), evs[|evs| - 1]).0
  }

  predicate Legal(s: Procs, evs: seq<Event>)
    requires Shape(s)
  {
    evs == [] ||
    (Legal(s, evs[..|evs| - 1]) && Enabled(Run(s, evs[..|evs| - 1]), evs[|evs| - 1]))
  }
}
