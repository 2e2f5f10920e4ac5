// Processes and memory together: fork, exit and sbrk as single steps, and what holds in every
// run from boot.
module Kernel {
  import opened Layout
  import opened Processes
  import opened ProcessInvariants
  import opened ProcessSteps
  import opened AddressSpaces
  import opened MemoryInvariants
  import opened ForkLaws

  datatype Kernel = Kernel(procs: Procs, mem: Mem)

  ghost predicate KShape(k: Kernel) {
    Shape(k.procs) && MemShape(k.mem)
  }

  // The directories of live user tasks.
  ghost function LiveDirs(s: Procs): set<TaskId>
    requires Shape(s)
  {
    set p: TaskId | Live(s, p) :: s.tasks[p].dir
  }

  // All directories but those of PCBs lost in a failed fork.
  ghost function SaneDirs(s: Procs): set<TaskId>
    requires Shape(s)
  {
    AllDirs() - set p: TaskId | p in s.lost :: s.tasks[p].dir
  }

  ghost predicate KInv(k: Kernel) {
    KShape(k) && Inv(k.procs) && MemInv(k.mem, LiveDirs(k.procs), SaneDirs(k.procs))
  }

  datatype KEvent =
    | Proc(e: Event)
    | SysFork
    | SysExit
    | SysSbrk(increment: int)
    | Store(page: nat, offset: nat, b: Byte)

  // A user task runs, outside any system call.
  ghost predicate UserRuns(s: Procs)
    requires Shape(s)
  {
    s.current != s.idle && Cur(s).waiting < 0
  }

  // A fork that takes a PCB finds a directory for the child, and its caller's heap is mapped up
  // to the break.
  ghost predicate Forkable(k: Kernel)
    requires KShape(k)
  {
    var s := k.procs;
    s.queues[FREE] == [] || (Covered(k.mem, Cur(s).dir) && FreeDir(s.dirCounter, 0) < NR_TASKS)
  }

  // The premises: a fork that takes a PCB needs a free directory and a caller whose heap is
  // mapped up to its break; an sbrk that is not refused needs the latter, and must not wrap
  // below address 0; programs store into mapped data and heap pages. That the break lies in the
  // table when a task exits is always so (ExitAlwaysEnabled). What the premises exclude is what
  // leaves the table or destroys an address space (Runs.PremisesExactly).
  ghost predicate KEnabled(k: Kernel, e: KEvent)
    requires KShape(k)
  {
    var s := k.procs;
    var d := Cur(s).dir;
    match e
    case Proc(pe) => !pe.DoFork? && !pe.DoExit? && Enabled(s, pe)
    case SysFork => UserRuns(s) && Forkable(k)
    case SysExit => UserRuns(s) && FreedEnd(k.mem.breaks[d]) <= TOTAL_PAGES
    case SysSbrk(increment) =>
      && UserRuns(s) && SbrkDefined(k.mem.breaks[d], increment)
      && (Covered(k.mem, d) || Sbrk(k.mem, d, increment).1 < 0)
    case Store(page, offset, _) =>
      UserRuns(s) && Mapped(k.mem, d, page) && page >= PAG_LOG_INIT_DATA && offset < PAGE_SIZE
  }

  // The directory a fork gives the child: the caller's if none is free.
  function ChildDir(s: Procs): (d: TaskId)
    requires Shape(s)
  {
    var d := FreeDir(s.dirCounter, 0);
    if d < NR_TASKS then d else Cur(s).dir
  }

  ghost function KFork(k: Kernel): (r: (Kernel, Outcome))
    requires KShape(k)
    requires k.procs.queues[FREE] == [] || HEAP_BASE <= k.mem.breaks[Cur(k.procs).dir] <= RAM_SIZE
    ensures KShape(r.0)
  {
    var s := k.procs;
    if s.queues[FREE] == [] then (k, Returns(-EAGAIN))
    else
      var (m, ok) := AddressSpaces.Fork(k.mem, Cur(s).dir, ChildDir(s));
      var (s', outcome) := Processes.Fork(s, ok);
      (Kernel(s', m), outcome)
  }

  ghost function KExit(k: Kernel): (k': Kernel)
    requires KShape(k) && KEnabled(k, SysExit)
    ensures KShape(k')
  {
    var d := Cur(k.procs).dir;
    Kernel(Processes.Exit(k.procs),
           if LeaveDir(k.procs).dirCounter[d] == 0 then FreeUserPages(k.mem, d) else k.mem)
  }

  ghost function KStep(k: Kernel, e: KEvent): (r: (Kernel, Outcome))
    requires KShape(k) && KEnabled(k, e)
    ensures KShape(r.0)
  {
    match e
    case Proc(pe) => var (s, outcome) := Step(k.procs, pe); (Kernel(s, k.mem), outcome)
    case SysFork => KFork(k)
    case SysExit => (KExit(k), Suspended)
    case SysSbrk(increment) =>
      var (m, ret) := Sbrk(k.mem, Cur(k.procs).dir, increment);
      (Kernel(k.procs, m), Returns(ret))
    case Store(page, offset, b) =>
      (Kernel(k.procs, Write(k.mem, Cur(k.procs).dir, page, offset, b)), Suspended)
  }

  lemma ExitAlwaysEnabled(k: Kernel)
    requires KInv(k) && UserRuns(k.procs)
    ensures KEnabled(k, SysExit)
  {
    var d := Cur(k.procs).dir;
    assert k.mem.breaks[d] == 0 || HEAP_BASE <= k.mem.breaks[d] <= MAX_HEAP_END * PAGE_SIZE;
  }

  /* The invariant */

  lemma FewerLive(m: Mem, live: set<TaskId>, live': set<TaskId>, sane: set<TaskId>)
    requires MemInv(m, live, sane) && live' <= live
    ensures MemInv(m, live', sane)
  {
  }

  lemma CurrentDirLive(s: Procs)
    requires Inv(s) && s.current != s.idle
    ensures Live(s, s.current) && Cur(s).dir in LiveDirs(s)
  {
    CurrentLive(s);
  }

  // The steps that create and end nobody leave the books alone.
  lemma QuietBooks(s: Procs, e: Event)
    requires Shape(s) && Inv(s) && Enabled(s, e) && !e.DoFork? && !e.DoExit? && !e.DoClone?
    ensures SameBooks(s, Step(s, e).0)
  {
    hide Inv, SameBooks, Tick;
    match e
    case ClockTick => TickBooks(s);
    case Init(n, v) => InitBooks(s, n, v);
    case Wait(n) => WaitBooks(s, n);
    case Resume => FinishBooks(s);
    case Signal(n) => SignalBooks(s, n);
    case Destroy(n) => DestroyBooks(s, n);
  }

  lemma InitBooks(s: Procs, n: int, v: nat)
    requires Shape(s) && Inv(s) && s.current != s.idle
    ensures SameBooks(s, SemInit(s, n, v).0)
  {
    hide Inv;
    SemInitInv(s, n, v);
  }

  lemma FinishBooks(s: Procs)
    requires Shape(s)
    ensures SameBooks(s, FinishWait(s).0)
  {
  }

  lemma SignalBooks(s: Procs, n: int)
    requires Shape(s) && Inv(s) && s.current != s.idle
    ensures SameBooks(s, SemSignal(s, n).0)
  {
    hide Inv;
    if 0 <= n < NR_SEMS && s.queues[SemQueue(n)] != [] { WakeInv(s, n, false); }
  }

  lemma DestroyBooks(s: Procs, n: int)
    requires Shape(s) && Inv(s) && s.current != s.idle
    ensures SameBooks(s, SemDestroy(s, n).0)
  {
    hide Inv, Close;
    if 0 <= n < NR_SEMS { CloseInv(s, n); }
  }

  lemma WaitBooks(s: Procs, n: int)
    requires Shape(s) && Inv(s) && s.current != s.idle
    ensures SameBooks(s, SemWait(s, n).0)
  {
    hide Inv, Block;
    if 0 <= n < NR_SEMS { BlockBooks(s, n); }
  }

  lemma ReadyRunnable(s: Procs)
    requires Inv(s)
    ensures forall p: TaskId :: p in s.queues[READY] ==> 1 <= s.tasks[p].quantum && p != s.idle
  {
    OffRingNotQueued(s, s.idle);
    forall p: TaskId | p in s.queues[READY] ensures p !in s.queues[FREE] {}
  }

  lemma SwitchBooks(s: Procs, s1: Procs)
    requires Inv(s) && Shape(s1) && SameBooks(s, s1)
    requires forall p: TaskId :: p in s1.queues[READY] ==> p in s.queues[READY] || (p == s.current && p != s.idle)
    ensures SameBooks(s, SchedNext(s1))
  {
    OffRingNotQueued(s, s.current);
    ReadyRunnable(s);
    SchedNextSched(s1);
  }

  lemma TickBooks(s: Procs)
    requires Inv(s)
    ensures SameBooks(s, Tick(s))
  {
    OffRingNotQueued(s, s.current);
    var s1 := s.(leftTicks := UInt32(s.leftTicks - 1));
    SwitchBooks(s, if s.current != s.idle then Park(s1, READY, StReady) else s1);
  }

  lemma BlockBooks(s: Procs, n: nat)
    requires Inv(s) && s.current != s.idle && n < NR_SEMS
    ensures SameBooks(s, Block(s, n))
  {
    OffRingNotQueued(s, s.current);
    SwitchBooks(s, Park(SetTask(s, s.current, Cur(s).(waiting := n)), SemQueue(n), StBlocked));
  }

  lemma SameBooksSameDirs(s: Procs, s': Procs)
    requires Shape(s) && Shape(s') && SameBooks(s, s')
    ensures LiveDirs(s') == LiveDirs(s) && SaneDirs(s') == SaneDirs(s)
  {
    assert forall p: TaskId :: Live(s', p) <==> Live(s, p);
    forall d: TaskId ensures d in LiveDirs(s') <==> d in LiveDirs(s) {
      if d in LiveDirs(s) {
        var p: TaskId :| Live(s, p) && s.tasks[p].dir == d;
        assert Live(s', p) && s'.tasks[p].dir == d;
      }
      if d in LiveDirs(s') {
        var p: TaskId :| Live(s', p) && s'.tasks[p].dir == d;
        assert Live(s, p) && s.tasks[p].dir == d;
      }
    }
  }

  // A new live task in directory d.
  lemma NewLiveDirs(s: Procs, s': Procs, p: TaskId)
    requires Shape(s) && Shape(s') && NewUser(s, s', p) && s'.lost == s.lost && p != s.idle && p !in s.lost
    ensures LiveDirs(s') == LiveDirs(s) + {s'.tasks[p].dir} && SaneDirs(s') == SaneDirs(s)
  {
    forall x: TaskId ensures Live(s', x) <==> Live(s, x) || x == p {}
    forall d: TaskId ensures d in LiveDirs(s') <==> d in LiveDirs(s) || d == s'.tasks[p].dir {
      if d in LiveDirs(s) {
        var x: TaskId :| Live(s, x) && s.tasks[x].dir == d;
        assert Live(s', x) && s'.tasks[x].dir == d;
      }
      if d == s'.tasks[p].dir { assert Live(s', p); }
      if d in LiveDirs(s') {
        var x: TaskId :| Live(s', x) && s'.tasks[x].dir == d;
        assert x == p || (Live(s, x) && s.tasks[x].dir == d);
      }
    }
    forall l: TaskId | l in s.lost ensures s'.tasks[l] == s.tasks[l] {}
    LostDirsSame(s, s');
  }

  lemma LostDirsSame(s: Procs, s': Procs)
    requires Shape(s) && Shape(s') && s'.lost == s.lost
    requires forall l: TaskId :: l in s.lost ==> s'.tasks[l].dir == s.tasks[l].dir
    ensures SaneDirs(s') == SaneDirs(s)
  {
    assert (set p: TaskId | p in s'.lost :: s'.tasks[p].dir) == (set p: TaskId | p in s.lost :: s.tasks[p].dir);
  }

  // A newly lost PCB p, whose directory nobody else had.
  lemma NewLostDirs(s: Procs, s': Procs, p: TaskId)
    requires Shape(s) && Shape(s') && NewUser(s, s', p) && s'.lost == s.lost + {p}
    requires p !in s.lost && p != s.idle
    ensures LiveDirs(s') == LiveDirs(s) && SaneDirs(s') == SaneDirs(s) - {s'.tasks[p].dir}
  {
    forall x: TaskId ensures Live(s', x) <==> Live(s, x) {}
    forall d: TaskId ensures d in LiveDirs(s') <==> d in LiveDirs(s) {
      if d in LiveDirs(s) {
        var x: TaskId :| Live(s, x) && s.tasks[x].dir == d;
        assert Live(s', x) && s'.tasks[x].dir == d;
      }
      if d in LiveDirs(s') {
        var x: TaskId :| Live(s', x) && s'.tasks[x].dir == d;
        assert Live(s, x) && s.tasks[x].dir == d;
      }
    }
    var before := set x: TaskId | x in s.lost :: s.tasks[x].dir;
    var after := set x: TaskId | x in s'.lost :: s'.tasks[x].dir;
    forall d: TaskId ensures d in after <==> d in before || d == s'.tasks[p].dir {
      if d in before {
        var x: TaskId :| x in s.lost && s.tasks[x].dir == d;
        assert x in s'.lost && s'.tasks[x].dir == d;
      }
      if d == s'.tasks[p].dir { assert p in s'.lost; }
    }
  }

  lemma FreePcbIsNobody(s: Procs)
    requires Inv(s) && s.queues[FREE] != []
    ensures s.queues[FREE][0] in s.queues[FREE]
    ensures s.queues[FREE][0] !in s.lost && s.queues[FREE][0] != s.idle && s.queues[FREE][0] != s.current
  {
    SpecialTasksInUse(s);
    assert s.queues[FREE][0] in s.queues[FREE];
  }

  // The directory a fork picks is nobody's.
  lemma PickedDir(s: Procs)
    requires Inv(s) && FreeDir(s.dirCounter, 0) < NR_TASKS
    ensures var d: TaskId := FreeDir(s.dirCounter, 0); d in SaneDirs(s) && d !in LiveDirs(s)
  {
    var d: TaskId := FreeDir(s.dirCounter, 0);
    FreeDirUnused(s);
    SpecialTasksInUse(s);
    forall p: TaskId | p !in s.queues[FREE] ensures s.tasks[p].dir != d { assert p !in Users(s, d); }
    assert d in AllDirs();
  }

  // Which directories are live and sound after a fork.
  lemma ForkDirs(s: Procs, granted: bool)
    requires Shape(s) && Inv(s) && Enabled(s, DoFork(granted)) && s.queues[FREE] != []
    ensures var s' := Processes.Fork(s, granted).0; var d := ChildDir(s);
            if granted then LiveDirs(s') == LiveDirs(s) + {d} && SaneDirs(s') == SaneDirs(s)
            else LiveDirs(s') == LiveDirs(s) && SaneDirs(s') == SaneDirs(s) - {d}
  {
    hide Inv, LiveDirs, SaneDirs, RingInv;
    var p := s.queues[FREE][0];
    FreePcbIsNobody(s);
    ForkNewUser(s, granted);
    ForkChildDir(s, granted);
    if granted {
      NewLiveDirs(s, Processes.Fork(s, true).0, p);
    } else {
      NewLostDirs(s, Processes.Fork(s, false).0, p);
    }
  }

  lemma ForkChildDir(s: Procs, granted: bool)
    requires Shape(s) && s.queues[FREE] != []
    ensures var s' := Processes.Fork(s, granted).0; var p := s.queues[FREE][0];
            && s'.tasks[p].dir == ChildDir(s)
            && s'.lost == if granted then s.lost else s.lost + {p}
  {
  }

  lemma ForkKeepsKInv(k: Kernel)
    requires KInv(k) && KEnabled(k, SysFork)
    ensures KInv(KFork(k).0)
  {
    var s := k.procs;
    if s.queues[FREE] != [] {
      var father := Cur(s).dir;
      var child := ChildDir(s);
      hide Inv, MemInv, LiveDirs, SaneDirs, Covered, FreeDir, Processes.Fork, AddressSpaces.Fork;
      var ok := AddressSpaces.Fork(k.mem, father, child).1;
      CurrentDirLive(s);
      PickedDir(s);
      MemoryInvariants.ForkInv(k.mem, LiveDirs(s), SaneDirs(s), father, child);
      ProcessSteps.ForkInv(s, ok);
      ForkDirs(s, ok);
    }
  }

  // After an exit the live directories are among those before, without the caller's if its
  // count has reached 0.
  lemma ExitDirs(s: Procs)
    requires Inv(s) && s.current != s.idle
    ensures var d := Cur(s).dir; var s' := Processes.Exit(s);
            && LiveDirs(s') <= (if LeaveDir(s).dirCounter[d] == 0 then LiveDirs(s) - {d} else LiveDirs(s))
            && SaneDirs(s') == SaneDirs(s)
  {
    var d := Cur(s).dir;
    var s' := Processes.Exit(s);
    FreedFields(s);
    FreedRing(s);
    FreedStates(s);
    FreedPids(s);
    FreedDirs(s);
    ReadyTasksRunnable(Freed(s));
    SchedNextSched(Freed(s));
    LastThread(s);
    forall x: TaskId | Live(s', x) ensures Live(s, x) && x != s.current && s'.tasks[x].dir == s.tasks[x].dir {}
    LostDirsSame(s, s');
  }

  lemma ExitKeepsKInv(k: Kernel)
    requires KInv(k) && KEnabled(k, SysExit)
    ensures KInv(KExit(k))
  {
    var s := k.procs;
    var s' := Processes.Exit(s);
    var d := Cur(s).dir;
    ExitInv(s);
    ExitDirs(s);
    CurrentDirLive(s);
    if LeaveDir(s).dirCounter[d] == 0 {
      FreeInv(k.mem, LiveDirs(s), SaneDirs(s), d);
      FewerLive(FreeUserPages(k.mem, d), LiveDirs(s) - {d}, LiveDirs(s'), SaneDirs(s));
    } else {
      FewerLive(k.mem, LiveDirs(s), LiveDirs(s'), SaneDirs(s));
    }
    hide Inv, MemInv, LiveDirs, SaneDirs;
  }

  lemma CloneDirs(s: Procs, function_: int, stack: int)
    requires Shape(s) && Inv(s) && s.current != s.idle
    ensures var s' := Clone(s, function_, stack).0;
            LiveDirs(s') == LiveDirs(s) && SaneDirs(s') == SaneDirs(s)
  {
    hide Inv, LiveDirs, SaneDirs, Consistent;
    if s.queues[FREE] != [] && CloneArgsOk(function_, stack) {
      var s' := Clone(s, function_, stack).0;
      CloneRing(s, function_, stack);
      FreePcbIsNobody(s);
      CurrentDirLive(s);
      NewLiveDirs(s, s', s.queues[FREE][0]);
      assert LiveDirs(s) + {Cur(s).dir} == LiveDirs(s);
    }
  }

  lemma ProcDirs(s: Procs, e: Event)
    requires Shape(s) && Inv(s) && Enabled(s, e) && !e.DoFork? && !e.DoExit?
    ensures LiveDirs(Step(s, e).0) == LiveDirs(s) && SaneDirs(Step(s, e).0) == SaneDirs(s)
  {
    hide Inv, LiveDirs, SaneDirs, SameBooks, Clone;
    if e.DoClone? {
      CloneDirs(s, e.function_, e.stack);
    } else {
      QuietBooks(s, e);
      SameBooksSameDirs(s, Step(s, e).0);
    }
  }

  lemma ProcKeepsKInv(k: Kernel, e: Event)
    requires KInv(k) && KEnabled(k, Proc(e))
    ensures KInv(KStep(k, Proc(e)).0)
  {
    hide Inv, MemInv, LiveDirs, SaneDirs;
    StepInv(k.procs, e);
    ProcDirs(k.procs, e);
  }

  lemma KStepInv(k: Kernel, e: KEvent)
    requires KShape(k) && KInv(k) && KEnabled(k, e)
    ensures KInv(KStep(k, e).0)
  {
    match e
    case Proc(pe) => ProcKeepsKInv(k, pe);
    case SysFork => ForkKeepsKInv(k);
    case SysExit => ExitKeepsKInv(k);
    case SysSbrk(increment) =>
      CurrentDirLive(k.procs);
      SbrkInv(k.mem, LiveDirs(k.procs), SaneDirs(k.procs), Cur(k.procs).dir, increment);
    case Store(page, offset, b) =>
      WriteInv(k.mem, LiveDirs(k.procs), SaneDirs(k.procs), Cur(k.procs).dir, page, offset, b);
  }

  /* Runs */

  ghost function KBoot(guard0: nat, guard1: nat, ram: Ram): (k: Kernel) {
    Kernel(Boot(), BootMem(guard0, guard1, ram))
  }

  lemma KBootInv(guard0: nat, guard1: nat, ram: Ram)
    ensures KInv(KBoot(guard0, guard1, ram))
  {
    var s := Boot();
    BootInv();
    BootMemInv(guard0, guard1, ram);
    forall p: TaskId ensures p in s.queues[FREE] <==> p >= 2 {
      if p >= 2 { assert s.queues[FREE][p - 2] == p; }
    }
    assert Live(s, 1);
    forall d: TaskId ensures d in LiveDirs(s) <==> d == 2 {
      if d == 2 { assert s.tasks[1].dir == d; }
    }
    assert LiveDirs(s) == {2};
    assert SaneDirs(s) == AllDirs();
  }

  // states is a run from boot under the events evs.
  ghost predicate KRun(states: seq<Kernel>, evs: seq<KEvent>) {
    && |states| == |evs| + 1
    && (forall i :: 0 <= i <= |evs| ==> KShape(states[i]))
    && (exists guard0, guard1, ram :: states[0] == KBoot(guard0, guard1, ram))
    && (forall i :: 0 <= i < |evs| ==> KNext(states[i], evs[i], states[i + 1]))
  }

  ghost predicate KNext(k: Kernel, e: KEvent, k': Kernel) {
    KShape(k) && KEnabled(k, e) && k' == KStep(k, e).0
  }

  // In every state of every run: rings, states, PIDs and directory counts are in order, each
  // data or heap page of a directory has a used even frame of its own above 256, and every
  // live directory has the kernel's and task 1's code frames.
  lemma {:induction false} KRunInv(states: seq<Kernel>, evs: seq<KEvent>, i: nat)
    requires KRun(states, evs) && i <= |evs|
    ensures KInv(states[i])
  {
    if i == 0 {
      var guard0, guard1, ram :| states[0] == KBoot(guard0, guard1, ram);
      KBootInv(guard0, guard1, ram);
    } else {
      KRunInv(states, evs, i - 1);
      assert KNext(states[i - 1], evs[i - 1], states[i - 1 + 1]);
      KStepInv(states[i - 1], evs[i - 1]);
    }
  }

  // The same in terms of page tables: a present data or heap page of a live directory has a
  // used even frame strictly between 256 and 1024, so free_frame will take it back, and no
  // other such page of any live directory has that frame.
  lemma PagesHaveTheirOwnFrames(states: seq<Kernel>, evs: seq<KEvent>, i: nat,
                                d1: TaskId, p1: PageNo, d2: TaskId, p2: PageNo)
    requires KRun(states, evs) && i <= |evs|
    requires d1 in LiveDirs(states[i].procs) && d2 in LiveDirs(states[i].procs)
    requires p1 >= PAG_LOG_INIT_DATA && states[i].mem.tables[d1][p1].present
    requires p2 >= PAG_LOG_INIT_DATA && states[i].mem.tables[d2][p2].present
    ensures var f := states[i].mem.tables[d1][p1].frame;
            && NUM_PAG_KERNEL < f < TOTAL_PAGES && f % 2 == 0 && states[i].mem.used[f]
            && (f == states[i].mem.tables[d2][p2].frame ==> d1 == d2 && p1 == p2)
  {
    KRunInv(states, evs, i);
    var m := states[i].mem;
    assert m.tables[d1][p1] != ABSENT && m.tables[d2][p2] != ABSENT;
    assert Owned(m, m.tables[d1][p1]);
  }

  // Kernel pages are mapped one to one and the code pages to the frames task 1 got for its code
  // at boot, in every live directory of every run.
  lemma KernelAndCodeShared(states: seq<Kernel>, evs: seq<KEvent>, i: nat, d: TaskId, page: PageNo)
    requires KRun(states, evs) && i <= |evs| && d in LiveDirs(states[i].procs)
    ensures var e := states[i].mem.tables[d][page];
            && (page < NUM_PAG_KERNEL ==> e.frame == page)
            && (PAG_LOG_INIT_CODE <= page < PAG_LOG_INIT_DATA ==>
                  e == Entry(true, states[0].mem.tables[2][page].frame))
  {
    KRunInv(states, evs, i);
    hide Inv, LiveDirs, SaneDirs, KBoot, KNext, UserTable;
    UserTablesOf(states[i].mem, LiveDirs(states[i].procs), SaneDirs(states[i].procs), d);
    SharedPages(states[i].mem.tables[d], page);
    var guard0, guard1, ram :| states[0] == KBoot(guard0, guard1, ram);
    BootCode(guard0, guard1, ram, page);
  }

  lemma UserTablesOf(m: Mem, live: set<TaskId>, sane: set<TaskId>, d: TaskId)
    requires MemInv(m, live, sane) && d in live
    ensures UserTable(m.tables[d])
  {
  }

  lemma SharedPages(t: Table, page: PageNo)
    requires UserTable(t)
    ensures page < NUM_PAG_KERNEL ==> t[page].frame == page
    ensures PAG_LOG_INIT_CODE <= page < PAG_LOG_INIT_DATA ==>
              t[page] == Entry(true, BootFrame(page - PAG_LOG_INIT_CODE))
  {
    if PAG_LOG_INIT_CODE <= page < PAG_LOG_INIT_DATA {
      var c := page - PAG_LOG_INIT_CODE;
      assert t[PAG_LOG_INIT_CODE + c] == Entry(true, BootFrame(c));
    }
  }

  lemma BootCode(guard0: nat, guard1: nat, ram: Ram, page: PageNo)
    ensures PAG_LOG_INIT_CODE <= page < PAG_LOG_INIT_DATA ==>
              KBoot(guard0, guard1, ram).mem.tables[2][page] == Entry(true, BootFrame(page - PAG_LOG_INIT_CODE))
  {
  }

  // A fork that succeeds returns the PID of a live ready task in a directory of its own, which
  // sees in every data and heap page what the caller saw; no live directory sees a change, but
  // that the caller loses what it may have had mapped in the window above its heap.
  lemma ForkMeaning(k: Kernel, page: PageNo)
    requires KInv(k) && KEnabled(k, SysFork) && k.procs.queues[FREE] != [] && KFork(k).1 != Returns(-ENOMEM)
    ensures var s := k.procs; var k' := KFork(k).0; var p := s.queues[FREE][0];
            var father := Cur(s).dir; var child := k'.procs.tasks[p].dir;
            && KFork(k).1 == Returns(k'.procs.tasks[p].pid) && Live(k'.procs, p)
            && p in k'.procs.queues[READY] && child !in LiveDirs(s)
            && (page < Pages(k.mem.breaks[father]) && page >= PAG_LOG_INIT_DATA ==>
                  Mapped(k.mem, father, page) && Mapped(k'.mem, child, page) &&
                  View(k'.mem, child, page) == View(k.mem, father, page))
            && (forall d: TaskId :: d in LiveDirs(s) && Mapped(k.mem, d, page) ==>
                  && (k'.mem.tables[d][page] == k.mem.tables[d][page] ||
                      (d == father && Pages(k.mem.breaks[d]) <= page < WindowEnd(k.mem, d)))
                  && (Mapped(k'.mem, d, page) ==> View(k'.mem, d, page) == View(k.mem, d, page)))
  {
    hide Inv, MemInv, LiveDirs, SaneDirs, FreeDir, Processes.Fork, AddressSpaces.Fork, View;
    var s := k.procs;
    var father := Cur(s).dir;
    var child := ChildDir(s);
    var (m, ok) := AddressSpaces.Fork(k.mem, father, child);
    CurrentDirLive(s);
    PickedDir(s);
    ForkSucceeded(s, ok);
    hide Covered;
    if page < Pages(k.mem.breaks[father]) {
      ForkFaithful(k.mem, LiveDirs(s), SaneDirs(s), father, child, page);
    }
    forall d: TaskId | d in LiveDirs(s) && Mapped(k.mem, d, page)
      ensures m.tables[d][page] == k.mem.tables[d][page] ||
              (d == father && Pages(k.mem.breaks[d]) <= page < WindowEnd(k.mem, d))
      ensures Mapped(m, d, page) ==> View(m, d, page) == View(k.mem, d, page)
    {
      ForkUnnoticed(k.mem, LiveDirs(s), SaneDirs(s), father, child, d, page);
    }
  }

  lemma ForkSucceeded(s: Procs, granted: bool)
    requires Inv(s) && Enabled(s, DoFork(granted)) && s.queues[FREE] != []
    requires Processes.Fork(s, granted).1 != Returns(-ENOMEM)
    ensures var (s', outcome) := Processes.Fork(s, granted); var p := s.queues[FREE][0];
            && granted && outcome == Returns(s'.tasks[p].pid) && Live(s', p) && p in s'.queues[READY]
            && s'.tasks[p].dir == FreeDir(s.dirCounter, 0)
  {
    FreePcbIsNobody(s);
    ForkedRing(s);
  }
}
