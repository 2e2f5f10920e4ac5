// The calls that touch memory, as steps of the kernel: what they answer and all that they change.
// And the PIDs that fork and clone hand out over a run.
module Calls {
  import opened Layout
  import opened Processes
  import opened ProcessInvariants
  import opened ProcessSteps
  import opened Scheduling
  import opened Outcomes
  import opened Frames
  import opened AddressSpaces
  import opened MemoryInvariants
  import opened SbrkLaws
  import opened ForkLaws
  import opened Kernel
  import opened Runs
  import opened Quanta

  /* What can happen */

  // A tick can come at any time. A task in the middle of sem_wait can resume, and do nothing else; any
  // other but idle can exit, store into each of its mapped data and heap pages, and make each other
  // call with all arguments, where only fork and sbrk have premises.
  lemma AlwaysEnabled(k: Kernel, n: int, value: nat, function_: int, stack: int, page: nat, offset: nat, b: Byte)
    requires KShape(k) && KInv(k)
    ensures KEnabled(k, Proc(ClockTick))
    ensures KEnabled(k, Proc(Resume)) <==> k.procs.current != k.procs.idle && Cur(k.procs).waiting >= 0
    ensures UserRuns(k.procs) ==>
              && (value < TWO_32 ==> KEnabled(k, Proc(Init(n, value))))
              && KEnabled(k, Proc(Wait(n))) && KEnabled(k, Proc(Signal(n))) && KEnabled(k, Proc(Destroy(n)))
              && KEnabled(k, Proc(DoClone(function_, stack))) && KEnabled(k, SysExit)
              && (Mapped(k.mem, Cur(k.procs).dir, page) && page >= PAG_LOG_INIT_DATA && offset < PAGE_SIZE ==>
                    KEnabled(k, Store(page, offset, b)))
  {
    if UserRuns(k.procs) { ExitAlwaysEnabled(k); }
  }

  /* Memory */

  // sbrk answers the old break, or -ENOMEM with everything as it was; and says when. A caller
  // without a heap is always refused.
  lemma SbrkCall(k: Kernel, increment: int)
    requires KShape(k) && KInv(k) && KEnabled(k, KEvent.SysSbrk(increment))
    ensures var (k', r) := KStep(k, KEvent.SysSbrk(increment)); var d := Cur(k.procs).dir;
            var b := k.mem.breaks[d]; var end := b + increment;
            && k'.procs == k.procs && k'.mem.ram == k.mem.ram
            && (r == Returns(b) <==>
                b > 0 && (increment <= 0 || (end < (TOTAL_PAGES + 1) * PAGE_SIZE
                                             && Pages(end) - Pages(b) <= |FreeEvens(k.mem.used)|)))
            && (r != Returns(b) ==> r == Returns(-ENOMEM) && k' == k)
            && (r == Returns(b) ==> k'.mem.breaks == k.mem.breaks[d := Max(end, HEAP_BASE)])
            && (increment == 0 ==> k' == k)
            && forall e: TaskId :: e != d ==> k'.mem.tables[e] == k.mem.tables[e]
  {
    CallerSaneHere(k);
    var d := Cur(k.procs).dir;
    BreakOrNone(k.mem, LiveDirs(k.procs), SaneDirs(k.procs), d);
    hide Inv, MemInv, LiveDirs, SaneDirs, Covered, Sbrk, FreeEvens, Pages;
    if k.mem.breaks[d] > 0 {
      SbrkAnswer(k.mem, d, increment);
    } else {
      CoveredHasBreak(k.mem, d);
      SbrkFromZero(k.mem, LiveDirs(k.procs), SaneDirs(k.procs), d, increment);
    }
  }

  lemma CallerSaneHere(k: Kernel)
    requires KShape(k) && KInv(k) && k.procs.current != k.procs.idle
    ensures Cur(k.procs).dir in LiveDirs(k.procs)
  {
    CurrentDirLive(k.procs);
  }

  lemma BreakOrNone(m: Mem, live: set<TaskId>, sane: set<TaskId>, d: TaskId)
    requires MemInv(m, live, sane)
    ensures m.breaks[d] == 0 || HEAP_BASE <= m.breaks[d]
  {
  }

  lemma CoveredHasBreak(m: Mem, d: TaskId)
    requires MemShape(m)
    ensures Covered(m, d) ==> m.breaks[d] > 0
  {
  }

  // fork answers -EAGAIN exactly when no PCB is free, and -ENOMEM exactly when one is and fewer
  // even frames are free than the caller has data and heap pages; else the PID of the child.
  lemma ForkCall(k: Kernel)
    requires KShape(k) && KInv(k) && KEnabled(k, SysFork)
    ensures var (k', r) := KStep(k, SysFork); var s, s' := k.procs, k'.procs;
            var need := Pages(k.mem.breaks[Cur(s).dir]) - PAG_LOG_INIT_DATA;
            && (r == Returns(-EAGAIN) <==> s.queues[FREE] == [])
            && (r == Returns(-ENOMEM) <==> s.queues[FREE] != [] && |FreeEvens(k.mem.used)| < need)
            && (r == Returns(-EAGAIN) ==> k' == k)
            && (s.queues[FREE] != [] && |FreeEvens(k.mem.used)| >= need ==>
                  var p := s.queues[FREE][0]; var d := s'.tasks[p].dir;
                  && Born(s, s', p, d) && d !in LiveDirs(s) && r == Returns(s'.tasks[p].pid)
                  && (forall x: TaskId :: Live(s', x) && x != p ==> s'.tasks[x].pid != r.code))
  {
    var s := k.procs;
    if s.queues[FREE] != [] {
      hide Inv, MemInv, LiveDirs, SaneDirs, Processes.Fork, AddressSpaces.Fork, FreeEvens, Pages, FreeDir, Born;
      var ok := AddressSpaces.Fork(k.mem, Cur(s).dir, ChildDir(s)).1;
      ForkAllOrNothing(k.mem, Cur(s).dir, ChildDir(s));
      ForkOutcome(s, ok);
      PickedDir(s);
      ForkChildDir(s, ok);
    }
  }

  // A store changes one byte of one page, for the directory of the caller and for no other live one.
  lemma StoreCall(k: Kernel, page: PageNo, offset: nat, b: Byte, e: TaskId, other: PageNo)
    requires KShape(k) && KInv(k) && KEnabled(k, Store(page, offset, b))
    requires e in LiveDirs(k.procs) && Mapped(k.mem, e, other)
    ensures var k' := KStep(k, Store(page, offset, b)).0; var d := Cur(k.procs).dir;
            && k' == k.(mem := k.mem.(ram := k'.mem.ram))
            && View(k'.mem, e, other) == if e == d && other == page then View(k.mem, d, page)[offset := b]
                                         else View(k.mem, e, other)
  {
    CallerSaneHere(k);
    hide Inv, MemInv, LiveDirs, SaneDirs, View;
    WriteIsolated(k.mem, LiveDirs(k.procs), SaneDirs(k.procs), Cur(k.procs).dir, page, offset, b, e, other);
  }

  // The pages that the end of a directory with break b takes away.
  predicate Ended(b: nat, p: PageNo) {
    PAG_LOG_INIT_DATA <= p < PAG_LOG_INIT_HEAP || PAG_LOG_INIT_HEAP <= p <= b / PAGE_SIZE
  }

  // exit ends the directory exactly when no other PCB in use has it: then its data and its pages up
  // to that of the break are unmapped and their frames free. It changes nothing else in memory.
  lemma ExitCall(k: Kernel, p: PageNo, f: FrameNo)
    requires KShape(k) && KInv(k) && KEnabled(k, SysExit) && f > NUM_PAG_KERNEL
    ensures var k' := KStep(k, SysExit).0; var s := k.procs; var d := Cur(s).dir; var b := k.mem.breaks[d];
            var t := k.mem.tables[d];
            var last := forall x: TaskId :: x !in s.queues[FREE] && x != s.current ==> s.tasks[x].dir != d;
            && (!last ==> k'.mem == k.mem)
            && (last ==>
                  && k'.mem.breaks == k.mem.breaks && k'.mem.ram == k.mem.ram
                  && (forall e: TaskId :: e != d ==> k'.mem.tables[e] == k.mem.tables[e])
                  && k'.mem.tables[d][p] == (if Ended(b, p) then ABSENT else t[p])
                  && (k'.mem.used[f] <==> k.mem.used[f] && !exists q: PageNo :: Ended(b, q) && t[q].frame == f))
  {
    LastThread(k.procs);
    EndFrames(k.mem, Cur(k.procs).dir, f);
    hide Inv, MemInv, LiveDirs, SaneDirs, Processes.Exit, LeaveDir, Release, FramesOf;
  }

  lemma EndFrames(m: Mem, d: TaskId, f: FrameNo)
    requires MemShape(m) && FreedEnd(m.breaks[d]) <= TOTAL_PAGES && f > NUM_PAG_KERNEL
    ensures FreeUserPages(m, d).used[f] <==>
            m.used[f] && !exists q: PageNo :: Ended(m.breaks[d], q) && m.tables[d][q].frame == f
  {
    var t := m.tables[d];
    var fs := FramesOf(t, PAG_LOG_INIT_DATA, FreedEnd(m.breaks[d]));
    forall q: PageNo | Ended(m.breaks[d], q) && t[q].frame == f ensures f in fs {
      assert fs[q - PAG_LOG_INIT_DATA] == f;
    }
    if f in fs {
      var i :| 0 <= i < |fs| && fs[i] == f;
      var q: PageNo := PAG_LOG_INIT_DATA + i;
      assert Ended(m.breaks[d], q) && t[q].frame == f;
    }
  }

  /* PIDs */

  // This step makes a new task.
  ghost predicate Births(k: Kernel, e: KEvent)
    requires KShape(k) && KEnabled(k, e)
  {
    var r := KStep(k, e).1;
    (e.SysFork? || (e.Proc? && e.e.DoClone?)) && r.Returns? && r.code > 0
  }

  // It answers the next PID, and only it moves that on.
  lemma StepPids(k: Kernel, e: KEvent)
    requires KShape(k) && KInv(k) && KEnabled(k, e)
    ensures var s := k.procs; var (k', r) := KStep(k, e);
            && k'.procs.nextPid == s.nextPid + (if Births(k, e) then 1 else 0)
            && (Births(k, e) ==> r == Returns(s.nextPid))
  {
    hide Inv, MemInv, LiveDirs, SaneDirs;
    var s := k.procs;
    match e
    case Proc(pe) =>
      if pe.DoClone? {
        CloneOutcome(s, pe.function_, pe.stack);
        hide Clone;
      } else {
        QuietBooks(s, pe);
        hide Step;
      }
    case SysFork =>
      NextPidPositive(s);
      if s.queues[FREE] != [] {
        var ok := AddressSpaces.Fork(k.mem, Cur(s).dir, ChildDir(s)).1;
        hide AddressSpaces.Fork, Processes.Fork, FreeDir, Covered;
        ForkOutcome(s, ok);
      }
    case SysExit =>
      ExitOutcome(s);
      hide Processes.Exit;
    case SysSbrk(_) =>
    case Store(_, _, _) =>
  }

  lemma NextPidPositive(s: Procs)
    requires Shape(s) && Inv(s)
    ensures s.nextPid >= 2
  {
  }

  // How many tasks the first i steps have made.
  ghost function Newborn(states: seq<Kernel>, evs: seq<KEvent>, i: nat): (n: nat)
    requires KRun(states, evs) && i <= |evs|
  {
    if i == 0 then 0
    else
      assert KNext(states[i - 1], evs[i - 1], states[i - 1 + 1]);
      Newborn(states, evs, i - 1) + if Births(states[i - 1], evs[i - 1]) then 1 else 0
  }

  // PIDs are given out in order from 2 on, and never twice in a run: the n-th task that fork or clone
  // makes gets n + 1.
  lemma {:induction false} PidsInOrder(states: seq<Kernel>, evs: seq<KEvent>, i: nat)
    requires KRun(states, evs) && i <= |evs|
    ensures states[i].procs.nextPid == 2 + Newborn(states, evs, i)
    ensures i < |evs| ==> KEnabled(states[i], evs[i]) &&
                          (Births(states[i], evs[i]) ==>
                             KStep(states[i], evs[i]).1 == Returns(2 + Newborn(states, evs, i)))
  {
    hide KInv, KStep, KEnabled, Births;
    if i > 0 {
      PidsInOrder(states, evs, i - 1);
      RunOneHeap(states, evs, i - 1);
      assert KNext(states[i - 1], evs[i - 1], states[i - 1 + 1]);
      StepPids(states[i - 1], evs[i - 1]);
    }
    if i < |evs| {
      RunOneHeap(states, evs, i);
      assert KNext(states[i], evs[i], states[i + 1]);
      StepPids(states[i], evs[i]);
    }
  }
}
