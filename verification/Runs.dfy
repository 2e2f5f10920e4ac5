// Whole runs of the kernel: which directories have a heap, which steps leave a page table, what
// a child leaves behind, and what a fork without a free directory does.
module Runs {
  import opened Layout
  import opened Processes
  import opened ProcessInvariants
  import opened ProcessSteps
  import opened Frames
  import opened AddressSpaces
  import opened MemoryInvariants
  import opened SbrkLaws
  import opened ForkLaws
  import opened Kernel

  /* One heap */

  // Only directory 2, the one of task 1, has a break, and its heap is exact, or nearly so, as
  // long as a task lives there.
  ghost predicate OneHeap(k: Kernel)
    requires KShape(k)
  {
    && (forall d: TaskId :: d != 2 ==> k.mem.breaks[d] == 0)
    && k.mem.breaks[2] >= HEAP_BASE
    && (2 in LiveDirs(k.procs) ==> NearlyExact(k.mem, 2))
  }

  lemma SbrkBreaks(m: Mem, d: TaskId, increment: int)
    requires MemShape(m) && SbrkDefined(m.breaks[d], increment)
    ensures forall e: TaskId :: e != d ==> Sbrk(m, d, increment).0.breaks[e] == m.breaks[e]
    ensures forall e: TaskId :: e != d ==> Sbrk(m, d, increment).0.tables[e] == m.tables[e]
    ensures Sbrk(m, d, increment).1 < 0 ==> Sbrk(m, d, increment).0 == m
  {
    hide Take, Release, FramesOf, UnmapPages, MapPages, Mark;
  }

  lemma SameHeaps(k: Kernel, k': Kernel)
    requires KShape(k) && KShape(k') && OneHeap(k) && k'.mem.breaks == k.mem.breaks
    requires 2 in LiveDirs(k'.procs) ==> 2 in LiveDirs(k.procs) && k'.mem.tables[2] == k.mem.tables[2]
    ensures OneHeap(k')
  {
    hide LiveDirs;
  }

  lemma ForkOneHeap(k: Kernel)
    requires KShape(k) && KInv(k) && OneHeap(k) && KEnabled(k, SysFork)
    ensures OneHeap(KFork(k).0)
  {
    hide Inv, LiveDirs, SaneDirs, MemInv, AddressSpaces.Fork;
    var s := k.procs;
    if s.queues[FREE] != [] {
      CurrentDirLive(s);
      PickedDir(s);
      ForkNearlyExact(k.mem, LiveDirs(s), SaneDirs(s), Cur(s).dir, ChildDir(s));
      ForkKeepsBreaks(k.mem, Cur(s).dir, ChildDir(s));
    }
  }

  lemma SbrkOneHeap(k: Kernel, increment: int)
    requires KShape(k) && KInv(k) && OneHeap(k) && KEnabled(k, KEvent.SysSbrk(increment))
    ensures OneHeap(KStep(k, KEvent.SysSbrk(increment)).0)
  {
    hide Inv, LiveDirs, SaneDirs, MemInv, Sbrk;
    var d := Cur(k.procs).dir;
    CurrentDirLive(k.procs);
    SbrkBreaks(k.mem, d, increment);
    if d == 2 { SbrkNearlyExact(k.mem, LiveDirs(k.procs), SaneDirs(k.procs), d, increment); }
  }

  lemma StepOneHeap(k: Kernel, e: KEvent)
    requires KShape(k) && KInv(k) && OneHeap(k) && KEnabled(k, e)
    ensures OneHeap(KStep(k, e).0)
  {
    match e
    case Proc(pe) =>
      ProcDirs(k.procs, pe);
      SameHeaps(k, KStep(k, e).0);
    case SysFork => ForkOneHeap(k);
    case SysExit =>
      ExitDirs(k.procs);
      SameHeaps(k, KStep(k, e).0);
    case SysSbrk(increment) => SbrkOneHeap(k, increment);
    case Store(_, _, _) => SameHeaps(k, KStep(k, e).0);
  }

  lemma {:induction false} RunOneHeap(states: seq<Kernel>, evs: seq<KEvent>, i: nat)
    requires KRun(states, evs) && i <= |evs|
    ensures KInv(states[i]) && OneHeap(states[i])
  {
    hide KInv, OneHeap, KEnabled, KStep, KBoot;
    KRunInv(states, evs, i);
    if i == 0 {
      BootOneHeap(states[0]);
    } else {
      RunOneHeap(states, evs, i - 1);
      assert KNext(states[i - 1], evs[i - 1], states[i - 1 + 1]);
      StepOneHeap(states[i - 1], evs[i - 1]);
    }
  }

  lemma BootOneHeap(k: Kernel)
    requires KShape(k) && exists guard0, guard1, ram :: k == KBoot(guard0, guard1, ram)
    ensures OneHeap(k)
  {
    var guard0, guard1, ram :| k == KBoot(guard0, guard1, ram);
    BootMemInv(guard0, guard1, ram);
  }

  // So in every run a live directory is covered exactly if it is directory 2, and no other
  // directory is ever exact: not that of any child.
  lemma OnlyTask1HasHeap(states: seq<Kernel>, evs: seq<KEvent>, i: nat, d: TaskId)
    requires KRun(states, evs) && i <= |evs|
    ensures d != 2 ==> states[i].mem.breaks[d] == 0 && !Exact(states[i].mem, d)
    ensures d in LiveDirs(states[i].procs) ==> (Covered(states[i].mem, d) <==> d == 2)
  {
    RunOneHeap(states, evs, i);
  }

  // ... and directory 2 is exact, as long as it is live, unless page 284 is still mapped at the
  // start of the heap.
  lemma HeapOfTask1(states: seq<Kernel>, evs: seq<KEvent>, i: nat)
    requires KRun(states, evs) && i <= |evs| && 2 in LiveDirs(states[i].procs)
    ensures Exact(states[i].mem, 2) <==>
            states[i].mem.breaks[2] > HEAP_BASE || states[i].mem.tables[2][PAG_LOG_INIT_HEAP] == ABSENT
  {
    RunOneHeap(states, evs, i);
    NearlyExactMeans(states[i].mem, 2);
  }

  // A fork that takes a PCB is one of a task in directory 2; the directory of the child is
  // another one and has no exact heap, then or in any other state of the run.
  lemma NoChildExact(states: seq<Kernel>, evs: seq<KEvent>, i: nat, j: nat)
    requires KRun(states, evs) && i < |evs| && j <= |evs|
    requires evs[i] == SysFork && states[i].procs.queues[FREE] != []
    ensures Cur(states[i].procs).dir == 2 && ChildDir(states[i].procs) != 2
    ensures !Exact(states[j].mem, ChildDir(states[i].procs))
  {
    RunOneHeap(states, evs, i);
    RunOneHeap(states, evs, j);
    assert KNext(states[i], evs[i], states[i + 1]);
    PickedDir(states[i].procs);
    CurrentDirLive(states[i].procs);
  }

  /* What leaves the table */

  // The i-th entry of the child's table that the heap loop of sys_fork writes.
  function EntryWritten(i: nat): (p: nat) {
    PAG_LOG_INIT_HEAP + i
  }

  // Every entry that loop writes for a father with break b, running up to the unsigned 32-bit
  // page number of b - 1, lies in the table.
  predicate ForkInTable(b: nat) {
    forall i :: 0 <= i <= UInt32(b - 1) / PAGE_SIZE - PAG_LOG_INIT_HEAP ==> EntryWritten(i) < TOTAL_PAGES
  }

  lemma ForkInTableExactly(b: nat)
    requires b < TWO_32
    ensures ForkInTable(b) <==> 1 <= b <= RAM_SIZE
  {
    if b == 0 {
      assert UInt32(b - 1) == TWO_32 - 1;
      assert EntryWritten(TOTAL_PAGES) >= TOTAL_PAGES;
    } else if b > RAM_SIZE {
      assert EntryWritten(TOTAL_PAGES - PAG_LOG_INIT_HEAP) >= TOTAL_PAGES;
    }
  }

  lemma SbrkPremise(m: Mem, live: set<TaskId>, sane: set<TaskId>, d: TaskId, increment: int)
    requires MemInv(m, live, sane) && d in live && (Covered(m, d) || m.breaks[d] == 0)
    requires -TWO_31 <= increment < TWO_31
    ensures m.breaks[d] <= RAM_SIZE
    ensures SbrkDefined(m.breaks[d], increment) && (Covered(m, d) || Sbrk(m, d, increment).1 < 0)
            <==> if increment < 0 then ShrinkInTable(m.breaks[d], increment)
                 else UserTable(Sbrk(m, d, increment).0.tables[d])
  {
    hide Sbrk, ShrinkInTable, UserTable;
    if Covered(m, d) {
      if increment < 0 {
        ShrinkInTableExactly(m.breaks[d], increment);
      } else {
        SbrkInv(m, live, sane, d, increment);
      }
    } else {
      SbrkFromZero(m, live, sane, d, increment);
    }
  }

  // The premises of the machine exclude no more than they have to: given a free directory a fork
  // is admitted exactly if it stays in the table, and an sbrk exactly if it stays in the table
  // and leaves the caller its kernel and code pages.
  lemma PremisesExactly(states: seq<Kernel>, evs: seq<KEvent>, i: nat, increment: int)
    requires KRun(states, evs) && i <= |evs| && UserRuns(states[i].procs)
    requires -TWO_31 <= increment < TWO_31
    ensures var s := states[i].procs; var m := states[i].mem; var d := Cur(s).dir;
            && (s.queues[FREE] != [] && FreeDir(s.dirCounter, 0) < NR_TASKS ==>
                  (KEnabled(states[i], SysFork) <==> ForkInTable(m.breaks[d])))
            && m.breaks[d] <= RAM_SIZE
            && (KEnabled(states[i], KEvent.SysSbrk(increment)) <==>
                if increment < 0 then ShrinkInTable(m.breaks[d], increment)
                else UserTable(Sbrk(m, d, increment).0.tables[d]))
  {
    RunOneHeap(states, evs, i);
    var s := states[i].procs;
    CurrentDirLive(s);
    hide Inv, MemInv, LiveDirs, SaneDirs, Sbrk, ShrinkInTable, UserTable, ForkInTable;
    SbrkPremise(states[i].mem, LiveDirs(s), SaneDirs(s), Cur(s).dir, increment);
    ForkInTableExactly(states[i].mem.breaks[Cur(s).dir]);
  }

  // One more step.
  lemma RunOn(states: seq<Kernel>, evs: seq<KEvent>, e: KEvent)
    requires KRun(states, evs) && KEnabled(states[|evs|], e)
    ensures KRun(states + [KStep(states[|evs|], e).0], evs + [e])
  {
    hide KStep, KEnabled;
    var states' := states + [KStep(states[|evs|], e).0];
    var evs' := evs + [e];
    assert states'[0] == states[0];
    forall i | 0 <= i < |evs'| ensures KNext(states'[i], evs'[i], states'[i + 1]) {
      if i < |evs| { assert KNext(states[i], evs[i], states[i + 1]); }
    }
  }

  // Boot, fork, sem_init, sem_wait: the first child runs.
  lemma FirstChildRuns()
    ensures var s1 := Processes.Fork(Boot(), true).0; var s2 := SemInit(s1, 0, 0).0; var s3 := SemWait(s2, 0).0;
            && Boot().current == 1 && Cur(Boot()).dir == 2 && Cur(Boot()).waiting < 0
            && Boot().queues[FREE] != [] && FreeDir(Boot().dirCounter, 0) == 3
            && s1.current == s2.current == 1 && s1.idle == s2.idle == 0 && Cur(s1).waiting < 0 && Cur(s2).waiting < 0
            && s3.current == 2 && s3.idle == 0 && Cur(s3).dir == 3 && Cur(s3).waiting < 0
            && s3.queues[FREE] != [] && FreeDir(s3.dirCounter, 0) == 4
  {
    var s := Boot();
    FreeDirIs(s.dirCounter, 0, 3);
    assert s.queues[FREE] == [2, 3, 4, 5, 6, 7, 8, 9];
    var s1 := Processes.Fork(s, true).0;
    assert s1.queues[FREE] == [3, 4, 5, 6, 7, 8, 9] && s1.queues[READY] == [2];
    assert s1.dirCounter == [1, 1, 1, 1, 0, 0, 0, 0, 0, 0];
    FreeDirIs(s1.dirCounter, 0, 4);
    assert s1.sems[0] == Sem(0, -1);
    var s2 := SemInit(s1, 0, 0).0;
    assert s2.sems[0] == Sem(0, 1) && s2.queues[READY] == [2];
    assert s2.tasks == s1.tasks;
  }

  // So a step that leaves the table can come up: the first child runs, outside any call, with a
  // PCB and a directory to be had, and its fork would write the child's table up to entry 0xFFFFF.
  lemma ChildForkLeavesTable(guard0: nat, guard1: nat, ram: Ram) returns (states: seq<Kernel>)
    ensures KRun(states, [SysFork, Proc(Init(0, 0)), Proc(Wait(0))])
    ensures var s := states[3].procs;
            && UserRuns(s) && Cur(s).dir == 3 && states[3].mem.breaks[3] == 0
            && s.queues[FREE] != [] && FreeDir(s.dirCounter, 0) < NR_TASKS
            && !ForkInTable(0) && !KEnabled(states[3], SysFork)
  {
    hide Boot, BootMem, Processes.Fork, AddressSpaces.Fork, SemInit, SemWait, Take, FreeEvens, MemInv, Inv, Covered;
    FirstChildRuns();
    FirstForkGranted(guard0, guard1, ram);
    var k0 := KBoot(guard0, guard1, ram);
    ForkAllOrNothing(k0.mem, 2, 3);
    assert KRun([k0], []);
    RunOn([k0], [], SysFork);
    var k1 := KFork(k0).0;
    assert [k0] + [k1] == [k0, k1] && [] + [SysFork] == [SysFork];
    RunOn([k0, k1], [SysFork], Proc(Init(0, 0)));
    var k2 := KStep(k1, Proc(Init(0, 0))).0;
    assert [k0, k1] + [k2] == [k0, k1, k2] && [SysFork] + [Proc(Init(0, 0))] == [SysFork, Proc(Init(0, 0))];
    RunOn([k0, k1, k2], [SysFork, Proc(Init(0, 0))], Proc(Wait(0)));
    var k3 := KStep(k2, Proc(Wait(0))).0;
    states := [k0, k1, k2, k3];
    var evs := [SysFork, Proc(Init(0, 0)), Proc(Wait(0))];
    assert [k0, k1, k2] + [k3] == states && [SysFork, Proc(Init(0, 0))] + [Proc(Wait(0))] == evs;
    OnlyTask1HasHeap(states, evs, 3, 3);
    ForkInTableExactly(0);
    PremisesExactly(states, evs, 3, 0);
  }

  /* What a child leaves behind */

  // This step is a fork that takes a PCB and picks directory d.
  ghost predicate Takes(k: Kernel, e: KEvent, d: TaskId)
    requires KShape(k)
  {
    e == SysFork && k.procs.queues[FREE] != [] && ChildDir(k.procs) == d
  }

  // Data and heap of directory d are mapped as before, and d is as sound as it was.
  ghost predicate SameHeap(k: Kernel, k': Kernel, d: TaskId)
    requires KShape(k) && KShape(k')
  {
    && (forall p: PageNo :: p >= PAG_LOG_INIT_HEAP ==> k'.mem.tables[d][p] == k.mem.tables[d][p])
    && (d in SaneDirs(k.procs) ==> d in SaneDirs(k'.procs))
  }

  lemma ForkSameHeap(k: Kernel, d: TaskId)
    requires KShape(k) && KInv(k) && OneHeap(k) && KEnabled(k, SysFork) && d != 2 && !Takes(k, SysFork, d)
    ensures SameHeap(k, KFork(k).0, d)
  {
    var s := k.procs;
    if s.queues[FREE] != [] {
      ForkDirs(s, AddressSpaces.Fork(k.mem, Cur(s).dir, ChildDir(s)).1);
      hide Inv, LiveDirs, SaneDirs, MemInv, AddressSpaces.Fork, Covered;
      OtherTables(k.mem, Cur(s).dir, ChildDir(s), d);
    }
  }

  lemma OtherTables(m: Mem, father: TaskId, child: TaskId, d: TaskId)
    requires MemShape(m) && HEAP_BASE <= m.breaks[father] <= RAM_SIZE && d != father && d != child
    ensures AddressSpaces.Fork(m, father, child).0.tables[d] == m.tables[d]
  {
    hide Take, ChildTable, FailedTable, CopyFrames, FramesOf, Pages, UnmapPages, Mark;
  }

  lemma StepSameHeap(k: Kernel, e: KEvent, d: TaskId)
    requires KShape(k) && KInv(k) && OneHeap(k) && KEnabled(k, e) && d != 2 && !Takes(k, e, d)
    ensures SameHeap(k, KStep(k, e).0, d)
  {
    match e
    case Proc(pe) => ProcDirs(k.procs, pe);
    case SysFork => ForkSameHeap(k, d);
    case SysExit =>
      ExitDirs(k.procs);
      hide Inv, LiveDirs, SaneDirs, MemInv, Processes.Exit, LeaveDir;
    case SysSbrk(increment) =>
      hide Inv, LiveDirs, SaneDirs, MemInv, Sbrk;
      SbrkBreaks(k.mem, Cur(k.procs).dir, increment);
    case Store(_, _, _) =>
  }

  lemma {:induction false} RunSameHeap(states: seq<Kernel>, evs: seq<KEvent>, i: nat, j: nat, d: TaskId)
    requires KRun(states, evs) && i <= j <= |evs| && d != 2
    requires forall k :: i <= k < j ==> !Takes(states[k], evs[k], d)
    ensures SameHeap(states[i], states[j], d)
    decreases j
  {
    hide KEnabled, KStep, KInv, OneHeap, Takes;
    if i < j {
      RunSameHeap(states, evs, i, j - 1, d);
      RunOneHeap(states, evs, j - 1);
      assert KNext(states[j - 1], evs[j - 1], states[j - 1 + 1]);
      StepSameHeap(states[j - 1], evs[j - 1], d);
    }
  }

  ghost predicate HoldsAsData(t: Table, f: FrameNo) {
    exists p: PageNo :: PAG_LOG_INIT_DATA <= p < PAG_LOG_INIT_HEAP && t[p].frame == f
  }

  // The end of a directory with break 0 gives back its data frames and nothing else.
  lemma EndOfChild(m: Mem, live: set<TaskId>, sane: set<TaskId>, d: TaskId)
    requires MemInv(m, live, sane) && d in live && m.breaks[d] == 0
    ensures FreedEnd(m.breaks[d]) == PAG_LOG_INIT_HEAP
    ensures var m' := FreeUserPages(m, d);
            && (forall p: PageNo :: p >= PAG_LOG_INIT_HEAP ==> m'.tables[d][p] == m.tables[d][p])
            && (forall e: TaskId :: e != d ==> m'.tables[e] == m.tables[e])
            && (forall f: FrameNo :: m'.used[f] <==> m.used[f] && !HoldsAsData(m.tables[d], f))
  {
    var t := m.tables[d];
    var fs := FramesOf(t, PAG_LOG_INIT_DATA, PAG_LOG_INIT_HEAP);
    assert UserTable(t);
    forall f: FrameNo ensures HoldsAsData(t, f) <==> f > NUM_PAG_KERNEL && f in fs {
      if HoldsAsData(t, f) {
        var p: PageNo :| PAG_LOG_INIT_DATA <= p < PAG_LOG_INIT_HEAP && t[p].frame == f;
        assert Owned(m, t[p]);
        assert fs[p - PAG_LOG_INIT_DATA] == f;
      }
      if f in fs {
        var i :| 0 <= i < |fs| && fs[i] == f;
        var p: PageNo := PAG_LOG_INIT_DATA + i;
        assert t[p].frame == f;
      }
    }
  }

  // This step is a fork that gives the child directory d, with memory of its own.
  ghost predicate Gives(k: Kernel, e: KEvent, d: TaskId)
    requires KShape(k)
  {
    && Takes(k, e, d) && Covered(k.mem, Cur(k.procs).dir)
    && AddressSpaces.Fork(k.mem, Cur(k.procs).dir, d).1
  }

  // This step ends the last thread of directory d.
  predicate Ends(k: Kernel, e: KEvent, d: TaskId)
    requires KShape(k)
  {
    e == SysExit && Cur(k.procs).dir == d && LeaveDir(k.procs).dirCounter[d] == 0
  }

  // The directory then has a heap page for each of the father's.
  lemma ForkGivesHeap(k: Kernel, e: KEvent, k': Kernel, d: TaskId)
    requires KShape(k) && KInv(k) && OneHeap(k) && KShape(k') && KNext(k, e, k') && Gives(k, e, d)
    ensures d != 2 && d in SaneDirs(k'.procs)
    ensures forall p: PageNo :: PAG_LOG_INIT_HEAP <= p < Pages(k.mem.breaks[Cur(k.procs).dir]) ==>
                                  k'.mem.tables[d][p].present
  {
    hide Inv, MemInv, LiveDirs, SaneDirs, AddressSpaces.Fork, Processes.Fork, FreeDir;
    var s := k.procs;
    var father := Cur(s).dir;
    CurrentDirLive(s);
    PickedDir(s);
    ForkDirs(s, true);
    hide Covered;
    forall p: PageNo | PAG_LOG_INIT_HEAP <= p < Pages(k.mem.breaks[father])
      ensures AddressSpaces.Fork(k.mem, father, d).0.tables[d][p].present
    {
      ForkFaithful(k.mem, LiveDirs(s), SaneDirs(s), father, d, p);
    }
  }

  // A directory that a fork (step i) has given to a child ends with its last thread (step j). Of
  // its frames exactly those of its data come back. Its heap pages, as many as the father had at
  // the fork, keep theirs: in use, and mapped by no live directory.
  lemma ChildHeapLeaks(states: seq<Kernel>, evs: seq<KEvent>, i: nat, j: nat, d: TaskId, page: PageNo)
    requires KRun(states, evs) && i < j < |evs|
    requires Gives(states[i], evs[i], d) && Ends(states[j], evs[j], d)
    requires forall k :: i < k < j ==> !Takes(states[k], evs[k], d)
    requires PAG_LOG_INIT_HEAP <= page < Pages(states[i].mem.breaks[Cur(states[i].procs).dir])
    ensures var m := states[j].mem; var m' := states[j + 1].mem; var e := m'.tables[d][page];
            && (forall f: FrameNo :: m'.used[f] <==> m.used[f] && !HoldsAsData(m.tables[d], f))
            && e.present && e == states[i + 1].mem.tables[d][page] && m'.used[e.frame]
            && forall o: TaskId :: o in LiveDirs(states[j + 1].procs) ==> !Holds(m'.tables[o], e.frame)
  {
    hide KInv, OneHeap, KRun, KNext, Gives, Takes, Ends, LiveDirs, SaneDirs, Holds, HoldsAsData;
    RunStep(states, evs, i);
    RunStep(states, evs, j);
    ForkGivesHeap(states[i], evs[i], states[i + 1], d);
    EndedChild(states[j], evs[j], states[j + 1], d);
    RunSameHeap(states, evs, i + 1, j + 1, d);
    HeapOfNobody(states[j + 1], d, page);
  }

  lemma RunStep(states: seq<Kernel>, evs: seq<KEvent>, i: nat)
    requires KRun(states, evs) && i < |evs|
    ensures |states| == |evs| + 1 && KShape(states[i]) && KInv(states[i]) && OneHeap(states[i])
    ensures KShape(states[i + 1]) && KInv(states[i + 1]) && KNext(states[i], evs[i], states[i + 1])
  {
    RunOneHeap(states, evs, i);
    RunOneHeap(states, evs, i + 1);
  }

  lemma EndedChild(k: Kernel, e: KEvent, k': Kernel, d: TaskId)
    requires KShape(k) && KInv(k) && OneHeap(k) && KShape(k') && KNext(k, e, k') && Ends(k, e, d) && d != 2
    ensures forall f: FrameNo :: k'.mem.used[f] <==> k.mem.used[f] && !HoldsAsData(k.mem.tables[d], f)
    ensures d !in LiveDirs(k'.procs) && !Takes(k, e, d)
  {
    CurrentDirLive(k.procs);
    ExitDirs(k.procs);
    EndOfChild(k.mem, LiveDirs(k.procs), SaneDirs(k.procs), d);
  }

  // The end of task 1's own directory returns exactly the frames it had, and leaves it empty.
  lemma EndOfTask1(states: seq<Kernel>, evs: seq<KEvent>, i: nat)
    requires KRun(states, evs) && i < |evs| && Ends(states[i], evs[i], 2)
    ensures var m := states[i].mem; var m' := states[i + 1].mem;
            GivenBack(m.used, m'.used, m.tables[2]) && Absent(m'.tables[2], PAG_LOG_INIT_DATA, TOTAL_PAGES)
  {
    var k := states[i];
    RunOneHeap(states, evs, i);
    assert KNext(k, evs[i], states[i + 1]);
    CurrentDirLive(k.procs);
    NearlyExactMeans(k.mem, 2);
    EndReturnsFrames(k.mem, LiveDirs(k.procs), SaneDirs(k.procs), 2);
  }

  lemma HeapOfNobody(k: Kernel, d: TaskId, page: PageNo)
    requires KShape(k) && KInv(k) && d in SaneDirs(k.procs) && d !in LiveDirs(k.procs)
    requires page >= PAG_LOG_INIT_HEAP && k.mem.tables[d][page].present
    ensures var f := k.mem.tables[d][page].frame;
            k.mem.used[f] && forall o: TaskId :: o in LiveDirs(k.procs) ==> !Holds(k.mem.tables[o], f)
  {
    hide Inv, LiveDirs, SaneDirs;
    var f := k.mem.tables[d][page].frame;
    assert k.mem.tables[d][page] != ABSENT && Owned(k.mem, k.mem.tables[d][page]);
    forall o: TaskId, p: PageNo | o in LiveDirs(k.procs) && p >= PAG_LOG_INIT_DATA && k.mem.tables[o][p].present
      ensures k.mem.tables[o][p].frame != f
    {
      assert k.mem.tables[o][p] != ABSENT;
    }
  }

  /* Forks without a free directory */

  // A fork that gets its frames leaves the caller's table and all it sees as they were if and
  // only if a directory is free, and nothing is mapped in the window above the caller's heap.
  lemma CallerSurvivesExactly(k: Kernel)
    requires KShape(k) && KInv(k) && UserRuns(k.procs) && k.procs.queues[FREE] != []
    requires Covered(k.mem, Cur(k.procs).dir)
    requires AddressSpaces.Fork(k.mem, Cur(k.procs).dir, ChildDir(k.procs)).1
    ensures var s := k.procs; var father := Cur(s).dir; var hi := Pages(k.mem.breaks[father]);
            Survives(k.mem, KFork(k).0.mem, father) <==>
            FreeDir(s.dirCounter, 0) < NR_TASKS && Absent(k.mem.tables[father], hi, WindowEnd(k.mem, father))
  {
    var s := k.procs;
    CurrentDirLive(s);
    if FreeDir(s.dirCounter, 0) < NR_TASKS { PickedDir(s); }
    hide Inv, MemInv, LiveDirs, SaneDirs, AddressSpaces.Fork, Survives, Absent, FreeDir, Covered;
    FatherSurvivesExactly(k.mem, LiveDirs(s), SaneDirs(s), Cur(s).dir, ChildDir(s));
  }

  // n forks by task 1 after boot.
  function ForkSteps(n: nat): (evs: seq<KEvent>)
    ensures |evs| == n
  {
    seq(n, _ => SysFork)
  }

  // Every one of them is granted, and takes 20 frames.
  ghost predicate AfterForks(k: Kernel, n: nat)
    requires KShape(k)
  {
    && n <= 7 && k.procs == Run(Boot(), Forks(n)) && |FreeEvens(k.mem.used)| == 356 - 20 * n
    && k.mem.breaks[2] == HEAP_BASE && Absent(k.mem.tables[2], PAG_LOG_INIT_HEAP, TOTAL_PAGES)
  }

  lemma FramesTaken(u: FrameMap, fs: seq<FrameNo>)
    requires AllDistinct(fs) && forall f :: f in fs ==> NUM_PAG_KERNEL <= f && f % 2 == 0 && !u[f]
    ensures |FreeEvens(Mark(u, fs))| == |FreeEvens(u)| - |fs|
  {
    DistinctSize(fs);
    assert FreeEvens(u) == SetOf(fs) + FreeEvens(Mark(u, fs));
    assert SetOf(fs) !! FreeEvens(Mark(u, fs));
  }

  lemma TwentyTaken(m: Mem, child: TaskId)
    requires MemShape(m) && m.breaks[2] == HEAP_BASE && Absent(m.tables[2], PAG_LOG_INIT_HEAP, TOTAL_PAGES)
    requires |FreeEvens(m.used)| >= NUM_PAG_DATA && child != 2
    ensures Pages(HEAP_BASE) == PAG_LOG_INIT_HEAP && Covered(m, 2) && AddressSpaces.Fork(m, 2, child).1
    ensures var m' := AddressSpaces.Fork(m, 2, child).0;
            && |FreeEvens(m'.used)| == |FreeEvens(m.used)| - NUM_PAG_DATA
            && m'.breaks == m.breaks && Absent(m'.tables[2], PAG_LOG_INIT_HEAP, TOTAL_PAGES)
  {
    hide FreeEvens, Take, AddressSpaces.Fork;
    assert Pages(HEAP_BASE) == PAG_LOG_INIT_HEAP;
    ForkAllOrNothing(m, 2, child);
    ForkedIs(m, 2, child);
    ForkKeepsBreaks(m, 2, child);
    TakeDistinct(m.used, NUM_PAG_DATA);
    FramesTaken(m.used, Take(m.used, NUM_PAG_DATA).value);
  }

  lemma ForksRun(n: nat)
    requires n <= 7
    ensures var s := Run(Boot(), Forks(n));
            && s.current == 1 && s.idle == 0 && Cur(s).waiting < 0 && Cur(s).dir == 2 && s.queues[FREE] != []
            && FreeDir(s.dirCounter, 0) == 3 + n
            && (n < 7 ==> Run(Boot(), Forks(n + 1)) == Processes.Fork(s, true).0)
  {
    ForksFromBoot(n);
    var s := Run(Boot(), Forks(n));
    ForkedDirs(s.dirCounter, n);
    if n < 7 { assert Forks(n + 1)[..n] == Forks(n); }
  }

  lemma ForkedDirs(counter: seq<int>, n: nat)
    requires n <= 7 && counter == seq(NR_TASKS, d => if d < 3 + n then 1 else 0)
    ensures FreeDir(counter, 0) == 3 + n
  {
    if n < 7 { FreeDirIs(counter, 0, 3 + n); }
  }

  lemma {:induction false} ForksOfTask1(guard0: nat, guard1: nat, ram: Ram, n: nat) returns (states: seq<Kernel>)
    requires n <= 7
    ensures KRun(states, ForkSteps(n)) && AfterForks(states[n], n)
  {
    hide FreeEvens, Boot, BootMem, AddressSpaces.Fork, Processes.Fork;
    if n == 0 {
      FirstForkGranted(guard0, guard1, ram);
      states := [KBoot(guard0, guard1, ram)];
      BootIsRun();
    } else {
      var before := ForksOfTask1(guard0, guard1, ram, n - 1);
      states := OneForkMore(before, n - 1);
    }
  }

  lemma OneForkMore(before: seq<Kernel>, n: nat) returns (states: seq<Kernel>)
    requires n < 7 && KRun(before, ForkSteps(n)) && AfterForks(before[n], n)
    ensures KRun(states, ForkSteps(n + 1)) && AfterForks(states[n + 1], n + 1)
  {
    hide FreeEvens, Boot, BootMem, AddressSpaces.Fork, Processes.Fork;
    var k := before[n];
    ForksRun(n);
    TwentyTaken(k.mem, 3 + n);
    RunOn(before, ForkSteps(n), SysFork);
    states := before + [KFork(k).0];
    assert ForkSteps(n) + [SysFork] == ForkSteps(n + 1);
  }

  lemma BootIsRun()
    ensures Run(Boot(), Forks(0)) == Boot()
  {
  }

  // Seven forks from boot leave a PCB and no directory; the eighth gets its frames and its PCB,
  // and the caller loses all its data.
  lemma EighthForkLosesData(guard0: nat, guard1: nat, ram: Ram) returns (states: seq<Kernel>)
    ensures KRun(states, ForkSteps(7))
    ensures var k := states[7]; var s := k.procs;
            && KInv(k) && UserRuns(s) && s.queues[FREE] != [] && FreeDir(s.dirCounter, 0) == NR_TASKS
            && Cur(s).dir == 2 && Covered(k.mem, 2) && AddressSpaces.Fork(k.mem, 2, 2).1
            && !Survives(k.mem, KFork(k).0.mem, 2)
  {
    states := ForksOfTask1(guard0, guard1, ram, 7);
    var k := states[7];
    KRunInv(states, ForkSteps(7), 7);
    ForksRun(7);
    hide FreeEvens, Boot, BootMem, AddressSpaces.Fork, Processes.Fork, Inv, MemInv, Survives;
    assert Covered(k.mem, 2);
    assert Pages(HEAP_BASE) == PAG_LOG_INIT_HEAP;
    ForkAllOrNothing(k.mem, 2, 2);
    CallerSurvivesExactly(k);
  }
}
