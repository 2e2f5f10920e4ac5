// The kernel itself: process table and memory manager driven by the system calls that touch
// both. Each is one step of the Kernel machine.
module Zeos {
  import opened Layout
  import opened Queues
  import opened Processes
  import opened ProcessInvariants
  import opened ProcessSteps
  import opened AddressSpaces
  import opened MemoryInvariants
  import opened Kernel
  import PT = ProcessTable
  import MM = MemoryManager

  class Zeos {
    const pt: PT.ProcessTable
    const mm: MM.MemoryManager

    // The arrays of the two parts are different objects.
    ghost predicate Separate() {
      {pt.task as object, pt.sem, pt.dirCounter} !! {mm.physMem as object, mm.table, mm.breaks, mm.ram}
    }

    ghost predicate Shaped()
      reads pt
    {
      mm.Valid() && pt.Shaped() && Separate()
    }

    ghost function Abs(): (k: Kernel)
      requires Shaped()
      reads pt, pt.task, pt.sem, pt.dirCounter, mm.physMem, mm.table, mm.breaks, mm.ram
      ensures KShape(k)
    {
      Kernel(pt.Abs(), mm.Abs())
    }

    ghost predicate Valid()
      reads pt, pt.task, pt.sem, pt.dirCounter, pt.node, pt.head
      reads mm.physMem, mm.table, mm.breaks, mm.ram
    {
      Shaped() && pt.Valid() && KInv(Abs())
    }

    // The two parts as the boot sequence has left them.
    constructor (pt: PT.ProcessTable, mm: MM.MemoryManager, ghost guard0: nat, ghost guard1: nat, ghost ram: Ram)
      requires pt.Valid() && mm.Valid()
      requires {pt.task as object, pt.sem, pt.dirCounter} !! {mm.physMem as object, mm.table, mm.breaks, mm.ram}
      requires pt.Abs() == Boot() && mm.Abs() == BootMem(guard0, guard1, ram)
      ensures Valid() && Abs() == KBoot(guard0, guard1, ram) && this.pt == pt && this.mm == mm
    {
      this.pt := pt;
      this.mm := mm;
      new;
      hide Inv, MemInv, LiveDirs, SaneDirs, PT.ProcessTable.Linked, PT.ProcessTable.Numbered, PT.ProcessTable.OfTasks,
           Boot, BootMem, KInv, PT.AllIds, Shape, MemShape;
      KBootInv(guard0, guard1, ram);
      assert Shaped();
      assert Abs() == KBoot(guard0, guard1, ram);
    }

    // main: the whole boot sequence.
    static method Start(guard0: nat, guard1: nat, contents: array<Byte>) returns (z: Zeos)
      requires contents.Length == RAM_SIZE
      ensures z.Valid() && z.Abs() == KBoot(guard0, guard1, contents[..])
    {
      hide Inv, KInv, PT.ProcessTable.Linked, PT.ProcessTable.Numbered, PT.ProcessTable.OfTasks, Boot, BootMem;
      var mm := new MM.MemoryManager(guard0, guard1, contents);
      var pt := new PT.ProcessTable();
      z := new Zeos(pt, mm, guard0, guard1, contents[..]);
    }

    // The clock interrupt and the system calls that leave memory alone.
    method Deliver(e: Event) returns (outcome: Outcome)
      requires Valid() && KEnabled(Abs(), Proc(e))
      modifies pt, pt.task, pt.sem, pt.dirCounter, pt.node, pt.head
      ensures Valid() && (Abs(), outcome) == KStep(old(Abs()), Proc(e))
    {
      hide Inv, MemInv, LiveDirs, SaneDirs, KInv, PT.ProcessTable.Linked, PT.ProcessTable.Numbered,
           PT.ProcessTable.OfTasks, Step, Enabled;
      KStepInv(Abs(), Proc(e));
      outcome := pt.Deliver(e);
    }

    // A store by the running program, through its page table.
    method StoreByte(page: nat, offset: nat, b: Byte)
      requires Valid() && KEnabled(Abs(), Store(page, offset, b))
      modifies mm.ram
      ensures Valid() && Abs() == KStep(old(Abs()), Store(page, offset, b)).0
    {
      ghost var k := Abs();
      assert pt.task.Length == NR_TASKS;
      hide Inv, MemInv, LiveDirs, SaneDirs, KInv, KEnabled, KStep, Write, Separate, PT.ProcessTable.Valid,
           PT.ProcessTable.Linked, PT.ProcessTable.Numbered, PT.ProcessTable.OfTasks;
      StoreFacts(k, page, offset, b);
      mm.StoreByte(pt.task[pt.current].dir, page, offset, b);
    }

    // sys_fork: a step of the kernel machine if a directory is free; and without one, too, what
    // KFork says, but then the books are no longer in order.
    method SysFork() returns (outcome: Outcome)
      requires Valid() && UserRuns(pt.Abs())
      requires pt.Queues()[FREE] == [] || Covered(mm.Abs(), Cur(pt.Abs()).dir)
      modifies pt, pt.task, pt.dirCounter, pt.node, pt.head, mm.physMem, mm.table, mm.ram
      ensures Shaped() && pt.Linked() && (Abs(), outcome) == KFork(old(Abs()))
      ensures old(KEnabled(Abs(), KEvent.SysFork)) ==> Valid()
    {
      hide Inv, MemInv, LiveDirs, SaneDirs, Covered, PT.ProcessTable.Linked, PT.ProcessTable.Numbered,
           PT.ProcessTable.OfTasks, KEnabled;
      var empty := pt.IsEmpty(FREE);
      if empty { return Returns(-EAGAIN); }
      outcome := ForkChild();
    }

    // The three parts of sys_fork: the PCB, the address space, the end.
    method ForkPcb() returns (child: TaskId)
      requires Shaped() && pt.Valid() && pt.current != pt.idle && pt.Queues()[FREE] != []
      modifies pt, pt.task, pt.dirCounter, pt.node, pt.head
      ensures Shaped() && pt.Linked() && pt.Abs() == PreparedFork(old(pt.Abs()))
      ensures child == old(pt.Queues()[FREE][0]) && !Placed(pt.Queues(), child)
      ensures mm.Abs() == old(mm.Abs())
    {
      hide Inv, PT.ProcessTable.Linked, PT.ProcessTable.Numbered, PT.ProcessTable.OfTasks, PreparedFork;
      child := pt.ForkBegin();
    }

    method ForkMemory(father: TaskId, child: TaskId, ghost live: set<TaskId>, ghost sane: set<TaskId>)
      returns (ok: bool)
      requires Shaped() && pt.Linked() && MemInv(mm.Abs(), live, sane) && father in live && Covered(mm.Abs(), father)
      modifies mm.physMem, mm.table, mm.ram
      ensures Shaped() && pt.Linked() && pt.Abs() == old(pt.Abs()) && pt.Queues() == old(pt.Queues())
      ensures (mm.Abs(), ok) == AddressSpaces.Fork(old(mm.Abs()), father, child)
    {
      hide MemInv, PT.ProcessTable.Linked, PT.ProcessTable.Numbered, PT.ProcessTable.OfTasks, AddressSpaces.Fork;
      ok := mm.ForkSpace(father, child, live, sane);
    }

    method ForkEnd(child: TaskId, ok: bool, ghost s: Procs) returns (outcome: Outcome)
      requires Shaped() && pt.Linked() && Shape(s) && s.queues[FREE] != []
      requires pt.Abs() == PreparedFork(s) && child == s.queues[FREE][0] && !Placed(pt.Queues(), child)
      modifies pt, pt.task, pt.node, pt.head
      ensures Shaped() && pt.Linked() && (pt.Abs(), outcome) == Processes.Fork(s, ok)
      ensures Inv(s) && Enabled(s, DoFork(ok)) ==> pt.Valid()
      ensures mm.Abs() == old(mm.Abs())
    {
      hide Inv, Enabled, PreparedFork, Processes.Fork, PT.ProcessTable.Linked, PT.ProcessTable.Numbered,
           PT.ProcessTable.OfTasks;
      if ok {
        outcome := pt.ForkFinish(child, s);
      } else {
        outcome := pt.ForkFail(child, s);
      }
    }

    // sys_fork once a free PCB has been found
    method ForkChild() returns (outcome: Outcome)
      requires Valid() && UserRuns(pt.Abs()) && pt.Queues()[FREE] != [] && Covered(mm.Abs(), Cur(pt.Abs()).dir)
      modifies pt, pt.task, pt.dirCounter, pt.node, pt.head, mm.physMem, mm.table, mm.ram
      ensures Shaped() && pt.Linked() && (Abs(), outcome) == KFork(old(Abs()))
      ensures old(KEnabled(Abs(), KEvent.SysFork)) ==> Valid()
    {
      ghost var k := Abs();
      assert pt.task.Length == NR_TASKS;
      hide Inv, MemInv, LiveDirs, SaneDirs, Covered, PT.ProcessTable.Linked, Processes.Fork, AddressSpaces.Fork,
           PreparedFork, Enabled, KFork, KEnabled, KInv, FreeDir, PT.ProcessTable.Numbered, PT.ProcessTable.OfTasks,
           Separate, Placed;
      ForkFacts(k);
      var father := pt.task[pt.current].dir;
      var child := ForkPcb();
      var ok := ForkMemory(father, pt.task[child].dir, LiveDirs(k.procs), SaneDirs(k.procs));
      outcome := ForkEnd(child, ok, k.procs);
    }

    // The three parts of sys_exit: semaphores and counter, the pages, the PCB.
    method ExitPcb() returns (d: TaskId, last: bool)
      requires Shaped() && pt.Valid() && pt.current != pt.idle
      modifies pt, pt.task, pt.sem, pt.dirCounter, pt.node, pt.head
      ensures Shaped() && pt.Linked() && pt.Abs() == LeaveDir(old(pt.Abs()))
      ensures d == old(Cur(pt.Abs()).dir) && last == (pt.Abs().dirCounter[d] == 0)
      ensures mm.Abs() == old(mm.Abs())
    {
      hide Inv, PT.ProcessTable.Linked, PT.ProcessTable.Numbered, PT.ProcessTable.OfTasks, LeaveDir;
      assert pt.task.Length == NR_TASKS;
      d, last := pt.ExitBegin();
    }

    method ExitMemory(d: TaskId)
      requires Shaped() && pt.Linked() && FreedEnd(mm.Abs().breaks[d]) <= TOTAL_PAGES
      modifies mm.physMem, mm.table
      ensures Shaped() && pt.Linked() && pt.Abs() == old(pt.Abs())
      ensures mm.Abs() == FreeUserPages(old(mm.Abs()), d)
    {
      hide PT.ProcessTable.Linked, PT.ProcessTable.Numbered, PT.ProcessTable.OfTasks, FreeUserPages;
      mm.FreePages(d);
    }

    method ExitEnd(ghost s: Procs)
      requires Shaped() && pt.Linked() && Shape(s) && Inv(s) && s.current != s.idle && pt.Abs() == LeaveDir(s)
      modifies pt, pt.task, pt.node, pt.head
      ensures Shaped() && pt.Valid() && pt.Abs() == Processes.Exit(s)
      ensures mm.Abs() == old(mm.Abs())
    {
      hide Inv, PT.ProcessTable.Linked, PT.ProcessTable.Numbered, PT.ProcessTable.OfTasks, LeaveDir, Processes.Exit;
      pt.ExitFinish(s);
    }

    method SysExit()
      requires Valid() && KEnabled(Abs(), KEvent.SysExit)
      modifies pt, pt.task, pt.sem, pt.dirCounter, pt.node, pt.head, mm.physMem, mm.table
      ensures Valid() && Abs() == KExit(old(Abs()))
    {
      ghost var k := Abs();
      assert pt.task.Length == NR_TASKS;
      hide Inv, MemInv, LiveDirs, SaneDirs, KInv, KEnabled, KExit, Covered, LeaveDir, Processes.Exit, FreeUserPages,
           FreedEnd, Separate, PT.ProcessTable.Linked, PT.ProcessTable.Numbered, PT.ProcessTable.OfTasks;
      ExitFacts(k);
      var d, last := ExitPcb();
      if last { ExitMemory(d); }
      ExitEnd(k.procs);
    }

    method SbrkMemory(d: TaskId, increment: int, ghost live: set<TaskId>, ghost sane: set<TaskId>) returns (ret: int)
      requires Shaped() && pt.Valid() && MemInv(mm.Abs(), live, sane) && d in live
      requires SbrkDefined(mm.breaks[d], increment)
      requires Covered(mm.Abs(), d) || Sbrk(mm.Abs(), d, increment).1 < 0
      modifies mm.physMem, mm.table, mm.breaks
      ensures Shaped() && pt.Valid() && pt.Abs() == old(pt.Abs())
      ensures (mm.Abs(), ret) == Sbrk(old(mm.Abs()), d, increment)
    {
      hide Inv, MemInv, Covered, PT.ProcessTable.Linked, PT.ProcessTable.Numbered, PT.ProcessTable.OfTasks, Sbrk;
      ret := mm.SysSbrk(d, increment, live, sane);
    }

    method SysSbrk(increment: int) returns (ret: int)
      requires Valid() && KEnabled(Abs(), KEvent.SysSbrk(increment))
      modifies mm.physMem, mm.table, mm.breaks
      ensures Valid() && (Abs(), Returns(ret)) == KStep(old(Abs()), KEvent.SysSbrk(increment))
    {
      ghost var k := Abs();
      assert pt.task.Length == NR_TASKS;
      hide Inv, MemInv, LiveDirs, SaneDirs, Covered, KInv, KEnabled, KStep, Sbrk, Separate,
           PT.ProcessTable.Valid, PT.ProcessTable.Linked, PT.ProcessTable.Numbered, PT.ProcessTable.OfTasks;
      SbrkFacts(k, increment);
      ret := SbrkMemory(pt.task[pt.current].dir, increment, LiveDirs(k.procs), SaneDirs(k.procs));
    }
  }

  // What the parts of sys_fork need, and what they make together.
  lemma ForkFacts(k: Kernel)
    requires KShape(k) && KInv(k) && UserRuns(k.procs) && k.procs.queues[FREE] != []
    requires Covered(k.mem, Cur(k.procs).dir)
    ensures var s := k.procs; var father := Cur(s).dir; var live := LiveDirs(s); var sane := SaneDirs(s);
            && Inv(s) && s.current != s.idle && MemInv(k.mem, live, sane) && father in live
            && HEAP_BASE <= k.mem.breaks[father] <= RAM_SIZE
            && PreparedFork(s).tasks[s.queues[FREE][0]].dir == ChildDir(s)
            && (KEnabled(k, KEvent.SysFork) ==>
                  Enabled(s, DoFork(true)) && Enabled(s, DoFork(false)) && KInv(KFork(k).0))
            && (var (m, ok) := AddressSpaces.Fork(k.mem, father, ChildDir(s));
                KFork(k) == (Kernel(Processes.Fork(s, ok).0, m), Processes.Fork(s, ok).1))
  {
    CurrentDirLive(k.procs);
    FreePcbIsNobody(k.procs);
    hide Inv, MemInv, LiveDirs, SaneDirs;
    if KEnabled(k, KEvent.SysFork) { ForkKeepsKInv(k); }
  }

  lemma SbrkFacts(k: Kernel, increment: int)
    requires KShape(k) && KInv(k) && KEnabled(k, KEvent.SysSbrk(increment))
    ensures var d := Cur(k.procs).dir; var e := KEvent.SysSbrk(increment);
            && MemInv(k.mem, LiveDirs(k.procs), SaneDirs(k.procs)) && d in LiveDirs(k.procs)
            && SbrkDefined(k.mem.breaks[d], increment)
            && (Covered(k.mem, d) || Sbrk(k.mem, d, increment).1 < 0)
            && KInv(KStep(k, e).0)
            && KStep(k, e) == (Kernel(k.procs, Sbrk(k.mem, d, increment).0), Returns(Sbrk(k.mem, d, increment).1))
  {
    KStepInv(k, KEvent.SysSbrk(increment));
    CurrentDirLive(k.procs);
  }

  lemma StoreFacts(k: Kernel, page: nat, offset: nat, b: Byte)
    requires KShape(k) && KInv(k) && KEnabled(k, Store(page, offset, b))
    ensures var d := Cur(k.procs).dir; var e := Store(page, offset, b);
            && Mapped(k.mem, d, page) && offset < PAGE_SIZE && page < TOTAL_PAGES
            && KInv(KStep(k, e).0)
            && KStep(k, e).0 == Kernel(k.procs, Write(k.mem, d, page, offset, b))
  {
    hide Inv, MemInv, KInv;
    KStepInv(k, Store(page, offset, b));
  }

  lemma ExitFacts(k: Kernel)
    requires KShape(k) && KInv(k) && KEnabled(k, KEvent.SysExit)
    ensures var s := k.procs; var d := Cur(s).dir;
            && Inv(s) && s.current != s.idle && FreedEnd(k.mem.breaks[d]) <= TOTAL_PAGES
            && KInv(KExit(k))
            && KExit(k) == Kernel(Processes.Exit(s),
                                  if LeaveDir(s).dirCounter[d] == 0 then FreeUserPages(k.mem, d) else k.mem)
  {
    hide Inv, MemInv;
    ExitKeepsKInv(k);
  }
}
