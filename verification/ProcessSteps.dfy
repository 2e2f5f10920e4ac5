// Creation and termination keep the invariant, and so does every run from boot. Directory
// counters are exact, so a directory is torn down by its last thread only.
module ProcessSteps {
  import opened Layout
  import opened Queues
  import opened Processes
  import opened ProcessInvariants

  /* Creation */

  // Taking a PCB off the free queue and copying the caller's into it. The new task is in
  // hand: on no ring, with the caller's directory, in nobody's count yet.
  lemma TakePcbRing(s: Procs)
    requires Inv(s) && s.current != s.idle && s.queues[FREE] != []
    ensures var s' := TakePcb(s); var p := s.queues[FREE][0];
            && Consistent(s', OffRings(s) + {p}) && p !in OffRings(s)
            && s'.tasks == s.tasks[p := Cur(s)] && s'.tasks[s.current] == Cur(s)
            && (forall x: TaskId :: x in s'.queues[FREE] <==> x in s.queues[FREE] && x != p)
            && (forall r :: 1 <= r < NR_QUEUES ==> s'.queues[r] == s.queues[r])
            && (forall r :: 0 <= r < NR_QUEUES ==> p !in s'.queues[r])
  {
    var p := s.queues[FREE][0];
    DequeueConsistent(s, FREE, OffRings(s));
    SetTaskConsistent(Dequeue(s, FREE), p, Cur(s), OffRings(s) + {p});
  }

  // Task p, so far free, has come into use; nobody else's books have changed.
  ghost predicate NewUser(s: Procs, s': Procs, p: TaskId)
    requires Shape(s) && Shape(s')
  {
    && p in s.queues[FREE] && s'.idle == s.idle && s'.sems == s.sems
    && (forall x: TaskId :: x in s'.queues[FREE] <==> x in s.queues[FREE] && x != p)
    && (forall x: TaskId :: x != p ==> s'.tasks[x] == s.tasks[x])
  }

  lemma NewUserPids(s: Procs, s': Procs, p: TaskId)
    requires Shape(s) && PidInv(s) && Shape(s') && NewUser(s, s', p)
    requires if p in s'.lost then s'.lost == s.lost + {p} && s'.nextPid == s.nextPid
             else s'.lost == s.lost && s'.tasks[p].pid == s.nextPid && s'.nextPid == s.nextPid + 1
    ensures PidInv(s')
  {
    assert forall x: TaskId :: Live(s, x) ==> Live(s', x) && x != p;
    assert forall x: TaskId :: Live(s', x) ==> Live(s, x) || x == p;
    forall n | 0 <= n < NR_SEMS ensures OwnerOk(s', s'.sems[n].owner) {
      assert OwnerOk(s, s.sems[n].owner);
    }
  }

  // ... with directory d, whose count has gone up by one, and which no idle or lost task has;
  // if p itself is lost then d was not in use at all.
  lemma NewUserDirs(s: Procs, s': Procs, p: TaskId, d: TaskId)
    requires Shape(s) && DirInv(s) && Shape(s') && NewUser(s, s', p) && d != 0
    requires s'.tasks[p].dir == d && s'.dirCounter == s.dirCounter[d := |Users(s, d)| + 1]
    requires s'.lost == s.lost || (s'.lost == s.lost + {p} && Users(s, d) == {})
    requires forall l: TaskId :: l in {s.idle} + s.lost ==> s.tasks[l].dir != d && l !in s.queues[FREE]
    ensures DirInv(s')
  {
    NewUserCounts(s, s', p, d);
    NewUserApart(s, s', p, d);
    hide Users;
  }

  lemma NewUserCounts(s: Procs, s': Procs, p: TaskId, d: TaskId)
    requires Shape(s) && DirInv(s) && Shape(s') && NewUser(s, s', p) && d != 0
    requires s'.tasks[p].dir == d && s'.dirCounter == s.dirCounter[d := |Users(s, d)| + 1]
    ensures forall e: TaskId :: e != 0 ==> s'.dirCounter[e] == |Users(s', e)|
  {
    assert Users(s', d) == Users(s, d) + {p};
    forall e: TaskId | e != 0 && e != d ensures s'.dirCounter[e] == |Users(s', e)| {
      assert Users(s', e) == Users(s, e);
    }
  }

  // The directories of idle and of lost PCBs stay their own.
  lemma NewUserApart(s: Procs, s': Procs, p: TaskId, d: TaskId)
    requires Shape(s) && DirInv(s) && Shape(s') && NewUser(s, s', p) && s'.tasks[p].dir == d
    requires s'.lost == s.lost || (s'.lost == s.lost + {p} && Users(s, d) == {})
    requires forall l: TaskId :: l in {s.idle} + s.lost ==> s.tasks[l].dir != d && l !in s.queues[FREE]
    ensures forall l: TaskId, x: TaskId ::
              l in {s'.idle} + s'.lost && x !in s'.queues[FREE] && x != l ==> s'.tasks[x].dir != s'.tasks[l].dir
  {
    if s'.lost != s.lost {
      forall x: TaskId | x !in s'.queues[FREE] && x != p ensures s'.tasks[x].dir != d {
        assert x !in Users(s, d);
      }
    }
  }

  lemma LaunchRing(s: Procs, p: TaskId, hand: set<TaskId>)
    requires Shape(s) && p in hand && Consistent(s, hand)
    ensures Consistent(Launch(s, p), hand - {p})
  {
    var s1 := SetTask(s, p, s.tasks[p].(pid := s.nextPid, state := StReady));
    SetTaskConsistent(s, p, s.tasks[p].(pid := s.nextPid, state := StReady), hand);
    EnqueueConsistent(s1, READY, p, hand);
    assert Consistent(Launch(s, p), hand - {p}) by {
      assert Launch(s, p).queues == Enqueue(s1, READY, p).queues;
    }
  }

  lemma SpecialTasksInUse(s: Procs)
    requires Shape(s) && RingInv(s)
    ensures forall l: TaskId :: l in OffRings(s) ==> l !in s.queues[FREE]
  {
    forall l: TaskId | l in OffRings(s) ensures l !in s.queues[FREE] { OffRingNotQueued(s, l); }
  }

  lemma TakePcbFields(s: Procs)
    requires Shape(s) && s.queues[FREE] != []
    ensures TakePcb(s) == s.(tasks := TakePcb(s).tasks, queues := TakePcb(s).queues)
  {
  }

  lemma NotLost(s: Procs)
    requires Shape(s) && Inv(s)
    ensures RingInv(s) && s.idle !in s.lost && s.current !in s.lost
    ensures forall p: TaskId :: p in OffRings(s) ==> s.tasks[p].state == StRun
  {
  }

  lemma CloneRing(s: Procs, function_: int, stack: int)
    requires Shape(s) && Inv(s) && s.current != s.idle && s.queues[FREE] != [] && CloneArgsOk(function_, stack)
    ensures var s' := Clone(s, function_, stack).0;
            RingInv(s') && NewUser(s, s', s.queues[FREE][0]) && s'.tasks[s.current] == Cur(s)
  {
    var p := s.queues[FREE][0];
    var d := Cur(s).dir;
    var s0 := TakePcb(s);
    var s1 := s0.(dirCounter := s.dirCounter[d := s.dirCounter[d] + 1]);
    hide Inv, Consistent, TakePcb;
    TakePcbRing(s);
    TakePcbFields(s);
    CountersFree(s0, s1.dirCounter, OffRings(s) + {p});
    LaunchRing(s1, p, OffRings(s) + {p});
    NotLost(s);
    assert OffRings(s) + {p} - {p} == OffRings(Launch(s1, p));
  }

  lemma CloneInv(s: Procs, function_: int, stack: int)
    requires Inv(s) && s.current != s.idle && Cur(s).waiting < 0
    ensures Inv(Clone(s, function_, stack).0)
  {
    if s.queues[FREE] != [] && CloneArgsOk(function_, stack) {
      var p := s.queues[FREE][0];
      var s' := Clone(s, function_, stack).0;
      CloneRing(s, function_, stack);
      SpecialTasksInUse(s);
      NewUserPids(s, s', p);
      NewUserDirs(s, s', p, Cur(s).dir);
    }
  }

  lemma FreeDirUnused(s: Procs)
    requires Inv(s) && FreeDir(s.dirCounter, 0) < NR_TASKS
    ensures var d := FreeDir(s.dirCounter, 0); d != 0 && Users(s, d) == {}
    ensures forall l: TaskId :: l in {s.idle} + s.lost ==> s.tasks[l].dir != FreeDir(s.dirCounter, 0)
  {
    var d: TaskId := FreeDir(s.dirCounter, 0);
    assert |Users(s, d)| == 0;
    forall l: TaskId | l in {s.idle} + s.lost ensures s.tasks[l].dir != d {
      OffRingNotQueued(s, l);
      assert l !in Users(s, d);
    }
  }

  lemma ForkPrepared(s: Procs)
    requires Shape(s) && Inv(s) && s.current != s.idle && s.queues[FREE] != []
    requires FreeDir(s.dirCounter, 0) < NR_TASKS
    ensures var p := s.queues[FREE][0]; var d: TaskId := FreeDir(s.dirCounter, 0);
            var s1 := AllocateDir(TakePcb(s), p);
            && Consistent(s1, OffRings(s) + {p}) && p !in OffRings(s)
            && s1 == TakePcb(s).(tasks := s.tasks[p := Cur(s).(dir := d)],
                                 dirCounter := s.dirCounter[d := 1])
  {
    var p := s.queues[FREE][0];
    var d: TaskId := FreeDir(s.dirCounter, 0);
    hide Inv, Consistent, TakePcb, FreeDir;
    TakePcbRing(s);
    TakePcbFields(s);
    var s1 := SetTask(TakePcb(s), p, Cur(s).(dir := d));
    SetTaskConsistent(TakePcb(s), p, Cur(s).(dir := d), OffRings(s) + {p});
    CountersFree(s1, s.dirCounter[d := 1], OffRings(s) + {p});
  }

  lemma ForkedRing(s: Procs)
    requires Inv(s) && s.current != s.idle && s.queues[FREE] != []
    requires FreeDir(s.dirCounter, 0) < NR_TASKS
    ensures var s' := Fork(s, true).0;
            RingInv(s') && NewUser(s, s', s.queues[FREE][0]) && s'.tasks[s.current] == Cur(s)
  {
    var p := s.queues[FREE][0];
    var s1 := AllocateDir(TakePcb(s), p);
    TakePcbRing(s);
    ForkPrepared(s);
    LaunchRing(s1, p, OffRings(s) + {p});
    assert OffRings(s) + {p} - {p} == OffRings(Launch(s1, p));
  }

  lemma LostFree(s: Procs, lost: set<TaskId>, hand: set<TaskId>)
    requires Shape(s) && Consistent(s, hand)
    ensures Consistent(s.(lost := lost), hand)
  {
    var s' := s.(lost := lost);
    forall n, p: TaskId | 0 <= n < NR_SEMS && p in s'.queues[SemQueue(n)] ensures WaitsOn(s', p, n) {
      assert WaitsOn(s, p, n);
    }
  }

  lemma FailedForkRing(s: Procs)
    requires Shape(s) && Inv(s) && s.current != s.idle && s.queues[FREE] != []
    requires FreeDir(s.dirCounter, 0) < NR_TASKS
    ensures var s' := Fork(s, false).0;
            RingInv(s') && NewUser(s, s', s.queues[FREE][0]) && s'.tasks[s.current] == Cur(s)
  {
    var p := s.queues[FREE][0];
    var s1 := PreparedFork(s);
    var s' := Fork(s, false).0;
    hide Inv, FreeDir, TakePcb, Disjoint;
    TakePcbFields(s);
    TakePcbRing(s);
    ForkPrepared(s);
    NotLost(s);
    LostFree(s1, s'.lost, OffRings(s) + {p});
    hide Consistent;
    assert OffRings(s) + {p} == OffRings(s');
  }

  lemma ForkNewUser(s: Procs, granted: bool)
    requires Shape(s) && Inv(s) && Enabled(s, DoFork(granted)) && s.queues[FREE] != []
    ensures var s' := Fork(s, granted).0;
            RingInv(s') && NewUser(s, s', s.queues[FREE][0]) && s'.tasks[s.current] == Cur(s)
  {
    hide Inv, RingInv;
    if granted { ForkedRing(s); } else { FailedForkRing(s); }
  }

  lemma ForkBooks(s: Procs, granted: bool)
    requires Shape(s) && Inv(s) && Enabled(s, DoFork(granted)) && s.queues[FREE] != []
    ensures PidInv(Fork(s, granted).0) && DirInv(Fork(s, granted).0)
  {
    hide PidInv, DirInv, FreeDir, FlagInv, SchedInv;
    var p := s.queues[FREE][0];
    var s' := Fork(s, granted).0;
    FreeDirUnused(s);
    ForkNewUser(s, granted);
    SpecialTasksInUse(s);
    hide RingInv;
    NewUserPids(s, s', p);
    NewUserDirs(s, s', p, FreeDir(s.dirCounter, 0));
  }

  lemma ForkInv(s: Procs, granted: bool)
    requires Inv(s) && Enabled(s, DoFork(granted))
    ensures Inv(Fork(s, granted).0)
  {
    if s.queues[FREE] != [] {
      hide RingInv, PidInv, DirInv, FreeDir;
      ForkNewUser(s, granted);
      ForkBooks(s, granted);
      CurrentInUse(s);
    }
  }

  lemma CurrentInUse(s: Procs)
    requires Shape(s) && RingInv(s)
    ensures s.current !in s.queues[FREE]
  {
    SpecialTasksInUse(s);
  }

  /* Termination */

  // s' is s after the loop of sys_exit has closed the caller's semaphores below n: nothing but
  // those semaphores and their waiters has changed.
  ghost predicate ClosedBelow(s: Procs, s': Procs, n: nat)
    requires Shape(s) && Shape(s') && n <= NR_SEMS
  {
    && SameBooks(s, s') && s'.current == s.current && Cur(s') == Cur(s)
    && (forall i :: 0 <= i < n ==>
          s'.sems[i].owner == if s.sems[i].owner == Cur(s).pid then -1 else s.sems[i].owner)
    && (forall i :: n <= i < NR_SEMS ==> s'.sems[i] == s.sems[i])
  }

  lemma CloseIfOwnedInv(s: Procs, n: nat)
    requires Inv(s) && s.current != s.idle && n < NR_SEMS
    ensures var s' := CloseIfOwned(s, n);
            && Inv(s') && SameBooks(s, s') && s'.current == s.current && Cur(s') == Cur(s)
            && s'.sems == if s.sems[n].owner == Cur(s).pid
                          then s.sems[n := s.sems[n].(owner := -1)] else s.sems
  {
    CurrentPid(s);
    if s.sems[n].owner == Cur(s).pid {
      assert CloseIfOwned(s, n) == Close(s, n);
      CloseInv(s, n);
    }
  }

  lemma {:induction false} CloseOwnedInv(s: Procs, n: nat)
    requires Shape(s) && Inv(s) && s.current != s.idle && n <= NR_SEMS
    ensures Inv(CloseOwned(s, n)) && ClosedBelow(s, CloseOwned(s, n), n)
  {
    hide Inv;
    hide CloseIfOwned;
    if n > 0 {
      CloseOwnedInv(s, n - 1);
      CloseIfOwnedInv(CloseOwned(s, n - 1), n - 1);
    }
  }

  lemma CurrentPid(s: Procs)
    requires Inv(s) && s.current != s.idle
    ensures Cur(s).pid > 0
  {
    CurrentLive(s);
  }

  // The directory the caller leaves has one user less; 0 means it was the last.
  lemma LeaverCount(s: Procs)
    requires Shape(s) && Inv(s) && s.current != s.idle
    ensures var d := Cur(s).dir;
            && LeaveDir(s).dirCounter == s.dirCounter[d := |Users(s, d) - {s.current}|]
            && s.current in Users(s, d)
  {
    hide Inv, CloseOwned;
    CloseOwnedInv(s, NR_SEMS);
    CurrentCounted(s);
  }

  lemma CurrentCounted(s: Procs)
    requires Inv(s) && s.current != s.idle
    ensures s.current in Users(s, Cur(s).dir) && Cur(s).dir != 0
    ensures s.dirCounter[Cur(s).dir] == |Users(s, Cur(s).dir)|
  {
    SpecialTasksInUse(s);
  }

  // The exiting task on its way out: PID -1, on the free queue, its directory one user down.
  function Freed(s: Procs): (s': Procs)
    requires Shape(s)
    ensures Shape(s')
  {
    var s1 := LeaveDir(s);
    Enqueue(SetTask(s1, s1.current, Cur(s1).(pid := -1)), FREE, s1.current)
  }

  lemma CountersFree(s: Procs, counter: seq<int>, hand: set<TaskId>)
    requires Shape(s) && |counter| == NR_TASKS && Consistent(s, hand)
    ensures Consistent(s.(dirCounter := counter), hand)
  {
    var s' := s.(dirCounter := counter);
    forall n, p: TaskId | 0 <= n < NR_SEMS && p in s'.queues[SemQueue(n)] ensures WaitsOn(s', p, n) {
      assert WaitsOn(s, p, n);
    }
  }

  lemma LeaveDirRing(s: Procs)
    requires Inv(s) && s.current != s.idle
    ensures var s1 := LeaveDir(s);
            && Consistent(s1, OffRings(s)) && s1.current == s.current && Cur(s1) == Cur(s)
  {
    hide PidInv, DirInv, SchedInv, FlagInv, Consistent, CloseOwned;
    CloseOwnedInv(s, NR_SEMS);
    var s1 := CloseOwned(s, NR_SEMS);
    assert OffRings(s1) == OffRings(s);
    CountersFree(s1, LeaveDir(s).dirCounter, OffRings(s));
  }

  lemma FreedRing(s: Procs)
    requires Inv(s) && s.current != s.idle
    ensures Consistent(Freed(s), {s.idle} + s.lost)
  {
    var s1 := LeaveDir(s);
    var hand := OffRings(s);
    LeaveDirRing(s);
    var t := Cur(s1).(pid := -1);
    SetTaskConsistent(s1, s.current, t, hand);
    EnqueueConsistent(SetTask(s1, s.current, t), FREE, s.current, hand);
    assert hand - {s.current} == {s.idle} + s.lost;
  }

  // What Freed changes besides the rings: the PID and ring of the caller, its semaphores and
  // the count of its directory.
  lemma FreedFields(s: Procs)
    requires Shape(s) && Inv(s) && s.current != s.idle
    ensures var s' := Freed(s);
            && s'.idle == s.idle && s'.lost == s.lost && s'.nextPid == s.nextPid
            && s'.current == s.current
            && (forall x: TaskId :: x in s'.queues[FREE] <==> x in s.queues[FREE] || x == s.current)
            && (forall p: TaskId :: && s'.tasks[p].quantum == s.tasks[p].quantum
                                    && s'.tasks[p].dir == s.tasks[p].dir)
            && (forall p: TaskId :: p != s.current ==> s'.tasks[p].pid == s.tasks[p].pid)
            && (forall n :: 0 <= n < NR_SEMS ==>
                  s'.sems[n].owner == if s.sems[n].owner == Cur(s).pid then -1 else s.sems[n].owner)
            && s'.dirCounter == s.dirCounter[Cur(s).dir := |Users(s, Cur(s).dir) - {s.current}|]
  {
    hide Inv, CloseOwned;
    CloseOwnedInv(s, NR_SEMS);
    LeaverCount(s);
  }

  lemma FreedStates(s: Procs)
    requires Inv(s) && s.current != s.idle
    ensures FlagInv(Freed(s))
    ensures forall p: TaskId :: p in OffRings(s) ==> Freed(s).tasks[p].state == StRun
  {
    CloseOwnedInv(s, NR_SEMS);
    assert OffRings(CloseOwned(s, NR_SEMS)) == OffRings(s);
  }

  lemma FreedPids(s: Procs)
    requires Inv(s) && s.current != s.idle
    ensures PidInv(Freed(s))
  {
    var s' := Freed(s);
    FreedFields(s);
    CurrentLive(s);
    assert forall x: TaskId :: Live(s', x) <==> Live(s, x) && x != s.current;
    forall n | 0 <= n < NR_SEMS ensures OwnerOk(s', s'.sems[n].owner) {
      assert OwnerOk(s, s.sems[n].owner);
      if s'.sems[n].owner != -1 {
        var p: TaskId :| Live(s, p) && s.tasks[p].pid == s.sems[n].owner;
        assert Live(s', p);
      }
    }
  }

  lemma FreedDirs(s: Procs)
    requires Inv(s) && s.current != s.idle
    ensures DirInv(Freed(s))
  {
    var s' := Freed(s);
    FreedFields(s);
    assert Cur(s).dir != 0 by { SpecialTasksInUse(s); }
    forall d: TaskId | d != 0 ensures s'.dirCounter[d] == |Users(s', d)| {
      if d == Cur(s).dir {
        assert Users(s', d) == Users(s, d) - {s.current};
      } else {
        assert Users(s', d) == Users(s, d);
      }
    }
  }

  lemma ExitInv(s: Procs)
    requires Inv(s) && s.current != s.idle
    ensures Inv(Exit(s))
  {
    var s1 := Freed(s);
    FreedRing(s);
    FreedFields(s);
    FreedStates(s);
    FreedPids(s);
    FreedDirs(s);
    ReadyTasksRunnable(s1);
    SchedNextRing(s1);
    SchedNextSched(s1);
    SameBooksKeep(s1, SchedNext(s1));
  }

  /* Every step, every run */

  lemma StepInv(s: Procs, e: Event)
    requires Inv(s) && Enabled(s, e)
    ensures Inv(Step(s, e).0)
  {
    match e
    case ClockTick => TickInv(s);
    case Init(n, v) => SemInitInv(s, n, v);
    case Wait(n) => SemWaitInv(s, n);
    case Resume => FinishWaitInv(s);
    case Signal(n) => SemSignalInv(s, n);
    case Destroy(n) => SemDestroyInv(s, n);
    case DoClone(f, st) => CloneInv(s, f, st);
    case DoFork(g) => ForkInv(s, g);
    case DoExit => ExitInv(s);
  }

  lemma {:induction false} RunInv(s: Procs, evs: seq<Event>)
    requires Inv(s) && Legal(s, evs)
    ensures Inv(Run(s, evs))
  {
    if evs != [] {
      var k := |evs| - 1;
      RunInv(s, evs[..k]);
      StepInv(Run(s, evs[..k]), evs[k]);
    }
  }

  /* Boot */

  // What the boot sequence of main leaves: task 0 is idle in directory 1, task 1 runs in
  // directory 2 with a full quantum, the other eight PCBs are free.
  function Boot(): (s: Procs)
    ensures Shape(s)
  {
    var blank := Pcb(-1, StRun, 0, false, 0, -1);
    Procs([Pcb(0, StRun, 50, false, 1, -1), Pcb(1, StRun, 50, false, 2, -1)]
          + seq(8, _ => blank),
          [[2, 3, 4, 5, 6, 7, 8, 9]] + seq(NR_QUEUES - 1, _ => []),
          seq(NR_SEMS, _ => Sem(0, -1)),
          [1, 1, 1, 0, 0, 0, 0, 0, 0, 0],
          1, 0, 50, 2, {})
  }

  lemma BootRing()
    ensures RingInv(Boot())
  {
    var s := Boot();
    assert s.queues[FREE] == [2, 3, 4, 5, 6, 7, 8, 9];
    forall p: TaskId ensures p in OffRings(s) <==> !Placed(s.queues, p) {
      if p >= 2 {
        assert s.queues[FREE][p - 2] == p;
        assert p in s.queues[FREE];
      }
    }
  }

  lemma BootFree(p: TaskId)
    ensures p in Boot().queues[FREE] <==> p >= 2
  {
    if p >= 2 { assert Boot().queues[FREE][p - 2] == p; }
  }

  lemma BootPids()
    ensures PidInv(Boot())
  {
    forall p: TaskId ensures p in Boot().queues[FREE] <==> p >= 2 { BootFree(p); }
  }

  lemma BootDirs()
    ensures DirInv(Boot())
  {
    var s := Boot();
    forall p: TaskId ensures p in s.queues[FREE] <==> p >= 2 { BootFree(p); }
    assert s.tasks[0].dir == 1 && s.tasks[1].dir == 2;
    assert Users(s, 1) == {0};
    assert Users(s, 2) == {1};
    forall d: TaskId | d > 2 ensures s.dirCounter[d] == |Users(s, d)| { assert Users(s, d) == {}; }
  }

  lemma BootInv()
    ensures Inv(Boot())
  {
    hide RingInv, PidInv, DirInv;
    BootRing();
    BootPids();
    BootDirs();
    forall p: TaskId ensures p in Boot().queues[FREE] <==> p >= 2 { BootFree(p); }
  }

  /* Directories never run out while two PCBs are free */

  ghost function UsersBelow(s: Procs, d: nat): set<TaskId>
    requires Shape(s)
  {
    set p: TaskId | p !in s.queues[FREE] && s.tasks[p].dir < d
  }

  lemma UsersBelowSplit(s: Procs, d: TaskId)
    requires Shape(s)
    ensures |UsersBelow(s, d + 1)| == |UsersBelow(s, d)| + |Users(s, d)|
  {
    assert UsersBelow(s, d + 1) == UsersBelow(s, d) + Users(s, d);
    assert UsersBelow(s, d) !! Users(s, d);
  }

  lemma {:induction false} UsersBelowCount(s: Procs, d: nat)
    requires Inv(s) && 1 <= d <= NR_TASKS && forall i :: 1 <= i < d ==> s.dirCounter[i] != 0
    ensures |UsersBelow(s, d)| >= d - 1
  {
    if d > 1 {
      UsersBelowCount(s, d - 1);
      UsersBelowSplit(s, d - 1);
      assert s.dirCounter[d - 1] == |Users(s, d - 1)|;
    }
  }

  // By pigeonhole: nine usable directories, at most eight PCBs in use.
  lemma TwoFreePcbsFindDirectory(s: Procs)
    requires Inv(s) && |s.queues[FREE]| >= 2
    ensures FreeDir(s.dirCounter, 0) < NR_TASKS
  {
    if FreeDir(s.dirCounter, 0) == NR_TASKS {
      UsersBelowCount(s, NR_TASKS);
      RingSize(s.queues[FREE]);
      DisjointTasks(UsersBelow(s, NR_TASKS), set p: TaskId | p in s.queues[FREE]);
      assert false;
    }
  }

  lemma {:induction false} UsersBelowFew(s: Procs, d: nat)
    requires Inv(s) && 1 <= d <= NR_TASKS && forall e: TaskId :: e != 0 ==> |Users(s, e)| <= 1
    ensures |UsersBelow(s, d)| <= d - 1
  {
    if d > 1 {
      UsersBelowFew(s, d - 1);
      UsersBelowSplit(s, d - 1);
    } else {
      assert UsersBelow(s, 1) == {};
    }
  }

  lemma AtMostOne(a: set<TaskId>)
    requires forall x: TaskId, y: TaskId :: x in a && y in a ==> x == y
    ensures |a| <= 1
  {
    if x: TaskId :| x in a { assert a == {x}; }
  }

  // While a task runs, not all others can be lost: another one is ready, free or waiting. Lost
  // tasks, idle and the running one have directories of their own, and there are nine.
  lemma SomeoneElse(s: Procs)
    requires Shape(s) && Inv(s) && s.current != s.idle
    ensures exists r :: 0 <= r < NR_QUEUES && s.queues[r] != []
  {
    hide Inv;
    if forall r :: 0 <= r < NR_QUEUES ==> s.queues[r] == [] {
      OwnDirs(s);
      UsersBelowFew(s, NR_TASKS);
      AllUsed(s);
    }
  }

  lemma OwnDirs(s: Procs)
    requires Inv(s) && forall r :: 0 <= r < NR_QUEUES ==> s.queues[r] == []
    ensures forall e: TaskId :: e != 0 ==> |Users(s, e)| <= 1
  {
    AllOffRings(s);
    hide RingInv, FlagInv, SchedInv, PidInv;
    forall e: TaskId | e != 0 ensures |Users(s, e)| <= 1 { AtMostOne(Users(s, e)); }
  }

  lemma AllUsed(s: Procs)
    requires Shape(s) && s.queues[FREE] == []
    ensures |UsersBelow(s, NR_TASKS)| == NR_TASKS
  {
    hide TasksBelow;
    var all := TasksBelow(NR_TASKS);
    forall p: TaskId ensures p in all && p in UsersBelow(s, NR_TASKS) {}
    assert UsersBelow(s, NR_TASKS) == all;
  }

  ghost function TasksBelow(n: nat): (r: set<TaskId>)
    requires n <= NR_TASKS
    ensures |r| == n && forall p: TaskId :: p in r <==> p < n
  {
    if n == 0 then {} else TasksBelow(n - 1) + {n - 1}
  }

  lemma AllOffRings(s: Procs)
    requires Shape(s) && RingInv(s) && forall r :: 0 <= r < NR_QUEUES ==> s.queues[r] == []
    ensures forall p: TaskId :: p == s.current || p in {s.idle} + s.lost
  {
    forall p: TaskId ensures p in OffRings(s) { assert !Placed(s.queues, p); }
  }

  lemma DisjointTasks(a: set<TaskId>, b: set<TaskId>)
    requires a !! b
    ensures |a| + |b| <= NR_TASKS
  {
    var all: set<TaskId> := {0, 1, 2, 3, 4, 5, 6, 7, 8, 9};
    assert |a + b| == |a| + |b|;
    Subset(a + b, all);
  }

  lemma Subset(a: set<TaskId>, b: set<TaskId>)
    requires a <= b
    ensures |a| <= |b|
  {
    assert b == a + (b - a);
  }

  // A fork that takes a PCB keeps the directory counts exact if and only if a directory is
  // free: allocate_DIR reports success either way, and without one the child would share its
  // father's directory uncounted.
  lemma ForkCountsExactly(s: Procs, granted: bool)
    requires Inv(s) && s.current != s.idle && Cur(s).waiting < 0 && s.queues[FREE] != []
    ensures DirInv(Fork(s, granted).0) <==> FreeDir(s.dirCounter, 0) < NR_TASKS
  {
    if FreeDir(s.dirCounter, 0) < NR_TASKS {
      ForkInv(s, granted);
    } else {
      UncountedChild(s, granted);
    }
  }

  lemma SharedUncounted(s: Procs, s': Procs, p: TaskId)
    requires Shape(s) && Shape(s') && NewUser(s, s', p) && s'.dirCounter == s.dirCounter
    requires var d := s'.tasks[p].dir; d != 0 && s.dirCounter[d] == |Users(s, d)|
    ensures !DirInv(s')
  {
    var d := s'.tasks[p].dir;
    assert Users(s', d) == Users(s, d) + {p};
  }

  lemma UncountedChild(s: Procs, granted: bool)
    requires Inv(s) && s.current != s.idle && s.queues[FREE] != []
    requires FreeDir(s.dirCounter, 0) == NR_TASKS
    ensures !DirInv(Fork(s, granted).0)
  {
    TakePcbRing(s);
    CurrentCounted(s);
    hide Inv;
    SharedUncounted(s, Fork(s, granted).0, s.queues[FREE][0]);
  }

  function Forks(k: nat): (evs: seq<Event>)
    ensures |evs| == k
  {
    seq(k, _ => DoFork(true))
  }

  // k forks after boot: the FREE ring and the counters, in closed form.
  ghost predicate ForkedTimes(s: Procs, k: nat)
    requires Shape(s)
  {
    && k <= 7 && s.current == 1 && s.idle == 0 && Cur(s).waiting < 0 && Cur(s).dir == 2
    && s.queues[FREE] == seq(8 - k, i requires 0 <= i < 8 - k => 2 + k + i)
    && s.dirCounter == seq(NR_TASKS, d => if d < 3 + k then 1 else 0)
  }

  lemma ForkOnceMore(s: Procs, k: nat)
    requires Shape(s) && ForkedTimes(s, k) && k < 7
    ensures Enabled(s, DoFork(true)) && ForkedTimes(Fork(s, true).0, k + 1)
  {
    FreeDirIs(s.dirCounter, 0, 3 + k);
    assert s.queues[FREE][0] == 2 + k;
    assert s.queues[FREE][1..] == seq(7 - k, i requires 0 <= i < 7 - k => 3 + k + i);
    assert s.dirCounter[3 + k := 1] == seq(NR_TASKS, d => if d < 4 + k then 1 else 0);
  }

  lemma {:induction false} ForksFromBoot(k: nat)
    requires k <= 7
    ensures Legal(Boot(), Forks(k)) && ForkedTimes(Run(Boot(), Forks(k)), k)
  {
    if k > 0 {
      ForksFromBoot(k - 1);
      assert Forks(k)[..k - 1] == Forks(k - 1);
      ForkOnceMore(Run(Boot(), Forks(k - 1)), k - 1);
    }
  }

  lemma {:induction false} FreeDirIs(counter: seq<int>, d: nat, e: nat)
    requires d <= e < |counter| && counter[e] == 0 && forall i :: d <= i < e ==> counter[i] != 0
    ensures FreeDir(counter, d) == e
    decreases e - d
  {
    if d < e { FreeDirIs(counter, d + 1, e); }
  }

  // Two free PCBs are needed: seven forks from boot use up the directories while one PCB is
  // still free, because boot spent two directories on task 0.
  lemma EighthForkHasNoDirectory()
    ensures var s := Run(Boot(), Forks(7));
            && Legal(Boot(), Forks(7)) && Inv(s) && |s.queues[FREE]| == 1
            && FreeDir(s.dirCounter, 0) == NR_TASKS
            && !DirInv(Fork(s, true).0)
  {
    ForksFromBoot(7);
    BootInv();
    var s := Run(Boot(), Forks(7));
    RunInv(Boot(), Forks(7));
    assert FreeDir(s.dirCounter, 0) == NR_TASKS;
    UncountedChild(s, true);
  }

  // The counter of the directory the caller leaves reaches 0, so that its pages are freed,
  // exactly when no other PCB in use, live or lost, has that directory.
  lemma LastThread(s: Procs)
    requires Inv(s) && s.current != s.idle
    ensures var d := Cur(s).dir;
            LeaveDir(s).dirCounter[d] == 0 <==>
            forall p: TaskId :: p !in s.queues[FREE] && p != s.current ==> s.tasks[p].dir != d
  {
    var d := Cur(s).dir;
    LeaverCount(s);
    var others := Users(s, d) - {s.current};
    if forall p: TaskId :: p !in s.queues[FREE] && p != s.current ==> s.tasks[p].dir != d {
      assert others == {};
    } else {
      var p: TaskId :| p !in s.queues[FREE] && p != s.current && s.tasks[p].dir == d;
      assert p in others;
    }
  }
}
