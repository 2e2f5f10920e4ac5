// What every step of the process machine keeps.
module ProcessInvariants {
  import opened Layout
  import opened Queues
  import opened Processes

  /* Rings and states */

  // The tasks that belong on no ring between steps.
  function OffRings(s: Procs): set<TaskId> {
    {s.current, s.idle} + s.lost
  }

  ghost predicate WaitsOn(s: Procs, p: TaskId, n: nat)
    requires Shape(s) && n < NR_SEMS
  {
    && s.tasks[p].state == StBlocked && s.tasks[p].waiting == n
    && !s.tasks[p].semDestroyed && s.sems[n].owner != -1
  }

  // Each task outside `hand` is on exactly one ring, the tasks of `hand` are on none, and the
  // state of a task is the one its ring calls for.
  ghost predicate Consistent(s: Procs, hand: set<TaskId>)
    requires Shape(s)
  {
    && Disjoint(s.queues)
    && (forall p: TaskId :: p in hand <==> !Placed(s.queues, p))
    && (forall p: TaskId :: p in s.queues[FREE] ==> s.tasks[p].state == StRun)
    && (forall p: TaskId :: p in s.queues[READY] ==> s.tasks[p].state == StReady)
    && (forall n, p: TaskId :: 0 <= n < NR_SEMS && p in s.queues[SemQueue(n)] ==> WaitsOn(s, p, n))
  }

  ghost predicate RingInv(s: Procs)
    requires Shape(s)
  {
    && Consistent(s, OffRings(s))
    && (forall p: TaskId :: p in OffRings(s) ==> s.tasks[p].state == StRun)
    && s.current !in s.lost && s.idle !in s.lost
  }

  ghost predicate OnSemaphore(s: Procs, p: TaskId)
    requires Shape(s)
  {
    exists n :: 0 <= n < NR_SEMS && p in s.queues[SemQueue(n)]
  }

  // READY holds exactly on the ready queue and BLOCKED exactly on a wait queue, so
  // `state != ST_RUN` in update_process_state_rr says whether the task has to be unlinked.
  lemma StateTellsRing(s: Procs, p: TaskId)
    requires Shape(s) && RingInv(s)
    ensures s.tasks[p].state == StReady <==> p in s.queues[READY]
    ensures s.tasks[p].state == StBlocked <==> OnSemaphore(s, p)
    ensures s.tasks[p].state == StRun <==> p in OffRings(s) || p in s.queues[FREE]
  {
    if p !in OffRings(s) {
      var r :| 0 <= r < |s.queues| && p in s.queues[r];
      if r >= 2 { assert p in s.queues[SemQueue(r - 2)]; }
    }
    forall n | 0 <= n < NR_SEMS && p in s.queues[SemQueue(n)] ensures WaitsOn(s, p, n) {}
    assert p in s.queues[FREE] ==> Placed(s.queues, p);
    assert p in s.queues[READY] ==> Placed(s.queues, p);
  }

  // A task may be put on ring r: its state is the one the ring calls for.
  ghost predicate Suits(s: Procs, p: TaskId, r: nat)
    requires Shape(s) && r < NR_QUEUES
  {
    if r == FREE then s.tasks[p].state == StRun
    else if r == READY then s.tasks[p].state == StReady
    else WaitsOn(s, p, r - 2)
  }

  lemma DequeueConsistent(s: Procs, r: nat, hand: set<TaskId>)
    requires Shape(s) && r < NR_QUEUES && s.queues[r] != [] && Consistent(s, hand)
    ensures Consistent(Dequeue(s, r), hand + {s.queues[r][0]})
    ensures s.queues[r][0] !in hand
    ensures forall i, x: TaskId :: 0 <= i < NR_QUEUES ==>
                                     (x in Dequeue(s, r).queues[i] <==> x in s.queues[i] && x != s.queues[r][0])
  {
    PopDisjoint(s.queues, r);
    assert s.queues[r][0] in s.queues[r];
    assert Placed(s.queues, s.queues[r][0]);
    var s' := Dequeue(s, r);
    forall n, p: TaskId | 0 <= n < NR_SEMS && p in s'.queues[SemQueue(n)] ensures WaitsOn(s', p, n) {
      assert WaitsOn(s, p, n);
    }
  }

  lemma SetTaskConsistent(s: Procs, p: TaskId, t: Pcb, hand: set<TaskId>)
    requires Shape(s) && p in hand && Consistent(s, hand)
    ensures Consistent(SetTask(s, p, t), hand)
  {
    var s' := SetTask(s, p, t);
    assert forall r :: 0 <= r < NR_QUEUES ==> p !in s.queues[r];
    forall n, x: TaskId | 0 <= n < NR_SEMS && x in s'.queues[SemQueue(n)] ensures WaitsOn(s', x, n) {
      assert WaitsOn(s, x, n);
    }
  }

  lemma EnqueueConsistent(s: Procs, r: nat, p: TaskId, hand: set<TaskId>)
    requires Shape(s) && r < NR_QUEUES && p in hand && Consistent(s, hand) && Suits(s, p, r)
    ensures Consistent(Enqueue(s, r, p), hand - {p})
  {
    AppendDisjoint(s.queues, r, p);
    var s' := Enqueue(s, r, p);
    forall n, x: TaskId | 0 <= n < NR_SEMS && x in s'.queues[SemQueue(n)] ensures WaitsOn(s', x, n) {
      if x in s.queues[SemQueue(n)] { assert WaitsOn(s, x, n); }
    }
  }

  // Dispatching when the running task has already been put somewhere.
  lemma SchedNextRing(s: Procs)
    requires Shape(s) && s.idle !in s.lost && Consistent(s, {s.idle} + s.lost)
    requires forall p: TaskId :: p in {s.idle} + s.lost ==> s.tasks[p].state == StRun
    ensures RingInv(SchedNext(s))
    ensures SchedNext(s).queues[FREE] == s.queues[FREE]
  {
    var s' := SchedNext(s);
    if s.queues[READY] == [] {
      assert OffRings(s') == {s.idle} + s.lost;
    } else {
      var next := s.queues[READY][0];
      DequeueConsistent(s, READY, {s.idle} + s.lost);
      SetTaskConsistent(Dequeue(s, READY), next, s.tasks[next].(state := StRun),
                        {s.idle} + s.lost + {next});
      assert OffRings(s') == {s.idle} + s.lost + {next};
      assert Consistent(s', OffRings(s'));
    }
  }

  lemma ParkConsistent(s: Procs, r: nat, st: TaskState)
    requires Shape(s) && r < NR_QUEUES && RingInv(s) && s.current != s.idle
    requires Suits(SetTask(s, s.current, Cur(s).(state := st)), s.current, r)
    ensures Consistent(Park(s, r, st), {s.idle} + s.lost)
  {
    var s1 := SetTask(s, s.current, Cur(s).(state := st));
    SetTaskConsistent(s, s.current, Cur(s).(state := st), OffRings(s));
    EnqueueConsistent(s1, r, s.current, OffRings(s));
    assert OffRings(s) - {s.current} == {s.idle} + s.lost;
  }

  /* The whole invariant */

  // A semDestroyed mark is only ever seen on a task suspended inside sem_wait.
  ghost predicate FlagInv(s: Procs)
    requires Shape(s)
  {
    forall p: TaskId :: s.tasks[p].semDestroyed ==> s.tasks[p].waiting >= 0
  }

  // Idle runs only when nothing is ready; a user task runs with 1..quantum ticks left.
  ghost predicate SchedInv(s: Procs)
    requires Shape(s)
  {
    && (s.current == s.idle ==> s.queues[READY] == [])
    && (s.current != s.idle ==> 1 <= s.leftTicks <= Cur(s).quantum)
    && (forall p: TaskId :: p !in s.queues[FREE] ==> 1 <= s.tasks[p].quantum <= 50)
  }

  predicate Live(s: Procs, p: TaskId)
    requires Shape(s)
  {
    p != s.idle && p !in s.lost && p !in s.queues[FREE]
  }

  // `owner` is free (-1) or the PID of a live task.
  ghost predicate OwnerOk(s: Procs, owner: int)
    requires Shape(s)
  {
    owner == -1 || exists p: TaskId :: Live(s, p) && s.tasks[p].pid == owner
  }

  // Live tasks have different positive PIDs, already given out; free PCBs have PID -1.
  ghost predicate PidInv(s: Procs)
    requires Shape(s)
  {
    && (forall p: TaskId :: Live(s, p) ==> 0 < s.tasks[p].pid < s.nextPid)
    && (forall p1: TaskId, p2: TaskId ::
          Live(s, p1) && Live(s, p2) && s.tasks[p1].pid == s.tasks[p2].pid ==> p1 == p2)
    && (forall p: TaskId :: p in s.queues[FREE] ==> s.tasks[p].pid == -1)
    && (forall n :: 0 <= n < NR_SEMS ==> OwnerOk(s, s.sems[n].owner))
    && s.nextPid >= 2
  }

  // The non-free PCBs whose directory is d.
  ghost function Users(s: Procs, d: TaskId): set<TaskId>
    requires Shape(s)
  {
    set p: TaskId | p !in s.queues[FREE] && s.tasks[p].dir == d
  }

  // Directory counters are exact (slot 0 is taken at boot and never used), and the
  // directories of idle and of lost PCBs are shared with nobody.
  ghost predicate DirInv(s: Procs)
    requires Shape(s)
  {
    && s.dirCounter[0] == 1
    && (forall d: TaskId :: d != 0 ==> s.dirCounter[d] == |Users(s, d)|)
    && (forall p: TaskId :: p !in s.queues[FREE] ==> s.tasks[p].dir != 0)
    && (forall l: TaskId, p: TaskId ::
          l in {s.idle} + s.lost && p !in s.queues[FREE] && p != l ==> s.tasks[p].dir != s.tasks[l].dir)
  }

  ghost predicate Inv(s: Procs) {
    && Shape(s) && RingInv(s) && FlagInv(s) && SchedInv(s) && PidInv(s) && DirInv(s)
  }

  lemma OffRingNotQueued(s: Procs, p: TaskId)
    requires Shape(s) && RingInv(s) && p in OffRings(s)
    ensures forall r :: 0 <= r < NR_QUEUES ==> p !in s.queues[r]
  {
    forall r | 0 <= r < NR_QUEUES ensures p !in s.queues[r] {
      if p in s.queues[r] { assert Placed(s.queues, p); }
    }
  }

  // Nothing that PidInv and DirInv speak of has changed.
  ghost predicate SameBooks(s: Procs, s': Procs)
    requires Shape(s) && Shape(s')
  {
    && s'.idle == s.idle && s'.lost == s.lost && s'.nextPid == s.nextPid
    && s'.dirCounter == s.dirCounter
    && (forall p: TaskId :: p in s'.queues[FREE] <==> p in s.queues[FREE])
    && (forall p: TaskId :: && s'.tasks[p].dir == s.tasks[p].dir && s'.tasks[p].pid == s.tasks[p].pid
                            && s'.tasks[p].quantum == s.tasks[p].quantum)
  }

  lemma SameBooksKeep(s: Procs, s': Procs)
    requires Shape(s) && Shape(s') && SameBooks(s, s') && PidInv(s) && DirInv(s)
    requires forall n :: 0 <= n < NR_SEMS ==> OwnerOk(s, s'.sems[n].owner)
    ensures PidInv(s') && DirInv(s')
  {
    assert forall p: TaskId :: Live(s', p) <==> Live(s, p);
    assert forall d: TaskId :: Users(s', d) == Users(s, d);
    forall n | 0 <= n < NR_SEMS ensures OwnerOk(s', s'.sems[n].owner) {
      var owner := s'.sems[n].owner;
      if owner != -1 {
        var p: TaskId :| Live(s, p) && s.tasks[p].pid == owner;
        assert Live(s', p);
      }
    }
  }

  /* The scheduler */

  lemma SchedNextSched(s: Procs)
    requires Shape(s)
    requires forall p: TaskId :: p in s.queues[READY] ==> 1 <= s.tasks[p].quantum && p != s.idle
    ensures var s' := SchedNext(s);
            && (s'.current == s'.idle ==> s'.queues[READY] == [])
            && (s'.current != s'.idle ==> 1 <= s'.leftTicks <= Cur(s').quantum)
            && SameBooks(s, s') && s'.sems == s.sems
            && (forall p: TaskId :: s'.tasks[p].semDestroyed == s.tasks[p].semDestroyed
                                    && s'.tasks[p].waiting == s.tasks[p].waiting)
  {
    if s.queues[READY] != [] {
      assert s.queues[READY][0] in s.queues[READY];
    }
  }

  lemma BooksKept(s: Procs, s': Procs)
    requires Shape(s) && Shape(s') && SameBooks(s, s') && s'.sems == s.sems && PidInv(s) && DirInv(s)
    ensures PidInv(s') && DirInv(s')
  {
    SameBooksKeep(s, s');
  }

  lemma ReadyTasksRunnable(s: Procs)
    requires Shape(s) && Consistent(s, {s.idle} + s.lost)
    requires forall p: TaskId :: p !in s.queues[FREE] ==> 1 <= s.tasks[p].quantum <= 50
    ensures forall p: TaskId :: p in s.queues[READY] ==> 1 <= s.tasks[p].quantum && p != s.idle
  {
    forall p: TaskId | p in s.queues[READY] ensures 1 <= s.tasks[p].quantum && p != s.idle {
      assert Placed(s.queues, p);
      assert p !in s.queues[FREE];
    }
  }

  // What parking the running task outside the free queue leaves alone.
  lemma ParkBooks(s: Procs, r: nat, st: TaskState)
    requires Shape(s) && 1 <= r < NR_QUEUES && s.current != s.idle && RingInv(s)
    ensures var s1 := Park(s, r, st);
            && SameBooks(s, s1) && s1.sems == s.sems
            && s1.tasks == s.tasks[s.current := Cur(s).(state := st)]
            && s1.queues[FREE] == s.queues[FREE]
            && (forall p: TaskId :: p in {s.idle} + s.lost ==> s1.tasks[p].state == StRun)
  {
  }

  // Parking the running task on a ring other than the free one, then dispatching.
  lemma SwitchAway(s: Procs, r: nat, st: TaskState)
    requires Shape(s) && 1 <= r < NR_QUEUES && s.current != s.idle
    requires RingInv(s) && FlagInv(s) && PidInv(s) && DirInv(s)
    requires forall p: TaskId :: p !in s.queues[FREE] ==> 1 <= s.tasks[p].quantum <= 50
    requires Suits(SetTask(s, s.current, Cur(s).(state := st)), s.current, r)
    ensures Inv(SchedNext(Park(s, r, st)))
  {
    hide PidInv, DirInv, Consistent, Park, Suits;
    var s1 := Park(s, r, st);
    ParkConsistent(s, r, st);
    ParkBooks(s, r, st);
    BooksKept(s, s1);
    SchedNextRing(s1);
    ReadyTasksRunnable(s1);
    SchedNextSched(s1);
    BooksKept(s1, SchedNext(s1));
    hide RingInv, SchedNext;
  }

  lemma LeftTicksFree(s: Procs, k: nat)
    requires Inv(s)
    ensures var s1 := s.(leftTicks := k);
            Shape(s1) && RingInv(s1) && FlagInv(s1) && PidInv(s1) && DirInv(s1)
  {
    hide PidInv, DirInv;
    var s1 := s.(leftTicks := k);
    BooksKept(s, s1);
    assert Consistent(s1, OffRings(s));
  }

  lemma TickInv(s: Procs)
    requires Inv(s)
    ensures Inv(Tick(s))
  {
    hide PidInv, DirInv, RingInv, FlagInv;
    var left := UInt32(s.leftTicks - 1);
    var s1 := s.(leftTicks := left);
    LeftTicksFree(s, left);
    OffRingNotQueued(s, s.current);
    if left != 0 {
      assert s.current != s.idle ==> left == s.leftTicks - 1;
    } else if s.current == s.idle {
      assert SchedNext(s1) == s1;
    } else {
      SwitchAway(s1, READY, StReady);
    }
  }

  /* Semaphores */

  // The fields the semaphore operations leave alone while tasks only move between rings.
  lemma FieldsFrame(s: Procs, s': Procs)
    requires Inv(s) && Shape(s')
    requires s'.queues == s.queues && s'.current == s.current && s'.leftTicks == s.leftTicks
    requires SameBooks(s, s')
    requires forall p: TaskId :: s'.tasks[p].state == s.tasks[p].state
    requires forall p: TaskId :: s'.tasks[p].semDestroyed ==> s'.tasks[p].waiting >= 0
    requires forall p: TaskId :: p != s.current ==> s'.tasks[p] == s.tasks[p]
    requires forall n :: 0 <= n < NR_SEMS ==>
                           s'.sems[n].owner == s.sems[n].owner ||
                           (OwnerOk(s, s'.sems[n].owner) && s.queues[SemQueue(n)] == [])
    ensures Inv(s')
  {
    assert forall n :: 0 <= n < NR_SEMS ==> OwnerOk(s, s.sems[n].owner);
    SameBooksKeep(s, s');
    OffRingNotQueued(s, s.current);
    forall n, p: TaskId | 0 <= n < NR_SEMS && p in s'.queues[SemQueue(n)] ensures WaitsOn(s', p, n) {
      assert WaitsOn(s, p, n);
    }
    assert Consistent(s', OffRings(s));
  }

  lemma CurrentLive(s: Procs)
    requires Inv(s) && s.current != s.idle
    ensures Live(s, s.current) && OwnerOk(s, Cur(s).pid)
  {
    OffRingNotQueued(s, s.current);
  }

  // Every waiter sits on an initialised semaphore.
  lemma WaitersHaveSemaphore(s: Procs, n: nat)
    requires Shape(s) && RingInv(s) && n < NR_SEMS
    ensures s.queues[SemQueue(n)] != [] ==> s.sems[n].owner != -1
  {
    if s.queues[SemQueue(n)] != [] {
      assert s.queues[SemQueue(n)][0] in s.queues[SemQueue(n)];
    }
  }

  lemma SemInitInv(s: Procs, n: int, value: nat)
    requires Inv(s) && s.current != s.idle
    ensures Inv(SemInit(s, n, value).0)
    // a sem_init never throws a waiter away
    ensures SemInit(s, n, value).0.queues == s.queues
  {
    var s' := SemInit(s, n, value).0;
    if 0 <= n < NR_SEMS && s.sems[n].owner == -1 {
      WaitersHaveSemaphore(s, n);
      CurrentLive(s);
      FieldsFrame(s, s');
    }
  }

  lemma FinishWaitInv(s: Procs)
    requires Inv(s)
    ensures Inv(FinishWait(s).0)
  {
    FieldsFrame(s, FinishWait(s).0);
  }

  lemma BlockInv(s: Procs, n: nat)
    requires Inv(s) && s.current != s.idle && Cur(s).waiting < 0
    requires n < NR_SEMS && s.sems[n].owner != -1
    ensures Inv(Block(s, n))
  {
    var s1 := SetTask(s, s.current, Cur(s).(waiting := n));
    FieldsFrame(s, s1);
    assert !Cur(s).semDestroyed;
    assert Suits(SetTask(s1, s1.current, Cur(s1).(state := StBlocked)), s1.current, SemQueue(n));
    SwitchAway(s1, SemQueue(n), StBlocked);
  }

  lemma TakeUnitInv(s: Procs, n: nat)
    requires Inv(s) && n < NR_SEMS
    ensures Inv(TakeUnit(s, n))
  {
    FieldsFrame(s, TakeUnit(s, n));
  }

  lemma SemWaitInv(s: Procs, n: int)
    requires Inv(s) && s.current != s.idle && Cur(s).waiting < 0
    ensures Inv(SemWait(s, n).0)
  {
    if 0 <= n < NR_SEMS && s.sems[n].owner != -1 {
      if s.sems[n].counter <= 0 {
        BlockInv(s, n);
      } else {
        TakeUnitInv(s, n);
        FinishWaitInv(TakeUnit(s, n));
      }
    }
  }

  // Moving the first waiter of n to the ready queue, marked or not.
  function Wake(s: Procs, n: nat, mark: bool): (s': Procs)
    requires Shape(s) && n < NR_SEMS && s.queues[SemQueue(n)] != []
    ensures Shape(s')
  {
    var p := s.queues[SemQueue(n)][0];
    var t := s.tasks[p];
    Enqueue(SetTask(Dequeue(s, SemQueue(n)), p,
                    t.(state := StReady, semDestroyed := mark || t.semDestroyed)), READY, p)
  }

  lemma WakeInv(s: Procs, n: nat, mark: bool)
    requires Inv(s) && s.current != s.idle
    requires n < NR_SEMS && s.queues[SemQueue(n)] != []
    ensures Inv(Wake(s, n, mark))
    ensures var s' := Wake(s, n, mark);
            && SameBooks(s, s') && s'.sems == s.sems && s'.current == s.current
            && s'.tasks[s.current] == Cur(s)
  {
    hide PidInv, DirInv, Consistent, Wake;
    var p := s.queues[SemQueue(n)][0];
    var s' := Wake(s, n, mark);
    FirstWaiter(s, n);
    WakeRing(s, n, mark);
    WakeFields(s, n, mark);
    BooksKept(s, s');
    assert s.tasks[p].waiting == n;
  }

  lemma FirstWaiter(s: Procs, n: nat)
    requires Shape(s) && RingInv(s) && n < NR_SEMS && s.queues[SemQueue(n)] != []
    ensures var p := s.queues[SemQueue(n)][0]; WaitsOn(s, p, n) && p !in OffRings(s)
  {
    var p := s.queues[SemQueue(n)][0];
    assert p in s.queues[SemQueue(n)];
    assert Placed(s.queues, p);
  }

  lemma WakeRing(s: Procs, n: nat, mark: bool)
    requires Shape(s) && RingInv(s) && n < NR_SEMS && s.queues[SemQueue(n)] != []
    ensures Consistent(Wake(s, n, mark), OffRings(s))
  {
    hide Consistent;
    var p := s.queues[SemQueue(n)][0];
    var s1 := Dequeue(s, SemQueue(n));
    var t := s.tasks[p].(state := StReady, semDestroyed := mark || s.tasks[p].semDestroyed);
    var hand := OffRings(s);
    DequeueConsistent(s, SemQueue(n), hand);
    SetTaskConsistent(s1, p, t, hand + {p});
    EnqueueConsistent(SetTask(s1, p, t), READY, p, hand + {p});
    assert hand + {p} - {p} == hand;
  }

  lemma WakeFields(s: Procs, n: nat, mark: bool)
    requires Shape(s) && n < NR_SEMS && s.queues[SemQueue(n)] != []
    ensures var s' := Wake(s, n, mark); var p := s.queues[SemQueue(n)][0];
            && SameBooks(s, s') && s'.sems == s.sems && s'.current == s.current && s'.leftTicks == s.leftTicks
            && s'.tasks == s.tasks[p := s.tasks[p].(state := StReady, semDestroyed := mark || s.tasks[p].semDestroyed)]
            && s.queues[READY] <= s'.queues[READY]
  {
  }

  lemma SemSignalInv(s: Procs, n: int)
    requires Inv(s) && s.current != s.idle
    ensures Inv(SemSignal(s, n).0)
  {
    if 0 <= n < NR_SEMS && s.sems[n].owner != -1 {
      if s.queues[SemQueue(n)] == [] {
        var s' := SemSignal(s, n).0;
        assert forall i :: 0 <= i < NR_SEMS ==> s'.sems[i].owner == s.sems[i].owner;
        FieldsFrame(s, s');
      } else {
        WakeInv(s, n, false);
      }
    }
  }

  lemma {:induction false} DrainInv(s: Procs, n: nat)
    requires Inv(s) && s.current != s.idle && n < NR_SEMS
    ensures var s' := Drain(s, n);
            && Inv(s') && SameBooks(s, s') && s'.sems == s.sems && s'.current == s.current
            && s'.tasks[s.current] == Cur(s) && s'.queues[SemQueue(n)] == []
    decreases |s.queues[SemQueue(n)]|
  {
    if s.queues[SemQueue(n)] != [] {
      WakeInv(s, n, true);
      assert Evict(s, n) == Wake(s, n, true);
      DrainInv(Evict(s, n), n);
    }
  }

  lemma CloseInv(s: Procs, n: nat)
    requires Inv(s) && s.current != s.idle && n < NR_SEMS
    ensures var s' := Close(s, n);
            && Inv(s') && SameBooks(s, s') && s'.current == s.current
            && s'.tasks[s.current] == Cur(s)
            && s'.sems == s.sems[n := s.sems[n].(owner := -1)]
  {
    hide PidInv, DirInv, RingInv, SchedInv;
    DrainInv(s, n);
    FieldsFrame(Drain(s, n), Close(s, n));
  }

  lemma SemDestroyInv(s: Procs, n: int)
    requires Inv(s) && s.current != s.idle
    ensures Inv(SemDestroy(s, n).0)
  {
    if 0 <= n < NR_SEMS { CloseInv(s, n); }
  }
}
