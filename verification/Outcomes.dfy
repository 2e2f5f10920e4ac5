// What each step answers, and all that it changes.
module Outcomes {
  import opened Layout
  import opened Queues
  import opened Processes
  import opened ProcessInvariants
  import opened ProcessSteps
  import opened Scheduling
  import opened Semaphores

  predicate IsOpen(s: Procs, n: int)
    requires Shape(s)
  {
    0 <= n <= 19 && s.sems[n].owner != -1
  }

  // No semaphore but n, nor its waiters, has changed.
  ghost predicate OthersUntouched(s: Procs, s': Procs, n: int)
    requires Shape(s) && Shape(s')
  {
    forall m: nat :: m < NR_SEMS && m != n ==> Untouched(s, s', m)
  }

  // Idle, the PIDs given out, the lost PCBs and the free queue are as they were.
  ghost predicate NobodyComesOrGoes(s: Procs, s': Procs)
    requires Shape(s) && Shape(s')
  {
    && s'.idle == s.idle && s'.nextPid == s.nextPid && s'.lost == s.lost && s'.dirCounter == s.dirCounter
    && s'.queues[FREE] == s.queues[FREE]
    && forall p: TaskId :: s'.tasks[p].pid == s.tasks[p].pid && s'.tasks[p].dir == s.tasks[p].dir
                           && s'.tasks[p].quantum == s.tasks[p].quantum
  }

  // The processor goes to the first task of `ready`, with a full quantum, and the others stay
  // ready; with nobody there it goes to idle.
  ghost predicate GoesTo(s: Procs, s': Procs, ready: seq<TaskId>)
    requires Shape(s) && Shape(s')
  {
    if ready == [] then
      s'.current == s.idle && s'.queues[READY] == [] && s'.leftTicks == s.leftTicks
    else
      && s'.current == ready[0] && s'.queues[READY] == ready[1..]
      && s'.leftTicks == s.tasks[ready[0]].quantum
  }

  // The processor stays where it is.
  ghost predicate KeepsRunning(s: Procs, s': Procs)
    requires Shape(s) && Shape(s')
  {
    s'.current == s.current && s'.leftTicks == s.leftTicks && s'.tasks[s.current] == Cur(s)
  }

  /* Semaphores */

  // sem_init takes every n from 0 to 19 that is not initialised, and nothing else.
  lemma InitOutcome(s: Procs, n: int, value: nat)
    requires Shape(s) && Inv(s) && Enabled(s, Init(n, value))
    ensures var (s', r) := SemInit(s, n, value);
            && (r == Returns(-EINVAL) <==> n < 0 || n > 19)
            && (r == Returns(-EBUSY) <==> IsOpen(s, n))
            && (r == Returns(0) <==> 0 <= n <= 19 && s.sems[n].owner == -1)
            && (r != Returns(0) ==> s' == s)
            && (r == Returns(0) ==>
                  && s'.sems[n].owner == Cur(s).pid && IsOpen(s', n) && Waiters(s', n) == []
                  && s'.sems[n].counter == (if value < TWO_31 then value else value - TWO_32)
                  && OthersUntouched(s, s', n) && s' == s.(sems := s'.sems))
  {
    if 0 <= n < NR_SEMS && s.sems[n].owner == -1 {
      CurrentOwns(s);
      SemInitInv(s, n, value);
    }
  }

  // A wait is refused exactly if the semaphore is not initialised; else it is granted at once
  // exactly if the counter is positive, which takes a unit and nothing else.
  lemma WaitRefusedExactly(s: Procs, n: int)
    requires Shape(s) && Inv(s) && Cur(s).waiting < 0
    ensures var (s', r) := SemWait(s, n);
            && (r == Returns(-EINVAL) <==> !IsOpen(s, n))
            && (r == Returns(0) <==> IsOpen(s, n) && s.sems[n].counter > 0)
            && (r == Suspended <==> IsOpen(s, n) && s.sems[n].counter <= 0)
            && (r == Returns(-EINVAL) ==> s' == s)
            && (r == Returns(0) ==>
                  && s'.sems[n] == Sem(s.sems[n].counter - 1, s.sems[n].owner)
                  && (forall m :: 0 <= m < NR_SEMS && m != n ==> s'.sems[m] == s.sems[m])
                  && s' == s.(sems := s'.sems, tasks := s.tasks[s.current := Cur(s).(waiting := -1)]))
  {
    assert !Cur(s).semDestroyed;
  }

  // One that blocks puts the caller at the end of the wait queue, and no unit changes hands.
  lemma WaitBlocks(s: Procs, n: nat)
    requires Shape(s) && Inv(s) && Enabled(s, Wait(n)) && IsOpen(s, n) && s.sems[n].counter <= 0
    ensures var s' := SemWait(s, n).0;
            && Waiters(s', n) == Waiters(s, n) + [s.current] && s'.sems == s.sems
            && s'.tasks[s.current] == Cur(s).(state := StBlocked, waiting := n)
            && GoesTo(s, s', s.queues[READY]) && OthersUntouched(s, s', n) && NobodyComesOrGoes(s, s')
  {
    OffRingNotQueued(s, s.current);
    forall m: nat | m < NR_SEMS && m != n ensures Untouched(s, SemWait(s, n).0, m) { BlockUntouched(s, n, m); }
  }

  // A wait that blocked ends with -EINVAL exactly if the caller is marked; the mark goes.
  lemma ResumeOutcome(s: Procs)
    requires Shape(s) && Enabled(s, Resume)
    ensures var (s', r) := Step(s, Resume);
            && (r == Returns(-EINVAL) <==> Cur(s).semDestroyed) && (r == Returns(0) <==> !Cur(s).semDestroyed)
            && s'.tasks[s.current] == Cur(s).(waiting := -1, semDestroyed := false)
            && s' == s.(tasks := s.tasks[s.current := s'.tasks[s.current]])
  {
  }

  // A signal is refused exactly if the semaphore is not initialised; else it makes the first
  // waiter ready, unmarked and behind all others, or raises the counter.
  lemma SignalOutcome(s: Procs, n: int)
    requires Shape(s) && Inv(s) && Enabled(s, Signal(n))
    ensures var (s', r) := SemSignal(s, n);
            && (r == Returns(-EINVAL) <==> !IsOpen(s, n)) && (r == Returns(0) <==> IsOpen(s, n))
            && (!IsOpen(s, n) ==> s' == s)
            && (IsOpen(s, n) ==> OthersUntouched(s, s', n) && NobodyComesOrGoes(s, s') && KeepsRunning(s, s'))
            && (IsOpen(s, n) && Waiters(s, n) == [] ==>
                  && s'.sems[n].counter == (if s.sems[n].counter == TWO_31 - 1 then -TWO_31
                                            else Int32(s.sems[n].counter + 1))
                  && s'.sems[n].owner == s.sems[n].owner && s' == s.(sems := s'.sems))
            && (IsOpen(s, n) && Waiters(s, n) != [] ==>
                  var p := Waiters(s, n)[0];
                  && Waiters(s', n) == Waiters(s, n)[1..] && s'.queues[READY] == s.queues[READY] + [p]
                  && s'.tasks[p] == s.tasks[p].(state := StReady) && !s'.tasks[p].semDestroyed && s'.sems == s.sems)
  {
    if IsOpen(s, n) && Waiters(s, n) != [] {
      var p := Waiters(s, n)[0];
      assert p in Waiters(s, n);
      WaiterOnly(s, n, p);
      WokenOthers(s, n);
    }
  }

  lemma WokenOthers(s: Procs, n: nat)
    requires Shape(s) && Inv(s) && n < NR_SEMS && Waiters(s, n) != []
    ensures OthersUntouched(s, Wake(s, n, false), n)
  {
    forall m: nat | m < NR_SEMS && m != n ensures Untouched(s, Wake(s, n, false), m) { WakeUntouched(s, n, false, m); }
  }

  // A destroy is refused exactly if the semaphore is not initialised, or is another task's; else
  // all waiters are ready in order, behind all others and marked, and it is free again.
  lemma DestroyOutcome(s: Procs, n: int)
    requires Shape(s) && Inv(s) && Enabled(s, Destroy(n))
    ensures var (s', r) := SemDestroy(s, n);
            && (r == Returns(-EINVAL) <==> !IsOpen(s, n))
            && (r == Returns(-EPERM) <==> IsOpen(s, n) && s.sems[n].owner != Cur(s).pid)
            && (r == Returns(0) <==> IsOpen(s, n) && s.sems[n].owner == Cur(s).pid)
            && (r != Returns(0) ==> s' == s)
            && (r == Returns(0) ==>
                  && s'.sems[n] == Sem(s.sems[n].counter, -1) && Waiters(s', n) == []
                  && s'.queues[READY] == s.queues[READY] + Waiters(s, n)
                  && (forall p: TaskId :: p in Waiters(s, n) ==>
                        s'.tasks[p] == s.tasks[p].(state := StReady, semDestroyed := true))
                  && OthersUntouched(s, s', n) && NobodyComesOrGoes(s, s') && KeepsRunning(s, s'))
  {
    if IsOpen(s, n) && s.sems[n].owner == Cur(s).pid { ClosedFully(s, n); }
  }

  lemma ClosedFully(s: Procs, n: nat)
    requires Shape(s) && Inv(s) && s.current != s.idle && n < NR_SEMS
    ensures var s' := Close(s, n);
            && s'.sems[n] == Sem(s.sems[n].counter, -1) && Waiters(s', n) == []
            && s'.queues[READY] == s.queues[READY] + Waiters(s, n)
            && (forall p: TaskId :: p in Waiters(s, n) ==>
                  s'.tasks[p] == s.tasks[p].(state := StReady, semDestroyed := true))
            && OthersUntouched(s, s', n) && NobodyComesOrGoes(s, s') && KeepsRunning(s, s')
  {
    DrainReadies(s, n);
    DrainRest(s, n);
    hide Inv, Drain;
    forall m: nat | m < NR_SEMS && m != n ensures Untouched(s, Close(s, n), m) { DrainUntouched(s, n, m); }
  }

  lemma {:induction false} DrainRest(s: Procs, n: nat)
    requires Shape(s) && Inv(s) && s.current != s.idle && n < NR_SEMS
    ensures var s' := Drain(s, n);
            s'.sems == s.sems && NobodyComesOrGoes(s, s') && KeepsRunning(s, s')
    decreases |Waiters(s, n)|
  {
    hide Inv, Evict;
    if Waiters(s, n) != [] {
      EvictStep(s, n);
      EvictRest(s, n);
      DrainRest(Evict(s, n), n);
    }
  }

  lemma EvictRest(s: Procs, n: nat)
    requires Shape(s) && Inv(s) && n < NR_SEMS && Waiters(s, n) != []
    ensures var s' := Evict(s, n);
            s'.sems == s.sems && NobodyComesOrGoes(s, s') && KeepsRunning(s, s')
  {
    WaiterOnly(s, n, Waiters(s, n)[0]);
    hide Inv;
  }

  /* Creation */

  // What a new task is: the caller's PCB but for PID, state and directory, ready behind all
  // others, the first that was free, with the next PID.
  ghost predicate Born(s: Procs, s': Procs, p: TaskId, dir: TaskId)
    requires Shape(s) && Shape(s')
  {
    && s.queues[FREE] == [p] + s'.queues[FREE] && s'.queues[READY] == s.queues[READY] + [p]
    && s'.tasks[p].quantum == Cur(s).quantum && s'.tasks[p].waiting < 0 && !s'.tasks[p].semDestroyed
    && s'.tasks[p].state == StReady && s'.tasks[p].dir == dir
    && s'.tasks[p].pid == s.nextPid && s'.nextPid == s.nextPid + 1
    && (forall x: TaskId :: x != p ==> s'.tasks[x] == s.tasks[x])
    && (forall r :: 2 <= r < NR_QUEUES ==> s'.queues[r] == s.queues[r])
    && s'.sems == s.sems && s'.idle == s.idle && s'.lost == s.lost && KeepsRunning(s, s')
  }

  // clone is refused for want of a PCB, or, when there is one, if the function is not within code
  // and data or the stack not within data; else it returns the PID of the new thread, which has the
  // caller's directory, counted once more.
  lemma CloneOutcome(s: Procs, function_: int, stack: int)
    requires Shape(s) && Inv(s) && Enabled(s, DoClone(function_, stack))
    ensures var (s', r) := Clone(s, function_, stack);
            var inside := 0x100000 <= function_ <= 0x11BFFF && 0x108000 <= stack <= 0x11BFFF;
            && (r == Returns(-EAGAIN) <==> s.queues[FREE] == [])
            && (r == Returns(-EINVAL) <==> s.queues[FREE] != [] && !inside)
            && (s.queues[FREE] == [] || !inside ==> s' == s)
            && (s.queues[FREE] != [] && inside ==>
                  var p := s.queues[FREE][0]; var d := Cur(s).dir;
                  && Born(s, s', p, d) && Live(s', p) && r == Returns(s'.tasks[p].pid) && r.code > 1
                  && (forall x: TaskId :: Live(s', x) && x != p ==> s'.tasks[x].pid != r.code)
                  && s'.dirCounter == s.dirCounter[d := s.dirCounter[d] + 1])
  {
    if s.queues[FREE] != [] && CloneArgsOk(function_, stack) {
      var s' := Clone(s, function_, stack).0;
      CloneRing(s, function_, stack);
      CloneInv(s, function_, stack);
      SpecialTasksInUse(s);
      hide CloneArgsOk;
      assert s.queues[FREE] == [s.queues[FREE][0]] + s'.queues[FREE];
    }
  }

  // fork is refused for want of a PCB, and -ENOMEM answers exactly that there is one and the
  // frames could not be had: then the first free PCB is lost, with the PID and state of the caller.
  // Else it returns the PID of the child in the first directory that nobody has.
  lemma ForkOutcome(s: Procs, granted: bool)
    requires Shape(s) && Inv(s) && Enabled(s, DoFork(granted))
    ensures var (s', r) := Fork(s, granted);
            && (r == Returns(-EAGAIN) <==> s.queues[FREE] == [])
            && (r == Returns(-ENOMEM) <==> s.queues[FREE] != [] && !granted)
            && (s.queues[FREE] == [] ==> s' == s)
            && (s.queues[FREE] != [] ==>
                  && var p := s.queues[FREE][0]; var d := s'.tasks[p].dir;
                     && s.dirCounter[d] == 0 && (forall e :: 0 <= e < d ==> s.dirCounter[e] != 0)
                     && s'.dirCounter == s.dirCounter[d := 1]
                     && (granted ==>
                           && Born(s, s', p, d) && Live(s', p) && r == Returns(s'.tasks[p].pid) && r.code > 1
                           && (forall x: TaskId :: Live(s', x) && x != p ==> s'.tasks[x].pid != r.code))
                     && (!granted ==>
                           && s'.tasks[p] == Cur(s).(dir := d)
                           && s'.lost == s.lost + {p} && s.queues[FREE] == [p] + s'.queues[FREE]
                           && (forall r :: 1 <= r < NR_QUEUES ==> s'.queues[r] == s.queues[r])
                           && (forall x: TaskId :: x != p ==> s'.tasks[x] == s.tasks[x])
                           && s'.nextPid == s.nextPid && s'.sems == s.sems && KeepsRunning(s, s')))
  {
    if s.queues[FREE] != [] {
      var s' := Fork(s, granted).0;
      ForkNewUser(s, granted);
      ForkInv(s, granted);
      SpecialTasksInUse(s);
      assert s.queues[FREE] == [s.queues[FREE][0]] + s'.queues[FREE];
    }
  }

  /* Termination */

  // The waiters of the caller's semaphores below n, in the order in which exit evicts them.
  function Evictees(s: Procs, n: nat): (q: seq<TaskId>)
    requires Shape(s) && n <= NR_SEMS
  {
    if n == 0 then []
    else Evictees(s, n - 1) + if s.sems[n - 1].owner == Cur(s).pid then Waiters(s, n - 1) else []
  }

  lemma {:induction false} CloseOwnedReadies(s: Procs, n: nat)
    requires Shape(s) && Inv(s) && s.current != s.idle && n <= NR_SEMS
    ensures var s' := CloseOwned(s, n);
            && s'.queues[READY] == s.queues[READY] + Evictees(s, n)
            && NobodyComesOrGoes(s, s') && KeepsRunning(s, s')
  {
    hide Inv, CloseIfOwned, Untouched, Evicted;
    if n > 0 {
      var s1 := CloseOwned(s, n - 1);
      CloseOwnedReadies(s, n - 1);
      CloseOwnedInv(s, n - 1);
      CloseOwnedFate(s, n - 1, n - 1);
      UntouchedMeans(s, s1, n - 1);
      ClosedNext(s1, n - 1);
      assert s.queues[READY] + Evictees(s, n) == s.queues[READY] + Evictees(s, n - 1) +
             (if s.sems[n - 1].owner == Cur(s).pid then Waiters(s, n - 1) else []);
    }
  }

  lemma UntouchedMeans(s: Procs, s': Procs, n: nat)
    requires Shape(s) && Shape(s') && n < NR_SEMS && Untouched(s, s', n)
    ensures Waiters(s', n) == Waiters(s, n) && s'.sems[n] == s.sems[n]
  {
  }

  lemma ClosedNext(s: Procs, n: nat)
    requires Shape(s) && Inv(s) && s.current != s.idle && n < NR_SEMS
    ensures var s' := CloseIfOwned(s, n);
            && s'.queues[READY] == s.queues[READY] + (if s.sems[n].owner == Cur(s).pid then Waiters(s, n) else [])
            && NobodyComesOrGoes(s, s') && KeepsRunning(s, s')
  {
    CurrentPid(s);
    hide Inv, Close;
    if s.sems[n].owner == Cur(s).pid { ClosedFully(s, n); }
  }

  // exit closes the caller's semaphores and no others, and puts its PCB, with PID -1, at the end of
  // the free queue; the processor goes to the next ready task, evicted ones last.
  lemma ExitOutcome(s: Procs)
    requires Shape(s) && Inv(s) && s.current != s.idle
    ensures var s' := Exit(s); var d := Cur(s).dir;
            && s'.queues[FREE] == s.queues[FREE] + [s.current]
            && s'.tasks[s.current] == Cur(s).(pid := -1)
            && GoesTo(s, s', s.queues[READY] + Evictees(s, NR_SEMS))
            && s'.dirCounter == s.dirCounter[d := s.dirCounter[d] - 1]
            && s'.idle == s.idle && s'.lost == s.lost && s'.nextPid == s.nextPid
            && (forall p: TaskId :: p != s.current ==>
                  && s'.tasks[p].pid == s.tasks[p].pid && s'.tasks[p].dir == s.tasks[p].dir
                  && s'.tasks[p].quantum == s.tasks[p].quantum)
            && (forall n :: 0 <= n < NR_SEMS ==>
                  if s.sems[n].owner == Cur(s).pid then s'.sems[n].owner == -1 && Waiters(s', n) == []
                  else s'.sems[n] == s.sems[n] && Waiters(s', n) == Waiters(s, n))
  {
    Leaving(s);
    Dispatching(Freed(s));
    hide Inv, Freed, LeaveDir, SchedNext, Evictees;
  }

  lemma Dispatching(s: Procs)
    requires Shape(s)
    ensures var s' := SchedNext(s);
            && GoesTo(s, s', s.queues[READY]) && s'.sems == s.sems && s'.dirCounter == s.dirCounter
            && s'.idle == s.idle && s'.lost == s.lost && s'.nextPid == s.nextPid
            && (forall r :: 0 <= r < NR_QUEUES && r != READY ==> s'.queues[r] == s.queues[r])
            && (forall p: TaskId :: s'.tasks[p] == s.tasks[p].(state := s'.tasks[p].state))
            && (forall p: TaskId :: p !in s.queues[READY] ==> s'.tasks[p] == s.tasks[p])
  {
    if s.queues[READY] != [] { assert s.queues[READY][0] in s.queues[READY]; }
  }

  // The state in which sys_exit calls the scheduler.
  lemma Leaving(s: Procs)
    requires Shape(s) && Inv(s) && s.current != s.idle
    ensures var s' := Freed(s); var d := Cur(s).dir;
            && s'.current == s.current && s'.leftTicks == s.leftTicks && s'.queues[FREE] == s.queues[FREE] + [s.current]
            && s'.tasks[s.current] == Cur(s).(pid := -1)
            && s'.queues[READY] == s.queues[READY] + Evictees(s, NR_SEMS) && s.current !in s'.queues[READY]
            && s'.dirCounter == s.dirCounter[d := s.dirCounter[d] - 1]
            && s'.idle == s.idle && s'.lost == s.lost && s'.nextPid == s.nextPid
            && (forall p: TaskId :: p != s.current ==>
                  && s'.tasks[p].pid == s.tasks[p].pid && s'.tasks[p].dir == s.tasks[p].dir
                  && s'.tasks[p].quantum == s.tasks[p].quantum)
            && (forall n :: 0 <= n < NR_SEMS ==>
                  if s.sems[n].owner == Cur(s).pid then s'.sems[n].owner == -1 && Waiters(s', n) == []
                  else s'.sems[n] == s.sems[n] && Waiters(s', n) == Waiters(s, n))
  {
    hide *;
    LeavingFields(s);
    LeavingSems(s);
  }

  lemma LeavingFields(s: Procs)
    requires Shape(s) && Inv(s) && s.current != s.idle
    ensures var s' := Freed(s); var d := Cur(s).dir;
            && s'.current == s.current && s'.leftTicks == s.leftTicks && s'.queues[FREE] == s.queues[FREE] + [s.current]
            && s'.tasks[s.current] == Cur(s).(pid := -1)
            && s'.queues[READY] == s.queues[READY] + Evictees(s, NR_SEMS) && s.current !in s'.queues[READY]
            && s'.dirCounter == s.dirCounter[d := s.dirCounter[d] - 1]
            && s'.idle == s.idle && s'.lost == s.lost && s'.nextPid == s.nextPid
            && (forall p: TaskId :: p != s.current ==>
                  && s'.tasks[p].pid == s.tasks[p].pid && s'.tasks[p].dir == s.tasks[p].dir
                  && s'.tasks[p].quantum == s.tasks[p].quantum)
  {
    hide Inv, CloseOwned, Evictees, ClosedBelow;
    CloseOwnedReadies(s, NR_SEMS);
    CloseOwnedInv(s, NR_SEMS);
    NotReady(CloseOwned(s, NR_SEMS));
  }

  lemma LeavingSems(s: Procs)
    requires Shape(s) && Inv(s) && s.current != s.idle
    ensures forall n :: 0 <= n < NR_SEMS ==>
                          if s.sems[n].owner == Cur(s).pid
                          then Freed(s).sems[n].owner == -1 && Waiters(Freed(s), n) == []
                          else Freed(s).sems[n] == s.sems[n] && Waiters(Freed(s), n) == Waiters(s, n)
  {
    hide Inv, CloseOwned;
    forall n: nat | n < NR_SEMS
      ensures if s.sems[n].owner == Cur(s).pid
              then Freed(s).sems[n].owner == -1 && Waiters(Freed(s), n) == []
              else Freed(s).sems[n] == s.sems[n] && Waiters(Freed(s), n) == Waiters(s, n)
    {
      CloseOwnedFate(s, NR_SEMS, n);
    }
  }

  lemma NotReady(s: Procs)
    requires Shape(s) && Inv(s)
    ensures s.current !in s.queues[READY]
  {
    OffRingNotQueued(s, s.current);
  }
}
