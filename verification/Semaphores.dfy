// The semaphore law over whole runs, and what releases a blocked sem_wait.
module Semaphores {
  import opened Layout
  import opened Queues
  import opened Processes
  import opened ProcessInvariants
  import opened ProcessSteps
  import opened Scheduling

  /* One step seen from a wait queue */

  function Waiters(s: Procs, n: nat): seq<TaskId>
    requires Shape(s) && n < NR_SEMS
  {
    s.queues[SemQueue(n)]
  }

  // Semaphore n and its waiters are as they were.
  ghost predicate Untouched(s: Procs, s': Procs, n: nat)
    requires Shape(s) && Shape(s') && n < NR_SEMS
  {
    && Waiters(s', n) == Waiters(s, n) && s'.sems[n] == s.sems[n]
    && (forall p: TaskId :: p in Waiters(s, n) ==> s'.tasks[p] == s.tasks[p])
  }

  // All waiters of n have been made ready with the mark of a destroyed semaphore.
  ghost predicate Evicted(s: Procs, s': Procs, n: nat)
    requires Shape(s) && Shape(s') && n < NR_SEMS
  {
    && Waiters(s', n) == [] && s'.sems[n].owner == -1
    && (forall p: TaskId :: p in Waiters(s, n) ==>
                              p in s'.queues[READY] && s'.tasks[p].semDestroyed && s'.tasks[p].waiting == n)
  }

  lemma WaiterOnly(s: Procs, n: nat, p: TaskId)
    requires Inv(s) && n < NR_SEMS && p in Waiters(s, n)
    ensures p != s.current && p != s.idle && WaitsOn(s, p, n)
    ensures forall r :: 0 <= r < NR_QUEUES && r != SemQueue(n) ==> p !in s.queues[r]
  {
    OffRingNotQueued(s, s.current);
    OffRingNotQueued(s, s.idle);
  }

  lemma SchedNextUntouched(s: Procs, n: nat)
    requires Shape(s) && n < NR_SEMS
    requires forall p: TaskId :: p in Waiters(s, n) ==> p !in s.queues[READY]
    ensures Untouched(s, SchedNext(s), n)
  {
    if s.queues[READY] != [] { assert s.queues[READY][0] in s.queues[READY]; }
  }

  // Waking a waiter of another semaphore.
  lemma WakeUntouched(s: Procs, m: nat, mark: bool, n: nat)
    requires Inv(s) && m < NR_SEMS && Waiters(s, m) != [] && n < NR_SEMS && n != m
    ensures Untouched(s, Wake(s, m, mark), n)
  {
    assert Waiters(s, m)[0] in Waiters(s, m);
    WaiterOnly(s, m, Waiters(s, m)[0]);
  }

  lemma {:induction false} DrainUntouched(s: Procs, m: nat, n: nat)
    requires Shape(s) && Inv(s) && s.current != s.idle && m < NR_SEMS && n < NR_SEMS && n != m
    ensures Untouched(s, Drain(s, m), n)
    decreases |Waiters(s, m)|
  {
    hide Inv;
    if Waiters(s, m) != [] {
      assert Evict(s, m) == Wake(s, m, true);
      WakeInv(s, m, true);
      WakeUntouched(s, m, true, n);
      DrainUntouched(Evict(s, m), m, n);
    }
  }

  // Draining n readies every waiter of n, in order, marked.
  lemma {:induction false} DrainReadies(s: Procs, n: nat)
    requires Shape(s) && Inv(s) && s.current != s.idle && n < NR_SEMS
    ensures var s' := Drain(s, n);
            && s'.queues[READY] == s.queues[READY] + Waiters(s, n)
            && Waiters(s', n) == []
            && (forall p: TaskId :: p in Waiters(s, n) ==>
                  s'.tasks[p] == s.tasks[p].(state := StReady, semDestroyed := true))
    decreases |Waiters(s, n)|
  {
    hide Inv;
    var q := Waiters(s, n);
    if q != [] {
      var s1 := Evict(s, n);
      EvictStep(s, n);
      DrainReadies(s1, n);
      DrainExtends(s1, n);
      assert q == [q[0]] + q[1..];
    }
  }

  lemma EvictStep(s: Procs, n: nat)
    requires Inv(s) && s.current != s.idle && n < NR_SEMS && Waiters(s, n) != []
    ensures var s1 := Evict(s, n); var q := Waiters(s, n);
            && Shape(s1) && Inv(s1) && s1.current == s.current && s1.idle == s.idle
            && s1.queues[READY] == s.queues[READY] + [q[0]] && q[0] in s1.queues[READY]
            && Waiters(s1, n) == q[1..] && q[0] !in q[1..]
            && s1.tasks == s.tasks[q[0] := s.tasks[q[0]].(state := StReady, semDestroyed := true)]
  {
    assert Evict(s, n) == Wake(s, n, true);
    WakeInv(s, n, true);
    TailMembers(Waiters(s, n));
  }

  lemma CloseEvicts(s: Procs, n: nat)
    requires Inv(s) && s.current != s.idle && n < NR_SEMS
    ensures Evicted(s, Close(s, n), n)
  {
    DrainReadies(s, n);
    forall p: TaskId | p in Waiters(s, n) ensures s.tasks[p].waiting == n { WaiterOnly(s, n, p); }
  }

  lemma CloseIfOwnedFate(s: Procs, m: nat, n: nat)
    requires Inv(s) && s.current != s.idle && m < NR_SEMS && n < NR_SEMS
    ensures if m == n && s.sems[n].owner == Cur(s).pid then Evicted(s, CloseIfOwned(s, m), n)
            else Untouched(s, CloseIfOwned(s, m), n)
  {
    CurrentPid(s);
    if m == n { CloseEvicts(s, n); } else { DrainUntouched(s, m, n); }
  }

  lemma EvictedExtends(s: Procs, s1: Procs, s': Procs, n: nat)
    requires Shape(s) && Shape(s1) && Shape(s') && n < NR_SEMS
    requires Evicted(s, s1, n) && Untouched(s1, s', n) && Extends(s1, s')
    ensures Evicted(s, s', n)
  {
  }

  // The loop of sys_exit evicts the waiters of the caller's semaphores and no others.
  lemma {:induction false} CloseOwnedFate(s: Procs, k: nat, n: nat)
    requires Shape(s) && Inv(s) && s.current != s.idle && k <= NR_SEMS && n < NR_SEMS
    ensures if n < k && s.sems[n].owner == Cur(s).pid then Evicted(s, CloseOwned(s, k), n)
            else Untouched(s, CloseOwned(s, k), n)
  {
    hide Inv;
    hide CloseIfOwned;
    hide Evicted;
    if k > 0 {
      var s1 := CloseOwned(s, k - 1);
      CloseOwnedFate(s, k - 1, n);
      CloseOwnedInv(s, k - 1);
      CloseIfOwnedFate(s1, k - 1, n);
      CloseIfOwnedExtends(s1, k - 1);
      if n < k - 1 && s.sems[n].owner == Cur(s).pid {
        EvictedExtends(s, s1, CloseOwned(s, k), n);
      } else if n == k - 1 && s.sems[n].owner == Cur(s).pid {
        EvictedFrom(s, s1, CloseOwned(s, k), n);
      }
    }
  }

  lemma EvictedFrom(s: Procs, s1: Procs, s': Procs, n: nat)
    requires Shape(s) && Shape(s1) && Shape(s') && n < NR_SEMS
    requires Untouched(s, s1, n) && Evicted(s1, s', n)
    ensures Evicted(s, s', n)
  {
  }

  /* The law */

  // What the outside world sees of semaphore n during a run: who called sem_wait and who was
  // granted, both in order, and how many signals there were.
  datatype Log = Log(callers: seq<TaskId>, granted: seq<TaskId>, signals: nat)

  function LogOf(s: Procs, evs: seq<Event>, n: nat): Log
    requires Shape(s) && n < NR_SEMS
  {
    if evs == [] then Log([], [], 0)
    else
      var k := |evs| - 1;
      Observe(LogOf(s, evs[..k], n), Run(s, evs[..k]), evs[k], n)
  }

  // A wait is granted at once when the call returns 0, or later when a signal takes the task
  // off the wait queue. Every call counts, whatever it answers.
  function Observe(log: Log, s: Procs, e: Event, n: nat): Log
    requires Shape(s) && n < NR_SEMS
  {
    var (s', outcome) := Step(s, e);
    if e == Wait(n) then
      log.(callers := log.callers + [s.current],
           granted := log.granted + if outcome == Returns(0) then [s.current] else [])
    else if e == Signal(n) then
      var gone := |Waiters(s, n)| - |Waiters(s', n)|;
      log.(granted := log.granted + if gone >= 0 then Waiters(s, n)[..gone] else [],
           signals := log.signals + 1)
    else log
  }

  // The log has as many calls as the run has events: none is left out of what the law says.
  lemma {:induction false} LogCounts(s: Procs, evs: seq<Event>, n: nat)
    requires Shape(s) && n < NR_SEMS
    ensures var log := LogOf(s, evs, n); |log.callers| == Count(evs, Wait(n)) && log.signals == Count(evs, Signal(n))
  {
    hide Step, Run;
    if evs != [] { LogCounts(s, evs[..|evs| - 1], n); }
  }

  // Semaphore n stays initialised all along the run.
  predicate Open(s: Procs, evs: seq<Event>, n: nat)
    requires Shape(s) && n < NR_SEMS
  {
    forall k :: 0 <= k <= |evs| ==> Run(s, evs[..k]).sems[n].owner != -1
  }

  // No step but a wait or signal on n touches an open semaphore.
  lemma OtherStepUntouched(s: Procs, e: Event, n: nat)
    requires Shape(s) && Inv(s) && Enabled(s, e) && n < NR_SEMS && e != Wait(n) && e != Signal(n)
    requires s.sems[n].owner != -1 && Step(s, e).0.sems[n].owner != -1
    ensures Untouched(s, Step(s, e).0, n)
  {
    hide Inv;
    hide Untouched;
    match e
    case ClockTick => TickUntouched(s, n);
    case DoClone(_, _) => NewTaskUntouched(s, e, n);
    case DoFork(_) => NewTaskUntouched(s, e, n);
    case DoExit => ExitUntouched(s, n);
    case _ => SemaphoreStepUntouched(s, e, n);
  }

  lemma SemaphoreStepUntouched(s: Procs, e: Event, n: nat)
    requires Shape(s) && Inv(s) && Enabled(s, e) && n < NR_SEMS && e != Wait(n) && e != Signal(n)
    requires e.Wait? || e.Signal? || e.Destroy? || e.Init? || e.Resume?
    requires s.sems[n].owner != -1 && Step(s, e).0.sems[n].owner != -1
    ensures Untouched(s, Step(s, e).0, n)
  {
    hide Inv;
    match e
    case Wait(m) =>
      WaitersNotCurrent(s, n);
      if 0 <= m < NR_SEMS { BlockUntouched(s, m, n); }
    case Signal(m) =>
      if 0 <= m < NR_SEMS && Waiters(s, m) != [] { WakeUntouched(s, m, false, n); }
    case Destroy(m) => if 0 <= m < NR_SEMS && m != n { DrainUntouched(s, m, n); }
    case Init(_, _) =>
    case Resume => WaitersNotCurrent(s, n);
  }

  lemma WaitersNotCurrent(s: Procs, n: nat)
    requires Inv(s) && n < NR_SEMS
    ensures forall p: TaskId :: p in Waiters(s, n) ==> p != s.current && p !in s.queues[FREE]
  {
    forall p: TaskId | p in Waiters(s, n) ensures p != s.current && p !in s.queues[FREE] {
      WaiterOnly(s, n, p);
    }
  }

  lemma NewTaskUntouched(s: Procs, e: Event, n: nat)
    requires Inv(s) && Enabled(s, e) && (e.DoClone? || e.DoFork?) && n < NR_SEMS
    ensures Untouched(s, Step(s, e).0, n)
  {
    WaitersNotCurrent(s, n);
    if s.queues[FREE] != [] { assert s.queues[FREE][0] in s.queues[FREE]; }
  }

  lemma TickUntouched(s: Procs, n: nat)
    requires Inv(s) && n < NR_SEMS
    ensures Untouched(s, Tick(s), n)
  {
    forall p: TaskId | p in Waiters(s, n) ensures p != s.current && p !in s.queues[READY] {
      WaiterOnly(s, n, p);
    }
    var s1 := s.(leftTicks := UInt32(s.leftTicks - 1));
    if s1.leftTicks == 0 && s.current != s.idle {
      var s2 := Park(s1, READY, StReady);
      assert Untouched(s, s2, n);
      SchedNextUntouched(s2, n);
    } else {
      SchedNextUntouched(s1, n);
    }
  }

  lemma BlockUntouched(s: Procs, m: nat, n: nat)
    requires Inv(s) && n < NR_SEMS && m < NR_SEMS && m != n
    ensures Untouched(s, Block(s, m), n)
  {
    forall p: TaskId | p in Waiters(s, n) ensures p != s.current && p !in s.queues[READY] {
      WaiterOnly(s, n, p);
    }
    SchedNextUntouched(Park(SetTask(s, s.current, Cur(s).(waiting := m)), SemQueue(m), StBlocked), n);
  }

  lemma ExitUntouched(s: Procs, n: nat)
    requires Inv(s) && s.current != s.idle && n < NR_SEMS && Exit(s).sems[n].owner != -1
    ensures Untouched(s, Exit(s), n)
  {
    CloseOwnedFate(s, NR_SEMS, n);
    CloseOwnedInv(s, NR_SEMS);
    WaitersNotCurrent(s, n);
    forall p: TaskId | p in Waiters(s, n) ensures p !in CloseOwned(s, NR_SEMS).queues[READY] {
      WaiterOnly(CloseOwned(s, NR_SEMS), n, p);
    }
    SchedNextUntouched(Freed(s), n);
  }

  // The law, at the end of a run that starts with counter v and no waiter.
  ghost predicate Obeys(s: Procs, evs: seq<Event>, n: nat)
    requires Shape(s) && n < NR_SEMS
  {
    var v := s.sems[n].counter;
    var log := LogOf(s, evs, n);
    var s' := Run(s, evs);
    var waits, signals := Count(evs, Wait(n)), Count(evs, Signal(n));
    && |log.callers| == waits && |log.granted| == Min(waits, Max(0, v + signals))
    && s'.sems[n].counter == v + signals - |log.granted|
    && log.callers == log.granted + Waiters(s', n)
    && (Waiters(s', n) != [] ==> s'.sems[n].counter <= 0)
  }

  // A signal that overflows the counter: nobody waits and it is at the top of its range.
  predicate Wraps(s: Procs, e: Event, n: nat)
    requires Shape(s) && n < NR_SEMS
  {
    e == Signal(n) && Waiters(s, n) == [] && s.sems[n].counter >= TWO_31 - 1
  }

  // A signal that wakes a waiter although the counter is negative.
  predicate Overdraws(s: Procs, e: Event, n: nat)
    requires Shape(s) && n < NR_SEMS
  {
    e == Signal(n) && Waiters(s, n) != [] && s.sems[n].counter < 0
  }

  predicate Fits(s: Procs, evs: seq<Event>, n: nat)
    requires Shape(s) && n < NR_SEMS
  {
    forall k :: 0 <= k < |evs| ==> !Wraps(Run(s, evs[..k]), evs[k], n)
  }

  predicate NeverOverdrawn(s: Procs, evs: seq<Event>, n: nat)
    requires Shape(s) && n < NR_SEMS
  {
    forall k :: 0 <= k < |evs| ==> !Overdraws(Run(s, evs[..k]), evs[k], n)
  }

  // The law holds after every step of the run.
  ghost predicate ObeysAllAlong(s: Procs, evs: seq<Event>, n: nat)
    requires Shape(s) && n < NR_SEMS
  {
    forall k :: 0 <= k <= |evs| ==> Obeys(s, evs[..k], n)
  }

  // What the law needs between steps; v is the counter the semaphore started with.
  ghost predicate Balanced(s: Procs, log: Log, n: nat, v: int)
    requires Shape(s) && n < NR_SEMS
  {
    var counter := s.sems[n].counter;
    && counter == v + log.signals - |log.granted| && counter >= -TWO_31
    && log.callers == log.granted + Waiters(s, n)
    && (Waiters(s, n) != [] ==> counter <= 0)
    && (counter < 0 ==> log.granted == [])
  }

  lemma WaitBalanced(s: Procs, log: Log, n: nat, v: int)
    requires Inv(s) && Enabled(s, Wait(n)) && n < NR_SEMS && s.sems[n].owner != -1
    requires Balanced(s, log, n, v)
    ensures Balanced(SemWait(s, n).0, Observe(log, s, Wait(n), n), n, v)
  {
    assert !Cur(s).semDestroyed;
  }

  // A signal keeps the balance unless it wraps or overdraws; if it does the law breaks at once.
  lemma SignalBalanced(s: Procs, log: Log, n: nat, v: int)
    requires Shape(s) && n < NR_SEMS && s.sems[n].owner != -1 && Balanced(s, log, n, v)
    ensures var s' := SemSignal(s, n).0; var log' := Observe(log, s, Signal(n), n);
            if Wraps(s, Signal(n), n) then s'.sems[n].counter != v + log'.signals - |log'.granted|
            else if Overdraws(s, Signal(n), n) then |log'.granted| > Max(0, v + log'.signals)
            else Balanced(s', log', n, v)
  {
    var q := Waiters(s, n);
    if q != [] { assert q == q[..1] + q[1..]; }
  }

  lemma StepBalanced(s: Procs, log: Log, e: Event, n: nat, v: int)
    requires Shape(s) && Inv(s) && Enabled(s, e) && n < NR_SEMS
    requires s.sems[n].owner != -1 && Step(s, e).0.sems[n].owner != -1
    requires Balanced(s, log, n, v) && !Wraps(s, e, n) && !Overdraws(s, e, n)
    ensures Balanced(Step(s, e).0, Observe(log, s, e, n), n, v)
  {
    hide Inv;
    if e == Wait(n) {
      WaitBalanced(s, log, n, v);
    } else if e == Signal(n) {
      SignalBalanced(s, log, n, v);
    } else {
      OtherStepUntouched(s, e, n);
    }
  }

  // One more event at the end of a run.
  lemma Extended(s: Procs, evs: seq<Event>, e: Event, n: nat)
    requires Shape(s) && n < NR_SEMS
    ensures var s1 := Run(s, evs); var more := evs + [e];
            && Run(s, more) == Step(s1, e).0
            && (Legal(s, more) <==> Legal(s, evs) && Enabled(s1, e))
            && (Open(s, more, n) <==> Open(s, evs, n) && Step(s1, e).0.sems[n].owner != -1)
            && (Fits(s, more, n) <==> Fits(s, evs, n) && !Wraps(s1, e, n))
            && LogOf(s, more, n) == Observe(LogOf(s, evs, n), s1, e, n)
  {
    hide *;
    ExtendedRun(s, evs, e, n);
    ExtendedOpen(s, evs, e, n);
    ExtendedFits(s, evs, e, n);
  }

  lemma ExtendedRun(s: Procs, evs: seq<Event>, e: Event, n: nat)
    requires Shape(s) && n < NR_SEMS
    ensures var s1 := Run(s, evs); var more := evs + [e];
            && Run(s, more) == Step(s1, e).0
            && (Legal(s, more) <==> Legal(s, evs) && Enabled(s1, e))
            && LogOf(s, more, n) == Observe(LogOf(s, evs, n), s1, e, n)
  {
    hide Step, Observe, Enabled;
    assert (evs + [e])[..|evs|] == evs;
  }

  lemma ExtendedOpen(s: Procs, evs: seq<Event>, e: Event, n: nat)
    requires Shape(s) && n < NR_SEMS
    ensures Open(s, evs + [e], n) <==> Open(s, evs, n) && Step(Run(s, evs), e).0.sems[n].owner != -1
  {
    var more := evs + [e];
    ExtendedRun(s, evs, e, n);
    OpenPrefix(s, more, |evs|, n);
    assert more[..|evs|] == evs;
    hide *;
  }

  // A run is open if it is so up to one event before its end, and at its end.
  lemma OpenPrefix(s: Procs, evs: seq<Event>, k: nat, n: nat)
    requires Shape(s) && n < NR_SEMS && k + 1 == |evs|
    ensures Open(s, evs, n) <==> Open(s, evs[..k], n) && Run(s, evs).sems[n].owner != -1
  {
    hide Run;
    assert evs[..|evs|] == evs;
    assert forall i :: 0 <= i <= k ==> evs[..k][..i] == evs[..i];
  }

  lemma ExtendedFits(s: Procs, evs: seq<Event>, e: Event, n: nat)
    requires Shape(s) && n < NR_SEMS
    ensures Fits(s, evs + [e], n) <==> Fits(s, evs, n) && !Wraps(Run(s, evs), e, n)
  {
    hide Run, Wraps;
    var more := evs + [e];
    assert more[..|evs|] == evs;
    forall k | 0 <= k <= |evs| ensures more[..k] == evs[..k] {}
    if Fits(s, more, n) {
      forall k | 0 <= k < |evs| ensures !Wraps(Run(s, evs[..k]), evs[k], n) {
        assert !Wraps(Run(s, more[..k]), more[k], n);
      }
    }
  }

  lemma ExtendedObeys(s: Procs, evs: seq<Event>, e: Event, n: nat)
    requires Shape(s) && n < NR_SEMS
    ensures ObeysAllAlong(s, evs + [e], n) <==> ObeysAllAlong(s, evs, n) && Obeys(s, evs + [e], n)
  {
    hide Obeys;
    var more := evs + [e];
    assert more[..|more|] == more;
    forall k | 0 <= k <= |evs| ensures more[..k] == evs[..k] {}
    if ObeysAllAlong(s, more, n) {
      forall k | 0 <= k <= |evs| ensures Obeys(s, evs[..k], n) { assert Obeys(s, more[..k], n); }
    }
  }

  lemma ExtendedOverdraws(s: Procs, evs: seq<Event>, e: Event, n: nat)
    requires Shape(s) && n < NR_SEMS
    ensures NeverOverdrawn(s, evs + [e], n) <==> NeverOverdrawn(s, evs, n) && !Overdraws(Run(s, evs), e, n)
  {
    hide Step, Enabled, Overdraws;
    var more := evs + [e];
    assert more[..|evs|] == evs;
    forall k | 0 <= k <= |evs| ensures more[..k] == evs[..k] {}
  }

  // What a run without its last event inherits.
  lemma ButLast(s: Procs, evs: seq<Event>, n: nat)
    requires Shape(s) && Legal(s, evs) && n < NR_SEMS && Open(s, evs, n) && evs != []
    ensures var k := |evs| - 1; var p := evs[..k]; var s1 := Run(s, p);
            && Legal(s, p) && Open(s, p, n) && s1.sems[n].owner != -1
            && Enabled(s1, evs[k]) && Step(s1, evs[k]).0 == Run(s, evs) && Run(s, evs).sems[n].owner != -1
            && LogOf(s, evs, n) == Observe(LogOf(s, p, n), s1, evs[k], n)
            && (Fits(s, evs, n) <==> Fits(s, p, n) && !Wraps(s1, evs[k], n))
            && (NeverOverdrawn(s, evs, n) <==> NeverOverdrawn(s, p, n) && !Overdraws(s1, evs[k], n))
            && (ObeysAllAlong(s, evs, n) <==> ObeysAllAlong(s, p, n) && Obeys(s, evs, n))
  {
    hide Run, Legal, Open, LogOf, Fits, NeverOverdrawn, ObeysAllAlong, Step, Observe, Enabled, Wraps, Overdraws, Obeys;
    var k := |evs| - 1;
    assert evs[..k] + [evs[k]] == evs;
    Extended(s, evs[..k], evs[k], n);
    ExtendedObeys(s, evs[..k], evs[k], n);
    ExtendedOverdraws(s, evs[..k], evs[k], n);
    EmptyIsOpen(s, evs[..k], n);
    EmptyIsOpen(s, evs, n);
  }

  lemma {:induction false} RunBalanced(s: Procs, evs: seq<Event>, n: nat)
    requires Shape(s) && Inv(s) && Legal(s, evs) && n < NR_SEMS && Open(s, evs, n)
    requires s.sems[n].counter >= -TWO_31 && Waiters(s, n) == []
    requires Fits(s, evs, n) && NeverOverdrawn(s, evs, n)
    ensures Balanced(Run(s, evs), LogOf(s, evs, n), n, s.sems[n].counter)
  {
    if evs == [] {
      EmptyRun(s, n);
    } else {
      hide Inv, Legal, Open, Fits, NeverOverdrawn, Run, LogOf, Balanced, Wraps, Overdraws, Step, Observe;
      var k := |evs| - 1;
      ButLast(s, evs, n);
      RunBalanced(s, evs[..k], n);
      RunInv(s, evs[..k]);
      StepBalanced(Run(s, evs[..k]), LogOf(s, evs[..k], n), evs[k], n, s.sems[n].counter);
    }
  }

  lemma BalancedObeys(s: Procs, evs: seq<Event>, n: nat)
    requires Shape(s) && n < NR_SEMS && Balanced(Run(s, evs), LogOf(s, evs, n), n, s.sems[n].counter)
    ensures Obeys(s, evs, n)
    ensures s.sems[n].counter >= 0 ==> Run(s, evs).sems[n].counter >= 0
  {
    LogCounts(s, evs, n);
    hide Run, LogOf, Count;
  }

  // A run from any counter obeys the law all along if and only if no signal overflows the counter
  // and none wakes a waiter while it is negative.
  lemma {:induction false} LawAllAlong(s: Procs, evs: seq<Event>, n: nat)
    requires Shape(s) && Inv(s) && Legal(s, evs) && n < NR_SEMS && Open(s, evs, n)
    requires s.sems[n].counter >= -TWO_31 && Waiters(s, n) == []
    ensures ObeysAllAlong(s, evs, n) <==> Fits(s, evs, n) && NeverOverdrawn(s, evs, n)
  {
    if evs == [] {
      EmptyRun(s, n);
    } else {
      hide Inv, Legal, Open, Fits, NeverOverdrawn, ObeysAllAlong, Run, LogOf, Wraps, Overdraws, Step, Observe;
      hide Balanced, Obeys;
      var k := |evs| - 1;
      ButLast(s, evs, n);
      LawAllAlong(s, evs[..k], n);
      if Fits(s, evs[..k], n) && NeverOverdrawn(s, evs[..k], n) {
        RunBalanced(s, evs[..k], n);
        RunInv(s, evs[..k]);
        LastStepObeys(s, evs, n);
      }
    }
  }

  lemma LastStepObeys(s: Procs, evs: seq<Event>, n: nat)
    requires Shape(s) && Inv(s) && Legal(s, evs) && n < NR_SEMS && Open(s, evs, n) && evs != []
    requires var p := evs[..|evs| - 1]; Inv(Run(s, p)) && Balanced(Run(s, p), LogOf(s, p, n), n, s.sems[n].counter)
    ensures var s1 := Run(s, evs[..|evs| - 1]); var e := evs[|evs| - 1];
            Obeys(s, evs, n) <==> !Wraps(s1, e, n) && !Overdraws(s1, e, n)
  {
    hide Inv, Legal, Open, Fits, NeverOverdrawn, ObeysAllAlong, Run, LogOf, Observe, Balanced, Count;
    ButLast(s, evs, n);
    LogCounts(s, evs, n);
    var p, e, v := evs[..|evs| - 1], evs[|evs| - 1], s.sems[n].counter;
    if Wraps(Run(s, p), e, n) || Overdraws(Run(s, p), e, n) {
      SignalBalanced(Run(s, p), LogOf(s, p, n), n, v);
    } else {
      StepBalanced(Run(s, p), LogOf(s, p, n), e, n, v);
      BalancedObeys(s, evs, n);
    }
  }

  // A counter that starts non-negative is never negative while it fits.
  lemma {:induction false} FitsNeverOverdrawn(s: Procs, evs: seq<Event>, n: nat)
    requires Shape(s) && Inv(s) && Legal(s, evs) && n < NR_SEMS && Open(s, evs, n)
    requires s.sems[n].counter >= 0 && Waiters(s, n) == [] && Fits(s, evs, n)
    ensures NeverOverdrawn(s, evs, n)
  {
    if evs != [] {
      hide *;
      ButLast(s, evs, n);
      FitsNeverOverdrawn(s, evs[..|evs| - 1], n);
      LastNotOverdrawn(s, evs[..|evs| - 1], evs[|evs| - 1], n);
    }
  }

  lemma LastNotOverdrawn(s: Procs, evs: seq<Event>, e: Event, n: nat)
    requires Shape(s) && Inv(s) && Legal(s, evs) && n < NR_SEMS && Open(s, evs, n)
    requires s.sems[n].counter >= 0 && Waiters(s, n) == [] && Fits(s, evs, n) && NeverOverdrawn(s, evs, n)
    ensures !Overdraws(Run(s, evs), e, n)
  {
    hide Inv, Legal, Open, Fits, NeverOverdrawn, Run, LogOf, Balanced, Obeys;
    RunBalanced(s, evs, n);
    BalancedObeys(s, evs, n);
  }

  // Starting from a non-negative counter, every run in which no signal overflows it obeys the law.
  lemma SemaphoreLaw(s: Procs, evs: seq<Event>, n: nat)
    requires Shape(s) && Inv(s) && Legal(s, evs) && n < NR_SEMS && Open(s, evs, n)
    requires s.sems[n].counter >= 0 && Waiters(s, n) == [] && Fits(s, evs, n)
    ensures Obeys(s, evs, n)
  {
    hide Inv, Legal, Open, Fits, NeverOverdrawn, Run, LogOf, Balanced, Obeys;
    FitsNeverOverdrawn(s, evs, n);
    RunBalanced(s, evs, n);
    BalancedObeys(s, evs, n);
  }

  // ... and only such a run does so all along.
  lemma LawAllAlongExactly(s: Procs, evs: seq<Event>, n: nat)
    requires Shape(s) && Inv(s) && Legal(s, evs) && n < NR_SEMS && Open(s, evs, n)
    requires s.sems[n].counter >= 0 && Waiters(s, n) == []
    ensures ObeysAllAlong(s, evs, n) <==> Fits(s, evs, n)
  {
    hide Inv, Legal, Open, Fits, NeverOverdrawn, ObeysAllAlong, Run;
    LawAllAlong(s, evs, n);
    if Fits(s, evs, n) { FitsNeverOverdrawn(s, evs, n); }
  }

  // In particular after a sem_init that returns 0 with a value that fits an int: of all waits on
  // n the first value + signals are granted, in the order of the calls.
  lemma LawFromInit(s: Procs, n: nat, value: nat, evs: seq<Event>)
    requires Shape(s) && Inv(s) && s.current != s.idle && n < NR_SEMS && value < TWO_31
    requires SemInit(s, n, value).1 == Returns(0)
    requires var s0 := SemInit(s, n, value).0; Legal(s0, evs) && Open(s0, evs, n) && Fits(s0, evs, n)
    ensures var s0 := SemInit(s, n, value).0; var log := LogOf(s0, evs, n);
            var waits, signals := Count(evs, Wait(n)), Count(evs, Signal(n));
            && |log.callers| == waits && |log.granted| == Min(waits, value + signals)
            && log.granted <= log.callers
            && Run(s0, evs).sems[n].counter == value + signals - |log.granted|
  {
    hide Inv, Run, LogOf, Legal, Open, Fits, SemInit, Min, Count;
    SemInitInv(s, n, value);
    InitStarts(s, n, value);
    SemaphoreLaw(SemInit(s, n, value).0, evs, n);
  }

  lemma InitStarts(s: Procs, n: nat, value: nat)
    requires Shape(s) && n < NR_SEMS && SemInit(s, n, value).1 == Returns(0)
    ensures var s0 := SemInit(s, n, value).0; s0.sems[n] == Sem(Int32(value), Cur(s).pid) && Waiters(s0, n) == []
    ensures -TWO_31 <= Int32(value) < TWO_31 && (value < TWO_31 ==> Int32(value) == value)
  {
  }

  // Whatever the value, a run after a successful sem_init obeys the law all along if and only if
  // no signal overflows the counter, and none wakes a waiter while it is negative, as it can be
  // only if the value is 2^31 or more.
  lemma RunsFromInitExactly(s: Procs, n: nat, value: nat, evs: seq<Event>)
    requires Shape(s) && Inv(s) && s.current != s.idle && n < NR_SEMS && SemInit(s, n, value).1 == Returns(0)
    requires var s0 := SemInit(s, n, value).0; Legal(s0, evs) && Open(s0, evs, n)
    ensures var s0 := SemInit(s, n, value).0;
            && (ObeysAllAlong(s0, evs, n) <==> Fits(s0, evs, n) && NeverOverdrawn(s0, evs, n))
            && (value < TWO_31 ==> (ObeysAllAlong(s0, evs, n) <==> Fits(s0, evs, n)))
  {
    hide Inv, Run, LogOf, Legal, Open, Fits, NeverOverdrawn, ObeysAllAlong, SemInit;
    SemInitInv(s, n, value);
    InitStarts(s, n, value);
    LawAllAlong(SemInit(s, n, value).0, evs, n);
    if value < TWO_31 { LawAllAlongExactly(SemInit(s, n, value).0, evs, n); }
  }

  // Every run in which no signal overflows the counter obeys the law.
  ghost predicate LawHolds(s: Procs, n: nat)
    requires Shape(s) && n < NR_SEMS
  {
    forall evs :: Legal(s, evs) && Open(s, evs, n) && Fits(s, evs, n) ==> Obeys(s, evs, n)
  }

  // Every run does.
  ghost predicate LawHoldsAlways(s: Procs, n: nat)
    requires Shape(s) && n < NR_SEMS
  {
    forall evs :: Legal(s, evs) && Open(s, evs, n) ==> Obeys(s, evs, n)
  }

  // The run has kept to the semaphore and to its range, and a user task runs at its end.
  ghost predicate Keeps(s: Procs, evs: seq<Event>, n: nat)
    requires Shape(s) && n < NR_SEMS
  {
    Legal(s, evs) && Open(s, evs, n) && Fits(s, evs, n) && Run(s, evs).current != Run(s, evs).idle
  }

  // If the running task is inside sem_wait, it resumes first; that is all that changes.
  lemma Settle(s: Procs, evs: seq<Event>, n: nat) returns (more: seq<Event>)
    requires Shape(s) && Inv(s) && n < NR_SEMS && Keeps(s, evs, n)
    ensures Keeps(s, more, n) && LogOf(s, more, n) == LogOf(s, evs, n) && Inv(Run(s, more))
    ensures var s1 := Run(s, evs); var s2 := Run(s, more);
            && s2.queues == s1.queues && s2.sems == s1.sems && s2.current == s1.current && s2.idle == s1.idle
            && Cur(s2).waiting < 0
  {
    hide Inv, Run, Legal, Open, LogOf;
    RunInv(s, evs);
    if Cur(Run(s, evs)).waiting < 0 {
      more := evs;
    } else {
      more := evs + [Resume];
      Extended(s, evs, Resume, n);
      EmptyIsOpen(s, evs, n);
      RunInv(s, more);
    }
  }

  lemma EmptyIsOpen(s: Procs, evs: seq<Event>, n: nat)
    requires Shape(s) && n < NR_SEMS && Open(s, evs, n)
    ensures Run(s, evs).sems[n].owner != -1
  {
    assert evs[..|evs|] == evs;
  }

  lemma BlockFacts(s: Procs, n: nat, log: Log)
    requires Inv(s) && n < NR_SEMS && s.sems[n].owner != -1 && Waiters(s, n) == []
    requires s.current != s.idle && Cur(s).waiting < 0 && s.queues[READY] != [] && s.sems[n].counter <= 0
    ensures var s' := Step(s, Wait(n)).0;
            && Enabled(s, Wait(n)) && s'.sems == s.sems && Waiters(s', n) == [s.current] && s'.current != s'.idle
            && Observe(log, s, Wait(n), n) == log.(callers := log.callers + [s.current])
  {
    ReadyNotCurrent(s, s.queues[READY][0]);
    assert log.granted + [] == log.granted;
  }

  lemma SignalFacts(s: Procs, n: nat, p: TaskId, log: Log)
    requires Shape(s) && n < NR_SEMS && s.sems[n].owner != -1 && Waiters(s, n) == [p]
    requires s.current != s.idle && Cur(s).waiting < 0
    ensures var s' := Step(s, Signal(n)).0;
            && Enabled(s, Signal(n)) && s'.sems == s.sems
            && Observe(log, s, Signal(n), n) == log.(granted := log.granted + [p], signals := log.signals + 1)
  {
    assert Waiters(s, n)[..1] == [p];
  }

  // The running task calls for another to be made ready.
  lemma AddReady(s: Procs, evs: seq<Event>, e: Event, n: nat)
    requires Shape(s) && Inv(s) && n < NR_SEMS && Keeps(s, evs, n) && Cur(Run(s, evs)).waiting < 0
    requires s.sems[n].owner != -1 && Waiters(Run(s, evs), n) == []
    requires var s1 := Run(s, evs);
             if e.DoClone? then s1.queues[FREE] != [] && CloneArgsOk(e.function_, e.stack)
             else e.Signal? && 0 <= e.n < NR_SEMS && Waiters(s1, e.n) != []
    ensures var s1 := Run(s, evs); var s2 := Run(s, evs + [e]);
            && Keeps(s, evs + [e], n) && LogOf(s, evs + [e], n) == LogOf(s, evs, n) && Inv(s2)
            && s2.queues[READY] != [] && s2.sems == s1.sems && Waiters(s2, n) == [] && s2.current == s1.current
            && Cur(s2).waiting < 0
  {
    hide Inv, Run, Legal, LogOf, Open;
    var s1 := Run(s, evs);
    RunInv(s, evs);
    EmptyIsOpen(s, evs, n);
    Extended(s, evs, e, n);
    if e.DoClone? { CloneMakesReady(s1, e, n); } else { SignalMakesReady(s1, e.n, n); }
    hide Step;
    RunInv(s, evs + [e]);
  }

  lemma CloneMakesReady(s: Procs, e: Event, n: nat)
    requires Shape(s) && Inv(s) && s.current != s.idle && Cur(s).waiting < 0 && n < NR_SEMS && Waiters(s, n) == []
    requires e.DoClone? && s.queues[FREE] != [] && CloneArgsOk(e.function_, e.stack)
    ensures var s' := Step(s, e).0;
            && Enabled(s, e) && s'.queues[READY] != [] && s'.sems == s.sems && Waiters(s', n) == []
            && s'.current == s.current && s'.idle == s.idle && Cur(s').waiting < 0
  {
    CloneRing(s, e.function_, e.stack);
  }

  lemma SignalMakesReady(s: Procs, m: nat, n: nat)
    requires Shape(s) && Inv(s) && s.current != s.idle && Cur(s).waiting < 0 && n < NR_SEMS && Waiters(s, n) == []
    requires m < NR_SEMS && Waiters(s, m) != []
    ensures var s' := Step(s, Signal(m)).0;
            && Enabled(s, Signal(m)) && s'.queues[READY] != [] && s'.sems == s.sems && Waiters(s', n) == []
            && s'.current == s.current && s'.idle == s.idle && Cur(s').waiting < 0
  {
    WaitersHaveSemaphore(s, m);
    WakeInv(s, m, false);
  }

  // It can always do so: a clone if there is a free PCB, else a signal to a semaphore with waiters.
  lemma MakeReady(s: Procs, evs: seq<Event>, n: nat) returns (more: seq<Event>)
    requires Shape(s) && Inv(s) && n < NR_SEMS && Keeps(s, evs, n) && Cur(Run(s, evs)).waiting < 0
    requires s.sems[n].owner != -1 && Waiters(Run(s, evs), n) == []
    ensures var s1 := Run(s, evs); var s2 := Run(s, more);
            && Keeps(s, more, n) && LogOf(s, more, n) == LogOf(s, evs, n) && Inv(s2)
            && s2.queues[READY] != [] && s2.sems == s1.sems && Waiters(s2, n) == [] && s2.current == s1.current
            && Cur(s2).waiting < 0
  {
    hide Inv, Run, LogOf, Open;
    var s1 := Run(s, evs);
    RunInv(s, evs);
    SomeoneElse(s1);
    var r :| 0 <= r < NR_QUEUES && s1.queues[r] != [];
    if r == READY {
      more := evs;
    } else {
      var e := if r == FREE then DoClone(L_USER_START, PAG_LOG_INIT_DATA * PAGE_SIZE) else Signal(r - 2);
      AddReady(s, evs, e, n);
      more := evs + [e];
    }
  }

  // The caller blocks.
  lemma BlockedRun(s: Procs, n: nat) returns (evs: seq<Event>, p: TaskId)
    requires Shape(s) && Inv(s) && n < NR_SEMS && s.sems[n].owner != -1 && Waiters(s, n) == []
    requires s.current != s.idle && s.sems[n].counter < 0
    ensures Keeps(s, evs, n) && LogOf(s, evs, n) == Log([p], [], 0)
    ensures Run(s, evs).sems == s.sems && Waiters(Run(s, evs), n) == [p]
  {
    EmptyRun(s, n);
    hide Inv, Run, Legal, LogOf, Open, Step, Observe, Enabled;
    var settled := Settle(s, [], n);
    var before := MakeReady(s, settled, n);
    p := s.current;
    evs := before + [Wait(n)];
    BlockFacts(Run(s, before), n, Log([], [], 0));
    Extended(s, before, Wait(n), n);
    assert [] + [p] == [p];
  }

  // A negative counter (sem_init with a value of 2^31 or more) breaks it: the caller sees to it
  // that another task is ready and blocks, that task signals, and the caller is granted a unit there is not.
  lemma NegativeCounterBreaks(s: Procs, n: nat) returns (evs: seq<Event>)
    requires Shape(s) && Inv(s) && n < NR_SEMS && s.sems[n].owner != -1 && Waiters(s, n) == []
    requires s.current != s.idle && s.sems[n].counter < 0
    ensures Legal(s, evs) && Open(s, evs, n) && Fits(s, evs, n)
    ensures |LogOf(s, evs, n).granted| == 1 && !Obeys(s, evs, n)
  {
    hide Inv, Run, Legal, LogOf, Open, Step, Observe, Enabled, Obeys;
    var blocked, p := BlockedRun(s, n);
    var resumed := Settle(s, blocked, n);
    evs := resumed + [Signal(n)];
    SignalFacts(Run(s, resumed), n, p, Log([p], [], 0));
    Extended(s, resumed, Signal(n), n);
    assert [] + [p] == [p];
    UnitFromNowhere(s, evs, n, p);
  }

  lemma UnitFromNowhere(s: Procs, evs: seq<Event>, n: nat, p: TaskId)
    requires Shape(s) && n < NR_SEMS && s.sems[n].counter < 0 && LogOf(s, evs, n) == Log([p], [p], 1)
    ensures !Obeys(s, evs, n)
  {
    LogCounts(s, evs, n);
    hide LogOf, Run, Count;
  }

  lemma EmptyRun(s: Procs, n: nat)
    requires Shape(s) && n < NR_SEMS
    ensures Run(s, []) == s && Legal(s, []) && LogOf(s, [], n) == Log([], [], 0) && Fits(s, [], n)
    ensures s.sems[n].owner != -1 ==> Open(s, [], n)
  {
    assert forall evs: seq<Event> :: evs == [] ==> evs[..0] == [];
  }

  // When idle runs, nothing but ticks can happen.
  lemma {:induction false} IdleForever(s: Procs, evs: seq<Event>, n: nat)
    requires Shape(s) && Inv(s) && s.current == s.idle && Legal(s, evs) && n < NR_SEMS
    ensures var s' := Run(s, evs);
            s'.current == s'.idle && s'.queues == s.queues && s'.sems == s.sems && LogOf(s, evs, n) == Log([], [], 0)
  {
    if evs != [] {
      var k := |evs| - 1;
      IdleForever(s, evs[..k], n);
      RunInv(s, evs[..k]);
      IdleTicks(Run(s, evs[..k]), evs[k], n);
    }
  }

  lemma IdleTicks(s: Procs, e: Event, n: nat)
    requires Shape(s) && Inv(s) && s.current == s.idle && Enabled(s, e) && n < NR_SEMS
    ensures var s' := Step(s, e).0; s'.current == s'.idle && s'.queues == s.queues && s'.sems == s.sems
    ensures forall log :: Observe(log, s, e, n) == log
  {
  }

  // So the law holds of every run that fits exactly when the counter starts non-negative, or no
  // task runs that could call anything.
  lemma LawHoldsExactly(s: Procs, n: nat)
    requires Shape(s) && Inv(s) && n < NR_SEMS && s.sems[n].owner != -1 && Waiters(s, n) == []
    ensures LawHolds(s, n) <==> s.sems[n].counter >= 0 || s.current == s.idle
  {
    hide Inv, Run, Legal, LogOf, Open;
    if s.sems[n].counter < 0 && s.current != s.idle {
      var evs := NegativeCounterBreaks(s, n);
    } else {
      forall evs | Legal(s, evs) && Open(s, evs, n) && Fits(s, evs, n)
        ensures Obeys(s, evs, n)
      {
        if s.sems[n].counter >= 0 {
          SemaphoreLaw(s, evs, n);
        } else {
          IdleForever(s, evs, n);
          IdleObeys(s, evs, n);
        }
      }
    }
  }

  // In terms of sem_init: after one that returns 0 the law holds of every run that fits exactly
  // when the value does.
  lemma LawFromInitExactly(s: Procs, n: nat, value: nat)
    requires Shape(s) && Inv(s) && n < NR_SEMS && Enabled(s, Init(n, value)) && SemInit(s, n, value).1 == Returns(0)
    ensures LawHolds(SemInit(s, n, value).0, n) <==> value < TWO_31
  {
    CurrentOwns(s);
    hide Inv, LawHolds;
    SemInitInv(s, n, value);
    LawHoldsExactly(SemInit(s, n, value).0, n);
  }

  // The first call after boot can break it.
  lemma BootBreaksLaw()
    ensures Enabled(Boot(), Init(0, TWO_31)) && SemInit(Boot(), 0, TWO_31).1 == Returns(0)
    ensures !LawHolds(SemInit(Boot(), 0, TWO_31).0, 0)
  {
    BootInv();
    hide Inv, LawHolds;
    LawFromInitExactly(Boot(), 0, TWO_31);
  }

  // k signals in a row.
  function Signals(n: nat, k: nat): (evs: seq<Event>)
    ensures |evs| == k
  {
    if k == 0 then [] else Signals(n, k - 1) + [Signal(n)]
  }

  // While nobody waits they bring the counter up by k, in 32 bits, and grant nothing.
  lemma {:induction false} SignalsRaise(s: Procs, before: seq<Event>, n: nat, k: nat)
    requires Shape(s) && Inv(s) && n < NR_SEMS && Legal(s, before) && Open(s, before, n)
    requires var s1 := Run(s, before);
             && s1.current != s1.idle && Cur(s1).waiting < 0 && Waiters(s1, n) == []
             && 0 <= s1.sems[n].counter < TWO_31 && s1.sems[n].counter + k <= TWO_31
    ensures var s1 := Run(s, before); var evs := before + Signals(n, k); var log := LogOf(s, before, n);
            && Legal(s, evs) && Open(s, evs, n)
            && Run(s, evs) == s1.(sems := s1.sems[n := s1.sems[n].(counter := Int32(s1.sems[n].counter + k))])
            && LogOf(s, evs, n) == log.(signals := log.signals + k)
  {
    hide Inv, Run, Legal, LogOf, Open, Fits, Step, Observe, Enabled;
    EmptyIsOpen(s, before, n);
    if k == 0 {
      assert before + Signals(n, 0) == before;
      assert Run(s, before).sems[n := Run(s, before).sems[n]] == Run(s, before).sems;
    } else {
      SignalsRaise(s, before, n, k - 1);
      var evs := before + Signals(n, k - 1);
      assert evs + [Signal(n)] == before + Signals(n, k);
      Extended(s, evs, Signal(n), n);
      OneSignal(Run(s, evs), n, LogOf(s, evs, n));
    }
  }

  lemma OneSignal(s: Procs, n: nat, log: Log)
    requires Shape(s) && n < NR_SEMS && s.current != s.idle && Cur(s).waiting < 0
    requires s.sems[n].owner != -1 && Waiters(s, n) == []
    ensures Enabled(s, Signal(n))
    ensures Step(s, Signal(n)).0 == s.(sems := s.sems[n := s.sems[n].(counter := Int32(s.sems[n].counter + 1))])
    ensures Observe(log, s, Signal(n), n) == log.(signals := log.signals + 1)
  {
    assert log.granted + [] == log.granted;
  }

  // So from any counter there is a run that overflows it and breaks the law.
  lemma OverflowBreaks(s: Procs, n: nat) returns (evs: seq<Event>)
    requires Shape(s) && Inv(s) && n < NR_SEMS && s.sems[n].owner != -1 && Waiters(s, n) == []
    requires s.current != s.idle && 0 <= s.sems[n].counter < TWO_31
    ensures Legal(s, evs) && Open(s, evs, n) && Run(s, evs).sems[n].counter == -TWO_31 && !Obeys(s, evs, n)
  {
    EmptyRun(s, n);
    hide *;
    var before := Settle(s, [], n);
    evs := SignalsUpToWrap(s, before, n);
    WrappedBreaks(s, evs, n);
  }

  lemma SignalsUpToWrap(s: Procs, before: seq<Event>, n: nat) returns (evs: seq<Event>)
    requires Shape(s) && Inv(s) && n < NR_SEMS && Legal(s, before) && Open(s, before, n)
    requires var s1 := Run(s, before);
             && s1.current != s1.idle && Cur(s1).waiting < 0 && Waiters(s1, n) == []
             && 0 <= s1.sems[n].counter < TWO_31
    ensures Legal(s, evs) && Open(s, evs, n) && Run(s, evs).sems[n].counter == -TWO_31
    ensures LogOf(s, evs, n).granted == LogOf(s, before, n).granted
  {
    hide Inv, Run, Legal, LogOf, Open, Signals;
    var k := TWO_31 - Run(s, before).sems[n].counter;
    SignalsRaise(s, before, n, k);
    evs := before + Signals(n, k);
  }

  lemma WrappedBreaks(s: Procs, evs: seq<Event>, n: nat)
    requires Shape(s) && n < NR_SEMS && s.sems[n].counter >= 0
    requires Run(s, evs).sems[n].counter == -TWO_31 && LogOf(s, evs, n).granted == []
    ensures !Obeys(s, evs, n)
  {
    LogCounts(s, evs, n);
    hide Run, LogOf, Count;
  }

  // No counter is safe from every run: the law holds of all of them only if idle runs.
  lemma LawHoldsAlwaysExactly(s: Procs, n: nat)
    requires Shape(s) && Inv(s) && n < NR_SEMS && s.sems[n].owner != -1 && Waiters(s, n) == []
    requires s.sems[n].counter < TWO_31
    ensures LawHoldsAlways(s, n) <==> s.current == s.idle
  {
    hide Inv, Run, Legal, LogOf, Open, Fits, Obeys;
    if s.current != s.idle {
      if s.sems[n].counter < 0 {
        var evs := NegativeCounterBreaks(s, n);
      } else {
        var evs := OverflowBreaks(s, n);
      }
    } else {
      forall evs | Legal(s, evs) && Open(s, evs, n) ensures Obeys(s, evs, n) {
        IdleForever(s, evs, n);
        IdleObeys(s, evs, n);
      }
    }
  }

  // So there is no value with which sem_init makes it hold of all runs.
  lemma NoInitHoldsAlways(s: Procs, n: nat, value: nat)
    requires Shape(s) && Inv(s) && n < NR_SEMS && Enabled(s, Init(n, value)) && SemInit(s, n, value).1 == Returns(0)
    ensures !LawHoldsAlways(SemInit(s, n, value).0, n)
  {
    CurrentOwns(s);
    hide Inv, LawHoldsAlways;
    SemInitInv(s, n, value);
    InitStarts(s, n, value);
    LawHoldsAlwaysExactly(SemInit(s, n, value).0, n);
  }

  lemma IdleObeys(s: Procs, evs: seq<Event>, n: nat)
    requires Shape(s) && n < NR_SEMS && Waiters(s, n) == [] && LogOf(s, evs, n) == Log([], [], 0)
    requires Run(s, evs).queues == s.queues && Run(s, evs).sems == s.sems
    ensures Obeys(s, evs, n)
  {
    LogCounts(s, evs, n);
    hide LogOf, Run, Count;
  }

  // After boot two calls are enough: sem_init with the largest int, and a signal.
  lemma FullCounterBreaks()
    ensures Enabled(Boot(), Init(0, TWO_31 - 1)) && SemInit(Boot(), 0, TWO_31 - 1).1 == Returns(0)
    ensures var s0 := SemInit(Boot(), 0, TWO_31 - 1).0; var evs := [Signal(0)];
            && LawHolds(s0, 0) && Legal(s0, evs) && Open(s0, evs, 0) && !Fits(s0, evs, 0)
            && Run(s0, evs).sems[0].counter == -TWO_31 && !Obeys(s0, evs, 0)
  {
    BootInv();
    var s0 := SemInit(Boot(), 0, TWO_31 - 1).0;
    CurrentOwns(Boot());
    InitStarts(Boot(), 0, TWO_31 - 1);
    EmptyRun(s0, 0);
    assert Cur(s0).waiting < 0 && s0.current != s0.idle;
    hide Inv, Run, Legal, LogOf, Open, Fits, LawHolds, SemInit, Boot;
    LawFromInitExactly(Boot(), 0, TWO_31 - 1);
    OneSignal(s0, 0, Log([], [], 0));
    Extended(s0, [], Signal(0), 0);
    assert [] + [Signal(0)] == [Signal(0)];
  }

  /* What releases a blocked wait */

  predicate ClosesFor(s: Procs, e: Event, n: nat)
    requires Shape(s) && n < NR_SEMS
  {
    (e == Destroy(n) || e == DoExit) && s.sems[n].owner == Cur(s).pid
  }

  // p has been released from sem_wait but has not returned from it yet.
  predicate Pending(s: Procs, p: TaskId)
    requires Shape(s)
  {
    s.tasks[p].waiting >= 0 && (p in s.queues[READY] || p == s.current)
  }

  lemma SchedNextPending(s: Procs, p: TaskId)
    requires Shape(s) && p in s.queues[READY] && NoDup(s.queues[READY]) && s.tasks[p].waiting >= 0
    ensures Pending(SchedNext(s), p)
    ensures SchedNext(s).tasks[p].semDestroyed == s.tasks[p].semDestroyed
  {
    TailMembers(s.queues[READY]);
  }

  // An open semaphore is closed by its owner's destroy or exit and by nothing else.
  lemma OwnerStep(s: Procs, e: Event, n: nat)
    requires Shape(s) && Inv(s) && Enabled(s, e) && n < NR_SEMS && s.sems[n].owner != -1
    ensures Step(s, e).0.sems[n].owner == if ClosesFor(s, e, n) then -1 else s.sems[n].owner
  {
    hide Inv, Close, CloseOwned, SameBooks, FreeDir;
    match e
    case Destroy(m) => if 0 <= m < NR_SEMS { CloseInv(s, m); }
    case DoExit => CloseOwnedInv(s, NR_SEMS);
    case _ =>
  }

  // Only a signal or a close takes tasks off an open wait queue; blocking adds one at the end.
  lemma WaitKeepsWaiters(s: Procs, n: nat)
    requires Inv(s) && n < NR_SEMS
    ensures Waiters(s, n) <= Waiters(SemWait(s, n).0, n)
  {
  }

  lemma FreedEvicts(s: Procs, n: nat, p: TaskId)
    requires Inv(s) && s.current != s.idle && n < NR_SEMS && s.sems[n].owner == Cur(s).pid
    requires p in Waiters(s, n)
    ensures Pending(Exit(s), p) && Exit(s).tasks[p].semDestroyed
  {
    WaiterOnly(s, n, p);
    CloseOwnedFate(s, NR_SEMS, n);
    CloseOwnedInv(s, NR_SEMS);
    SchedNextPending(Freed(s), p);
  }

  // The step that takes p off the wait queue of n is a signal, or closes n; only the latter
  // marks p.
  lemma ReleaseStep(s: Procs, e: Event, n: nat, p: TaskId)
    requires Shape(s) && Inv(s) && Enabled(s, e) && n < NR_SEMS
    requires p in Waiters(s, n) && p !in Waiters(Step(s, e).0, n)
    ensures var s' := Step(s, e).0;
            && Pending(s', p) && (e == Signal(n) || ClosesFor(s, e, n))
            && (s'.tasks[p].semDestroyed <==> ClosesFor(s, e, n))
            && !(e == Signal(n) && ClosesFor(s, e, n))
  {
    WaiterOnly(s, n, p);
    OwnerStep(s, e, n);
    CurrentOwns(s);
    hide Inv;
    if ClosesFor(s, e, n) {
      if e == DoExit { FreedEvicts(s, n, p); } else { CloseEvicts(s, n); }
    } else if e == Wait(n) {
      WaitKeepsWaiters(s, n);
    } else if e == Signal(n) {
      assert p == Waiters(s, n)[0];
    } else {
      OtherStepUntouched(s, e, n);
    }
  }

  lemma CurrentOwns(s: Procs)
    requires Inv(s)
    ensures s.current != s.idle ==> Cur(s).pid != -1
  {
    if s.current != s.idle { CurrentPid(s); }
  }

  // Until it resumes, a released task keeps its mark.
  lemma PendingStep(s: Procs, e: Event, p: TaskId)
    requires Inv(s) && Enabled(s, e) && Pending(s, p) && !(e.Resume? && s.current == p)
    ensures Pending(Step(s, e).0, p)
    ensures Step(s, e).0.tasks[p].semDestroyed == s.tasks[p].semDestroyed
  {
    if p in s.queues[READY] {
      ReadyStep(s, e, p);
    } else {
      assert e == ClockTick;
      if s.leftTicks == 1 && p != s.idle {
        TickInv(s);
        SchedNextPending(Park(s.(leftTicks := 0), READY, StReady), p);
      }
    }
  }

  // p is released by step i and has not resumed before step j.
  ghost predicate HeldBetween(s: Procs, evs: seq<Event>, i: nat, j: nat, p: TaskId)
    requires Shape(s)
  {
    forall k :: i < k < j && k < |evs| ==> !(evs[k].Resume? && Run(s, evs[..k]).current == p)
  }

  lemma {:induction false} LegalPrefix(s: Procs, evs: seq<Event>, k: nat)
    requires Shape(s) && Legal(s, evs) && k <= |evs|
    ensures Legal(s, evs[..k])
    ensures k < |evs| ==> Enabled(Run(s, evs[..k]), evs[k]) &&
                          Run(s, evs[..k + 1]) == Step(Run(s, evs[..k]), evs[k]).0
    decreases |evs| - k
  {
    if k < |evs| {
      assert evs[..k + 1][..k] == evs[..k];
      if k + 1 < |evs| { LegalPrefix(s, evs, k + 1); } else { assert evs[..k + 1] == evs; }
    } else {
      assert evs[..k] == evs;
    }
  }

  lemma {:induction false} PendingRun(s: Procs, evs: seq<Event>, i: nat, j: nat, p: TaskId)
    requires Shape(s) && Inv(s) && Legal(s, evs) && i < j <= |evs| && HeldBetween(s, evs, i, j, p)
    requires Pending(Run(s, evs[..i + 1]), p)
    ensures Pending(Run(s, evs[..j]), p)
    ensures Run(s, evs[..j]).tasks[p].semDestroyed == Run(s, evs[..i + 1]).tasks[p].semDestroyed
    decreases j
  {
    hide Inv, Pending, Enabled, Step;
    if j > i + 1 {
      assert HeldBetween(s, evs, i, j - 1, p);
      PendingRun(s, evs, i, j - 1, p);
      LegalPrefix(s, evs, j - 1);
      RunInv(s, evs[..j - 1]);
      PendingStep(Run(s, evs[..j - 1]), evs[j - 1], p);
    }
  }

  // A wait that blocked returns 0 exactly when a signal released it and -EINVAL exactly when
  // a destroy, or the exit of the owner, did; in any run, whatever happens in between.
  lemma WaitOutcome(s: Procs, evs: seq<Event>, n: nat, i: nat, j: nat, p: TaskId)
    requires Shape(s) && Inv(s) && Legal(s, evs) && n < NR_SEMS && i < j < |evs|
    requires p in Waiters(Run(s, evs[..i]), n) && p !in Waiters(Run(s, evs[..i + 1]), n)
    requires HeldBetween(s, evs, i, j, p)
    requires evs[j].Resume? && Run(s, evs[..j]).current == p
    ensures var result := Step(Run(s, evs[..j]), evs[j]).1;
            && (result == Returns(0) <==> evs[i] == Signal(n))
            && (result == Returns(-EINVAL) <==> ClosesFor(Run(s, evs[..i]), evs[i], n))
            && (result == Returns(0) || result == Returns(-EINVAL))
  {
    hide Inv, Legal, Enabled, Step, Run, Pending, ClosesFor;
    LegalPrefix(s, evs, i);
    RunInv(s, evs[..i]);
    ReleaseStep(Run(s, evs[..i]), evs[i], n, p);
    PendingRun(s, evs, i, j, p);
    ResumeOutcome(Run(s, evs[..j]));
  }

  lemma ResumeOutcome(s: Procs)
    requires Shape(s)
    ensures Step(s, Resume).1 == Returns(if Cur(s).semDestroyed then -EINVAL else 0)
  {
  }
}
