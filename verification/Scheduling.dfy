// Round robin: a ready task is dispatched within a bound read off the state, whatever the
// tasks ahead of it do.
module Scheduling {
  import opened Layout
  import opened Queues
  import opened Processes
  import opened ProcessInvariants
  import opened ProcessSteps

  // The quanta of the tasks before p on a queue.
  function Ahead(tasks: seq<Pcb>, q: seq<TaskId>, p: TaskId): nat
    requires |tasks| == NR_TASKS
  {
    if q == [] || q[0] == p then 0 else tasks[q[0]].quantum + Ahead(tasks, q[1..], p)
  }

  // How many more ticks p may have to wait.
  function Delay(s: Procs, p: TaskId): nat
    requires Shape(s)
  {
    s.leftTicks + Ahead(s.tasks, s.queues[READY], p)
  }

  // No task has left the ready queue or overtaken another, and none of its PCBs has changed.
  ghost predicate Extends(s: Procs, s': Procs)
    requires Shape(s) && Shape(s')
  {
    && s.queues[READY] <= s'.queues[READY] && s'.leftTicks == s.leftTicks
    && s'.current == s.current
    && (forall x: TaskId :: x in s.queues[READY] ==> s'.tasks[x] == s.tasks[x])
  }

  lemma {:induction false} AheadFrame(tasks: seq<Pcb>, tasks': seq<Pcb>, q: seq<TaskId>,
                                      more: seq<TaskId>, p: TaskId)
    requires |tasks| == |tasks'| == NR_TASKS && p in q
    requires forall x: TaskId :: x in q ==> tasks'[x].quantum == tasks[x].quantum
    ensures Ahead(tasks', q + more, p) == Ahead(tasks, q, p)
  {
    if q[0] != p {
      assert (q + more)[1..] == q[1..] + more;
      AheadFrame(tasks, tasks', q[1..], more, p);
    }
  }

  lemma ExtendsDelay(s: Procs, s': Procs, p: TaskId)
    requires Shape(s) && Shape(s') && Extends(s, s') && p in s.queues[READY]
    ensures p in s'.queues[READY] && Delay(s', p) == Delay(s, p)
  {
    var q := s.queues[READY];
    var more := s'.queues[READY][|q|..];
    assert s'.queues[READY] == q + more;
    AheadFrame(s.tasks, s'.tasks, q, more, p);
  }

  // Dispatching runs p or brings it one task closer.
  lemma SchedNextDelay(s: Procs, p: TaskId)
    requires Shape(s) && NoDup(s.queues[READY]) && p in s.queues[READY]
    ensures var s' := SchedNext(s);
            && s'.tasks[p] == s.tasks[p].(state := s'.tasks[p].state)
            && (s'.current == p ||
                (p in s'.queues[READY] && Delay(s', p) == Ahead(s.tasks, s.queues[READY], p)))
  {
    var q := s.queues[READY];
    if q[0] != p {
      assert q == [q[0]] + q[1..];
      AheadFrame(s.tasks, SchedNext(s).tasks, q[1..], [], p);
      assert q[1..] + [] == q[1..];
    }
  }

  lemma ReadyNotCurrent(s: Procs, p: TaskId)
    requires Inv(s) && p in s.queues[READY]
    ensures p != s.current && p != s.idle && s.current != s.idle && s.leftTicks >= 1
    ensures p !in s.queues[FREE] && NoDup(s.queues[READY])
    ensures forall n :: 0 <= n < NR_SEMS ==> p !in s.queues[SemQueue(n)]
  {
    OffRingNotQueued(s, s.current);
    OffRingNotQueued(s, s.idle);
  }

  /* Each step */

  lemma WakeExtends(s: Procs, n: nat, mark: bool)
    requires Inv(s) && n < NR_SEMS && s.queues[SemQueue(n)] != []
    ensures Extends(s, Wake(s, n, mark))
  {
    var p := s.queues[SemQueue(n)][0];
    assert p in s.queues[SemQueue(n)];
    assert p !in s.queues[READY];
  }

  lemma {:induction false} DrainExtends(s: Procs, n: nat)
    requires Inv(s) && s.current != s.idle && n < NR_SEMS
    ensures Extends(s, Drain(s, n))
    decreases |s.queues[SemQueue(n)]|
  {
    if s.queues[SemQueue(n)] != [] {
      assert Evict(s, n) == Wake(s, n, true);
      WakeInv(s, n, true);
      WakeExtends(s, n, true);
      DrainExtends(Evict(s, n), n);
    }
  }

  lemma CloseIfOwnedExtends(s: Procs, n: nat)
    requires Inv(s) && s.current != s.idle && n < NR_SEMS
    ensures Extends(s, CloseIfOwned(s, n))
  {
    DrainExtends(s, n);
  }

  lemma {:induction false} CloseOwnedExtends(s: Procs, n: nat)
    requires Shape(s) && Inv(s) && s.current != s.idle && n <= NR_SEMS
    ensures Extends(s, CloseOwned(s, n))
  {
    hide Inv;
    hide CloseIfOwned;
    if n > 0 {
      CloseOwnedExtends(s, n - 1);
      CloseOwnedInv(s, n - 1);
      CloseIfOwnedExtends(CloseOwned(s, n - 1), n - 1);
    }
  }

  lemma NewTaskExtends(s: Procs, e: Event)
    requires Inv(s) && Enabled(s, e) && (e.DoClone? || e.DoFork?)
    ensures Extends(s, Step(s, e).0)
  {
    if s.queues[FREE] != [] {
      assert s.queues[FREE][0] in s.queues[FREE];
      assert s.queues[FREE][0] !in s.queues[READY];
    }
  }

  predicate Switches(s: Procs, e: Event)
    requires Shape(s)
  {
    || e.DoExit?
    || (e.Wait? && 0 <= e.n < NR_SEMS && s.sems[e.n].owner != -1 && s.sems[e.n].counter <= 0)
    || e.ClockTick?
  }

  lemma QuietStepExtends(s: Procs, e: Event)
    requires Inv(s) && Enabled(s, e) && !Switches(s, e)
    ensures Extends(s, Step(s, e).0)
  {
    OffRingNotQueued(s, s.current);
    match e
    case Signal(n) =>
      if 0 <= n < NR_SEMS && s.queues[SemQueue(n)] != [] { WakeExtends(s, n, false); }
    case Destroy(n) => if 0 <= n < NR_SEMS { DrainExtends(s, n); }
    case DoClone(_, _) => NewTaskExtends(s, e);
    case DoFork(_) => NewTaskExtends(s, e);
    case _ =>
  }

  lemma ExitDelay(s: Procs, p: TaskId)
    requires Inv(s) && s.current != s.idle && p in s.queues[READY]
    ensures var s' := Exit(s);
            && s'.tasks[p] == s.tasks[p].(state := s'.tasks[p].state)
            && (s'.current == p || (p in s'.queues[READY] && Delay(s', p) < Delay(s, p)))
  {
    ReadyNotCurrent(s, p);
    CloseOwnedExtends(s, NR_SEMS);
    CloseOwnedInv(s, NR_SEMS);
    var s1 := Freed(s);
    assert Extends(s, s1);
    ExtendsDelay(s, s1, p);
    SchedNextDelay(s1, p);
  }

  lemma BlockDelay(s: Procs, n: nat, p: TaskId)
    requires Inv(s) && s.current != s.idle && n < NR_SEMS && p in s.queues[READY]
    ensures var s' := Block(s, n);
            && s'.tasks[p] == s.tasks[p].(state := s'.tasks[p].state)
            && (s'.current == p || (p in s'.queues[READY] && Delay(s', p) < Delay(s, p)))
  {
    ReadyNotCurrent(s, p);
    var s1 := Park(SetTask(s, s.current, Cur(s).(waiting := n)), SemQueue(n), StBlocked);
    assert Extends(s, s1);
    ExtendsDelay(s, s1, p);
    SchedNextDelay(s1, p);
  }

  lemma TickDelay(s: Procs, p: TaskId)
    requires Inv(s) && p in s.queues[READY]
    ensures var s' := Tick(s);
            && s'.tasks[p] == s.tasks[p].(state := s'.tasks[p].state)
            && (s'.current == p || (p in s'.queues[READY] && Delay(s', p) == Delay(s, p) - 1))
  {
    ReadyNotCurrent(s, p);
    if s.leftTicks == 1 {
      var s1 := Park(s.(leftTicks := 0), READY, StReady);
      var q := s.queues[READY];
      AheadFrame(s.tasks, s1.tasks, q, [s.current], p);
      assert NoDup(s1.queues[READY]);
      SchedNextDelay(s1, p);
    }
  }

  // One step from the point of view of a ready task: it is dispatched, or it is still ready
  // and its delay has not grown, and a tick has brought it down by exactly one.
  lemma ReadyStep(s: Procs, e: Event, p: TaskId)
    requires Inv(s) && Enabled(s, e) && p in s.queues[READY]
    ensures var s' := Step(s, e).0;
            && s'.tasks[p] == s.tasks[p].(state := s'.tasks[p].state)
            && (s'.current == p ||
                (p in s'.queues[READY] &&
                 if e.ClockTick? then Delay(s', p) == Delay(s, p) - 1 else Delay(s', p) <= Delay(s, p)))
  {
    if !Switches(s, e) {
      QuietStepExtends(s, e);
      ExtendsDelay(s, Step(s, e).0, p);
    } else if e.DoExit? {
      ExitDelay(s, p);
    } else if e.Wait? {
      BlockDelay(s, e.n, p);
    } else {
      TickDelay(s, p);
    }
  }

  /* Whole runs */

  // How often an event occurs.
  function Count(evs: seq<Event>, e: Event): (k: nat) {
    if evs == [] then 0 else Count(evs[..|evs| - 1], e) + if evs[|evs| - 1] == e then 1 else 0
  }

  function Ticks(evs: seq<Event>): (k: nat) {
    Count(evs, ClockTick)
  }

  lemma CountOneMore(evs: seq<Event>, last: Event, e: Event)
    ensures Count([], e) == 0
    ensures Count(evs + [last], e) == Count(evs, e) + if last == e then 1 else 0
  {
    assert (evs + [last])[..|evs|] == evs;
  }

  ghost predicate Dispatched(s: Procs, evs: seq<Event>, p: TaskId)
    requires Shape(s)
  {
    exists k :: 0 <= k <= |evs| && Run(s, evs[..k]).current == p
  }

  lemma {:induction false} WaitingRun(s: Procs, evs: seq<Event>, p: TaskId)
    requires Inv(s) && Legal(s, evs) && p in s.queues[READY] && !Dispatched(s, evs, p)
    ensures p in Run(s, evs).queues[READY]
    ensures Delay(Run(s, evs), p) + Ticks(evs) <= Delay(s, p)
  {
    if evs != [] {
      var k := |evs| - 1;
      assert forall i :: 0 <= i <= k ==> evs[..k][..i] == evs[..i];
      assert !Dispatched(s, evs[..k], p);
      assert evs[..|evs|] == evs;
      WaitingRun(s, evs[..k], p);
      RunInv(s, evs[..k]);
      ReadyStep(Run(s, evs[..k]), evs[k], p);
    }
  }

  // Bounded waiting: in a run with Delay(s, p) ticks, p gets the processor.
  lemma BoundedWaiting(s: Procs, evs: seq<Event>, p: TaskId)
    requires Inv(s) && Legal(s, evs) && p in s.queues[READY] && Ticks(evs) >= Delay(s, p)
    ensures Dispatched(s, evs, p)
  {
    if !Dispatched(s, evs, p) {
      WaitingRun(s, evs, p);
      RunInv(s, evs);
      ReadyNotCurrent(Run(s, evs), p);
    }
  }

  lemma {:induction false} AheadBound(tasks: seq<Pcb>, q: seq<TaskId>, p: TaskId)
    requires |tasks| == NR_TASKS && p in q
    requires forall x: TaskId :: x in q ==> tasks[x].quantum <= 50
    ensures Ahead(tasks, q, p) <= 50 * (|q| - 1)
  {
    if q[0] != p { AheadBound(tasks, q[1..], p); }
  }

  // With ten PCBs and quanta of 50 the bound is never more than 400 ticks.
  lemma DelayAtMost400(s: Procs, p: TaskId)
    requires Inv(s) && p in s.queues[READY]
    ensures 1 <= Delay(s, p) <= 400
  {
    ReadyNotCurrent(s, p);
    var q := s.queues[READY];
    forall x: TaskId | x in q ensures s.tasks[x].quantum <= 50 { ReadyNotCurrent(s, x); }
    SpecialTasksInUse(s);
    AheadBound(s.tasks, q, p);
    RingSize(q);
    var ready := set x: TaskId | x in q;
    forall x: TaskId | x in ready ensures x !in {s.current, s.idle} { ReadyNotCurrent(s, x); }
    DisjointTasks(ready, {s.current, s.idle});
  }
}
